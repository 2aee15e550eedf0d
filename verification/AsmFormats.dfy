/** The assembler's conversions between integers, binary strings and digit arrays. */
module AsmFormats {
  import opened Bits
  import opened AsmBits

  const MIN_INT64 := -0x8000_0000_0000_0000

  // ---------------------------------------------------------------
  // fmt.Sprintf("%032b", v)
  // ---------------------------------------------------------------

  function Digits(n: nat): (s: seq<Bit01>)
    ensures FromBits(s) == n && |s| >= 1
    ensures n >= 2 ==> Pow2(|s| - 1) <= n
    ensures n < 2 ==> |s| == 1
  {
    if n < 2 then assert FromBits([n]) == n; [n]
    else
      var h := Digits(n / 2);
      assert (h + [n % 2])[..|h|] == h;
      h + [n % 2]
  }

  function Zeros(n: nat): (s: seq<Bit01>)
    ensures |s| == n
  {
    seq(n, i => 0)
  }

  function Padded(s: seq<Bit01>, width: nat): seq<Bit01> {
    if |s| < width then Zeros(width - |s|) + s else s
  }

  lemma {:induction false} ZerosValue(n: nat)
    ensures FromBits(Zeros(n)) == 0
  {
    if n == 0 {
    } else {
      ZerosValue(n - 1);
      assert Zeros(n)[..n - 1] == Zeros(n - 1);
    }
  }

  lemma PaddedValue(s: seq<Bit01>, width: nat)
    ensures FromBits(Padded(s, width)) == FromBits(s)
    ensures |Padded(s, width)| == if |s| < width then width else |s|
  {
    if |s| < width {
      ZerosValue(width - |s|);
      FromBitsConcat(Zeros(width - |s|), s);
    }
  }

  function Chars(s: seq<Bit01>): string {
    seq(|s|, i requires 0 <= i < |s| => if s[i] == 0 then '0' else '1')
  }

  /** A minus sign counts towards the width. */
  function FormatBinary(v: Int64): (s: string)
    ensures |s| >= 32
  {
    hide FromBits;
    if v >= 0 then
      PaddedValue(Digits(v), 32);
      Chars(Padded(Digits(v), 32))
    else
      var magnitude: int := 0 - v;
      PaddedValue(Digits(magnitude), 31);
      "-" + Chars(Padded(Digits(magnitude), 31))
  }

  /** Every character but '0' reads as a one. */
  function BitsOf(s: string): (r: seq<Bit01>)
    ensures |r| == |s|
  {
    seq(|s|, i requires 0 <= i < |s| => if s[i] == '0' then 0 else 1)
  }

  predicate BinaryString(s: string) {
    forall c :: c in s ==> c == '0' || c == '1'
  }

  lemma CharsBack(s: seq<Bit01>)
    ensures BitsOf(Chars(s)) == s && BinaryString(Chars(s))
  {
  }

  method BinaryStringToArray(value: string) returns (a: array<Bit01>)
    ensures fresh(a) && a[..] == BitsOf(value)
  {
    a := new Bit01[|value|];
    for i := 0 to |value|
      invariant forall k :: 0 <= k < i ==> a[k] == BitsOf(value)[k]
    {
      if value[i] == '0' {
        a[i] := 0;
      } else {
        a[i] := 1;
      }
    }
  }

  method BinaryArrayToString(binary: array<Bit01>, reverse: bool) returns (s: string)
    ensures s == Chars(if reverse then Reversed(binary[..]) else binary[..])
  {
    var b := new Bit01[binary.Length];
    for i := 0 to binary.Length
      invariant forall k :: 0 <= k < i ==> b[k] == binary[k]
    {
      b[i] := binary[i];
    }
    assert b[..] == binary[..];
    if reverse {
      ReverseArray(b);
    }
    s := "";
    for i := 0 to b.Length
      invariant s == Chars(b[..i])
    {
      s := s + [if b[i] == 0 then '0' else '1'];
      assert b[..i + 1][..i] == b[..i];
    }
    assert b[..b.Length] == b[..];
  }

  /** Go's -value, which overflows at the least integer. */
  function Negated(v: Int64): Int64 {
    if v == MIN_INT64 then v else 0 - v
  }

  /** The length of the string for v, and the number its digits denote. */
  function Width(v: Int64): (w: nat)
    ensures w >= 32
  {
    |FormatBinary(if v >= 0 then v else Negated(v))|
  }

  function Denoted(v: Int64): nat {
    if v >= 0 then v else Complemented(Width(v), FromBits(BitsOf(FormatBinary(Negated(v)))))
  }

  lemma FormatNonNegative(v: Int64)
    requires v >= 0
    ensures var s := FormatBinary(v);
      BinaryString(s) && FromBits(BitsOf(s)) == v && |s| == (if |Digits(v)| < 32 then 32 else |Digits(v)|)
  {
    hide FromBits;
    CharsBack(Padded(Digits(v), 32));
    PaddedValue(Digits(v), 32);
  }

  method IntToBinaryString(value: Int64) returns (s: string)
    ensures BinaryString(s) && |s| == Width(value) && FromBits(BitsOf(s)) == Denoted(value)
  {
    if value >= 0 {
      FormatNonNegative(value);
      s := FormatBinary(value);
    } else {
      hide FormatBinary, FromBits, Complemented;
      var v := FormatBinary(Negated(value));
      var binArr := BinaryStringToArray(v);
      TwosComplement(binArr);
      s := BinaryArrayToString(binArr, false);
      CharsBack(binArr[..]);
    }
  }

  method IntToBinaryArray(value: Int64) returns (a: array<Bit01>)
    ensures fresh(a) && a.Length == Width(value) && FromBits(a[..]) == Denoted(value)
  {
    hide Denoted, Width, FromBits;
    var s := IntToBinaryString(value);
    a := BinaryStringToArray(s);
  }

  // ---------------------------------------------------------------
  // When the result is the 32-bit two's complement
  // ---------------------------------------------------------------

  predicate InRange(v: Int64) {
    -0x1_0000_0000 < v < 0x1_0000_0000 && v != -0x8000_0000
  }

  lemma DigitCount(n: nat)
    ensures |Digits(n)| <= 32 <==> n < 0x1_0000_0000
  {
    hide FromBits;
    Pow2Of32();
    var l := |Digits(n)|;
    if l <= 32 {
      ValueBelow(Digits(n));
      Pow2Monotone(l, 32);
    } else if n >= 2 {
      Pow2Monotone(32, l - 1);
    }
  }

  lemma ValueBelow(s: seq<Bit01>)
    ensures FromBits(s) < Pow2(|s|)
  {
  }

  /** The string holds exactly 32 digits, and they are those of v modulo 2^32, if and only if v lies
      strictly between -2^32 and 2^32 and is not -2^31. */
  lemma TwosComplementBound(v: Int64)
    ensures Width(v) == 32 && Denoted(v) == Wrap(v) <==> InRange(v)
  {
    hide FromBits, Complemented;
    if v >= 0 {
      FormatNonNegative(v);
      DigitCount(v);
      if v < 0x1_0000_0000 {
        DivideUnique(v, 0x1_0000_0000, 0, v);
      }
    } else if v == MIN_INT64 {
      LeastFormat();
    } else {
      hide FormatBinary, BitsOf, Wrap;
      FormatNonNegative(0 - v);
      DigitCount(0 - v);
      if v > -0x1_0000_0000 {
        NegativeDenoted(0 - v);
      }
    }
  }

  lemma NegativeDenoted(n: nat)
    requires 0 < n < 0x1_0000_0000
    ensures Complemented(32, n) == Wrap(0 - n) <==> n != 0x8000_0000
  {
    hide Complemented;
    Pow2Of32();
    ComplementCorrect(32, n);
    DivideUnique(0 - n, 0x1_0000_0000, -1, 0x1_0000_0000 - n);
    DivideUnique(0x1_0000_0000 - n, 0x1_0000_0000, 0, 0x1_0000_0000 - n);
    NoLowBits(n);
  }

  lemma NoLowBits(n: nat)
    requires 0 < n < 0x1_0000_0000
    ensures n % 0x8000_0000 == 0 <==> n == 0x8000_0000
  {
  }

  lemma LeastFormat()
    ensures |FormatBinary(MIN_INT64)| > 32
  {
    hide FromBits;
    DigitCount(0x8000_0000_0000_0000);
  }

  /** Digit 31 - j of the array for an integer in range is bit j of its two's complement. */
  lemma DigitsAreBits(p: seq<Bit01>, v: Int64, j: nat)
    requires InRange(v) && |p| == Width(v) && FromBits(p) == Denoted(v) && j < 32
    ensures |p| == 32 && p[31 - j] == IntBit(v, j)
  {
    hide FromBits, Denoted, Width;
    TwosComplementBound(v);
    DigitIsBit(p, j);
    Pow2Of32();
    BitsOfMod(v, 32, j);
  }

  lemma {:induction false} IntBitShift(v: int, k: nat, j: nat)
    ensures IntBit(v, k + j) == IntBit(v / Pow2(k), j)
    decreases k
  {
    if k == 0 {
    } else {
      IntBitShift(v / 2, k - 1, j);
      ModHalf(v, Pow2(k - 1));
    }
  }

  /** Digits that are the low bits of v denote v modulo a power of two. */
  lemma {:induction false} LowBits(s: seq<Bit01>, v: int)
    requires forall j :: 0 <= j < |s| ==> s[|s| - 1 - j] == IntBit(v, j)
    ensures FromBits(s) == v % Pow2(|s|)
    decreases |s|
  {
    if s == [] {
    } else {
      var t := s[..|s| - 1];
      assert s[|s| - 1] == IntBit(v, 0);
      forall j | 0 <= j < |t| ensures t[|t| - 1 - j] == IntBit(v / 2, j) {
        assert s[|s| - 1 - (j + 1)] == IntBit(v, j + 1);
      }
      LowBits(t, v / 2);
      ModHalf(v, Pow2(|t|));
    }
  }

  lemma FieldDigit(p: seq<Bit01>, v: Int64, lo: nat, n: nat, j: nat)
    requires InRange(v) && |p| == 32 == Width(v) && FromBits(p) == Denoted(v) && lo + n <= 32 && j < n
    ensures p[32 - lo - n..32 - lo][n - 1 - j] == IntBit(v / Pow2(lo), j)
  {
    hide FromBits, Denoted, Width, IntBit, Pow2;
    DigitsAreBits(p, v, lo + j);
    IntBitShift(v, lo, j);
  }

  /** A slice of the array for v denotes the corresponding bit field of v. */
  lemma FieldOf(p: seq<Bit01>, v: Int64, lo: nat, n: nat)
    requires InRange(v) && |p| == Width(v) && FromBits(p) == Denoted(v) && lo + n <= 32
    ensures |p| == 32 && FromBits(p[32 - lo - n..32 - lo]) == v / Pow2(lo) % Pow2(n)
  {
    hide FromBits, Denoted, Width, IntBit, Pow2, InRange, Wrap;
    TwosComplementBound(v);
    var s, w := p[32 - lo - n..32 - lo], v / Pow2(lo);
    assert |s| == n;
    forall j | 0 <= j < n ensures s[n - 1 - j] == IntBit(w, j) {
      FieldDigit(p, v, lo, n, j);
    }
    LowBits(s, w);
  }
}
