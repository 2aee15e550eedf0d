/** The assembler's binary digits: arrays of 0 and 1, most significant first, changed in place. */
module AsmBits {
  import opened Bits

  type Int64 = v: int | -0x8000_0000_0000_0000 <= v < 0x8000_0000_0000_0000

  // ---------------------------------------------------------------
  // Values of digit sequences
  // ---------------------------------------------------------------

  /** The number a digit sequence denotes, most significant digit first. */
  function FromBits(s: seq<Bit01>): (n: nat)
    ensures n < Pow2(|s|)
  {
    if |s| == 0 then 0 else 2 * FromBits(s[..|s| - 1]) + s[|s| - 1]
  }

  /** Bit j of the two's complement of any integer. */
  function IntBit(v: int, j: nat): Bit01
    decreases j
  {
    if j == 0 then v % 2 else IntBit(v / 2, j - 1)
  }

  lemma {:induction false} FromBitsConcat(a: seq<Bit01>, b: seq<Bit01>)
    ensures FromBits(a + b) == FromBits(a) * Pow2(|b|) + FromBits(b)
    decreases |b|
  {
    hide FromBits, Pow2;
    if b == [] {
      assert a + b == a;
      NoDigits(b);
    } else {
      var k := |b| - 1;
      assert (a + b)[..|a + b| - 1] == a + b[..k];
      FromBitsConcat(a, b[..k]);
      LastDigit(b);
      LastDigit(a + b);
      Double(k);
      Regroup(FromBits(a), Pow2(k));
    }
  }

  lemma LastDigit(s: seq<Bit01>)
    requires s != []
    ensures FromBits(s) == 2 * FromBits(s[..|s| - 1]) + s[|s| - 1]
  {
  }

  lemma Regroup(x: int, p: int)
    ensures 2 * (x * p) == x * (2 * p)
  {
  }

  /** The digits of a number, read back from the right, are its bits. */
  lemma {:induction false} DigitIsBit(s: seq<Bit01>, j: nat)
    requires j < |s|
    ensures s[|s| - 1 - j] == IntBit(FromBits(s), j)
    decreases j
  {
    var t := s[..|s| - 1];
    assert FromBits(s) / 2 == FromBits(t) && FromBits(s) % 2 == s[|s| - 1];
    if j == 0 {
    } else {
      DigitIsBit(t, j - 1);
    }
  }

  lemma {:induction false} BitsOfMod(v: int, n: nat, j: nat)
    requires j < n
    ensures IntBit(v % Pow2(n), j) == IntBit(v, j)
    decreases j
  {
    var p := Pow2(n - 1);
    ModHalf(v, p);
    if j == 0 {
    } else {
      BitsOfMod(v / 2, n - 1, j - 1);
    }
  }

  // ---------------------------------------------------------------
  // In-place operations
  // ---------------------------------------------------------------

  function Flipped(s: seq<Bit01>): (r: seq<Bit01>)
    ensures |r| == |s|
  {
    seq(|s|, i requires 0 <= i < |s| => 1 - s[i])
  }

  lemma {:induction false} FlippedValue(s: seq<Bit01>)
    ensures FromBits(Flipped(s)) == Pow2(|s|) - 1 - FromBits(s)
    decreases |s|
  {
    if s == [] {
    } else {
      FlippedValue(s[..|s| - 1]);
      assert Flipped(s)[..|s| - 1] == Flipped(s[..|s| - 1]);
    }
  }

  method Negate(arr: array<Bit01>)
    modifies arr
    ensures arr[..] == Flipped(old(arr[..]))
  {
    for i := 0 to arr.Length
      invariant forall k :: 0 <= k < i ==> arr[k] == 1 - old(arr[k])
      invariant forall k :: i <= k < arr.Length ==> arr[k] == old(arr[k])
    {
      if arr[i] == 0 {
        arr[i] := 1;
      } else {
        arr[i] := 0;
      }
    }
  }

  /** Adds one to all digits but the first, which it neither reads nor writes: the carry out of
      the others is lost. */
  method AddOne(arr: array<Bit01>)
    modifies arr
    ensures arr.Length > 0 ==> arr[0] == old(arr[0])
    ensures arr.Length > 0 ==> FromBits(arr[1..]) == (FromBits(old(arr[1..])) + 1) % Pow2(arr.Length - 1)
  {
    hide FromBits, Pow2;
    ghost var before := arr[..];
    var c: Bit01 := 1;
    NoDigits(before[arr.Length..]);
    var i := arr.Length - 1;
    while i > 0
      invariant arr.Length > 0 ==> 0 <= i < arr.Length
      invariant i < 0 ==> arr.Length == 0
      invariant forall k :: 0 <= k <= i ==> arr[k] == before[k]
      invariant arr.Length > 0 ==>
        FromBits(arr[i + 1..]) + c * Pow2(arr.Length - 1 - i) == FromBits(before[i + 1..]) + 1
    {
      ghost var rest, oldRest := arr[i + 1..], before[i + 1..];
      var d := arr[i];
      var nc := if d == 1 && c == 1 then 1 else 0;
      if nc == 1 {
        arr[i] := 0;
      } else {
        arr[i] := if d == 1 || c == 1 then 1 else 0;
      }
      assert arr[i..] == [arr[i]] + rest && before[i..] == [d] + oldRest;
      Prepend(arr[i], rest);
      Prepend(d, oldRest);
      Double(|rest|);
      CarryStep(d, c, arr[i], nc, Pow2(|rest|));
      c := nc;
      i := i - 1;
    }
    if arr.Length > 0 {
      CarryLost(FromBits(arr[1..]), FromBits(before[1..]), c, Pow2(arr.Length - 1));
    }
  }

  lemma Prepend(d: Bit01, rest: seq<Bit01>)
    ensures FromBits([d] + rest) == d * Pow2(|rest|) + FromBits(rest) && FromBits(rest) < Pow2(|rest|)
  {
    FromBitsConcat([d], rest);
    assert FromBits([d]) == d;
  }

  lemma NoDigits(s: seq<Bit01>)
    requires s == []
    ensures FromBits(s) == 0 && Pow2(0) == 1
  {
  }

  lemma Double(n: nat)
    ensures Pow2(n + 1) == 2 * Pow2(n)
  {
  }

  lemma CarryStep(d: Bit01, c: Bit01, r: Bit01, nc: Bit01, p: nat)
    requires nc == (if d == 1 && c == 1 then 1 else 0)
    requires r == if nc == 1 then 0 else if d == 1 || c == 1 then 1 else 0
    ensures r * p + nc * (2 * p) == d * p + c * p
  {
  }

  lemma CarryLost(x: nat, before: nat, c: Bit01, p: nat)
    requires p > 0 && x < p && x + c * p == before + 1
    ensures x == (before + 1) % p
  {
    DivideUnique(before + 1, p, c, x);
  }

  /** The value TwosComplement leaves behind. */
  function Complemented(l: nat, x: nat): nat
    requires l > 0
  {
    var p := Pow2(l - 1);
    (if x < p then p else 0) + (2 * p - x) % p
  }

  method TwosComplement(arr: array<Bit01>)
    modifies arr
    ensures arr.Length > 0 ==> FromBits(arr[..]) == Complemented(arr.Length, FromBits(old(arr[..])))
  {
    hide FromBits, Pow2;
    ghost var s := arr[..];
    Negate(arr);
    ghost var f := arr[..];
    AddOne(arr);
    if arr.Length > 0 {
      assert f[1..] == Flipped(s[1..]) && f[0] == 1 - s[0];
      NegatedThenIncremented(s, arr[..]);
    }
  }

  lemma NegatedThenIncremented(s: seq<Bit01>, r: seq<Bit01>)
    requires |s| > 0 && |r| == |s| && r[0] == 1 - s[0]
    requires FromBits(r[1..]) == (FromBits(Flipped(s[1..])) + 1) % Pow2(|s| - 1)
    ensures FromBits(r) == Complemented(|s|, FromBits(s))
  {
    hide FromBits, Pow2, Complemented, Flipped;
    FlippedValue(s[1..]);
    assert s == [s[0]] + s[1..] && r == [r[0]] + r[1..];
    Prepend(s[0], s[1..]);
    Prepend(r[0], r[1..]);
    ComplementParts(|s|, s[0], FromBits(s[1..]));
  }

  lemma ComplementParts(l: nat, top: Bit01, low: nat)
    requires l > 0 && low < Pow2(l - 1)
    ensures Complemented(l, top * Pow2(l - 1) + low)
            == (1 - top) * Pow2(l - 1) + (Pow2(l - 1) - 1 - low + 1) % Pow2(l - 1)
  {
    hide Pow2;
    var p := Pow2(l - 1);
    if top == 0 {
      DivideSum(p - low, 1, p);
    }
  }

  /** The digits become the two's complement exactly if the digits below the first are not all
      zero; otherwise the carry the first digit needed never arrives. */
  lemma ComplementCorrect(l: nat, x: nat)
    requires l > 0 && x < Pow2(l)
    ensures Complemented(l, x) == (Pow2(l) - x) % Pow2(l) <==> x % Pow2(l - 1) != 0
  {
    var p := Pow2(l - 1);
    assert Pow2(l) == 2 * p;
    if x == 0 {
      DivideUnique(2 * p, 2 * p, 1, 0);
      DivideUnique(2 * p, p, 2, 0);
      DivideUnique(0, p, 0, 0);
    } else {
      DivideUnique(2 * p - x, 2 * p, 0, 2 * p - x);
      if x < p {
        DivideUnique(2 * p - x, p, 1, p - x);
        DivideUnique(x, p, 0, x);
      } else if x == p {
        DivideUnique(p, p, 1, 0);
      } else {
        DivideUnique(2 * p - x, p, 0, 2 * p - x);
        DivideUnique(x, p, 1, x - p);
      }
    }
  }

  function Reversed(s: seq<Bit01>): (r: seq<Bit01>)
    ensures |r| == |s|
  {
    seq(|s|, i requires 0 <= i < |s| => s[|s| - 1 - i])
  }

  method ReverseArray(arr: array<Bit01>)
    modifies arr
    ensures arr[..] == Reversed(old(arr[..]))
  {
    var n := arr.Length;
    var i := 0;
    while i < n / 2
      invariant 0 <= i <= n / 2
      invariant forall k :: 0 <= k < i ==> arr[k] == old(arr[n - 1 - k]) && arr[n - 1 - k] == old(arr[k])
      invariant forall k :: i <= k < n - i ==> arr[k] == old(arr[k])
    {
      var j := n - i - 1;
      arr[i], arr[j] := arr[j], arr[i];
      i := i + 1;
    }
    assert forall k :: 0 <= k < n ==> arr[k] == old(arr[n - 1 - k]);
  }
}
