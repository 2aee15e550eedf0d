/** Arithmetic of fixed-width binary words held as natural numbers.
    A `Word` is the value of a 32-bit SystemVerilog vector; `Bit`, `SetBit` and the
    bitwise operations are defined by recursion on the binary digits. */
module Bits {

  type Word = x: int | 0 <= x < 0x1_0000_0000

  type Byte = x: int | 0 <= x < 0x100

  type Bit01 = x: int | 0 <= x < 2

  function Pow2(n: nat): (p: nat)
    ensures p > 0
  {
    if n == 0 then 1 else 2 * Pow2(n - 1)
  }

  /** Bit `k` of `x`, the Verilog part select x[k]. */
  function Bit(x: nat, k: nat): (b: Bit01)
  {
    if k == 0 then x % 2 else Bit(x / 2, k - 1)
  }

  /** The vector `x` after the assignment x[k] = v. */
  function SetBit(x: nat, k: nat, v: Bit01): nat
  {
    if k == 0 then x / 2 * 2 + v else 2 * SetBit(x / 2, k - 1, v) + x % 2
  }

  function And(a: nat, b: nat): nat
  {
    if a == 0 || b == 0 then 0 else 2 * And(a / 2, b / 2) + (a % 2) * (b % 2)
  }

  function Or(a: nat, b: nat): nat
  {
    if a == 0 then b else if b == 0 then a
    else 2 * Or(a / 2, b / 2) + (if a % 2 == 0 then b % 2 else 1)
  }

  function Xor(a: nat, b: nat): nat
  {
    if a == 0 then b else if b == 0 then a
    else 2 * Xor(a / 2, b / 2) + (if a % 2 == b % 2 then 0 else 1)
  }

  /** Two's-complement reading of a `w`-bit vector. */
  function Signed(w: nat, a: nat): int
    requires w > 0
  {
    if a < Pow2(w - 1) then a else a - Pow2(w)
  }

  function Wrap(x: int): Word {
    x % 0x1_0000_0000
  }

  function Signed32(a: Word): int {
    if a < 0x8000_0000 then a else a - 0x1_0000_0000
  }

  lemma Pow2Of32()
    ensures Pow2(31) == 0x8000_0000 && Pow2(32) == 0x1_0000_0000
  {
    assert Pow2(8) == 0x100;
    assert Pow2(16) == 0x1_0000;
    assert Pow2(24) == 0x100_0000;
  }

  lemma {:induction false} Pow2Add(m: nat, n: nat)
    ensures Pow2(m + n) == Pow2(m) * Pow2(n)
  {
    if m == 0 {
    } else {
      Pow2Add(m - 1, n);
      assert Pow2(m + n) == 2 * Pow2(m - 1 + n);
    }
  }

  lemma {:induction false} Pow2Monotone(m: nat, n: nat)
    requires m <= n
    ensures Pow2(m) <= Pow2(n)
  {
    if m == n {
    } else {
      Pow2Monotone(m, n - 1);
    }
  }

  lemma {:induction false} ZeroBit(k: nat)
    ensures Bit(0, k) == 0
  {
    if k == 0 {
    } else {
      ZeroBit(k - 1);
    }
  }

  /** Two words with the same bits are the same word. */
  lemma {:induction false} BitsDetermine(x: nat, y: nat)
    requires forall k: nat :: Bit(x, k) == Bit(y, k)
    ensures x == y
  {
    if x == 0 && y == 0 {
    } else {
      forall k: nat ensures Bit(x / 2, k) == Bit(y / 2, k) {
        assert Bit(x, k + 1) == Bit(y, k + 1);
      }
      BitsDetermine(x / 2, y / 2);
      assert Bit(x, 0) == Bit(y, 0);
    }
  }

  lemma {:induction false} BitOfSetBit(x: nat, k: nat, v: Bit01, j: nat)
    ensures Bit(SetBit(x, k, v), j) == if j == k then v else Bit(x, j)
  {
    if k == 0 {
      Digit(x / 2, v);
    } else {
      Digit(SetBit(x / 2, k - 1, v), x % 2);
      if j > 0 {
        BitOfSetBit(x / 2, k - 1, v, j - 1);
      }
    }
  }

  lemma Digit(high: nat, low: Bit01)
    ensures (2 * high + low) / 2 == high && (2 * high + low) % 2 == low
  {
  }

  lemma {:induction false} SetBitTwice(x: nat, k: nat, u: Bit01, v: Bit01)
    ensures SetBit(SetBit(x, k, u), k, v) == SetBit(x, k, v)
  {
    if k == 0 {
      Digit(x / 2, u);
    } else {
      Digit(SetBit(x / 2, k - 1, u), x % 2);
      SetBitTwice(x / 2, k - 1, u, v);
    }
  }

  lemma {:induction false} SetBitSame(x: nat, k: nat, v: Bit01)
    requires Bit(x, k) == v
    ensures SetBit(x, k, v) == x
  {
    if k == 0 {
    } else {
      SetBitSame(x / 2, k - 1, v);
    }
  }

  lemma SetBitCommutes(x: nat, j: nat, u: Bit01, k: nat, v: Bit01)
    requires j != k
    ensures SetBit(SetBit(x, j, u), k, v) == SetBit(SetBit(x, k, v), j, u)
  {
    var a, b := SetBit(SetBit(x, j, u), k, v), SetBit(SetBit(x, k, v), j, u);
    forall i: nat ensures Bit(a, i) == Bit(b, i) {
      BitOfSetBit(SetBit(x, j, u), k, v, i);
      BitOfSetBit(SetBit(x, k, v), j, u, i);
      BitOfSetBit(x, j, u, i);
      BitOfSetBit(x, k, v, i);
    }
    BitsDetermine(a, b);
  }

  /** Setting a bit of an operand shows in no other bit of the result. */
  lemma SetBitThroughOr(a: nat, x: nat, k: nat, v: Bit01)
    ensures SetBit(Or(a, SetBit(x, k, v)), k, v) == SetBit(Or(a, x), k, v)
  {
    var l, r := SetBit(Or(a, SetBit(x, k, v)), k, v), SetBit(Or(a, x), k, v);
    forall i: nat ensures Bit(l, i) == Bit(r, i) {
      BitOfSetBit(Or(a, SetBit(x, k, v)), k, v, i);
      BitOfSetBit(Or(a, x), k, v, i);
      BitOfSetBit(x, k, v, i);
      BitOfOr(a, SetBit(x, k, v), i);
      BitOfOr(a, x, i);
    }
    BitsDetermine(l, r);
  }

  lemma SetBitThroughAnd(a: nat, x: nat, k: nat, v: Bit01)
    ensures SetBit(And(a, SetBit(x, k, v)), k, v) == SetBit(And(a, x), k, v)
  {
    var l, r := SetBit(And(a, SetBit(x, k, v)), k, v), SetBit(And(a, x), k, v);
    forall i: nat ensures Bit(l, i) == Bit(r, i) {
      BitOfSetBit(And(a, SetBit(x, k, v)), k, v, i);
      BitOfSetBit(And(a, x), k, v, i);
      BitOfSetBit(x, k, v, i);
      BitOfAnd(a, SetBit(x, k, v), i);
      BitOfAnd(a, x, i);
    }
    BitsDetermine(l, r);
  }

  lemma BitProduct(u: Bit01, v: Bit01)
    ensures 0 <= u * v < 2
  {
    if u == 0 {
    } else {
      assert u == 1;
    }
  }

  lemma {:induction false} BitOfAnd(a: nat, b: nat, k: nat)
    ensures Bit(And(a, b), k) == Bit(a, k) * Bit(b, k)
  {
    ZeroBit(k);
    if a == 0 || b == 0 {
    } else {
      BitProduct(a % 2, b % 2);
      Digit(And(a / 2, b / 2), (a % 2) * (b % 2));
      if k > 0 {
        BitOfAnd(a / 2, b / 2, k - 1);
      }
    }
  }

  lemma {:induction false} BitOfOr(a: nat, b: nat, k: nat)
    ensures Bit(Or(a, b), k) == if Bit(a, k) == 0 then Bit(b, k) else 1
  {
    ZeroBit(k);
    if a == 0 || b == 0 {
    } else {
      Digit(Or(a / 2, b / 2), if a % 2 == 0 then b % 2 else 1);
      if k > 0 {
        BitOfOr(a / 2, b / 2, k - 1);
      }
    }
  }

  lemma {:induction false} BitOfXor(a: nat, b: nat, k: nat)
    ensures Bit(Xor(a, b), k) == if Bit(a, k) == Bit(b, k) then 0 else 1
  {
    ZeroBit(k);
    if a == 0 || b == 0 {
    } else {
      Digit(Xor(a / 2, b / 2), if a % 2 == b % 2 then 0 else 1);
      if k > 0 {
        BitOfXor(a / 2, b / 2, k - 1);
      }
    }
  }

  lemma HalfFits(x: nat, w: nat)
    requires x < Pow2(w) && w > 0
    ensures Pow2(w) == 2 * Pow2(w - 1) && x / 2 < Pow2(w - 1)
  {
  }

  lemma {:induction false} SetBitFits(x: nat, k: nat, v: Bit01, w: nat)
    requires x < Pow2(w) && k < w
    ensures SetBit(x, k, v) < Pow2(w)
  {
    HalfFits(x, w);
    if k == 0 {
    } else {
      SetBitFits(x / 2, k - 1, v, w - 1);
      assert SetBit(x, k, v) == 2 * SetBit(x / 2, k - 1, v) + x % 2;
      hide SetBit;
    }
  }

  lemma BitwiseParts(a: nat, b: nat)
    requires a != 0 && b != 0
    ensures And(a, b) == 2 * And(a / 2, b / 2) + (a % 2) * (b % 2)
    ensures 0 <= Or(a, b) - 2 * Or(a / 2, b / 2) < 2 && 0 <= Xor(a, b) - 2 * Xor(a / 2, b / 2) < 2
  {
  }

  lemma {:induction false} BitwiseFits(a: nat, b: nat, w: nat)
    requires a < Pow2(w) && b < Pow2(w)
    ensures And(a, b) < Pow2(w) && Or(a, b) < Pow2(w) && Xor(a, b) < Pow2(w)
  {
    if a == 0 || b == 0 {
    } else {
      BitwiseFits(a / 2, b / 2, w - 1);
      BitProduct(a % 2, b % 2);
      hide And, Or, Xor;
      BitwiseParts(a, b);
    }
  }

  // ---------------------------------------------------------------
  // Products and quotients of variables
  // ---------------------------------------------------------------

  lemma MulMonotone(m: int, n: int, d: int)
    requires m <= n && d >= 0
    ensures m * d <= n * d
  {
    assert (n - m) * d >= 0;
  }

  lemma DivideUnique(x: int, d: int, q: int, r: int)
    requires d > 0 && 0 <= r < d && x == q * d + r
    ensures x / d == q && x % d == r
  {
    var q', r' := x / d, x % d;
    assert x == q' * d + r';
    assert (q + 1) * d == q * d + d && (q' + 1) * d == q' * d + d;
    if q' > q {
      MulMonotone(q + 1, q', d);
    } else if q' < q {
      MulMonotone(q' + 1, q, d);
    }
  }

  lemma QuotientBounds(a: nat, d: nat)
    requires d > 0
    ensures 0 <= a / d <= a
  {
    var q: int := a / d;
    assert a == q * d + a % d;
    if q < 0 {
      MulMonotone(q, -1, d);
    } else {
      MulMonotone(1, d, q);
    }
  }

  lemma DivideSum(x: int, q: int, d: int)
    requires d > 0
    ensures (x + q * d) / d == x / d + q && (x + q * d) % d == x % d
  {
    assert x == x / d * d + x % d;
    assert (x / d + q) * d == x / d * d + q * d;
    DivideUnique(x + q * d, d, x / d + q, x % d);
  }

  lemma ModHalf(v: int, p: nat)
    requires p > 0
    ensures v % (2 * p) == 2 * (v / 2 % p) + v % 2
    ensures v % (2 * p) / 2 == v / 2 % p && v % (2 * p) % 2 == v % 2
    ensures v / 2 / p == v / (2 * p)
  {
    var q, r := v / 2 / p, v / 2 % p;
    assert v == q * (2 * p) + (2 * r + v % 2) by {
      assert v / 2 == q * p + r;
      assert q * (2 * p) == 2 * (q * p);
    }
    DivideUnique(v, 2 * p, q, 2 * r + v % 2);
  }

  lemma WrapShift(y: int, q: int)
    ensures Wrap(y + 0x1_0000_0000 * q) == Wrap(y)
  {
    DivideUnique(y + 0x1_0000_0000 * q, 0x1_0000_0000, y / 0x1_0000_0000 + q, y % 0x1_0000_0000);
  }

  lemma WrapSum(x: int, d: int)
    ensures Wrap(Wrap(x) + d) == Wrap(x + d) && Wrap(x + Wrap(d)) == Wrap(x + d)
            && Wrap(Wrap(x) + Wrap(d)) == Wrap(x + d)
  {
    var q, p := x / 0x1_0000_0000, d / 0x1_0000_0000;
    WrapShift(Wrap(x) + d, q);
    WrapShift(x + Wrap(d), p);
    WrapShift(Wrap(x) + Wrap(d), q + p);
  }

  function SetBit32(x: Word, k: nat, v: Bit01): Word
    requires k < 32
  {
    Pow2Of32();
    SetBitFits(x, k, v, 32);
    SetBit(x, k, v)
  }

  function And32(a: Word, b: Word): Word {
    Pow2Of32();
    BitwiseFits(a, b, 32);
    And(a, b)
  }

  function Or32(a: Word, b: Word): Word {
    Pow2Of32();
    BitwiseFits(a, b, 32);
    Or(a, b)
  }

  function Not32(a: Word): Word {
    0xFFFF_FFFF - a
  }

  lemma BitOfNot(a: Word, k: nat)
    requires k < 32
    ensures Bit(Not32(a), k) == 1 - Bit(a, k)
  {
    Pow2Of32();
    BitOfComplement(32, a, k);
  }

  lemma {:induction false} BitOfComplement(n: nat, a: nat, k: nat)
    requires k < n && a < Pow2(n)
    ensures Bit(Pow2(n) - 1 - a, k) == 1 - Bit(a, k)
  {
    HalfFits(a, n);
    Digit(Pow2(n - 1) - 1 - a / 2, 1 - a % 2);
    assert Pow2(n) - 1 - a == 2 * (Pow2(n - 1) - 1 - a / 2) + (1 - a % 2);
    if k == 0 {
    } else {
      BitOfComplement(n - 1, a / 2, k - 1);
    }
  }

  /** Bit k is the digit of weight 2^k. */
  lemma {:induction false} BitMeans(x: nat, k: nat)
    ensures Bit(x, k) == x / Pow2(k) % 2
  {
    if k == 0 {
      assert x / 1 == x;
    } else {
      BitMeans(x / 2, k - 1);
      ModHalf(x, Pow2(k - 1));
    }
  }
}
