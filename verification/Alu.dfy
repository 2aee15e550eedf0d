/** The ALU, for every data width, and the branch equations that read its flags. */
module Alu {
  import opened Bits

  // func_op_i is {funct3, funct7[6:4]}
  const ADD_OP := 0x00
  const SUB_OP := 0x02
  const SLL_OP := 0x08
  const SLT_OP := 0x10
  const SLTU_OP := 0x18
  const XOR_OP := 0x20
  const SRL_OP := 0x28
  const SRA_OP := 0x2A
  const OR_OP := 0x30
  const AND_OP := 0x38

  datatype Flags = Flags(v: bool, n: bool, c: bool, z: bool)

  datatype AluOutput = AluOutput(y: nat, flags: Flags)

  /** Sign bit a[w-1]. */
  predicate TopBit(w: nat, a: nat)
    requires w > 0
  {
    a >= Pow2(w - 1)
  }

  function FromBool(b: bool): nat {
    if b then 1 else 0
  }

  /** y_o; an operation code the ALU does not know drives X, read here as zero. */
  function Result(w: nat, op: nat, a: nat, b: nat): (y: nat)
    requires w > 0 && a < Pow2(w) && b < Pow2(w)
    ensures y < Pow2(w)
  {
    BitwiseFits(a, b, w);
    Pow2Monotone(1, w);
    if op == ADD_OP then (a + b) % Pow2(w)
    else if op == SUB_OP then (a - b) % Pow2(w)
    else if op == AND_OP then And(a, b)
    else if op == OR_OP then Or(a, b)
    else if op == XOR_OP then Xor(a, b)
    else if op == SLL_OP then (a * Pow2(b)) % Pow2(w)
    else if op == SRL_OP then QuotientBounds(a, Pow2(b)); a / Pow2(b)
    else if op == SRA_OP then (SignExtendedTwice(w, a) / Pow2(b)) % Pow2(w)
    else if op == SLT_OP then
      FromBool(if TopBit(w, a) == TopBit(w, b) then a < b else TopBit(w, a))
    else if op == SLTU_OP then FromBool(a < b)
    else 0
  }

  /** sext_a: the operand sign-extended to 2*w bits. */
  function SignExtendedTwice(w: nat, a: nat): nat
    requires w > 0
  {
    if TopBit(w, a) then (Pow2(w) - 1) * Pow2(w) + a else a
  }

  /** Borrow into the top bit: carry_borrow_l, nonzero for a subtraction only. */
  predicate BorrowLow(w: nat, op: nat, a: nat, b: nat)
    requires w > 0
  {
    op == SUB_OP && a % Pow2(w - 1) < b % Pow2(w - 1)
  }

  /** carry_borrow_h: the borrow out of a subtraction, or the bit a shift reports. */
  predicate CarryHigh(w: nat, op: nat, a: nat, b: nat)
    requires w > 0
  {
    if op == SUB_OP then a < b
    else if op == SLL_OP then TopBit(w, a)
    else if op == SRL_OP then a % 2 == 1
    else false
  }

  function Compute(w: nat, op: nat, a: nat, b: nat): (r: AluOutput)
    requires w > 0 && a < Pow2(w) && b < Pow2(w)
    ensures r.y < Pow2(w)
  {
    var y := Result(w, op, a, b);
    var high := CarryHigh(w, op, a, b);
    AluOutput(y, Flags(BorrowLow(w, op, a, b) != high, TopBit(w, y), high, y == 0))
  }

  // funct3 of the six branches
  const BEQ := 0
  const BNE := 1
  const BLT := 4
  const BGE := 5
  const BLTU := 6
  const BGEU := 7

  /** The controller's take_branch equations. */
  predicate TakeBranch(funct3: nat, f: Flags)
  {
    if funct3 == BEQ then f.z
    else if funct3 == BNE then !f.z
    else if funct3 == BLT then f.n != f.v
    else if funct3 == BGE then f.n == f.v
    else if funct3 == BLTU then f.c
    else if funct3 == BGEU then !f.c
    else false
  }

  lemma SplitTop(w: nat, a: nat)
    requires w > 0 && a < Pow2(w)
    ensures Pow2(w) == 2 * Pow2(w - 1)
    ensures a == (if TopBit(w, a) then Pow2(w - 1) else 0) + a % Pow2(w - 1)
    ensures 0 <= a % Pow2(w - 1) < Pow2(w - 1)
  {
    var h := Pow2(w - 1);
    if a >= h {
      DivideUnique(a, h, 1, a - h);
    } else {
      DivideUnique(a, h, 0, a);
    }
  }

  lemma SubtractWraps(w: nat, a: nat, b: nat)
    requires w > 0 && a < Pow2(w) && b < Pow2(w)
    ensures (a - b) % Pow2(w) == if a < b then a - b + Pow2(w) else a - b
  {
    var p := Pow2(w);
    if a < b {
      DivideUnique(a - b, p, -1, a - b + p);
    } else {
      DivideUnique(a - b, p, 0, a - b);
    }
  }

  /** The flags of a subtraction decide equality, unsigned order and signed order,
      at every width of at least two bits. */
  lemma SubtractFlags(w: nat, a: nat, b: nat)
    requires w >= 2 && a < Pow2(w) && b < Pow2(w)
    ensures var f := Compute(w, SUB_OP, a, b).flags;
            && (f.z <==> a == b)
            && (f.c <==> a < b)
            && (f.n != f.v <==> Signed(w, a) < Signed(w, b))
  {
    SplitTop(w, a);
    SplitTop(w, b);
    SubtractWraps(w, a, b);
  }

  /** Every branch is taken exactly when the comparison it is named after holds. */
  lemma BranchDecidesComparison(w: nat, a: nat, b: nat)
    requires w >= 2 && a < Pow2(w) && b < Pow2(w)
    ensures var f := Compute(w, SUB_OP, a, b).flags;
            && (TakeBranch(BEQ, f) <==> a == b)
            && (TakeBranch(BNE, f) <==> a != b)
            && (TakeBranch(BLT, f) <==> Signed(w, a) < Signed(w, b))
            && (TakeBranch(BGE, f) <==> Signed(w, a) >= Signed(w, b))
            && (TakeBranch(BLTU, f) <==> a < b)
            && (TakeBranch(BGEU, f) <==> a >= b)
  {
    SubtractFlags(w, a, b);
  }

  /** slt and sltu compute the same two comparisons as blt and bltu decide. */
  lemma SetLessThanAgreesWithBranches(w: nat, a: nat, b: nat)
    requires w >= 2 && a < Pow2(w) && b < Pow2(w)
    ensures Result(w, SLT_OP, a, b) == FromBool(Signed(w, a) < Signed(w, b))
    ensures Result(w, SLTU_OP, a, b) == FromBool(a < b)
    ensures var f := Compute(w, SUB_OP, a, b).flags;
            && (Result(w, SLT_OP, a, b) == 1 <==> TakeBranch(BLT, f))
            && (Result(w, SLTU_OP, a, b) == 1 <==> TakeBranch(BLTU, f))
  {
    SubtractFlags(w, a, b);
    SplitTop(w, a);
    SplitTop(w, b);
  }

  // ---------------------------------------------------------------
  // Shifts
  // ---------------------------------------------------------------

  /** sra is floor division of the signed operand by 2^b for every amount up to the width. */
  lemma ArithmeticShift(w: nat, a: nat, b: nat)
    requires w > 0 && a < Pow2(w) && b < Pow2(w) && b <= w
    ensures Result(w, SRA_OP, a, b) == (Signed(w, a) / Pow2(b)) % Pow2(w)
  {
    hide And, Or, Xor, Pow2;
    if TopBit(w, a) {
      TopBitNegative(w, a);
      Pow2Add(w - b, b);
      ShiftSplit(a, Pow2(w), Pow2(w - b), Pow2(b));
    }
  }

  lemma TopBitNegative(w: nat, a: nat)
    requires w > 0
    ensures Signed(w, a) == if TopBit(w, a) then a - Pow2(w) else a
  {
    hide Pow2;
  }

  lemma ShiftSplit(a: int, p: int, k: int, d: int)
    requires p > 0 && d > 0 && p == k * d
    ensures (((p - 1) * p + a) / d) % p == ((a - p) / d) % p
  {
    assert (p - 1) * p + a == (a - p) + (p * k) * d by {
      assert (p * k) * d == p * (k * d);
    }
    DivideSum(a - p, p * k, d);
    assert p * k == k * p;
    DivideSum((a - p) / d, k, p);
  }

  lemma ShiftedByOne(w: nat, a: nat)
    requires w > 0 && a < Pow2(w) && 1 < Pow2(w)
    ensures var l := Compute(w, SLL_OP, a, 1); l.y == 2 * a % Pow2(w) && (l.flags.c <==> TopBit(w, a))
    ensures var r := Compute(w, SRL_OP, a, 1); r.y == a / 2 && (r.flags.c <==> a % 2 == 1)
    ensures if TopBit(w, a) then Pow2(w) <= 2 * a < 2 * Pow2(w) else 2 * a < Pow2(w)
  {
    assert Pow2(1) == 2;
    SplitTop(w, a);
    hide And, Or, Xor, Pow2;
  }

  /** Shifting by one, the carry is the bit that falls out. */
  lemma CarryOfShift(w: nat, a: nat)
    requires w > 0 && a < Pow2(w) && 1 < Pow2(w)
    ensures var l := Compute(w, SLL_OP, a, 1); 2 * a == l.y + if l.flags.c then Pow2(w) else 0
    ensures var r := Compute(w, SRL_OP, a, 1); a == 2 * r.y + if r.flags.c then 1 else 0
  {
    assert Pow2(1) == 2;
    ShiftedByOne(w, a);
    hide *;
    if TopBit(w, a) {
      DivideUnique(2 * a, Pow2(w), 1, 2 * a - Pow2(w));
    } else {
      DivideUnique(2 * a, Pow2(w), 0, 2 * a);
    }
  }
}
