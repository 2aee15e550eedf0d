/** The hardware immediate generator and ALU against the interpreter's decoder and arithmetic. */
module DecodeRefinement {
  import opened Bits
  import opened Encoding
  import Alu
  import RangerRisc
  import Isa

  // ---------------------------------------------------------------
  // Immediates
  // ---------------------------------------------------------------

  lemma SplitTop12(ir: Word)
    ensures ir / 0x10_0000 == Bit31(ir) * 0x800 + Bits30To20(ir)
    ensures ir / 0x200_0000 == Bit31(ir) * 0x40 + Bits30To25(ir)
  {
  }

  lemma SplitMiddle(ir: Word)
    ensures ir / 0x20_0000 == ir / 0x200_0000 * 0x10 + Bits24To21(ir)
    ensures ir / 0x10_0000 == ir / 0x20_0000 * 2 + Bit20(ir)
  {
  }

  lemma SplitI(ir: Word)
    ensures ir / 0x10_0000 == Bit31(ir) * 0x800 + Bits30To25(ir) * 0x20 + Bits24To21(ir) * 2 + Bit20(ir)
    ensures ir / 0x20_0000 % 1024 == Bits30To25(ir) * 0x10 + Bits24To21(ir)
  {
    SplitTop12(ir);
    SplitMiddle(ir);
  }

  lemma SplitLow(ir: Word)
    ensures ir / 0x80 % 32 == Bits11To8(ir) * 2 + Bit7(ir)
  {
    assert ir / 0x100 == ir / 0x80 / 2;
  }

  lemma SplitUpper(ir: Word)
    ensures ir / 0x1000 == ir / 0x10_0000 * 0x100 + Bits19To12(ir)
  {
    assert ir / 0x10_0000 == ir / 0x1000 / 0x100;
  }

  /** Replicating the sign bit above the rest is taking the signed value modulo 2^32. */
  lemma SignReplicated(sign: Bit01, rest: nat, half: nat)
    requires rest < half <= 0x8000_0000
    ensures Wrap(Isa.SignExtend(sign * half + rest, half)) == sign * (0x1_0000_0000 - half) + rest
  {
  }

  lemma ImmediateI(ir: Word)
    requires Opcode(ir) in {ITYPE_L, ITYPE_J, ITYPE_E} || (Opcode(ir) == ITYPE && Funct3(ir) != 1 && Funct3(ir) != 5)
    ensures Immediate(ir) == Wrap(Isa.ImmI(ir))
  {
    SplitI(ir);
    hide Bit31, Bits30To25, Bits24To21, Bit20;
    SignReplicated(Bit31(ir), Bits30To25(ir) * 0x20 + Bits24To21(ir) * 2 + Bit20(ir), 0x800);
  }

  lemma ImmediateS(ir: Word)
    requires Opcode(ir) == STYPE
    ensures Immediate(ir) == Wrap(Isa.ImmS(ir))
  {
    SplitTop12(ir);
    SplitLow(ir);
    hide Bit31, Bits30To25, Bits11To8, Bit7;
    SignReplicated(Bit31(ir), Bits30To25(ir) * 0x20 + Bits11To8(ir) * 2 + Bit7(ir), 0x800);
  }

  lemma ImmediateB(ir: Word)
    requires Opcode(ir) == BTYPE
    ensures Immediate(ir) == Wrap(Isa.ImmB(ir))
  {
    SignReplicated(Bit31(ir), Bit7(ir) * 0x800 + Bits30To25(ir) * 0x20 + Bits11To8(ir) * 2, 0x1000);
  }

  lemma ImmediateU(ir: Word)
    requires Opcode(ir) in {UTYPE_L, UTYPE_A}
    ensures Immediate(ir) == Wrap(Isa.ImmU(ir))
  {
    SplitTop12(ir);
    SplitUpper(ir);
    hide Bits30To25, Bits30To20, Bits24To21, Bits19To12, Bits11To8, Bit7;
  }

  lemma ImmediateJ(ir: Word)
    requires Opcode(ir) == JTYPE
    ensures Immediate(ir) == Wrap(Isa.ImmJ(ir))
  {
    var rest := Bits19To12(ir) * 0x1000 + Bit20(ir) * 0x800 + Bits30To25(ir) * 0x20 + Bits24To21(ir) * 2;
    assert Immediate(ir) == Bit31(ir) * 0xFFF0_0000 + rest;
    assert Isa.ImmJ(ir) == Isa.SignExtend(Bit31(ir) * 0x10_0000 + rest, 0x10_0000) by {
      SplitI(ir);
      hide Bits30To25, Bits24To21;
    }
    hide Immediate, Isa.ImmJ, Bit31, Bits19To12, Bit20, Bits30To25, Bits24To21;
    SignReplicated(Bit31(ir), rest, 0x10_0000);
  }

  /** The concatenation each format selects is its signed immediate modulo 2^32. */
  lemma ImmediateRefines(ir: Word)
    ensures Opcode(ir) in {ITYPE_L, ITYPE_J, ITYPE_E} ==> Immediate(ir) == Wrap(Isa.ImmI(ir))
    ensures Opcode(ir) == ITYPE && Funct3(ir) != 1 && Funct3(ir) != 5 ==> Immediate(ir) == Wrap(Isa.ImmI(ir))
    ensures Opcode(ir) == STYPE ==> Immediate(ir) == Wrap(Isa.ImmS(ir))
    ensures Opcode(ir) == BTYPE ==> Immediate(ir) == Wrap(Isa.ImmB(ir))
    ensures Opcode(ir) in {UTYPE_L, UTYPE_A} ==> Immediate(ir) == Wrap(Isa.ImmU(ir))
    ensures Opcode(ir) == JTYPE ==> Immediate(ir) == Wrap(Isa.ImmJ(ir))
  {
    hide Immediate, Isa.ImmI, Isa.ImmS, Isa.ImmB, Isa.ImmU, Isa.ImmJ;
    var op := Opcode(ir);
    if op in {ITYPE_L, ITYPE_J, ITYPE_E} || (op == ITYPE && Funct3(ir) != 1 && Funct3(ir) != 5) {
      ImmediateI(ir);
    } else if op == STYPE {
      ImmediateS(ir);
    } else if op == BTYPE {
      ImmediateB(ir);
    } else if op in {UTYPE_L, UTYPE_A} {
      ImmediateU(ir);
    } else if op == JTYPE {
      ImmediateJ(ir);
    }
  }

  // ---------------------------------------------------------------
  // Arithmetic
  // ---------------------------------------------------------------

  function OpCode(k: Isa.AluKind): nat {
    match k
    case Add => Alu.ADD_OP
    case Sub => Alu.SUB_OP
    case Sll => Alu.SLL_OP
    case Slt => Alu.SLT_OP
    case Sltu => Alu.SLTU_OP
    case Xor => Alu.XOR_OP
    case Srl => Alu.SRL_OP
    case Sra => Alu.SRA_OP
    case Or => Alu.OR_OP
    case And => Alu.AND_OP
  }

  lemma ArithmeticRefines(k: Isa.AluKind, a: Word, b: Word)
    requires k in {Isa.Add, Isa.Sub, Isa.Slt, Isa.Sltu}
    ensures RangerRisc.AluY(OpCode(k), a, b) == Isa.Compute(k, a, b)
  {
    Pow2Of32();
    Alu.SetLessThanAgreesWithBranches(32, a, b);
  }

  lemma BitwiseRefines(k: Isa.AluKind, a: Word, b: Word)
    requires k in {Isa.Xor, Isa.Or, Isa.And}
    ensures RangerRisc.AluY(OpCode(k), a, b) == Isa.Compute(k, a, b)
  {
    hide Xor, Or, And;
    Pow2Of32();
    BitwiseFits(a, b, 32);
  }

  lemma ShiftRefines(k: Isa.AluKind, a: Word, b: Word)
    requires k in {Isa.Sll, Isa.Srl}
    ensures RangerRisc.AluY(OpCode(k), a, b) == Isa.Compute(k, a, b)
  {
    Pow2Of32();
    QuotientBounds(a, Pow2(b));
  }

  lemma SraRefines(a: Word, b: Word)
    ensures RangerRisc.AluY(OpCode(Isa.Sra), a, b) == Isa.Compute(Isa.Sra, a, b)
  {
    Pow2Of32();
    if b <= 32 {
      Alu.ArithmeticShift(32, a, b);
    }
  }

  /** The ALU computes the interpreter's operation. */
  lemma AluRefines(k: Isa.AluKind, a: Word, b: Word)
    ensures RangerRisc.AluY(OpCode(k), a, b) == Isa.Compute(k, a, b)
  {
    hide Isa.Compute, RangerRisc.AluY, OpCode;
    match k
    case Sra => SraRefines(a, b);
    case Sll | Srl => ShiftRefines(k, a, b);
    case Xor | Or | And => BitwiseRefines(k, a, b);
    case _ => ArithmeticRefines(k, a, b);
  }

  function BranchCode(c: Isa.Cond): nat {
    match c
    case Eq => Alu.BEQ
    case Ne => Alu.BNE
    case Lt => Alu.BLT
    case Ge => Alu.BGE
    case Ltu => Alu.BLTU
    case Geu => Alu.BGEU
  }

  /** The flags of rs1 - rs2 decide the branch condition. */
  lemma BranchRefines(c: Isa.Cond, a: Word, b: Word)
    ensures Alu.TakeBranch(BranchCode(c), RangerRisc.AluFlags(Alu.SUB_OP, a, b)) <==> Isa.Holds(c, a, b)
  {
    Pow2Of32();
    Alu.BranchDecidesComparison(32, a, b);
  }

  // ---------------------------------------------------------------
  // The dialect against the standard
  // ---------------------------------------------------------------

  predicate IsShift(k: Isa.AluKind) {
    k in {Isa.Sll, Isa.Srl, Isa.Sra}
  }

  /** A register shift gives, for every operand, the result the standard asks for (the amount
      taken modulo 32) exactly when the amount is below 32. */
  lemma ShiftConformsIffSmall(k: Isa.AluKind, b: Word)
    requires IsShift(k)
    ensures (forall a: Word :: Isa.Compute(k, a, b) == Isa.Compute(k, a, b % 32)) <==> b < 32
  {
    if b >= 32 {
      ShiftWitness(k, b);
    }
  }

  function Witness(k: Isa.AluKind): Word {
    match k
    case Sll => 1
    case Srl => 0xFFFF_FFFF
    case _ => 0x8000_0000
  }

  lemma ShiftWitness(k: Isa.AluKind, b: Word)
    requires IsShift(k) && b >= 32
    ensures Isa.Compute(k, Witness(k), b) != Isa.Compute(k, Witness(k), b % 32)
  {
    match k
    case Sll => SllWitness(b);
    case Srl => SrlWitness(b);
    case Sra => SraWitness(b);
  }

  lemma SllWitness(b: Word)
    requires b >= 32
    ensures Isa.Compute(Isa.Sll, 1, b) != Isa.Compute(Isa.Sll, 1, b % 32)
  {
    var s := b % 32;
    Pow2Of32();
    Pow2Monotone(s, 31);
    Pow2Add(32, b - 32);
    var p := Pow2(b - 32);
    assert 1 * Pow2(b) == 0 + p * 0x1_0000_0000;
    DivideSum(0, p, 0x1_0000_0000);
  }

  lemma SrlWitness(b: Word)
    requires b >= 32
    ensures Isa.Compute(Isa.Srl, 0xFFFF_FFFF, b) != Isa.Compute(Isa.Srl, 0xFFFF_FFFF, b % 32)
  {
    var s := b % 32;
    Pow2Of32();
    Pow2Monotone(32, b);
    DivideUnique(0xFFFF_FFFF, Pow2(b), 0, 0xFFFF_FFFF);
    Pow2Monotone(s, 31);
    QuotientPositive(0xFFFF_FFFF, Pow2(s));
    QuotientBounds(0xFFFF_FFFF, Pow2(s));
  }

  lemma QuotientPositive(x: nat, d: nat)
    requires 0 < d <= x
    ensures x / d > 0
  {
    assert x == x / d * d + x % d;
    QuotientBounds(x, d);
  }

  lemma SraSmall(s: nat)
    requires s < 32
    ensures Isa.Compute(Isa.Sra, 0x8000_0000, s) == 0x1_0000_0000 - Pow2(31 - s)
    ensures 1 <= Pow2(31 - s) <= 0x8000_0000
  {
    Pow2Of32();
    Pow2Add(31 - s, s);
    Pow2Monotone(31 - s, 31);
    NegativeQuotient(0x8000_0000, Pow2(31 - s), Pow2(s));
    WrapNegative(Pow2(31 - s));
  }

  lemma NegativeQuotient(x: int, q: int, d: int)
    requires d > 0 && x == q * d
    ensures (-x) / d == -q
  {
    assert (-q) * d == -(q * d);
    DivideUnique(-x, d, -q, 0);
  }

  lemma WrapNegative(q: int)
    requires 1 <= q <= 0x8000_0000
    ensures Wrap(-q) == 0x1_0000_0000 - q
  {
  }

  lemma SraLarge(b: Word)
    requires b >= 32
    ensures if b == 32 then Isa.Compute(Isa.Sra, 0x8000_0000, b) == 0xFFFF_FFFF
            else Isa.Compute(Isa.Sra, 0x8000_0000, b) < 0x8000_0000
  {
    Pow2Of32();
    if b == 32 {
      DivideUnique(-0x8000_0000, Pow2(32), -1, 0x8000_0000);
    } else {
      Pow2Add(1, 32);
      Pow2Monotone(33, b);
      SmallQuotient(0xFFFF_FFFF_8000_0000, Pow2(b));
    }
  }

  lemma SraWitness(b: Word)
    requires b >= 32
    ensures Isa.Compute(Isa.Sra, 0x8000_0000, b) != Isa.Compute(Isa.Sra, 0x8000_0000, b % 32)
  {
    SraSmall(b % 32);
    SraLarge(b);
    Pow2Of32();
  }

  lemma SmallQuotient(x: nat, d: nat)
    requires x < 0x1_0000_0000_0000_0000 && d >= 0x2_0000_0000
    ensures 0 <= x / d < 0x8000_0000
  {
    QuotientBounds(x, d);
    assert x == x / d * d + x % d;
    if x / d >= 0x8000_0000 {
      MulMonotone(0x8000_0000, x / d, d);
    }
  }

  /** jalr lands on the standard's target (bit 0 cleared) exactly when rs1 + imm is even. */
  lemma JalrConformsIffEven(a: Isa.Arch, rd: RegIndex, rs1: RegIndex, imm: int)
    ensures var target := Wrap(a.regs[rs1] + imm);
            Isa.Execute(a, Isa.Jalr(rd, rs1, imm)).pc == target - target % 2 <==> (a.regs[rs1] + imm) % 2 == 0
  {
    WrapParity(a.regs[rs1] + imm);
  }

  lemma WrapParity(x: int)
    ensures Wrap(x) % 2 == x % 2
  {
  }
}
