/** Decoding undoes assembling: exactly which operands survive each encoding. */
module AsmRoundTrip {
  import opened Bits
  import opened Assemblers
  import Encoding
  import DecodeRefinement
  import Isa

  predicate FieldBounds(op: nat, rd: nat, f3: nat, rs1: nat, rs2: nat, f7: nat) {
    op < 0x80 && rd < 32 && f3 < 8 && rs1 < 32 && rs2 < 32 && f7 < 0x80
  }

  lemma Peel(x: nat, low: nat, high: nat, m: nat)
    requires m > 0 && low < m && x == low + m * high
    ensures x / m == high && x % m == low
  {
    DivideUnique(x, m, high, low);
  }

  lemma LowFields(op: nat, rd: nat, f3: nat, rs1: nat, rs2: nat, f7: nat)
    requires FieldBounds(op, rd, f3, rs1, rs2, f7)
    ensures var w := Word6(op, rd, f3, rs1, rs2, f7);
      && w < 0x1_0000_0000
      && w % 0x80 == op && w / 0x80 % 32 == rd && w / 0x1000 % 8 == f3
      && w / 0x80 == rd + 0x20 * (w / 0x1000) && w / 0x1000 == f3 + 8 * (rs1 + 32 * (rs2 + 32 * f7))
  {
    var w := Word6(op, rd, f3, rs1, rs2, f7);
    var h := f3 + 8 * (rs1 + 32 * (rs2 + 32 * f7));
    Peel(w, op, rd + 0x20 * h, 0x80);
    hide Word6;
    Peel(w / 0x80, rd, h, 0x20);
    assert w / 0x1000 == w / 0x80 / 0x20;
    Peel(h, f3, rs1 + 32 * (rs2 + 32 * f7), 8);
  }

  lemma Nested(w: nat)
    ensures w / 0x8000 == w / 0x1000 / 8 && w / 0x10_0000 == w / 0x8000 / 32
    ensures w / 0x200_0000 == w / 0x10_0000 / 32 && w / 0x8000_0000 == w / 0x200_0000 / 64
    ensures w / 0x20_0000 == w / 0x10_0000 / 2 && w / 0x100 == w / 0x80 / 2
  {
  }

  lemma HighFields(op: nat, rd: nat, f3: nat, rs1: nat, rs2: nat, f7: nat)
    requires FieldBounds(op, rd, f3, rs1, rs2, f7)
    ensures var w := Word6(op, rd, f3, rs1, rs2, f7);
      && w < 0x1_0000_0000
      && w / 0x8000 % 32 == rs1 && w / 0x10_0000 % 32 == rs2 && w / 0x200_0000 == f7
      && w / 0x10_0000 == rs2 + 32 * f7
  {
    var w := Word6(op, rd, f3, rs1, rs2, f7);
    LowFields(op, rd, f3, rs1, rs2, f7);
    hide Word6;
    Nested(w);
    Peel(w / 0x1000, f3, rs1 + 32 * (rs2 + 32 * f7), 8);
    Peel(w / 0x8000, rs1, rs2 + 32 * f7, 32);
    Peel(w / 0x10_0000, rs2, f7, 32);
  }

  lemma FineFields(op: nat, rd: nat, f3: nat, rs1: nat, rs2: nat, f7: nat)
    requires FieldBounds(op, rd, f3, rs1, rs2, f7)
    ensures var w := Word6(op, rd, f3, rs1, rs2, f7);
      && w < 0x1_0000_0000
      && w / 0x80 % 2 == rd % 2 && w / 0x100 % 16 == rd / 2
      && w / 0x8000_0000 == f7 / 64 && w / 0x200_0000 % 64 == f7 % 64
      && w / 0x10_0000 % 2 == rs2 % 2 && w / 0x20_0000 % 1024 == rs2 / 2 + 16 * (f7 % 64)
      && w / 0x1000 % 256 == f3 + 8 * rs1
  {
    LowFields(op, rd, f3, rs1, rs2, f7);
    HighFields(op, rd, f3, rs1, rs2, f7);
    var w := Word6(op, rd, f3, rs1, rs2, f7);
    hide Word6;
    Nested(w);
    Peel(w / 0x1000, f3 + 8 * rs1, rs2 + 32 * f7, 256);
    HalfField(w / 0x80, rd, w / 0x1000);
    HalfField(w / 0x10_0000, rs2, f7);
    Peel(w / 0x20_0000, rs2 / 2 + 16 * (f7 % 64), f7 / 64, 1024);
    Peel(w / 0x100, rd / 2, w / 0x1000, 16);
  }

  lemma HalfField(x: nat, low: nat, high: nat)
    requires x == low + 32 * high && low < 32
    ensures x % 2 == low % 2 && x / 2 == low / 2 + 16 * high
  {
  }

  // ---------------------------------------------------------------
  // Branches and jal
  // ---------------------------------------------------------------

  predicate Even(lo: int, v: int, hi: int) {
    lo <= v <= hi && v % 2 == 0
  }

  lemma BOffset(d: int)
    ensures var x := Isa.SignExtend(BField7(d) / 64 * 0x1000 + BFieldRd(d) % 2 * 0x800
                             + BField7(d) % 64 * 32 + BFieldRd(d) / 2 * 2, 0x1000);
      x == d <==> Even(-4096, d, 4094)
  {
    var top, b11, mid, low := d / 0x8_0000 % 2, d / 0x800 % 2, d / 32 % 64, d / 2 % 16;
    assert BField7(d) / 64 == top && BField7(d) % 64 == mid && BFieldRd(d) % 2 == b11 && BFieldRd(d) / 2 == low;
    if Even(-4096, d, 4094) {
      Recompose12(d);
      TopOfSmall(d);
    }
  }

  lemma Recompose12(d: int)
    requires d % 2 == 0
    ensures d == d / 0x1000 * 0x1000 + d / 0x800 % 2 * 0x800 + d / 32 % 64 * 32 + d / 2 % 16 * 2
  {
    assert d / 0x1000 == d / 0x800 / 2;
    assert d / 0x800 == d / 32 / 64;
    assert d / 32 == d / 2 / 16;
  }

  lemma TopOfSmall(d: int)
    requires -4096 <= d < 4096
    ensures d / 0x8_0000 % 2 == (if d < 0 then 1 else 0) && d / 0x1000 == (if d < 0 then -1 else 0)
  {
  }

  /** A branch decodes to its operands exactly if its offset is even and in [-4096, 4094]; the bit 19
      that stands in for bit 12 as the sign is right just there. */
  lemma BranchRoundTrip(c: Isa.Cond, rs1: int, rs2: int, d: int)
    ensures BWord(c, rs1, rs2, d) < 0x1_0000_0000
    ensures Isa.Decode(BWord(c, rs1, rs2, d)) == Isa.Branch(c, rs1 % 32, rs2 % 32, d) <==> Even(-4096, d, 4094)
    ensures Even(-4096, d, 4094) ==> Encoding.Immediate(BWord(c, rs1, rs2, d)) == Wrap(d)
  {
    var w := BWord(c, rs1, rs2, d);
    LowFields(0x63, BFieldRd(d), CondFunct3(c), rs1 % 32, rs2 % 32, BField7(d));
    HighFields(0x63, BFieldRd(d), CondFunct3(c), rs1 % 32, rs2 % 32, BField7(d));
    FineFields(0x63, BFieldRd(d), CondFunct3(c), rs1 % 32, rs2 % 32, BField7(d));
    BOffset(d);
    hide BWord, BField7, BFieldRd;
    DecodesBranch(w, c, rs1 % 32, rs2 % 32);
    DecodeRefinement.ImmediateRefines(w);
  }

  lemma DecodesBranch(w: Word, c: Isa.Cond, rs1: Isa.RegIndex, rs2: Isa.RegIndex)
    requires w % 0x80 == 0x63 && w / 0x1000 % 8 == CondFunct3(c) && w / 0x8000 % 32 == rs1 && w / 0x10_0000 % 32 == rs2
    ensures Isa.Decode(w) == Isa.Branch(c, rs1, rs2, Isa.ImmB(w))
  {
    hide Isa.ImmB;
  }

  /** The digits of a J-format offset make an even offset in range. */
  lemma JAssembled(top: int, k: int, b11: int, mid: int, low: int)
    requires 0 <= top < 2 && 0 <= k < 0x100 && 0 <= b11 < 2 && 0 <= mid < 64 && 0 <= low < 16
    ensures Even(-0x10_0000,
                 Isa.SignExtend(top * 0x10_0000 + k * 0x1000 + b11 * 0x800 + (low + 16 * mid) * 2, 0x10_0000), 0xF_FFFE)
  {
    var half := top * 0x8_0000 + k * 0x800 + b11 * 0x400 + low + 16 * mid;
    DivideUnique(2 * half, 2, half, 0);
    DivideUnique(2 * half - 0x20_0000, 2, half - 0x10_0000, 0);
  }

  lemma JReassembled(d: int)
    requires Even(-0x10_0000, d, 0xF_FFFE)
    ensures Isa.SignExtend(d / 0x10_0000 % 2 * 0x10_0000 + (d / 0x1000 % 8 + 8 * (d / 0x8000 % 32)) * 0x1000
                             + d / 0x800 % 2 * 0x800 + (d / 2 % 16 + 16 * (d / 32 % 64)) * 2, 0x10_0000) == d
  {
    Recompose12(d);
    Recompose20(d / 0x1000);
    TopOfMiddling(d);
  }

  lemma JOffset(d: int)
    ensures var x := Isa.SignExtend(JField7(d) / 64 * 0x10_0000 + (d / 0x1000 % 8 + 8 * (d / 0x8000 % 32)) * 0x1000
                                      + JFieldRs2(d) % 2 * 0x800
                                      + (JFieldRs2(d) / 2 + 16 * (JField7(d) % 64)) * 2, 0x10_0000);
      x == d <==> Even(-0x10_0000, d, 0xF_FFFE)
  {
    var top, b11, mid, low := d / 0x10_0000 % 2, d / 0x800 % 2, d / 32 % 64, d / 2 % 16;
    var k := d / 0x1000 % 8 + 8 * (d / 0x8000 % 32);
    JParts(d);
    hide JField7, JFieldRs2;
    JAssembled(top, k, b11, mid, low);
    if Even(-0x10_0000, d, 0xF_FFFE) {
      JReassembled(d);
    }
  }

  lemma JParts(d: int)
    ensures JField7(d) / 64 == d / 0x10_0000 % 2 && JField7(d) % 64 == d / 32 % 64
    ensures JFieldRs2(d) % 2 == d / 0x800 % 2 && JFieldRs2(d) / 2 == d / 2 % 16
  {
  }

  lemma TopOfMiddling(d: int)
    requires -0x10_0000 <= d < 0x10_0000
    ensures d / 0x10_0000 == (if d < 0 then -1 else 0)
    ensures d / 0x8000 == d / 0x1000 / 8 && d / 0x10_0000 == d / 0x1000 / 0x100
  {
  }

  lemma Recompose20(x: int)
    ensures x == x / 0x100 * 0x100 + (x % 8 + 8 * (x / 8 % 32))
  {
    assert x / 0x100 == x / 8 / 32;
  }

  /** jal decodes to its operands exactly if its offset is even and in [-2^20, 2^20 - 2]. */
  lemma JalRoundTrip(rd: int, d: int)
    ensures JWord(rd, d) < 0x1_0000_0000
    ensures Isa.Decode(JWord(rd, d)) == Isa.Jal(rd % 32, d) <==> Even(-0x10_0000, d, 0xF_FFFE)
    ensures Even(-0x10_0000, d, 0xF_FFFE) ==> Encoding.Immediate(JWord(rd, d)) == Wrap(d)
  {
    var w := JWord(rd, d);
    var f3, rs1 := d / 0x1000 % 8, d / 0x8000 % 32;
    LowFields(0x6F, rd % 32, f3, rs1, JFieldRs2(d), JField7(d));
    FineFields(0x6F, rd % 32, f3, rs1, JFieldRs2(d), JField7(d));
    JOffset(d);
    hide JWord, JField7, JFieldRs2;
    DecodeRefinement.ImmediateRefines(w);
  }

  // ---------------------------------------------------------------
  // Twelve-bit immediates
  // ---------------------------------------------------------------

  predicate Small(v: int) {
    -2048 <= v <= 2047
  }

  lemma TwelveBits(v: int)
    ensures Isa.SignExtend(v % 32 + 32 * (v / 32 % 128), 0x800) == v <==> Small(v)
    ensures IField7(v, false) == v / 32 % 128
  {
    assert v / 0x800 == v / 32 / 64 && v / 0x400 == v / 32 / 32;
    SevenBits(v / 32);
    assert v == v / 0x1000 * 0x1000 + (v % 32 + 32 * (v / 32 % 128)) by {
      assert v / 0x1000 == v / 32 / 128;
    }
  }

  lemma SevenBits(x: int)
    ensures x % 128 == x / 64 % 2 * 64 + x / 32 % 2 * 32 + x % 32
  {
    assert x / 64 == x / 32 / 2;
    assert x / 128 == x / 64 / 2;
  }

  function LoadInstr(op: LoadOp, rd: Isa.RegIndex, rs1: Isa.RegIndex, imm: int): Isa.Instr {
    match op
    case Lb => Isa.Load(1, false, rd, rs1, imm)
    case Lh => Isa.Load(2, false, rd, rs1, imm)
    case Lw => Isa.Load(4, false, rd, rs1, imm)
    case Lbu => Isa.Load(1, true, rd, rs1, imm)
    case Lhu => Isa.Load(2, true, rd, rs1, imm)
  }

  /** A load decodes to its operands exactly if its offset is in [-2048, 2047]. */
  lemma LoadRoundTrip(op: LoadOp, rd: int, rs1: int, imm: int)
    ensures var w := IWord(0x03, LoadFunct3(op), rd, rs1, imm, false);
      && w < 0x1_0000_0000
      && (Isa.Decode(w) == LoadInstr(op, rd % 32, rs1 % 32, imm) <==> Small(imm))
      && (Small(imm) ==> Encoding.Immediate(w) == Wrap(imm))
  {
    var w := IWord(0x03, LoadFunct3(op), rd, rs1, imm, false);
    TwelveBits(imm);
    LowFields(0x03, rd % 32, LoadFunct3(op), rs1 % 32, imm % 32, IField7(imm, false));
    HighFields(0x03, rd % 32, LoadFunct3(op), rs1 % 32, imm % 32, IField7(imm, false));
    hide IWord, IField7;
    DecodeRefinement.ImmediateRefines(w);
  }

  /** A register-immediate operation decodes to its operands exactly if its immediate is in
      [-2048, 2047], or for a shift in [0, 31]. */
  lemma ImmediateRoundTrip(k: Isa.AluKind, rd: int, rs1: int, imm: int)
    requires k != Isa.Sub
    ensures var w := IWord(0x13, AluFunct3(k), rd, rs1, imm, k == Isa.Sra);
      var fits := if k in {Isa.Sll, Isa.Srl, Isa.Sra} then 0 <= imm < 32 else Small(imm);
      && w < 0x1_0000_0000
      && (Isa.Decode(w) == Isa.OpImm(k, rd % 32, rs1 % 32, imm) <==> fits)
      && (fits ==> Encoding.Immediate(w) == Wrap(imm))
  {
    if k in {Isa.Sll, Isa.Srl, Isa.Sra} {
      ShiftRoundTrip(k, rd, rs1, imm);
    } else {
      PlainRoundTrip(k, rd, rs1, imm);
    }
  }

  lemma ShiftRoundTrip(k: Isa.AluKind, rd: int, rs1: int, imm: int)
    requires k in {Isa.Sll, Isa.Srl, Isa.Sra}
    ensures var w := IWord(0x13, AluFunct3(k), rd, rs1, imm, k == Isa.Sra);
      && w < 0x1_0000_0000
      && (Isa.Decode(w) == Isa.OpImm(k, rd % 32, rs1 % 32, imm) <==> 0 <= imm < 32)
      && (0 <= imm < 32 ==> Encoding.Immediate(w) == Wrap(imm))
  {
    hide Isa.Decode, Encoding.Immediate;
    var sra := k == Isa.Sra;
    var w := IWord(0x13, AluFunct3(k), rd, rs1, imm, sra);
    LowFields(0x13, rd % 32, AluFunct3(k), rs1 % 32, imm % 32, IField7(imm, sra));
    HighFields(0x13, rd % 32, AluFunct3(k), rs1 % 32, imm % 32, IField7(imm, sra));
    hide IWord;
    ShiftBits(imm, sra);
    hide IField7;
    ShiftDecodes(w, k, rd % 32, rs1 % 32);
  }

  lemma PlainRoundTrip(k: Isa.AluKind, rd: int, rs1: int, imm: int)
    requires k !in {Isa.Sub, Isa.Sll, Isa.Srl, Isa.Sra}
    ensures var w := IWord(0x13, AluFunct3(k), rd, rs1, imm, false);
      && w < 0x1_0000_0000
      && (Isa.Decode(w) == Isa.OpImm(k, rd % 32, rs1 % 32, imm) <==> Small(imm))
      && (Small(imm) ==> Encoding.Immediate(w) == Wrap(imm))
  {
    hide Isa.Decode, Encoding.Immediate;
    var w := IWord(0x13, AluFunct3(k), rd, rs1, imm, false);
    TwelveBits(imm);
    LowFields(0x13, rd % 32, AluFunct3(k), rs1 % 32, imm % 32, IField7(imm, false));
    HighFields(0x13, rd % 32, AluFunct3(k), rs1 % 32, imm % 32, IField7(imm, false));
    hide IWord, IField7;
    DecodeRefinement.ImmediateRefines(w);
    ImmediateDecodes(w, k, rd % 32, rs1 % 32);
  }

  lemma ShiftDecodes(w: Word, k: Isa.AluKind, rd: Isa.RegIndex, rs1: Isa.RegIndex)
    requires k in {Isa.Sll, Isa.Srl, Isa.Sra}
    requires w % 0x80 == 0x13 && w / 0x80 % 32 == rd && w / 0x1000 % 8 == AluFunct3(k) && w / 0x8000 % 32 == rs1
    ensures var shamt := w / 0x10_0000 % 32;
      && (w / 0x200_0000 == (if k == Isa.Sra then 0x20 else 0) ==> Isa.Decode(w) == Isa.OpImm(k, rd, rs1, shamt))
      && (Isa.Decode(w).OpImm? ==> Isa.Decode(w).imm == shamt)
      && Encoding.Immediate(w) == shamt
  {
    hide Isa.ImmI;
  }

  lemma ImmediateDecodes(w: Word, k: Isa.AluKind, rd: Isa.RegIndex, rs1: Isa.RegIndex)
    requires k !in {Isa.Sub, Isa.Sll, Isa.Srl, Isa.Sra}
    requires w % 0x80 == 0x13 && w / 0x80 % 32 == rd && w / 0x1000 % 8 == AluFunct3(k) && w / 0x8000 % 32 == rs1
    ensures Isa.Decode(w) == Isa.OpImm(k, rd, rs1, Isa.ImmI(w))
  {
    hide Isa.ImmI;
  }

  lemma ShiftBits(imm: int, srai: bool)
    ensures imm % 32 == imm <==> 0 <= imm < 32
    ensures 0 <= imm < 32 ==> IField7(imm, srai) == if srai then 0x20 else 0
  {
  }

  /** jalr loses bit 0 of its offset, so it decodes to its operands exactly if the offset is even and
      in [-2048, 2046]. */
  lemma JalrRoundTrip(rd: int, rs1: int, offset: int)
    ensures var w := JalrWord(rd, rs1, offset);
      && w < 0x1_0000_0000
      && (Isa.Decode(w) == Isa.Jalr(rd % 32, rs1 % 32, offset) <==> Even(-2048, offset, 2046))
      && (Even(-2048, offset, 2046) ==> Encoding.Immediate(w) == Wrap(offset))
  {
    var w := JalrWord(rd, rs1, offset);
    TwelveBits(offset / 2 * 2);
    EvenPart(offset);
    TwelveBits(offset);
    LowFields(0x67, rd % 32, 0, rs1 % 32, offset / 2 % 16 * 2, IField7(offset, false));
    HighFields(0x67, rd % 32, 0, rs1 % 32, offset / 2 % 16 * 2, IField7(offset, false));
    hide JalrWord, IField7;
    DecodesJalr(w, rd % 32, rs1 % 32);
    DecodeRefinement.ImmediateRefines(w);
  }

  lemma EvenPart(v: int)
    ensures v / 2 * 2 % 32 == v / 2 % 16 * 2 && v / 2 * 2 / 32 == v / 32
    ensures Even(-2048, v, 2046) <==> Small(v / 2 * 2) && v / 2 * 2 == v
  {
    DivideUnique(v / 2, 16, v / 32, v / 2 % 16) by {
      assert v / 2 / 16 == v / 32;
    }
    DivideUnique(v / 2 * 2, 32, v / 32, 2 * (v / 2 % 16));
  }

  lemma DecodesJalr(w: Word, rd: Isa.RegIndex, rs1: Isa.RegIndex)
    requires w % 0x80 == 0x67 && w / 0x80 % 32 == rd && w / 0x1000 % 8 == 0 && w / 0x8000 % 32 == rs1
    ensures Isa.Decode(w) == Isa.Jalr(rd, rs1, Isa.ImmI(w))
  {
    hide Isa.ImmI;
  }

  function StoreInstr(op: StoreOp, rs1: Isa.RegIndex, rs2: Isa.RegIndex, imm: int): Isa.Instr {
    match op
    case Sb => Isa.Store(1, rs1, rs2, imm)
    case Sh => Isa.Store(2, rs1, rs2, imm)
    case Sw => Isa.Store(4, rs1, rs2, imm)
  }

  /** A store decodes to its operands exactly if its offset is in [-2048, 2047]. */
  lemma StoreRoundTrip(op: StoreOp, rs1: int, rs2: int, imm: int)
    ensures var w := SWord(op, rs1, rs2, imm);
      && w < 0x1_0000_0000
      && (Isa.Decode(w) == StoreInstr(op, rs1 % 32, rs2 % 32, imm) <==> Small(imm))
      && (Small(imm) ==> Encoding.Immediate(w) == Wrap(imm))
  {
    var w := SWord(op, rs1, rs2, imm);
    TwelveBits(imm);
    LowFields(0x23, imm % 32, StoreFunct3(op), rs1 % 32, rs2 % 32, imm / 32 % 128);
    HighFields(0x23, imm % 32, StoreFunct3(op), rs1 % 32, rs2 % 32, imm / 32 % 128);
    hide SWord;
    DecodeRefinement.ImmediateRefines(w);
  }

  // ---------------------------------------------------------------
  // lui, auipc and register-register operations
  // ---------------------------------------------------------------

  lemma TwentyBits(v: int)
    ensures v % 8 + 8 * (v / 8 % 32 + 32 * (v / 0x100 % 32 + 32 * (v / 0x2000 % 128))) == v % 0x10_0000
  {
    assert v / 0x100 == v / 8 / 32;
    assert v / 0x2000 == v / 0x100 / 32;
    assert v / 0x10_0000 == v / 0x2000 / 128;
  }

  /** lui and auipc load the low twenty bits of the immediate into [31:12]: the value decoded is the
      immediate times 4096 exactly if that is in [0, 2^20). */
  lemma UpperRoundTrip(rd: int, imm: int)
    ensures var l, a := UWord(0x37, rd, imm), UWord(0x17, rd, imm);
      && l < 0x1_0000_0000 && a < 0x1_0000_0000
      && (Isa.Decode(l) == Isa.Lui(rd % 32, imm * 0x1000) <==> 0 <= imm < 0x10_0000)
      && (Isa.Decode(a) == Isa.Auipc(rd % 32, imm * 0x1000) <==> 0 <= imm < 0x10_0000)
      && Encoding.Immediate(l) == Encoding.Immediate(a) == Wrap(imm * 0x1000)
  {
    var l, a := UWord(0x37, rd, imm), UWord(0x17, rd, imm);
    TwentyBits(imm);
    LowFields(0x37, rd % 32, imm % 8, imm / 8 % 32, imm / 0x100 % 32, imm / 0x2000 % 128);
    LowFields(0x17, rd % 32, imm % 8, imm / 8 % 32, imm / 0x100 % 32, imm / 0x2000 % 128);
    hide UWord;
    DecodeRefinement.ImmediateRefines(l);
    DecodeRefinement.ImmediateRefines(a);
    assert l / 0x1000 == imm % 0x10_0000 && a / 0x1000 == imm % 0x10_0000;
    WrapTwelve(imm);
  }

  lemma WrapTwelve(imm: int)
    ensures Wrap(imm * 0x1000) == imm % 0x10_0000 * 0x1000 == Wrap(imm % 0x10_0000 * 0x1000)
    ensures imm % 0x10_0000 == imm <==> 0 <= imm < 0x10_0000
  {
  }

  /** Register-register operations always decode to their operands. */
  lemma RegisterRoundTrip(k: Isa.AluKind, rd: int, rs1: int, rs2: int)
    ensures RWord(k, rd, rs1, rs2) < 0x1_0000_0000
    ensures Isa.Decode(RWord(k, rd, rs1, rs2)) == Isa.Op(k, rd % 32, rs1 % 32, rs2 % 32)
  {
    var f7 := if k == Isa.Sub || k == Isa.Sra then 0x20 else 0;
    LowFields(0x33, rd % 32, AluFunct3(k), rs1 % 32, rs2 % 32, f7);
    HighFields(0x33, rd % 32, AluFunct3(k), rs1 % 32, rs2 % 32, f7);
    hide RWord;
  }
}
