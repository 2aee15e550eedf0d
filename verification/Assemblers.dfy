/** The instruction assemblers: each scatters bit fields of its operands into a 32-element array
    of bits and prints it.  Operands are numbers; register names and mnemonics are already parsed. */
module Assemblers {
  import opened Bits
  import opened AsmBits
  import opened AsmFormats
  import Isa

  /** A machine word by fields: opcode, [11:7], funct3, [19:15], [24:20], [31:25]. */
  function Word6(op: nat, rd: nat, f3: nat, rs1: nat, rs2: nat, f7: nat): nat {
    op + 0x80 * rd + 0x1000 * f3 + 0x8000 * rs1 + 0x10_0000 * rs2 + 0x200_0000 * f7
  }

  /** The number printed for bits [lo + n - 1 : lo] of an instruction array. */
  function Field(s: seq<Bit01>, lo: nat, n: nat): nat
    requires lo + n <= |s|
  {
    FromBits(Reversed(s[lo..lo + n]))
  }

  /** What the whole array prints as: its elements in reverse, as a binary number. */
  function Printed(s: seq<Bit01>): nat {
    FromBits(Reversed(s))
  }

  lemma ReversedConcat(a: seq<Bit01>, b: seq<Bit01>)
    ensures Reversed(a + b) == Reversed(b) + Reversed(a)
  {
  }

  lemma PeelField(s: seq<Bit01>, k: nat)
    requires k <= |s|
    ensures Printed(s) == Printed(s[..k]) + Pow2(k) * Printed(s[k..])
  {
    hide FromBits, Pow2, Reversed;
    ReversedConcat(s[..k], s[k..]);
    assert s[..k] + s[k..] == s;
    FromBitsConcat(Reversed(s[k..]), Reversed(s[..k]));
  }

  lemma SmallPowers()
    ensures Pow2(0) == 1 && Pow2(1) == 2 && Pow2(2) == 4 && Pow2(3) == 8 && Pow2(4) == 16 && Pow2(5) == 32
    ensures Pow2(6) == 64 && Pow2(7) == 128 && Pow2(8) == 256 && Pow2(10) == 1024 && Pow2(11) == 2048
    ensures Pow2(12) == 4096 && Pow2(13) == 8192 && Pow2(15) == 32768
  {
    assert Pow2(8) == 256;
    assert Pow2(12) == 4096;
  }

  lemma MiddlePowers()
    ensures Pow2(19) == 0x8_0000 && Pow2(20) == 0x10_0000
  {
    SmallPowers();
    assert Pow2(19) == 16 * Pow2(15);
  }

  lemma PrintedFields(s: seq<Bit01>)
    requires |s| == 32
    ensures Printed(s) == Word6(Field(s, 0, 7), Field(s, 7, 5), Field(s, 12, 3), Field(s, 15, 5), Field(s, 20, 5),
                                Field(s, 25, 7))
  {
    hide FromBits, Pow2, Reversed;
    SmallPowers();
    PeelField(s, 7);
    PeelField(s[7..], 5);
    PeelField(s[12..], 3);
    PeelField(s[15..], 5);
    PeelField(s[20..], 5);
    assert s[7..][..5] == s[7..12] && s[7..][5..] == s[12..] && s[12..][..3] == s[12..15] && s[12..][3..] == s[15..];
    assert s[15..][..5] == s[15..20] && s[15..][5..] == s[20..]
           && s[20..][..5] == s[20..25] && s[20..][5..] == s[25..32];
    assert s[..7] == s[0..7];
  }

  predicate SameFrom(s: seq<Bit01>, t: seq<Bit01>, lo: nat, n: nat) {
    lo + n <= |s| == |t| && forall k | lo <= k < lo + n :: s[k] == t[k]
  }

  lemma SameField(s: seq<Bit01>, t: seq<Bit01>, lo: nat, n: nat)
    requires SameFrom(s, t, lo, n)
    ensures Field(s, lo, n) == Field(t, lo, n)
  {
    assert s[lo..lo + n] == t[lo..lo + n];
  }

  lemma One(a: Bit01)
    ensures FromBits([a]) == a
  {
  }

  lemma Two(a: Bit01, b: Bit01)
    ensures FromBits([a, b]) == 2 * a + b
  {
    assert [a, b][..1] == [a];
    One(a);
  }

  lemma Three(a: Bit01, b: Bit01, c: Bit01)
    ensures FromBits([a, b, c]) == 4 * a + 2 * b + c
  {
    hide FromBits;
    LastDigit([a, b, c]);
    assert [a, b, c][..2] == [a, b];
    Two(a, b);
  }

  lemma Seven(a: Bit01, b: Bit01, c: Bit01, d: Bit01, e: Bit01, f: Bit01, g: Bit01)
    ensures FromBits([a, b, c, d, e, f, g]) == 64 * a + 32 * b + 16 * c + 8 * d + 4 * e + 2 * f + g
  {
    hide FromBits, Pow2;
    SmallPowers();
    Three(a, b, c);
    Three(d, e, f);
    One(g);
    FromBitsConcat([a, b, c], [d, e, f]);
    FromBitsConcat([a, b, c] + [d, e, f], [g]);
    assert [a, b, c, d, e, f, g] == [a, b, c] + [d, e, f] + [g];
  }

  // ---------------------------------------------------------------
  // Parts every assembler writes
  // ---------------------------------------------------------------

  method PrintReversed(instruction: array<Bit01>) returns (code: nat)
    ensures code == Printed(instruction[..])
  {
    hide FromBits;
    var instr := BinaryArrayToString(instruction, true);
    CharsBack(Reversed(instruction[..]));
    code := FromBits(BitsOf(instr));
  }

  /** The array produced for a number. */
  predicate Produced(p: seq<Bit01>, v: Int64) {
    |p| == Width(v) && FromBits(p) == Denoted(v)
  }

  /** Five bits of a register number at [at + 4 : at]. */
  method PutRegister(instruction: array<Bit01>, at: nat, reg: Int64)
    requires instruction.Length >= at + 5
    modifies instruction
    ensures forall k | 0 <= k < instruction.Length && !(at <= k < at + 5) :: instruction[k] == old(instruction[k])
    ensures InRange(reg) ==> Field(instruction[..], at, 5) == reg % 32
  {
    hide FromBits, Width, Denoted, InRange;
    var regArr := IntToBinaryArray(reg);
    WidthBound(reg);
    instruction[at + 4] := regArr[27];
    instruction[at + 3] := regArr[28];
    instruction[at + 2] := regArr[29];
    instruction[at + 1] := regArr[30];
    instruction[at] := regArr[31];
    if InRange(reg) {
      ghost var r := regArr[..];
      RegisterField(r, reg);
      assert Reversed(instruction[..][at..at + 5]) == r[27..32];
    }
  }

  lemma WidthBound(v: Int64)
    ensures Width(v) >= 32
  {
  }

  lemma RegisterField(p: seq<Bit01>, v: Int64)
    requires Produced(p, v) && InRange(v)
    ensures |p| == 32 && FromBits(p[27..32]) == v % 32
  {
    hide FromBits, Pow2, Width, Denoted, InRange;
    SmallPowers();
    FieldOf(p, v, 0, 5);
    assert v / 1 == v;
  }

  method PutFunct3(instruction: array<Bit01>, b14: Bit01, b13: Bit01, b12: Bit01)
    requires instruction.Length >= 32
    modifies instruction
    ensures forall k | 0 <= k < instruction.Length && !(12 <= k < 15) :: instruction[k] == old(instruction[k])
    ensures Field(instruction[..], 12, 3) == 4 * b14 + 2 * b13 + b12
  {
    hide FromBits;
    instruction[14] := b14;
    instruction[13] := b13;
    instruction[12] := b12;
    Three(b14, b13, b12);
    assert Reversed(instruction[..][12..15]) == [b14, b13, b12];
  }

  method PutOpcode(instruction: array<Bit01>, b6: Bit01, b5: Bit01, b4: Bit01,
                   b3: Bit01, b2: Bit01, b1: Bit01, b0: Bit01)
    requires instruction.Length >= 32
    modifies instruction
    ensures forall k | 7 <= k < instruction.Length :: instruction[k] == old(instruction[k])
    ensures Field(instruction[..], 0, 7) == 64 * b6 + 32 * b5 + 16 * b4 + 8 * b3 + 4 * b2 + 2 * b1 + b0
  {
    hide FromBits;
    instruction[6] := b6;
    instruction[5] := b5;
    instruction[4] := b4;
    instruction[3] := b3;
    instruction[2] := b2;
    instruction[1] := b1;
    instruction[0] := b0;
    assert Reversed(instruction[..][0..7]) == [b6, b5, b4, b3, b2, b1, b0];
    Seven(b6, b5, b4, b3, b2, b1, b0);
  }

  // ---------------------------------------------------------------
  // Branches
  // ---------------------------------------------------------------

  function CondFunct3(c: Isa.Cond): nat {
    match c
    case Eq => 0
    case Ne => 1
    case Lt => 4
    case Ge => 5
    case Ltu => 6
    case Geu => 7
  }

  function BField7(v: int): nat { v / 0x8_0000 % 2 * 64 + v / 32 % 64 }

  function BFieldRd(v: int): nat { v / 2 % 16 * 2 + v / 0x800 % 2 }

  /** The word BtypeBranch produces for operands in range: bit 31 is bit 19 of the offset. */
  function BWord(c: Isa.Cond, rs1: int, rs2: int, delta: int): nat {
    Word6(0x63, BFieldRd(delta), CondFunct3(c), rs1 % 32, rs2 % 32, BField7(delta))
  }

  lemma BFields(p: seq<Bit01>, v: Int64)
    requires Produced(p, v) && InRange(v)
    ensures |p| == 32
    ensures FromBits([p[12]] + p[21..27]) == BField7(v)
    ensures FromBits(p[27..31] + [p[20]]) == BFieldRd(v)
  {
    hide FromBits, Pow2, Width, Denoted, InRange;
    SmallPowers();
    MiddlePowers();
    FieldOf(p, v, 19, 1);
    FieldOf(p, v, 5, 6);
    FieldOf(p, v, 1, 4);
    FieldOf(p, v, 11, 1);
    FromBitsConcat([p[12]], p[21..27]);
    FromBitsConcat(p[27..31], [p[20]]);
    assert p[12..13] == [p[12]] && p[20..21] == [p[20]];
  }

  method ScatterB(instruction: array<Bit01>, produced: array<Bit01>)
    requires instruction.Length >= 32 && produced.Length >= 32 && instruction != produced
    modifies instruction
    ensures BScatter(instruction[..], produced[..])
  {
    instruction[31] := produced[12];
    instruction[30] := produced[21];
    instruction[29] := produced[22];
    instruction[28] := produced[23];
    instruction[27] := produced[24];
    instruction[26] := produced[25];
    instruction[25] := produced[26];
    instruction[11] := produced[27];
    instruction[10] := produced[28];
    instruction[9] := produced[29];
    instruction[8] := produced[30];
    instruction[7] := produced[20];
  }

  /** The branch immediate, scattered over [31:25] and [11:7]. */
  method PutBImmediate(instruction: array<Bit01>, delta: Int64)
    requires instruction.Length == 32
    modifies instruction
    ensures InRange(delta)
            ==> Field(instruction[..], 25, 7) == BField7(delta) && Field(instruction[..], 7, 5) == BFieldRd(delta)
  {
    hide FromBits, Width, Denoted, BField7, BFieldRd, InRange, Field, BScatter;
    var produced := IntToBinaryArray(delta);
    WidthBound(delta);
    ScatterB(instruction, produced);
    if InRange(delta) {
      BFields(produced[..], delta);
      BScattered(instruction[..], produced[..]);
    }
  }

  predicate BScatter(s: seq<Bit01>, p: seq<Bit01>) {
    && |s| >= 32 && |p| >= 32
    && s[31] == p[12] && s[30] == p[21] && s[29] == p[22] && s[28] == p[23]
    && s[27] == p[24] && s[26] == p[25] && s[25] == p[26]
    && s[11] == p[27] && s[10] == p[28] && s[9] == p[29] && s[8] == p[30] && s[7] == p[20]
  }

  lemma BScattered(s: seq<Bit01>, p: seq<Bit01>)
    requires |s| == 32 && |p| >= 32
    requires BScatter(s, p)
    ensures Field(s, 25, 7) == FromBits([p[12]] + p[21..27])
    ensures Field(s, 7, 5) == FromBits(p[27..31] + [p[20]])
  {
    hide FromBits;
    assert Reversed(s[25..32]) == [p[12], p[21], p[22], p[23], p[24], p[25], p[26]] == [p[12]] + p[21..27];
    assert Reversed(s[7..12]) == [p[27], p[28], p[29], p[30], p[20]] == p[27..31] + [p[20]];
  }

  method BtypeBranch(c: Isa.Cond, rs1: Int64, rs2: Int64, delta: Int64) returns (code: nat)
    ensures InRange(delta) && InRange(rs1) && InRange(rs2) ==> code == BWord(c, rs1, rs2, delta)
  {
    hide Field, Word6, BField7, BFieldRd, InRange, Printed;
    var instruction := new Bit01[32](i => 0);
    PutBImmediate(instruction, delta);
    ghost var s0 := instruction[..];
    PutRegister(instruction, 20, rs2);
    ghost var s1 := instruction[..];
    PutRegister(instruction, 15, rs1);
    ghost var s2 := instruction[..];
    match c {
      case Eq => PutFunct3(instruction, 0, 0, 0);
      case Ne => PutFunct3(instruction, 0, 0, 1);
      case Lt => PutFunct3(instruction, 1, 0, 0);
      case Ge => PutFunct3(instruction, 1, 0, 1);
      case Ltu => PutFunct3(instruction, 1, 1, 0);
      case Geu => PutFunct3(instruction, 1, 1, 1);
    }
    ghost var s3 := instruction[..];
    PutOpcode(instruction, 1, 1, 0, 0, 0, 1, 1);
    ghost var s4 := instruction[..];
    code := PrintReversed(instruction);
    SameField(s0, s4, 25, 7);
    SameField(s0, s4, 7, 5);
    SameField(s1, s4, 20, 5);
    SameField(s2, s4, 15, 5);
    SameField(s3, s4, 12, 3);
    PrintedFields(s4);
  }

  // ---------------------------------------------------------------
  // jal
  // ---------------------------------------------------------------

  function JField7(v: int): nat { v / 0x10_0000 % 2 * 64 + v / 32 % 64 }

  function JFieldRs2(v: int): nat { v / 2 % 16 * 2 + v / 0x800 % 2 }

  function JWord(rd: int, delta: int): nat {
    Word6(0x6F, rd % 32, delta / 0x1000 % 8, delta / 0x8000 % 32, JFieldRs2(delta), JField7(delta))
  }

  lemma JFields(p: seq<Bit01>, v: Int64)
    requires Produced(p, v) && InRange(v)
    ensures |p| == 32
    ensures FromBits([p[11]] + p[21..27]) == JField7(v)
    ensures FromBits(p[27..31] + [p[20]]) == JFieldRs2(v)
    ensures FromBits(p[12..17]) == v / 0x8000 % 32
    ensures FromBits(p[17..20]) == v / 0x1000 % 8
  {
    hide FromBits, Pow2, Width, Denoted, InRange;
    SmallPowers();
    MiddlePowers();
    FieldOf(p, v, 20, 1);
    FieldOf(p, v, 5, 6);
    FieldOf(p, v, 1, 4);
    FieldOf(p, v, 11, 1);
    FieldOf(p, v, 15, 5);
    FieldOf(p, v, 12, 3);
    FromBitsConcat([p[11]], p[21..27]);
    FromBitsConcat(p[27..31], [p[20]]);
    assert p[11..12] == [p[11]] && p[20..21] == [p[20]];
  }

  predicate JScatter(s: seq<Bit01>, p: seq<Bit01>) {
    && |s| >= 32 && |p| >= 32
    && s[31] == p[11] && s[30] == p[21] && s[29] == p[22] && s[28] == p[23]
    && s[27] == p[24] && s[26] == p[25] && s[25] == p[26]
    && s[24] == p[27] && s[23] == p[28] && s[22] == p[29] && s[21] == p[30] && s[20] == p[20]
    && s[19] == p[12] && s[18] == p[13] && s[17] == p[14] && s[16] == p[15] && s[15] == p[16]
    && s[14] == p[17] && s[13] == p[18] && s[12] == p[19]
  }

  lemma JScattered(s: seq<Bit01>, p: seq<Bit01>)
    requires |s| >= 32 && |p| >= 32
    requires JScatter(s, p)
    ensures Field(s, 25, 7) == FromBits([p[11]] + p[21..27])
    ensures Field(s, 20, 5) == FromBits(p[27..31] + [p[20]])
    ensures Field(s, 15, 5) == FromBits(p[12..17])
    ensures Field(s, 12, 3) == FromBits(p[17..20])
  {
    hide FromBits;
    assert Reversed(s[25..32]) == [p[11], p[21], p[22], p[23], p[24], p[25], p[26]] == [p[11]] + p[21..27];
    assert Reversed(s[20..25]) == [p[27], p[28], p[29], p[30], p[20]] == p[27..31] + [p[20]];
    assert Reversed(s[15..20]) == [p[12], p[13], p[14], p[15], p[16]] == p[12..17];
    assert Reversed(s[12..15]) == [p[17], p[18], p[19]] == p[17..20];
  }

  method ScatterJ(instruction: array<Bit01>, produced: array<Bit01>)
    requires instruction.Length >= 32 && produced.Length >= 32 && instruction != produced
    modifies instruction
    ensures JScatter(instruction[..], produced[..])
  {
    instruction[31] := produced[11];
    instruction[30] := produced[21];
    instruction[29] := produced[22];
    instruction[28] := produced[23];
    instruction[27] := produced[24];
    instruction[26] := produced[25];
    instruction[25] := produced[26];
    instruction[24] := produced[27];
    instruction[23] := produced[28];
    instruction[22] := produced[29];
    instruction[21] := produced[30];
    instruction[20] := produced[20];
    instruction[19] := produced[12];
    instruction[18] := produced[13];
    instruction[17] := produced[14];
    instruction[16] := produced[15];
    instruction[15] := produced[16];
    instruction[14] := produced[17];
    instruction[13] := produced[18];
    instruction[12] := produced[19];
  }

  /** The array is as long as the digits of the offset. */
  method PutJImmediate(delta: Int64) returns (instruction: array<Bit01>)
    ensures fresh(instruction) && instruction.Length == Width(delta) >= 32
    ensures InRange(delta) ==>
      && instruction.Length == 32
      && Field(instruction[..], 25, 7) == JField7(delta) && Field(instruction[..], 20, 5) == JFieldRs2(delta)
      && Field(instruction[..], 15, 5) == delta / 0x8000 % 32 && Field(instruction[..], 12, 3) == delta / 0x1000 % 8
  {
    hide FromBits, Width, Denoted, JField7, JFieldRs2, InRange, Field, JScatter;
    var produced := IntToBinaryArray(delta);
    WidthBound(delta);
    instruction := new Bit01[produced.Length](i => 0);
    ScatterJ(instruction, produced);
    if InRange(delta) {
      JFields(produced[..], delta);
      JScattered(instruction[..], produced[..]);
    }
  }

  method Jal(rd: Int64, delta: Int64) returns (code: nat)
    ensures InRange(delta) && InRange(rd) ==> code == JWord(rd, delta)
  {
    hide Field, Word6, JField7, JFieldRs2, InRange, Printed, Width;
    var instruction := PutJImmediate(delta);
    ghost var s0 := instruction[..];
    PutRegister(instruction, 7, rd);
    ghost var s1 := instruction[..];
    PutOpcode(instruction, 1, 1, 0, 1, 1, 1, 1);
    ghost var s2 := instruction[..];
    code := PrintReversed(instruction);
    if InRange(delta) {
      SameField(s0, s2, 25, 7);
      SameField(s0, s2, 20, 5);
      SameField(s0, s2, 15, 5);
      SameField(s0, s2, 12, 3);
      SameField(s1, s2, 7, 5);
      PrintedFields(s2);
    }
  }

  // ---------------------------------------------------------------
  // Twelve-bit immediates: loads, register-immediate operations, jalr
  // ---------------------------------------------------------------

  function IField7(v: int, srai: bool): nat {
    v / 0x800 % 2 * 64 + (if srai then 1 else v / 0x400 % 2) * 32 + v / 32 % 32
  }

  lemma IFields(p: seq<Bit01>, v: Int64)
    requires Produced(p, v) && InRange(v)
    ensures |p| == 32
    ensures FromBits(p[20..21] + p[21..22] + p[22..27]) == IField7(v, false)
    ensures FromBits(p[20..21] + [1] + p[22..27]) == IField7(v, true)
    ensures FromBits(p[27..32]) == v % 32
    ensures FromBits(p[27..31] + [0]) == v / 2 % 16 * 2
  {
    hide FromBits, Pow2, Width, Denoted, InRange;
    SmallPowers();
    FieldOf(p, v, 11, 1);
    FieldOf(p, v, 10, 1);
    FieldOf(p, v, 5, 5);
    FieldOf(p, v, 1, 4);
    RegisterField(p, v);
    One(0);
    One(1);
    FromBitsConcat(p[20..21], p[21..22]);
    FromBitsConcat(p[20..21], [1]);
    FromBitsConcat(p[20..21] + p[21..22], p[22..27]);
    FromBitsConcat(p[20..21] + [1], p[22..27]);
    FromBitsConcat(p[27..31], [0]);
  }

  predicate IScatter(s: seq<Bit01>, p: seq<Bit01>, b30: Bit01, b20: Bit01) {
    && |s| >= 32 && |p| >= 32
    && s[31] == p[20] && s[30] == b30 && s[29] == p[22] && s[28] == p[23]
    && s[27] == p[24] && s[26] == p[25] && s[25] == p[26]
    && s[24] == p[27] && s[23] == p[28] && s[22] == p[29] && s[21] == p[30] && s[20] == b20
  }

  lemma IScattered(s: seq<Bit01>, p: seq<Bit01>, b30: Bit01, b20: Bit01)
    requires |s| == 32 && |p| >= 32
    requires IScatter(s, p, b30, b20)
    ensures Field(s, 25, 7) == FromBits(p[20..21] + [b30] + p[22..27])
    ensures Field(s, 20, 5) == FromBits(p[27..31] + [b20])
  {
    hide FromBits;
    assert Reversed(s[25..32]) == [p[20], b30, p[22], p[23], p[24], p[25], p[26]] == p[20..21] + [b30] + p[22..27];
    assert Reversed(s[20..25]) == [p[27], p[28], p[29], p[30], b20] == p[27..31] + [b20];
  }

  method ScatterI(instruction: array<Bit01>, produced: array<Bit01>, srai: bool, jalr: bool)
    requires instruction.Length >= 32 && produced.Length >= 32 && instruction != produced
    modifies instruction
    ensures IScatter(instruction[..], produced[..], if srai then 1 else produced[21], if jalr then 0 else produced[31])
  {
    instruction[31] := produced[20];
    instruction[30] := if srai then 1 else produced[21];
    instruction[29] := produced[22];
    instruction[28] := produced[23];
    instruction[27] := produced[24];
    instruction[26] := produced[25];
    instruction[25] := produced[26];
    instruction[24] := produced[27];
    instruction[23] := produced[28];
    instruction[22] := produced[29];
    instruction[21] := produced[30];
    instruction[20] := if jalr then 0 else produced[31];
  }

  /** The immediate at [31:20]; `srai` forces bit 30 to one, `jalr` bit 20 to zero. */
  method PutIImmediate(instruction: array<Bit01>, imm: Int64, srai: bool, jalr: bool)
    requires instruction.Length == 32
    modifies instruction
    ensures InRange(imm) ==> Field(instruction[..], 25, 7) == IField7(imm, srai)
    ensures InRange(imm) ==> Field(instruction[..], 20, 5) == if jalr then imm / 2 % 16 * 2 else imm % 32
  {
    hide FromBits, Width, Denoted, IField7, InRange, Field, IScatter;
    var produced := IntToBinaryArray(imm);
    WidthBound(imm);
    ScatterI(instruction, produced, srai, jalr);
    if InRange(imm) {
      ghost var p := produced[..];
      IFields(p, imm);
      IScattered(instruction[..], p, if srai then 1 else p[21], if jalr then 0 else p[31]);
      assert p[21..22] == [p[21]] && p[27..31] + [p[31]] == p[27..32];
    }
  }

  datatype LoadOp = Lb | Lh | Lw | Lbu | Lhu

  function LoadFunct3(op: LoadOp): nat {
    match op
    case Lb => 0
    case Lh => 1
    case Lw => 2
    case Lbu => 4
    case Lhu => 5
  }

  function IWord(opcode: nat, f3: nat, rd: int, rs1: int, imm: int, srai: bool): nat {
    Word6(opcode, rd % 32, f3, rs1 % 32, imm % 32, IField7(imm, srai))
  }

  method Loads(op: LoadOp, rd: Int64, rs1: Int64, imm: Int64) returns (code: nat)
    ensures InRange(imm) && InRange(rd) && InRange(rs1) ==> code == IWord(0x03, LoadFunct3(op), rd, rs1, imm, false)
  {
    hide Field, Word6, IField7, InRange, Printed;
    var instruction := new Bit01[32](i => 0);
    PutIImmediate(instruction, imm, false, false);
    ghost var s0 := instruction[..];
    PutRegister(instruction, 15, rs1);
    ghost var s1 := instruction[..];
    match op {
      case Lb => PutFunct3(instruction, 0, 0, 0);
      case Lh => PutFunct3(instruction, 0, 0, 1);
      case Lw => PutFunct3(instruction, 0, 1, 0);
      case Lbu => PutFunct3(instruction, 1, 0, 0);
      case Lhu => PutFunct3(instruction, 1, 0, 1);
    }
    ghost var s2 := instruction[..];
    PutRegister(instruction, 7, rd);
    ghost var s3 := instruction[..];
    PutOpcode(instruction, 0, 0, 0, 0, 0, 1, 1);
    ghost var s4 := instruction[..];
    code := PrintReversed(instruction);
    SameField(s0, s4, 25, 7);
    SameField(s0, s4, 20, 5);
    SameField(s1, s4, 15, 5);
    SameField(s2, s4, 12, 3);
    SameField(s3, s4, 7, 5);
    PrintedFields(s4);
  }

  function AluFunct3(k: Isa.AluKind): nat {
    match k
    case Add => 0
    case Sub => 0
    case Sll => 1
    case Slt => 2
    case Sltu => 3
    case Xor => 4
    case Srl => 5
    case Sra => 5
    case Or => 6
    case And => 7
  }

  method PutAluFunct3(instruction: array<Bit01>, k: Isa.AluKind)
    requires instruction.Length >= 32
    modifies instruction
    ensures forall k | 0 <= k < instruction.Length && !(12 <= k < 15) :: instruction[k] == old(instruction[k])
    ensures Field(instruction[..], 12, 3) == AluFunct3(k)
  {
    hide Field;
    match k {
      case Add | Sub => PutFunct3(instruction, 0, 0, 0);
      case Sll => PutFunct3(instruction, 0, 0, 1);
      case Slt => PutFunct3(instruction, 0, 1, 0);
      case Sltu => PutFunct3(instruction, 0, 1, 1);
      case Xor => PutFunct3(instruction, 1, 0, 0);
      case Srl | Sra => PutFunct3(instruction, 1, 0, 1);
      case Or => PutFunct3(instruction, 1, 1, 0);
      case And => PutFunct3(instruction, 1, 1, 1);
    }
  }

  /** addi, xori, ori, andi, slli, srli, srai, slti, sltiu. */
  method ItypeAlu(k: Isa.AluKind, rd: Int64, rs1: Int64, imm: Int64) returns (code: nat)
    requires k != Isa.Sub
    ensures InRange(imm) && InRange(rd) && InRange(rs1)
            ==> code == IWord(0x13, AluFunct3(k), rd, rs1, imm, k == Isa.Sra)
  {
    hide Field, Word6, IField7, InRange, Printed, AluFunct3;
    var instruction := new Bit01[32](i => 0);
    PutIImmediate(instruction, imm, k == Isa.Sra, false);
    ghost var s0 := instruction[..];
    PutRegister(instruction, 15, rs1);
    ghost var s1 := instruction[..];
    PutAluFunct3(instruction, k);
    ghost var s2 := instruction[..];
    PutRegister(instruction, 7, rd);
    ghost var s3 := instruction[..];
    PutOpcode(instruction, 0, 0, 1, 0, 0, 1, 1);
    ghost var s4 := instruction[..];
    code := PrintReversed(instruction);
    SameField(s0, s4, 25, 7);
    SameField(s0, s4, 20, 5);
    SameField(s1, s4, 15, 5);
    SameField(s2, s4, 12, 3);
    SameField(s3, s4, 7, 5);
    PrintedFields(s4);
  }

  function JalrWord(rd: int, rs1: int, offset: int): nat {
    Word6(0x67, rd % 32, 0, rs1 % 32, offset / 2 % 16 * 2, IField7(offset, false))
  }

  method Jalr(rd: Int64, rs1: Int64, offset: Int64) returns (code: nat)
    ensures InRange(offset) && InRange(rd) && InRange(rs1) ==> code == JalrWord(rd, rs1, offset)
  {
    hide Field, Word6, IField7, InRange, Printed;
    var instruction := new Bit01[32](i => 0);
    PutIImmediate(instruction, offset, false, true);
    ghost var s0 := instruction[..];
    PutRegister(instruction, 15, rs1);
    ghost var s1 := instruction[..];
    PutFunct3(instruction, 0, 0, 0);
    ghost var s2 := instruction[..];
    PutRegister(instruction, 7, rd);
    ghost var s3 := instruction[..];
    PutOpcode(instruction, 1, 1, 0, 0, 1, 1, 1);
    ghost var s4 := instruction[..];
    code := PrintReversed(instruction);
    SameField(s0, s4, 25, 7);
    SameField(s0, s4, 20, 5);
    SameField(s1, s4, 15, 5);
    SameField(s2, s4, 12, 3);
    SameField(s3, s4, 7, 5);
    PrintedFields(s4);
  }

  // ---------------------------------------------------------------
  // Stores
  // ---------------------------------------------------------------

  datatype StoreOp = Sb | Sh | Sw

  function StoreFunct3(op: StoreOp): nat {
    match op
    case Sb => 0
    case Sh => 1
    case Sw => 2
  }

  function SWord(op: StoreOp, rs1: int, rs2: int, imm: int): nat {
    Word6(0x23, imm % 32, StoreFunct3(op), rs1 % 32, rs2 % 32, imm / 32 % 128)
  }

  predicate SScatter(s: seq<Bit01>, p: seq<Bit01>) {
    && |s| >= 32 && |p| >= 32
    && s[31] == p[20] && s[30] == p[21] && s[29] == p[22] && s[28] == p[23]
    && s[27] == p[24] && s[26] == p[25] && s[25] == p[26]
    && s[11] == p[27] && s[10] == p[28] && s[9] == p[29] && s[8] == p[30] && s[7] == p[31]
  }

  lemma SScattered(s: seq<Bit01>, p: seq<Bit01>)
    requires |s| == 32 && |p| >= 32
    requires SScatter(s, p)
    ensures Field(s, 25, 7) == FromBits(p[20..27])
    ensures Field(s, 7, 5) == FromBits(p[27..32])
  {
    hide FromBits;
    assert Reversed(s[25..32]) == [p[20], p[21], p[22], p[23], p[24], p[25], p[26]] == p[20..27];
    assert Reversed(s[7..12]) == [p[27], p[28], p[29], p[30], p[31]] == p[27..32];
  }

  method ScatterS(instruction: array<Bit01>, produced: array<Bit01>)
    requires instruction.Length >= 32 && produced.Length >= 32 && instruction != produced
    modifies instruction
    ensures SScatter(instruction[..], produced[..])
  {
    instruction[31] := produced[20];
    instruction[30] := produced[21];
    instruction[29] := produced[22];
    instruction[28] := produced[23];
    instruction[27] := produced[24];
    instruction[26] := produced[25];
    instruction[25] := produced[26];
    instruction[11] := produced[27];
    instruction[10] := produced[28];
    instruction[9] := produced[29];
    instruction[8] := produced[30];
    instruction[7] := produced[31];
  }

  method PutSImmediate(instruction: array<Bit01>, imm: Int64)
    requires instruction.Length == 32
    modifies instruction
    ensures InRange(imm) ==> Field(instruction[..], 25, 7) == imm / 32 % 128 && Field(instruction[..], 7, 5) == imm % 32
  {
    hide FromBits, Width, Denoted, InRange, Field, SScatter, Pow2;
    SmallPowers();
    var produced := IntToBinaryArray(imm);
    WidthBound(imm);
    ScatterS(instruction, produced);
    if InRange(imm) {
      FieldOf(produced[..], imm, 5, 7);
      RegisterField(produced[..], imm);
      SScattered(instruction[..], produced[..]);
    }
  }

  method Stores(op: StoreOp, rs2: Int64, rs1: Int64, imm: Int64) returns (code: nat)
    ensures InRange(imm) && InRange(rs1) && InRange(rs2) ==> code == SWord(op, rs1, rs2, imm)
  {
    hide Field, Word6, InRange, Printed;
    var instruction := new Bit01[32](i => 0);
    PutSImmediate(instruction, imm);
    ghost var s0 := instruction[..];
    PutRegister(instruction, 20, rs2);
    ghost var s1 := instruction[..];
    PutRegister(instruction, 15, rs1);
    ghost var s2 := instruction[..];
    match op {
      case Sb => PutFunct3(instruction, 0, 0, 0);
      case Sh => PutFunct3(instruction, 0, 0, 1);
      case Sw => PutFunct3(instruction, 0, 1, 0);
    }
    ghost var s3 := instruction[..];
    PutOpcode(instruction, 0, 1, 0, 0, 0, 1, 1);
    ghost var s4 := instruction[..];
    code := PrintReversed(instruction);
    SameField(s0, s4, 25, 7);
    SameField(s0, s4, 7, 5);
    SameField(s1, s4, 20, 5);
    SameField(s2, s4, 15, 5);
    SameField(s3, s4, 12, 3);
    PrintedFields(s4);
  }

  // ---------------------------------------------------------------
  // lui and auipc
  // ---------------------------------------------------------------

  function UWord(opcode: nat, rd: int, imm: int): nat {
    Word6(opcode, rd % 32, imm % 8, imm / 8 % 32, imm / 0x100 % 32, imm / 0x2000 % 128)
  }

  predicate UScatter(s: seq<Bit01>, p: seq<Bit01>) {
    && |s| >= 32 && |p| >= 32
    && s[31] == p[12] && s[30] == p[13] && s[29] == p[14] && s[28] == p[15]
    && s[27] == p[16] && s[26] == p[17] && s[25] == p[18]
    && s[24] == p[19] && s[23] == p[20] && s[22] == p[21] && s[21] == p[22] && s[20] == p[23]
    && s[19] == p[24] && s[18] == p[25] && s[17] == p[26] && s[16] == p[27] && s[15] == p[28]
    && s[14] == p[29] && s[13] == p[30] && s[12] == p[31]
  }

  lemma UScattered(s: seq<Bit01>, p: seq<Bit01>)
    requires |s| == 32 && |p| >= 32
    requires UScatter(s, p)
    ensures Field(s, 25, 7) == FromBits(p[12..19]) && Field(s, 20, 5) == FromBits(p[19..24])
    ensures Field(s, 15, 5) == FromBits(p[24..29]) && Field(s, 12, 3) == FromBits(p[29..32])
  {
    hide FromBits;
    assert Reversed(s[25..32]) == [p[12], p[13], p[14], p[15], p[16], p[17], p[18]] == p[12..19];
    assert Reversed(s[20..25]) == [p[19], p[20], p[21], p[22], p[23]] == p[19..24];
    assert Reversed(s[15..20]) == [p[24], p[25], p[26], p[27], p[28]] == p[24..29];
    assert Reversed(s[12..15]) == [p[29], p[30], p[31]] == p[29..32];
  }

  lemma UFields(p: seq<Bit01>, v: Int64)
    requires Produced(p, v) && InRange(v)
    ensures |p| == 32
    ensures FromBits(p[12..19]) == v / 0x2000 % 128 && FromBits(p[19..24]) == v / 0x100 % 32
    ensures FromBits(p[24..29]) == v / 8 % 32 && FromBits(p[29..32]) == v % 8
  {
    hide FromBits, Pow2, Width, Denoted, InRange;
    SmallPowers();
    FieldOf(p, v, 13, 7);
    FieldOf(p, v, 8, 5);
    FieldOf(p, v, 3, 5);
    FieldOf(p, v, 0, 3);
    assert v / 1 == v;
  }

  method ScatterU(instruction: array<Bit01>, produced: array<Bit01>)
    requires instruction.Length >= 32 && produced.Length >= 32 && instruction != produced
    modifies instruction
    ensures UScatter(instruction[..], produced[..])
  {
    instruction[31] := produced[12];
    instruction[30] := produced[13];
    instruction[29] := produced[14];
    instruction[28] := produced[15];
    instruction[27] := produced[16];
    instruction[26] := produced[17];
    instruction[25] := produced[18];
    instruction[24] := produced[19];
    instruction[23] := produced[20];
    instruction[22] := produced[21];
    instruction[21] := produced[22];
    instruction[20] := produced[23];
    instruction[19] := produced[24];
    instruction[18] := produced[25];
    instruction[17] := produced[26];
    instruction[16] := produced[27];
    instruction[15] := produced[28];
    instruction[14] := produced[29];
    instruction[13] := produced[30];
    instruction[12] := produced[31];
  }

  method PutUImmediate(instruction: array<Bit01>, imm: Int64)
    requires instruction.Length == 32
    modifies instruction
    ensures InRange(imm) ==>
      && Field(instruction[..], 25, 7) == imm / 0x2000 % 128 && Field(instruction[..], 20, 5) == imm / 0x100 % 32
      && Field(instruction[..], 15, 5) == imm / 8 % 32 && Field(instruction[..], 12, 3) == imm % 8
  {
    hide FromBits, Width, Denoted, InRange, Field, UScatter;
    var produced := IntToBinaryArray(imm);
    WidthBound(imm);
    ScatterU(instruction, produced);
    if InRange(imm) {
      UFields(produced[..], imm);
      UScattered(instruction[..], produced[..]);
    }
  }

  method Lui(rd: Int64, imm: Int64) returns (code: nat)
    ensures InRange(imm) && InRange(rd) ==> code == UWord(0x37, rd, imm)
  {
    hide Field, Word6, InRange, Printed;
    var instruction := new Bit01[32](i => 0);
    PutUImmediate(instruction, imm);
    ghost var s0 := instruction[..];
    PutRegister(instruction, 7, rd);
    ghost var s1 := instruction[..];
    PutOpcode(instruction, 0, 1, 1, 0, 1, 1, 1);
    ghost var s2 := instruction[..];
    code := PrintReversed(instruction);
    UpperFields(s0, s2);
    SameField(s1, s2, 7, 5);
    PrintedFields(s2);
  }

  lemma UpperFields(s: seq<Bit01>, t: seq<Bit01>)
    requires |s| == |t| == 32 && forall k | 12 <= k < 32 :: s[k] == t[k]
    ensures Field(s, 25, 7) == Field(t, 25, 7) && Field(s, 20, 5) == Field(t, 20, 5)
    ensures Field(s, 15, 5) == Field(t, 15, 5) && Field(s, 12, 3) == Field(t, 12, 3)
  {
    hide Field;
    SameField(s, t, 25, 7);
    SameField(s, t, 20, 5);
    SameField(s, t, 15, 5);
    SameField(s, t, 12, 3);
  }

  method Auipc(rd: Int64, imm: Int64) returns (code: nat)
    ensures InRange(imm) && InRange(rd) ==> code == UWord(0x17, rd, imm)
  {
    hide Field, Word6, InRange, Printed;
    var instruction := new Bit01[32](i => 0);
    PutUImmediate(instruction, imm);
    ghost var s0 := instruction[..];
    PutRegister(instruction, 7, rd);
    ghost var s1 := instruction[..];
    PutOpcode(instruction, 0, 0, 1, 0, 1, 1, 1);
    ghost var s2 := instruction[..];
    code := PrintReversed(instruction);
    UpperFields(s0, s2);
    SameField(s1, s2, 7, 5);
    PrintedFields(s2);
  }

  // ---------------------------------------------------------------
  // Register-register operations
  // ---------------------------------------------------------------

  function RWord(k: Isa.AluKind, rd: int, rs1: int, rs2: int): nat {
    Word6(0x33, rd % 32, AluFunct3(k), rs1 % 32, rs2 % 32, if k == Isa.Sub || k == Isa.Sra then 0x20 else 0)
  }

  method RtypeAlu(k: Isa.AluKind, rd: Int64, rs1: Int64, rs2: Int64) returns (code: nat)
    ensures InRange(rd) && InRange(rs1) && InRange(rs2) ==> code == RWord(k, rd, rs1, rs2)
  {
    hide Field, Word6, InRange, Printed, AluFunct3;
    var instruction := new Bit01[32](i => 0);
    PutFunct7(instruction, if k == Isa.Sub || k == Isa.Sra then 1 else 0);
    ghost var s0 := instruction[..];
    PutRegister(instruction, 20, rs2);
    ghost var s1 := instruction[..];
    PutRegister(instruction, 15, rs1);
    ghost var s2 := instruction[..];
    PutAluFunct3(instruction, k);
    ghost var s3 := instruction[..];
    PutRegister(instruction, 7, rd);
    ghost var s4 := instruction[..];
    PutOpcode(instruction, 0, 1, 1, 0, 0, 1, 1);
    ghost var s5 := instruction[..];
    code := PrintReversed(instruction);
    SameField(s0, s5, 25, 7);
    SameField(s1, s5, 20, 5);
    SameField(s2, s5, 15, 5);
    SameField(s3, s5, 12, 3);
    SameField(s4, s5, 7, 5);
    PrintedFields(s5);
  }

  method PutFunct7(instruction: array<Bit01>, b30: Bit01)
    requires instruction.Length == 32
    modifies instruction
    ensures Field(instruction[..], 25, 7) == 32 * b30
  {
    hide FromBits;
    instruction[31] := 0;
    instruction[30] := b30;
    instruction[29] := 0;
    instruction[28] := 0;
    instruction[27] := 0;
    instruction[26] := 0;
    instruction[25] := 0;
    assert Reversed(instruction[..][25..32]) == [0, b30, 0, 0, 0, 0, 0];
    Seven(0, b30, 0, 0, 0, 0, 0);
  }
}
