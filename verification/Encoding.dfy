/** Fields of an instruction word and the hardware immediate generator. */
module Encoding {
  import opened Bits

  // Opcodes
  const RTYPE := 0x33
  const ITYPE := 0x13
  const ITYPE_L := 0x03
  const ITYPE_J := 0x67
  const ITYPE_E := 0x73
  const STYPE := 0x23
  const BTYPE := 0x63
  const UTYPE_L := 0x37
  const UTYPE_A := 0x17
  const JTYPE := 0x6F

  type RegIndex = x: int | 0 <= x < 32

  function Opcode(ir: Word): nat { ir % 0x80 }                        // [6:0]
  function Rd(ir: Word): RegIndex { ir / 0x80 % 0x20 }                // [11:7]
  function Funct3(ir: Word): (f: nat) ensures f < 8 { ir / 0x1000 % 8 }   // [14:12]
  function Rs1(ir: Word): RegIndex { ir / 0x8000 % 0x20 }             // [19:15]
  function Rs2(ir: Word): RegIndex { ir / 0x10_0000 % 0x20 }          // [24:20]
  function Funct12(ir: Word): (f: nat) ensures f < 0x1000 { ir / 0x10_0000 }   // [31:20]
  function Funct7Up(ir: Word): (f: nat) ensures f < 8 { ir / 0x2000_0000 }     // [31:29]
  function Bits30To25(ir: Word): (f: nat) ensures f < 0x40 { ir / 0x200_0000 % 0x40 }
  function Bits30To20(ir: Word): (f: nat) ensures f < 0x800 { ir / 0x10_0000 % 0x800 }
  function Bits24To21(ir: Word): (f: nat) ensures f < 0x10 { ir / 0x20_0000 % 0x10 }
  function Bits19To12(ir: Word): (f: nat) ensures f < 0x100 { ir / 0x1000 % 0x100 }
  function Bits11To8(ir: Word): (f: nat) ensures f < 0x10 { ir / 0x100 % 0x10 }
  function Bit31(ir: Word): Bit01 { ir / 0x8000_0000 }
  function Bit20(ir: Word): Bit01 { ir / 0x10_0000 % 2 }
  function Bit7(ir: Word): Bit01 { ir / 0x80 % 2 }

  /** The Immediate module: the concatenation each format selects, with the sign bit
      replicated above it. */
  function Immediate(ir: Word): (imm: Word)
  {
    var op := Opcode(ir);
    var sign := Bit31(ir);
    if op == ITYPE && (Funct3(ir) == 1 || Funct3(ir) == 5) then
      Rs2(ir)                                                    // {27'b0, shamt}
    else if op in {ITYPE, ITYPE_L, ITYPE_J, ITYPE_E} then
      sign * 0xFFFF_F800 + Bits30To25(ir) * 0x20 + Bits24To21(ir) * 2 + Bit20(ir)
    else if op == STYPE then
      sign * 0xFFFF_F800 + Bits30To25(ir) * 0x20 + Bits11To8(ir) * 2 + Bit7(ir)
    else if op == BTYPE then
      sign * 0xFFFF_F000 + Bit7(ir) * 0x800 + Bits30To25(ir) * 0x20 + Bits11To8(ir) * 2
    else if op in {UTYPE_L, UTYPE_A} then
      sign * 0x8000_0000 + Bits30To20(ir) * 0x10_0000 + Bits19To12(ir) * 0x1000
    else if op == JTYPE then
      sign * 0xFFF0_0000 + Bits19To12(ir) * 0x1000 + Bit20(ir) * 0x800
        + Bits30To25(ir) * 0x20 + Bits24To21(ir) * 2
    else 0
  }
}
