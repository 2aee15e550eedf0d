/** The machine-mode control and status registers the core implements. */
module Csr {
  import opened Bits

  // CSR addresses
  const MSTATUS := 0x300
  const MIE := 0x304
  const MTVEC := 0x305
  const MEPC := 0x341
  const MIP := 0x344

  // Bit positions
  const MSTATUS_MIE := 3
  const MSTATUS_MPIE := 7
  const MIE_MEIE := 11
  const MIP_MEIP := 11

  datatype Csrs = Csrs(mstatus: Word, mie: Word, mip: Word, mepc: Word, mtvec: Word)

  function ReadCsr(c: Csrs, addr: nat): Word {
    if addr == MSTATUS then c.mstatus
    else if addr == MIE then c.mie
    else if addr == MTVEC then c.mtvec
    else if addr == MEPC then c.mepc
    else if addr == MIP then c.mip
    else 0
  }

  function WriteCsr(c: Csrs, addr: nat, v: Word): Csrs {
    if addr == MSTATUS then c.(mstatus := v)
    else if addr == MIE then c.(mie := v)
    else if addr == MTVEC then c.(mtvec := v)
    else if addr == MEPC then c.(mepc := v)
    else if addr == MIP then c.(mip := v)
    else c
  }
}
