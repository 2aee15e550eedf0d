/** The hardwired controller: its registers, and the combinational block that turns them and
    its inputs into control signals and next states.  A strobe is `true` when active. */
module ControlMatrix {
  import opened Bits
  import opened Encoding
  import opened Csr
  import Alu

  datatype ResetState = Sync0 | Vector0 | Vector1 | Vector2 | Vector3

  datatype MatrixState = Reset | Fetch | Decode | Execute | Halt

  datatype InstructionState =
    | STStore | STMemAcc | STMemWrt | STMemRrd
    | ITLoad | ITLDMemAcc | ITLDMemMdr | ITLDMemCmpl
    | RType | RTCmpl
    | BType | BTBranch | BTCmpl
    | ITALU | ITALUCmpl
    | JTJal | JTJalRtr
    | ITJalr | ITJalrRtr
    | UType | UTCmpl | UTypeAui | UTAuiCmpl
    | ITEbreak | ITECall
    | ITCSR | ITCSRLd
    | IRQ0 | IRQ1 | IRQ2
    | ITMret | ITMretClr
    | PreFetch | IRUnknown

  datatype AMuxSrc = ASrcPC | ASrcPrior | ASrcZero | ASrcRsa
  datatype BMuxSrc = BSrcRsb | BSrcFour | BSrcImm | BSrcZero
  datatype WDMuxSrc = WDSrcImm | WDSrcALUOut | WDSrcMDR | WDSrcCSR
  datatype PCSrc = PCSrcAluImm | PCSrcAluOut | PCSrcResetVec | PCSrcRDCSR | PCSrcResetAdr

  // funct3 of the CSR instructions
  const CSRRW := 1
  const CSRRS := 2
  const CSRRC := 3
  const CSRRWI := 5
  const CSRRSI := 6
  const CSRRCI := 7

  // funct12 of the privileged instructions
  const F12_ECALL := 0x000
  const F12_EBREAK := 0x001
  const F12_MRET := 0x302

  /** The controller's flip-flops, with the latch of the interrupt domain. */
  datatype Matrix = Matrix(
    state: MatrixState,
    vectorState: ResetState,
    irState: InstructionState,
    csrs: Csrs,
    inProgress: bool,        // interrupt_in_progress
    resetTrigger: bool,      // irq_reset_trigger
    triggered: bool          // irq_triggered
  )

  /** What the controller drives into the datapath. */
  datatype Signals = Signals(
    irLd: bool, pcLd: bool, pcpLd: bool, flagsLd: bool, mdrLd: bool, rsaLd: bool, aluLd: bool,
    pcSrc: PCSrc,
    memWr: bool, memRd: bool, addrSrc: bool, rstSrc: bool,
    rgWr: bool,
    aSrc: AMuxSrc, bSrc: BMuxSrc, wdSrc: WDMuxSrc,
    aluOp: nat,
    rdData: Word
  )

  const IdleSignals := Signals(
    false, false, false, false, false, true, false,
    PCSrcAluImm,
    false, false, false, false,
    false,
    ASrcPC, BSrcFour, WDSrcImm,
    Alu.ADD_OP,
    0)

  datatype Control = Control(
    out: Signals,
    resetComplete: bool,
    nextState: MatrixState,
    nextVector: ResetState,
    nextIr: InstructionState,
    writeCsr: bool,
    csrAddr: nat,
    csrData: Word,
    irqPending: bool
  )

  predicate IsCsrInstr(ir: Word) {
    Opcode(ir) == ITYPE_E && Funct3(ir) != 0
  }

  /** csr_data before the state machine touches it. */
  function CsrDataIn(c: Csrs, ir: Word, rsa: Word): Word {
    if !IsCsrInstr(ir) then c.mstatus
    else if Rd(ir) == 0 && Funct3(ir) == CSRRW then rsa
    else ReadCsr(c, Funct12(ir))
  }

  function AlgoData(csrData: Word, ir: Word, rsa: Word): Word {
    var f := Funct3(ir);
    var zimm := Rs1(ir);
    if !IsCsrInstr(ir) then 0
    else if f == CSRRWI then zimm
    else if f == CSRRC then And32(Not32(rsa), csrData)
    else if f == CSRRCI then And32(Not32(zimm), csrData)
    else if f == CSRRS then Or32(rsa, csrData)
    else if f == CSRRSI then Or32(zimm, csrData)
    else 0
  }

  function AluOpOf(ir: Word): nat {
    Funct3(ir) * 8 + Funct7Up(ir)
  }

  function ImmediateAluOp(ir: Word): nat {
    if Funct3(ir) == 1 || Funct3(ir) == 5 then AluOpOf(ir) else Funct3(ir) * 8
  }

  /** The instruction state Decode selects. */
  function Dispatch(ir: Word): InstructionState {
    var op := Opcode(ir);
    if op == ITYPE_E then
      if IsCsrInstr(ir) then ITCSR
      else if Funct12(ir) == F12_EBREAK then ITEbreak
      else if Funct12(ir) == F12_ECALL then ITECall
      else if Funct12(ir) == F12_MRET then ITMret
      else ITLoad
    else if op == RTYPE then RType
    else if op == ITYPE then ITALU
    else if op == ITYPE_J then ITJalr
    else if op == STYPE then STStore
    else if op == BTYPE then BType
    else if op == JTYPE then JTJal
    else if op == UTYPE_L then UType
    else if op == UTYPE_A then UTypeAui
    else ITLoad
  }

  predicate IrqPending(c: Csrs) {
    Bit(c.mstatus, MSTATUS_MIE) == 1 && Bit(c.mie, MIE_MEIE) == 1 && Bit(c.mip, MIP_MEIP) == 1
  }

  /** mstatus on trap entry: MPIE <- MIE, MIE <- 0. */
  function MstatusOnTrap(mstatus: Word): Word {
    SetBit32(SetBit32(mstatus, MSTATUS_MPIE, Bit(mstatus, MSTATUS_MIE)), MSTATUS_MIE, 0)
  }

  /** mstatus on mret: MIE <- MPIE, MPIE <- 0. */
  function MstatusOnReturn(mstatus: Word): Word {
    SetBit32(SetBit32(mstatus, MSTATUS_MIE, Bit(mstatus, MSTATUS_MPIE)), MSTATUS_MPIE, 0)
  }

  function AlignDown(a: Word): Word {
    a / 4 * 4
  }

  /** The reset sequence. */
  function ControlReset(m: Matrix, resetHigh: bool, d: Control): Control {
    var out := IdleSignals.(rstSrc := true);
    var r := d.(out := out, resetComplete := false);
    match m.vectorState
    case Sync0 => r.(nextVector := if resetHigh then Vector0 else Sync0)
    case Vector0 => r.(out := out.(pcLd := true, pcSrc := PCSrcResetVec), nextVector := Vector1)
    case Vector1 => r.(out := out.(memRd := true), nextVector := Vector2)
    case Vector2 => r.(out := out.(pcLd := true, pcSrc := PCSrcResetAdr), nextVector := Vector3)
    case Vector3 => r.(out := out.(memRd := true), resetComplete := true, nextState := Fetch)
  }

  /** The states of Execute. */
  function ControlExecute(m: Matrix, ir: Word, flags: Alu.Flags, rsa: Word, pc: Word, d: Control): Control
  {
    var e := d.(nextState := Execute);
    var o := IdleSignals;
    var toX0 := Rd(ir) == 0;
    match m.irState
    case RType =>
      e.(out := o.(aluLd := true, aSrc := ASrcRsa, bSrc := BSrcRsb, aluOp := AluOpOf(ir)),
         nextIr := if toX0 then PreFetch else RTCmpl)
    case RTCmpl =>
      e.(out := o.(wdSrc := WDSrcALUOut, rgWr := true), nextIr := PreFetch)
    case ITALU =>
      e.(out := o.(aluLd := true, aSrc := ASrcRsa, bSrc := BSrcImm, aluOp := ImmediateAluOp(ir)),
         nextIr := if toX0 then PreFetch else ITALUCmpl)
    case ITALUCmpl =>
      e.(out := o.(wdSrc := WDSrcALUOut, rgWr := true), nextIr := PreFetch)
    case ITLoad =>
      e.(out := o.(aluLd := true, aSrc := ASrcRsa, bSrc := BSrcImm), nextIr := ITLDMemAcc)
    case ITLDMemAcc =>
      e.(out := o.(memRd := true, addrSrc := true), nextIr := ITLDMemMdr)
    case ITLDMemMdr =>
      e.(out := o.(memRd := true, addrSrc := true, mdrLd := true), nextIr := ITLDMemCmpl)
    case ITLDMemCmpl =>
      e.(out := o.(wdSrc := WDSrcMDR, rgWr := true), nextIr := PreFetch)
    case ITJalr =>
      e.(out := o.(aSrc := ASrcRsa, bSrc := BSrcImm, pcSrc := PCSrcAluImm, pcLd := true),
         nextIr := if toX0 then PreFetch else ITJalrRtr)
    case ITJalrRtr =>
      e.(out := o.(aSrc := ASrcPrior, bSrc := BSrcFour, wdSrc := WDSrcImm, rgWr := true), nextIr := PreFetch)
    case STStore =>
      e.(out := o.(aluLd := true, aSrc := ASrcRsa, bSrc := BSrcImm, addrSrc := true),
         nextIr := if Funct3(ir) % 4 == 2 then STMemWrt else STMemAcc)
    case STMemAcc =>
      e.(out := o.(memRd := true, addrSrc := true), nextIr := STMemWrt)
    case STMemWrt =>
      e.(out := o.(addrSrc := true, memWr := true), nextIr := PreFetch)
    case BType =>
      e.(out := o.(aSrc := ASrcRsa, bSrc := BSrcRsb, flagsLd := true, aluOp := Alu.SUB_OP), nextIr := BTBranch)
    case BTBranch =>
      e.(out := o.(aluLd := true, aSrc := ASrcPrior, bSrc := BSrcImm,
                   pcLd := Alu.TakeBranch(Funct3(ir), flags)),
         nextIr := PreFetch)
    case JTJal =>
      e.(out := o.(aSrc := ASrcPrior, bSrc := BSrcImm, pcSrc := PCSrcAluImm, pcLd := true),
         nextIr := if toX0 then PreFetch else JTJalRtr)
    case JTJalRtr =>
      e.(out := o.(aSrc := ASrcPrior, bSrc := BSrcFour, wdSrc := WDSrcImm, rgWr := true), nextIr := PreFetch)
    case UType =>
      e.(out := o.(aSrc := ASrcZero, bSrc := BSrcImm, wdSrc := WDSrcImm, rgWr := true), nextIr := PreFetch)
    case UTypeAui =>
      e.(out := o.(aSrc := ASrcPrior, bSrc := BSrcImm, wdSrc := WDSrcImm, rgWr := true), nextIr := PreFetch)
    case ITEbreak => e.(nextIr := ITEbreak)
    case ITECall => e.(nextIr := ITECall)
    case ITCSR => ControlCsr(m, ir, e)
    case ITCSRLd =>
      e.(out := o.(rsaLd := false),
         writeCsr := true,
         csrData := if Funct3(ir) == CSRRW then rsa
                    else if Funct3(ir) in {CSRRS, CSRRC, CSRRWI, CSRRSI, CSRRCI}
                    then AlgoData(e.csrData, ir, rsa) else e.csrData,
         nextIr := PreFetch)
    case ITMret =>
      e.(out := o.(rdData := AlignDown(m.csrs.mepc), pcSrc := PCSrcRDCSR, pcLd := true), nextIr := ITMretClr)
    case ITMretClr =>
      e.(writeCsr := true, csrAddr := MSTATUS, csrData := MstatusOnReturn(m.csrs.mstatus), nextIr := PreFetch)
    case PreFetch =>
      if IrqPending(m.csrs) && !m.inProgress then
        e.(writeCsr := true, csrAddr := MSTATUS, csrData := MstatusOnTrap(m.csrs.mstatus),
           irqPending := true, nextIr := IRQ0)
      else
        e.(out := o.(memRd := true), irqPending := IrqPending(m.csrs), nextState := Fetch)
    case IRQ0 => e.(writeCsr := true, csrAddr := MEPC, csrData := pc, nextIr := IRQ1)
    case IRQ1 => e.(out := o.(rdData := m.csrs.mtvec, pcSrc := PCSrcRDCSR, pcLd := true), nextIr := IRQ2)
    case IRQ2 => e.(out := o.(memRd := true), nextState := Fetch)
    case _ => e
  }

  /** State ITCSR: the old CSR value goes to rd, unless the form skips the read or the write. */
  function ControlCsr(m: Matrix, ir: Word, e: Control): Control {
    var hold := e.out.(rsaLd := false);
    var transfer := e.(out := hold.(rdData := e.csrData, wdSrc := WDSrcCSR, rgWr := true), nextIr := ITCSRLd);
    var f := Funct3(ir);
    if f == CSRRW then
      if Rd(ir) == 0 then e.(out := hold, writeCsr := true, nextIr := PreFetch) else transfer
    else if f in {CSRRS, CSRRC} then
      if Rs1(ir) == 0 then e.(out := hold, nextIr := PreFetch) else transfer
    else if f in {CSRRWI, CSRRSI, CSRRCI} then transfer
    else e.(out := hold, nextState := Fetch)
  }

  /** The whole always_comb block. */
  function Outputs(m: Matrix, resetHigh: bool, memBusy: bool, ir: Word, flags: Alu.Flags, rsa: Word, pc: Word): Control
  {
    var d := Control(IdleSignals, true, Reset, Sync0, ITLoad,
                     false, Funct12(ir), CsrDataIn(m.csrs, ir, rsa), false);
    match m.state
    case Reset => ControlReset(m, resetHigh, d)
    case Fetch =>
      if memBusy then d.(nextState := Fetch)
      else d.(out := IdleSignals.(irLd := true, pcpLd := true), nextState := Decode)
    case Decode =>
      d.(out := IdleSignals.(aluLd := true, pcLd := true), nextState := Execute, nextIr := Dispatch(ir))
    case Execute => ControlExecute(m, ir, flags, rsa, pc, d)
    case Halt => d
  }

  /** irq_triggered as the clock edge finds it: a falling irq edge since the last clock sets it
      unless irq_reset_trigger holds it clear. */
  predicate Latched(m: Matrix, irqEdge: bool) {
    if irqEdge then !m.resetTrigger else m.triggered
  }

  /** The CSRs after the clocked block's assignments, the later one winning: an instruction's write,
      the clear by mret, a latched interrupt. */
  function AssignedCsrs(r: Csrs, c: Control, clear: bool, latch: bool): Csrs {
    var written := if c.writeCsr then WriteCsr(r, c.csrAddr, c.csrData) else r;
    var cleared := if clear then written.(mip := SetBit32(written.mip, MIP_MEIP, 0)) else written;
    if latch then cleared.(mip := SetBit32(cleared.mip, MIP_MEIP, 1)) else cleared
  }

  function ClockedCsrs(m: Matrix, c: Control, latched: bool): Csrs {
    AssignedCsrs(m.csrs, c, m.state == Execute && m.irState == ITMretClr, latched && !m.inProgress)
  }

  /** The controller's registers after one falling clock edge. */
  function Clocked(m: Matrix, c: Control, resetHigh: bool, irqEdge: bool): Matrix {
    var latched := Latched(m, irqEdge);
    var executing := m.state == Execute;
    var resetTrigger' := if executing && m.irState == IRQ0 then true
                         else if executing && m.irState == IRQ1 then false
                         else m.resetTrigger;
    Matrix(
      if !resetHigh || !c.resetComplete then Reset else c.nextState,
      if !resetHigh then Sync0 else if c.resetComplete then m.vectorState else c.nextVector,
      if resetHigh && c.resetComplete then c.nextIr else m.irState,
      ClockedCsrs(m, c, latched),
      if m.state == Reset then false
      else if executing && m.irState == PreFetch && c.irqPending && !m.inProgress then true
      else if executing && m.irState == ITMretClr then false
      else m.inProgress,
      resetTrigger',
      latched && !(resetTrigger' && !m.resetTrigger))
  }
}
