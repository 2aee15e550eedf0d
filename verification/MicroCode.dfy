/** The refactored controller: take_branch and alu_op are computed outside the state machine, and
    PreFetch is a state of its own.  Its state moves on the rising clock edge, between two falling
    edges of the datapath. */
module MicroCode {
  import opened Bits
  import opened Encoding
  import Alu
  import CM = ControlMatrix
  import opened RangerRisc

  datatype MatrixState = Reset | Fetch | Decode | Execute | PreFetch | IRQ0 | IRQ1 | IRQ2 | Halt

  datatype MicroMatrix = MicroMatrix(state: MatrixState, vectorState: CM.ResetState, irState: CM.InstructionState)

  datatype MicroControl = MicroControl(
    out: CM.Signals,
    resetComplete: bool,
    nextState: MatrixState,
    nextVector: CM.ResetState,
    nextIr: CM.InstructionState)

  /** The alu_op block: it looks at ir_state in every state of the machine. */
  function HoistedAluOp(irState: CM.InstructionState, ir: Word): nat {
    match irState
    case RType => CM.AluOpOf(ir)
    case ITALU => CM.ImmediateAluOp(ir)
    case BType => Alu.SUB_OP
    case _ => Alu.ADD_OP
  }

  function MicroDispatch(ir: Word): CM.InstructionState {
    var op := Opcode(ir);
    if op == ITYPE_E then
      if Funct12(ir) == CM.F12_EBREAK then CM.ITEbreak
      else if Funct12(ir) == CM.F12_ECALL then CM.ITECall
      else CM.ITLoad
    else if op == RTYPE then CM.RType
    else if op == ITYPE then CM.ITALU
    else if op == ITYPE_J then CM.ITJalr
    else if op == STYPE then CM.STStore
    else if op == BTYPE then CM.BType
    else if op == JTYPE then CM.JTJal
    else if op == UTYPE_L then CM.UType
    else if op == UTYPE_A then CM.UTypeAui
    else CM.ITLoad
  }

  function MicroReset(m: MicroMatrix, resetHigh: bool, d: MicroControl): MicroControl {
    var out := d.out.(rstSrc := true);
    var r := d.(out := out, resetComplete := false);
    match m.vectorState
    case Sync0 => r.(nextVector := if resetHigh then CM.Vector0 else CM.Sync0)
    case Vector0 => r.(out := out.(pcLd := true, pcSrc := CM.PCSrcResetVec), nextVector := CM.Vector1)
    case Vector1 => r.(out := out.(memRd := true), nextVector := CM.Vector2)
    case Vector2 => r.(out := out.(pcLd := true, pcSrc := CM.PCSrcResetAdr), nextVector := CM.Vector3)
    case Vector3 => r.(out := out.(memRd := true), resetComplete := true, nextState := PreFetch)
  }

  /** The states of Execute; each either names the next one or leaves for PreFetch. */
  function MicroExecute(m: MicroMatrix, ir: Word, takeBranch: bool, d: MicroControl): MicroControl {
    var e := d.(nextState := Execute);
    var done := d.(nextState := PreFetch);
    var o := d.out;
    var toX0 := Rd(ir) == 0;
    match m.irState
    case RType =>
      var out := o.(aluLd := true, aSrc := CM.ASrcRsa, bSrc := CM.BSrcRsb);
      if toX0 then done.(out := out) else e.(out := out, nextIr := CM.RTCmpl)
    case RTCmpl => done.(out := o.(wdSrc := CM.WDSrcALUOut, rgWr := true))
    case ITALU =>
      var out := o.(aluLd := true, aSrc := CM.ASrcRsa, bSrc := CM.BSrcImm);
      if toX0 then done.(out := out) else e.(out := out, nextIr := CM.ITALUCmpl)
    case ITALUCmpl => done.(out := o.(wdSrc := CM.WDSrcALUOut, rgWr := true))
    case ITLoad => e.(out := o.(aluLd := true, aSrc := CM.ASrcRsa, bSrc := CM.BSrcImm), nextIr := CM.ITLDMemAcc)
    case ITLDMemAcc => e.(out := o.(memRd := true, addrSrc := true), nextIr := CM.ITLDMemMdr)
    case ITLDMemMdr => e.(out := o.(memRd := true, addrSrc := true, mdrLd := true), nextIr := CM.ITLDMemCmpl)
    case ITLDMemCmpl => done.(out := o.(wdSrc := CM.WDSrcMDR, rgWr := true))
    case ITJalr =>
      var out := o.(aSrc := CM.ASrcRsa, bSrc := CM.BSrcImm, pcSrc := CM.PCSrcAluImm, pcLd := true);
      if toX0 then done.(out := out) else e.(out := out, nextIr := CM.ITJalrRtr)
    case ITJalrRtr => done.(out := o.(aSrc := CM.ASrcPrior, bSrc := CM.BSrcFour, wdSrc := CM.WDSrcImm, rgWr := true))
    case STStore =>
      e.(out := o.(aluLd := true, aSrc := CM.ASrcRsa, bSrc := CM.BSrcImm, addrSrc := true),
         nextIr := if Funct3(ir) % 4 == 2 then CM.STMemWrt else CM.STMemAcc)
    case STMemAcc => e.(out := o.(memRd := true, addrSrc := true), nextIr := CM.STMemWrt)
    case STMemWrt => done.(out := o.(addrSrc := true, memWr := true))
    case BType => e.(out := o.(aSrc := CM.ASrcRsa, bSrc := CM.BSrcRsb, flagsLd := true), nextIr := CM.BTBranch)
    case BTBranch => done.(out := o.(aluLd := true, aSrc := CM.ASrcPrior, bSrc := CM.BSrcImm, pcLd := takeBranch))
    case JTJal =>
      var out := o.(aSrc := CM.ASrcPrior, bSrc := CM.BSrcImm, pcSrc := CM.PCSrcAluImm, pcLd := true);
      if toX0 then done.(out := out) else e.(out := out, nextIr := CM.JTJalRtr)
    case JTJalRtr => done.(out := o.(aSrc := CM.ASrcPrior, bSrc := CM.BSrcFour, wdSrc := CM.WDSrcImm, rgWr := true))
    case UType => done.(out := o.(aSrc := CM.ASrcZero, bSrc := CM.BSrcImm, wdSrc := CM.WDSrcImm, rgWr := true))
    case UTypeAui => done.(out := o.(aSrc := CM.ASrcPrior, bSrc := CM.BSrcImm, wdSrc := CM.WDSrcImm, rgWr := true))
    case ITEbreak => d.(nextState := Halt)
    case ITECall => e.(nextIr := CM.ITECall)
    case _ => e
  }

  /** The main always_comb block, with the two hoisted ones. */
  function MicroOutputs(m: MicroMatrix, resetHigh: bool, memBusy: bool, ir: Word, flags: Alu.Flags): MicroControl {
    var o := CM.IdleSignals.(aluOp := HoistedAluOp(m.irState, ir));
    var d := MicroControl(o, true, Reset, CM.Sync0, CM.ITLoad);
    match m.state
    case Reset => MicroReset(m, resetHigh, d)
    case Fetch => if memBusy then d.(nextState := Fetch)
      else d.(out := o.(irLd := true, pcpLd := true), nextState := Decode)
    case Decode => d.(out := o.(aluLd := true, pcLd := true), nextState := Execute, nextIr := MicroDispatch(ir))
    case Execute => MicroExecute(m, ir, Alu.TakeBranch(Funct3(ir), flags), d)
    case PreFetch => d.(out := o.(memRd := true), nextState := Fetch)
    case Halt => d.(nextState := Halt)
    case _ => d
  }

  /** The clocked block. */
  function MicroClocked(m: MicroMatrix, c: MicroControl, resetHigh: bool): MicroMatrix {
    if !resetHigh then m.(state := Reset, vectorState := CM.Sync0)
    else if c.resetComplete then m.(state := c.nextState, irState := c.nextIr)
    else m.(state := Reset, vectorState := c.nextVector)
  }

  class MicroCodeMatrix {
    var state: MatrixState
    var vectorState: CM.ResetState
    var irState: CM.InstructionState

    function View(): MicroMatrix
      reads this
    {
      MicroMatrix(state, vectorState, irState)
    }

    constructor ()
      ensures View() == MicroMatrix(Reset, CM.Sync0, CM.ITLoad)
    {
      state, vectorState, irState := Reset, CM.Sync0, CM.ITLoad;
    }

    method Clock(resetHigh: bool, memBusy: bool, ir: Word, flags: Alu.Flags)
      modifies this
      ensures var m := old(View());
        View() == MicroClocked(m, MicroOutputs(m, resetHigh, memBusy, ir, flags), resetHigh)
    {
      hide MicroOutputs;
      var c := MicroOutputs(View(), resetHigh, memBusy, ir, flags);
      if !resetHigh {
        state := Reset;
        vectorState := CM.Sync0;
      } else {
        if c.resetComplete {
          state := c.nextState;
          irState := c.nextIr;
        } else {
          state := Reset;
          vectorState := c.nextVector;
        }
      }
    }
  }

  datatype MicroCore = MicroCore(m: MicroMatrix, d: Datapath)

  /** A falling edge moves the datapath under the current signals; the rising edge after it moves the
      controller, whose inputs by then show the new registers. */
  function MicroClock(u: MicroCore, resetHigh: bool): MicroCore {
    var d := ClockedDatapath(u.d, MicroOutputs(u.m, resetHigh, false, u.d.ir, u.d.flags).out);
    MicroCore(MicroClocked(u.m, MicroOutputs(u.m, resetHigh, false, d.ir, d.flags), resetHigh), d)
  }

  function MicroRun(u: MicroCore, n: nat): MicroCore {
    if n == 0 then u else MicroClock(MicroRun(u, n - 1), true)
  }
}
