/** Every clock of the controller makes progress, for every instruction word whatsoever. */
module Progress {
  import opened Bits
  import opened Encoding
  import opened ControlMatrix
  import opened RangerRisc
  import opened Execution
  import Interrupts
  import Alu

  /** The state Decode must have selected for the controller to be in `i`; PreFetch for the
      states every instruction shares. */
  function First(i: InstructionState): InstructionState {
    match i
    case RTCmpl => RType
    case ITALUCmpl => ITALU
    case ITLDMemAcc | ITLDMemMdr | ITLDMemCmpl => ITLoad
    case STMemAcc | STMemWrt => STStore
    case BTBranch => BType
    case JTJalRtr => JTJal
    case ITJalrRtr => ITJalr
    case ITCSRLd => ITCSR
    case ITMretClr => ITMret
    case IRQ0 | IRQ1 | IRQ2 => PreFetch
    case _ => i
  }

  predicate Serves(i: InstructionState, ir: Word) {
    First(i) == PreFetch || First(i) == Dispatch(ir)
  }

  /** In Execute the instruction state belongs to the opcode held in IR. */
  predicate Consistent(s: Core) {
    s.m.state != Halt && (s.m.state == Execute ==> Serves(s.m.irState, s.d.ir))
  }

  predicate Halting(ir: Word) {
    Dispatch(ir) == ITEbreak || Dispatch(ir) == ITECall
  }

  /** An upper bound on the clocks to the next Fetch. */
  function Rank(s: Core): nat {
    match s.m.state
    case Reset => 11
    case Halt => 11
    case Fetch => 10
    case Decode => 9
    case Execute => StateRank(s.m.irState)
  }

  function StateRank(i: InstructionState): nat {
    match i
    case ITLoad => 8
    case ITLDMemAcc => 7
    case ITLDMemMdr => 6
    case STStore => 7
    case STMemAcc => 6
    case RType | ITALU | BType | JTJal | ITJalr | ITCSR | ITMret => 6
    case PreFetch => 4
    case IRQ0 => 3
    case IRQ1 => 2
    case IRQ2 => 1
    case STMemWrt | ITLDMemCmpl | RTCmpl | BTBranch | ITALUCmpl | JTJalRtr | ITJalrRtr | UType | UTypeAui
       | ITCSRLd | ITMretClr | ITEbreak | ITECall => 5
    case STMemRrd | BTCmpl | UTCmpl | UTAuiCmpl | IRUnknown => 9
  }

  predicate Used(i: InstructionState) {
    !i.STMemRrd? && !i.BTCmpl? && !i.UTCmpl? && !i.UTAuiCmpl? && !i.IRUnknown?
  }

  /** One clock of Execute: the next state stays with the instruction and ranks lower, unless it is
      Fetch or the core halts. */
  predicate Moves(m: Matrix, c: Control) {
    && c.resetComplete && !c.out.irLd
    && (c.nextState == Fetch
        || (c.nextState == Execute
            && (First(c.nextIr) == PreFetch || First(c.nextIr) == First(m.irState))
            && (m.irState.ITEbreak? || m.irState.ITECall? || StateRank(c.nextIr) < StateRank(m.irState))))
  }

  lemma RegisterMoves(m: Matrix, ir: Word, flags: Alu.Flags, rsa: Word, pc: Word)
    requires m.state == Execute && m.irState in {RType, RTCmpl}
    ensures Moves(m, Outputs(m, true, false, ir, flags, rsa, pc))
  {
    hide Dispatch, Alu.TakeBranch, MstatusOnTrap, MstatusOnReturn, AlgoData, CsrDataIn, IrqPending, AlignDown,
         AluOpOf, ImmediateAluOp, Rd, Rs1, Funct3, Funct12, ControlCsr;
  }

  lemma ImmediateMoves(m: Matrix, ir: Word, flags: Alu.Flags, rsa: Word, pc: Word)
    requires m.state == Execute && m.irState in {ITALU, ITALUCmpl}
    ensures Moves(m, Outputs(m, true, false, ir, flags, rsa, pc))
  {
    hide Dispatch, Alu.TakeBranch, MstatusOnTrap, MstatusOnReturn, AlgoData, CsrDataIn, IrqPending, AlignDown,
         AluOpOf, ImmediateAluOp, Rd, Rs1, Funct3, Funct12, ControlCsr;
  }

  lemma UpperMoves(m: Matrix, ir: Word, flags: Alu.Flags, rsa: Word, pc: Word)
    requires m.state == Execute && m.irState in {UType, UTypeAui}
    ensures Moves(m, Outputs(m, true, false, ir, flags, rsa, pc))
  {
    hide Dispatch, Alu.TakeBranch, MstatusOnTrap, MstatusOnReturn, AlgoData, CsrDataIn, IrqPending, AlignDown,
         AluOpOf, ImmediateAluOp, Rd, Rs1, Funct3, Funct12, ControlCsr;
  }

  lemma JalMoves(m: Matrix, ir: Word, flags: Alu.Flags, rsa: Word, pc: Word)
    requires m.state == Execute && m.irState in {JTJal, JTJalRtr}
    ensures Moves(m, Outputs(m, true, false, ir, flags, rsa, pc))
  {
    hide Dispatch, Alu.TakeBranch, MstatusOnTrap, MstatusOnReturn, AlgoData, CsrDataIn, IrqPending, AlignDown,
         AluOpOf, ImmediateAluOp, Rd, Rs1, Funct3, Funct12, ControlCsr;
  }

  lemma JalrMoves(m: Matrix, ir: Word, flags: Alu.Flags, rsa: Word, pc: Word)
    requires m.state == Execute && m.irState in {ITJalr, ITJalrRtr}
    ensures Moves(m, Outputs(m, true, false, ir, flags, rsa, pc))
  {
    hide Dispatch, Alu.TakeBranch, MstatusOnTrap, MstatusOnReturn, AlgoData, CsrDataIn, IrqPending, AlignDown,
         AluOpOf, ImmediateAluOp, Rd, Rs1, Funct3, Funct12, ControlCsr;
  }

  lemma BranchMoves(m: Matrix, ir: Word, flags: Alu.Flags, rsa: Word, pc: Word)
    requires m.state == Execute && m.irState in {BType, BTBranch}
    ensures Moves(m, Outputs(m, true, false, ir, flags, rsa, pc))
  {
    hide Dispatch, Alu.TakeBranch, MstatusOnTrap, MstatusOnReturn, AlgoData, CsrDataIn, IrqPending, AlignDown,
         AluOpOf, ImmediateAluOp, Rd, Rs1, Funct3, Funct12, ControlCsr;
  }

  lemma LoadMoves(m: Matrix, ir: Word, flags: Alu.Flags, rsa: Word, pc: Word)
    requires m.state == Execute && m.irState in {ITLoad, ITLDMemAcc, ITLDMemMdr, ITLDMemCmpl}
    ensures Moves(m, Outputs(m, true, false, ir, flags, rsa, pc))
  {
    hide Dispatch, Alu.TakeBranch, MstatusOnTrap, MstatusOnReturn, AlgoData, CsrDataIn, IrqPending, AlignDown,
         AluOpOf, ImmediateAluOp, Rd, Rs1, Funct3, Funct12, ControlCsr;
  }

  lemma StoreMoves(m: Matrix, ir: Word, flags: Alu.Flags, rsa: Word, pc: Word)
    requires m.state == Execute && m.irState in {STStore, STMemAcc, STMemWrt}
    ensures Moves(m, Outputs(m, true, false, ir, flags, rsa, pc))
  {
    hide Dispatch, Alu.TakeBranch, MstatusOnTrap, MstatusOnReturn, AlgoData, CsrDataIn, IrqPending, AlignDown,
         AluOpOf, ImmediateAluOp, Rd, Rs1, Funct3, Funct12, ControlCsr;
  }

  lemma HaltingMoves(m: Matrix, ir: Word, flags: Alu.Flags, rsa: Word, pc: Word)
    requires m.state == Execute && m.irState in {ITEbreak, ITECall}
    ensures Moves(m, Outputs(m, true, false, ir, flags, rsa, pc))
  {
    hide Dispatch, Alu.TakeBranch, MstatusOnTrap, MstatusOnReturn, AlgoData, CsrDataIn, IrqPending, AlignDown,
         AluOpOf, ImmediateAluOp, Rd, Rs1, Funct3, Funct12, ControlCsr;
  }

  lemma MretMoves(m: Matrix, ir: Word, flags: Alu.Flags, rsa: Word, pc: Word)
    requires m.state == Execute && m.irState in {ITMret, ITMretClr}
    ensures Moves(m, Outputs(m, true, false, ir, flags, rsa, pc))
  {
    hide Dispatch, Alu.TakeBranch, MstatusOnTrap, MstatusOnReturn, AlgoData, CsrDataIn, IrqPending, AlignDown,
         AluOpOf, ImmediateAluOp, Rd, Rs1, Funct3, Funct12, ControlCsr;
  }

  lemma CsrLoadMoves(m: Matrix, ir: Word, flags: Alu.Flags, rsa: Word, pc: Word)
    requires m.state == Execute && m.irState == ITCSRLd
    ensures Moves(m, Outputs(m, true, false, ir, flags, rsa, pc))
  {
    hide Dispatch, Alu.TakeBranch, MstatusOnTrap, MstatusOnReturn, AlgoData, CsrDataIn, IrqPending, AlignDown,
         AluOpOf, ImmediateAluOp, Rd, Rs1, Funct3, Funct12, ControlCsr;
  }

  lemma CsrNext(m: Matrix, ir: Word, e: Control)
    requires e.nextState == Execute && !e.out.irLd && e.resetComplete
    ensures var c := ControlCsr(m, ir, e);
      && c.resetComplete && !c.out.irLd
      && (c.nextState == Fetch || (c.nextState == Execute && c.nextIr in {ITCSRLd, PreFetch, e.nextIr}))
      && (c.nextIr == e.nextIr ==> c.nextState == Fetch || e.nextIr in {ITCSRLd, PreFetch})
  {
    hide Rd, Rs1, Funct3;
  }

  lemma CsrMoves(m: Matrix, ir: Word, flags: Alu.Flags, rsa: Word, pc: Word)
    requires m.state == Execute && m.irState == ITCSR
    ensures Moves(m, Outputs(m, true, false, ir, flags, rsa, pc))
  {
    hide Dispatch, Alu.TakeBranch, MstatusOnTrap, MstatusOnReturn, AlgoData, CsrDataIn, IrqPending, AlignDown,
         AluOpOf, ImmediateAluOp, Rd, Rs1, Funct3, Funct12, ControlCsr;
    var d := Control(IdleSignals, true, Reset, Sync0, ITLoad, false, Funct12(ir), CsrDataIn(m.csrs, ir, rsa), false);
    CsrNext(m, ir, d.(nextState := Execute));
  }

  lemma CheckMoves(m: Matrix, ir: Word, flags: Alu.Flags, rsa: Word, pc: Word)
    requires m.state == Execute && m.irState == PreFetch
    ensures Moves(m, Outputs(m, true, false, ir, flags, rsa, pc))
  {
    hide Dispatch, Alu.TakeBranch, MstatusOnTrap, MstatusOnReturn, AlgoData, CsrDataIn, IrqPending, AlignDown,
         AluOpOf, ImmediateAluOp, Rd, Rs1, Funct3, Funct12, ControlCsr;
  }

  lemma EntryMoves(m: Matrix, ir: Word, flags: Alu.Flags, rsa: Word, pc: Word)
    requires m.state == Execute && m.irState in {IRQ0, IRQ1, IRQ2}
    ensures Moves(m, Outputs(m, true, false, ir, flags, rsa, pc))
  {
    hide Dispatch, Alu.TakeBranch, MstatusOnTrap, MstatusOnReturn, AlgoData, CsrDataIn, IrqPending, AlignDown,
         AluOpOf, ImmediateAluOp, Rd, Rs1, Funct3, Funct12, ControlCsr;
  }

  lemma ExecuteAdvances(m: Matrix, ir: Word, flags: Alu.Flags, rsa: Word, pc: Word)
    requires m.state == Execute && Used(m.irState)
    ensures Moves(m, Outputs(m, true, false, ir, flags, rsa, pc))
  {
    hide Moves, Outputs;
    match m.irState
    case RType | RTCmpl => RegisterMoves(m, ir, flags, rsa, pc);
    case ITALU | ITALUCmpl => ImmediateMoves(m, ir, flags, rsa, pc);
    case UType | UTypeAui => UpperMoves(m, ir, flags, rsa, pc);
    case JTJal | JTJalRtr => JalMoves(m, ir, flags, rsa, pc);
    case ITJalr | ITJalrRtr => JalrMoves(m, ir, flags, rsa, pc);
    case BType | BTBranch => BranchMoves(m, ir, flags, rsa, pc);
    case ITLoad | ITLDMemAcc | ITLDMemMdr | ITLDMemCmpl => LoadMoves(m, ir, flags, rsa, pc);
    case STStore | STMemAcc | STMemWrt => StoreMoves(m, ir, flags, rsa, pc);
    case ITEbreak | ITECall => HaltingMoves(m, ir, flags, rsa, pc);
    case ITMret | ITMretClr => MretMoves(m, ir, flags, rsa, pc);
    case ITCSRLd => CsrLoadMoves(m, ir, flags, rsa, pc);
    case ITCSR => CsrMoves(m, ir, flags, rsa, pc);
    case PreFetch => CheckMoves(m, ir, flags, rsa, pc);
    case IRQ0 | IRQ1 | IRQ2 => EntryMoves(m, ir, flags, rsa, pc);
  }

  lemma ServesUsed(i: InstructionState, ir: Word)
    requires Serves(i, ir)
    ensures Used(i)
    ensures i.ITEbreak? || i.ITECall? ==> Halting(ir)
  {
  }

  /** Where Execute can go. */
  lemma ExecuteMoves(m: Matrix, ir: Word, flags: Alu.Flags, rsa: Word, pc: Word)
    requires m.state == Execute && Serves(m.irState, ir)
    ensures var c := Outputs(m, true, false, ir, flags, rsa, pc);
      && c.resetComplete && !c.out.irLd
      && (c.nextState == Fetch ||
          (c.nextState == Execute && Serves(c.nextIr, ir)
              && (Halting(ir) || StateRank(c.nextIr) < StateRank(m.irState))))
  {
    hide Outputs, First, StateRank, Used, Halting, Dispatch;
    ServesUsed(m.irState, ir);
    ExecuteAdvances(m, ir, flags, rsa, pc);
  }

  /** Reset does not change where Execute would go. */
  lemma ResetIgnored(m: Matrix, resetHigh: bool, ir: Word, flags: Alu.Flags, rsa: Word, pc: Word)
    requires m.state != Reset
    ensures Outputs(m, resetHigh, false, ir, flags, rsa, pc) == Outputs(m, true, false, ir, flags, rsa, pc)
  {
    hide ControlExecute, CsrDataIn, Dispatch;
  }

  lemma IrHeld(d: Datapath, out: Signals)
    requires !out.irLd
    ensures ClockedDatapath(d, out).ir == d.ir
  {
    hide AluY, AluFlags, Immediate, Pmmu.ReadOut, Pmmu.MergeIn, Pmmu.WordAddr;
  }

  lemma ConsistentAlways(s: Core, resetHigh: bool, edge: bool)
    requires Consistent(s)
    ensures Consistent(Clock(s, resetHigh, edge))
  {
    hide Dispatch, ControlExecute, ClockedDatapath, ClockedCsrs, CsrDataIn;
    var c := Outputs(s.m, resetHigh, false, s.d.ir, s.d.flags, s.d.rsa, s.d.pc);
    if s.m.state == Execute {
      hide Outputs, Serves;
      ExecuteMoves(s.m, s.d.ir, s.d.flags, s.d.rsa, s.d.pc);
      ResetIgnored(s.m, resetHigh, s.d.ir, s.d.flags, s.d.rsa, s.d.pc);
    } else {
      DispatchRank(s.d.ir);
    }
    if !c.out.irLd {
      IrHeld(s.d, c.out);
    }
  }

  /** From a Fetch or from reset, at every clock of every run, whatever the reset and interrupt lines
      do, the instruction state belongs to the opcode held in IR. */
  lemma {:induction false} ConsistentRun(s: Core, reset: nat -> bool, irq: nat -> bool, n: nat)
    requires s.m.state == Fetch || s.m.state == Reset
    ensures Consistent(Interrupts.Trace(s, reset, irq, n))
  {
    hide Clock, Serves;
    if n == 0 {
    } else {
      ConsistentRun(s, reset, irq, n - 1);
      ConsistentAlways(Interrupts.Trace(s, reset, irq, n - 1), reset(n - 1), irq(n - 1));
    }
  }

  /** Unless ebreak or ecall holds the core, every clock with reset released either reaches Fetch
      or lowers the rank. */
  lemma EveryClockProgresses(s: Core, edge: bool)
    requires Consistent(s) && s.m.state != Reset
    requires s.m.state == Execute ==> !Halting(s.d.ir)
    ensures var r := Clock(s, true, edge);
      r.m.state == Fetch || (r.m.state in {Decode, Execute} && Rank(r) < Rank(s) &&
                             (s.m.state != Fetch ==> r.d.ir == s.d.ir))
  {
    hide ControlExecute, ClockedDatapath, ClockedCsrs, CsrDataIn, Dispatch;
    var c := Outputs(s.m, true, false, s.d.ir, s.d.flags, s.d.rsa, s.d.pc);
    if s.m.state == Execute {
      hide Outputs, Serves;
      ExecuteMoves(s.m, s.d.ir, s.d.flags, s.d.rsa, s.d.pc);
    } else {
      DispatchRank(s.d.ir);
    }
    if !c.out.irLd {
      IrHeld(s.d, c.out);
    }
  }

  lemma DispatchRank(ir: Word)
    ensures StateRank(Dispatch(ir)) <= 8 && Serves(Dispatch(ir), ir)
  {
  }

  /** From any Fetch the next one follows within ten clocks, whatever word is fetched (ebreak and
      ecall apart) and whatever interrupt edges arrive. */
  lemma FetchRecurs(s: Core, irq: nat -> bool, t: nat) returns (k: nat)
    requires s.m.state == Fetch && Consistent(s) && !Halting(Clock(s, true, irq(t)).d.ir)
    ensures 1 <= k <= 10 && Run(s, irq, t, k).m.state == Fetch
  {
    hide Clock, Run, Dispatch, Serves, Rank;
    RunNext(s, irq, t, 0);
    ConsistentAlways(s, true, irq(t));
    EveryClockProgresses(s, irq(t));
    RankOfFetch(s);
    k := 1;
    while Run(s, irq, t, k).m.state != Fetch
      invariant 1 <= k <= 10
      invariant var r := Run(s, irq, t, k);
        Consistent(r) && (r.m.state == Fetch
                       || (r.m.state in {Decode, Execute} && Rank(r) + k <= 10 && !Halting(r.d.ir)))
      decreases 10 - k
    {
      var r := Run(s, irq, t, k);
      ConsistentAlways(r, true, irq(t + k));
      EveryClockProgresses(r, irq(t + k));
      RunNext(s, irq, t, k);
      RankPositive(r);
      k := k + 1;
    }
  }

  lemma RankOfFetch(s: Core)
    requires s.m.state == Fetch
    ensures Rank(s) == 10
  {
  }

  lemma RankPositive(s: Core)
    ensures Rank(s) >= 1
  {
  }
}
