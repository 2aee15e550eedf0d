/** The refactored controller against the original one, on the same datapath. */
module MicroBisimulation {
  import opened Bits
  import opened Encoding
  import opened Csr
  import opened CM = ControlMatrix
  import opened RangerRisc
  import MC = MicroCode
  import Alu
  import Execution
  import Pmmu
  import Progress

  /** The states of Execute a non-SYSTEM instruction passes through before PreFetch. */
  predicate Plain(i: InstructionState) {
    i in {RType, RTCmpl, ITALU, ITALUCmpl, ITLoad, ITLDMemAcc, ITLDMemMdr, ITLDMemCmpl, ITJalr, ITJalrRtr,
          STStore, STMemAcc, STMemWrt, BType, BTBranch, JTJal, JTJalRtr, UType, UTypeAui}
  }

  /** Corresponding controller states: PreFetch of Execute on the left is a state on the right.
      Outside Execute ir_state rests at ITLoad on both sides. */
  predicate SameState(m: Matrix, u: MC.MicroMatrix) {
    SameNextState(m.state, m.irState, u.state, u.irState)
  }

  predicate Related(s: Core, u: MC.MicroCore) {
    SameState(s.m, u.m) && s.d == u.d && Bit(s.m.csrs.mstatus, MSTATUS_MIE) == 0
  }

  /** The instruction about to be dispatched is not a SYSTEM one. */
  predicate NotSystem(s: Core) {
    s.m.state == Decode ==> Opcode(s.d.ir) != ITYPE_E
  }

  predicate SameNextState(state: MatrixState, ir: InstructionState, mstate: MC.MatrixState, mir: InstructionState) {
    match state
    case Fetch => mstate == MC.Fetch && ir == ITLoad && mir == ITLoad
    case Decode => mstate == MC.Decode && ir == ITLoad && mir == ITLoad
    case Execute =>
      if ir == PreFetch then mstate == MC.PreFetch && mir == ITLoad
      else mstate == MC.Execute && mir == ir && Plain(ir)
    case _ => false
  }

  /** Signals equal, next states corresponding. */
  predicate SameControl(c: Control, d: MC.MicroControl) {
    && c.out == d.out && c.resetComplete && d.resetComplete && !c.writeCsr
    && SameNextState(c.nextState, c.nextIr, d.nextState, d.nextIr)
  }

  lemma DispatchAgrees(ir: Word)
    requires Opcode(ir) != ITYPE_E
    ensures MC.MicroDispatch(ir) == Dispatch(ir) && Plain(Dispatch(ir)) && Dispatch(ir) != PreFetch
  {
    hide Opcode, Funct12, IsCsrInstr;
  }

  lemma FetchAgrees(m: Matrix, u: MC.MicroMatrix, ir: Word, flags: Alu.Flags, rsa: Word, pc: Word)
    requires SameState(m, u) && m.state in {Fetch, Decode} && (m.state == Decode ==> Opcode(ir) != ITYPE_E)
    ensures SameControl(Outputs(m, true, false, ir, flags, rsa, pc), MC.MicroOutputs(u, true, false, ir, flags))
  {
    hide Dispatch, MC.MicroDispatch, CsrDataIn, Opcode, Plain;
    if m.state == Decode {
      DispatchAgrees(ir);
    }
  }

  lemma CheckAgrees(m: Matrix, u: MC.MicroMatrix, ir: Word, flags: Alu.Flags, rsa: Word, pc: Word)
    requires SameState(m, u) && m.state == Execute && m.irState == PreFetch && Bit(m.csrs.mstatus, MSTATUS_MIE) == 0
    ensures SameControl(Outputs(m, true, false, ir, flags, rsa, pc), MC.MicroOutputs(u, true, false, ir, flags))
    ensures !Outputs(m, true, false, ir, flags, rsa, pc).irqPending
  {
    hide Dispatch, MC.MicroDispatch, CsrDataIn, Opcode, Plain, Bit, MstatusOnTrap;
  }

  predicate Agrees(m: Matrix, u: MC.MicroMatrix, ir: Word, flags: Alu.Flags, rsa: Word, pc: Word) {
    SameControl(Outputs(m, true, false, ir, flags, rsa, pc), MC.MicroOutputs(u, true, false, ir, flags))
  }

  lemma RegisterAgrees(m: Matrix, u: MC.MicroMatrix, ir: Word, flags: Alu.Flags, rsa: Word, pc: Word)
    requires SameState(m, u) && m.state == Execute && m.irState in {RType, RTCmpl}
    ensures Agrees(m, u, ir, flags, rsa, pc)
  {
    hide CsrDataIn, AluOpOf, ImmediateAluOp, Rd, Alu.TakeBranch, Funct12, Opcode;
  }

  lemma ImmediateAgrees(m: Matrix, u: MC.MicroMatrix, ir: Word, flags: Alu.Flags, rsa: Word, pc: Word)
    requires SameState(m, u) && m.state == Execute && m.irState in {ITALU, ITALUCmpl}
    ensures Agrees(m, u, ir, flags, rsa, pc)
  {
    hide CsrDataIn, AluOpOf, ImmediateAluOp, Rd, Alu.TakeBranch, Funct12, Opcode;
  }

  lemma JalAgrees(m: Matrix, u: MC.MicroMatrix, ir: Word, flags: Alu.Flags, rsa: Word, pc: Word)
    requires SameState(m, u) && m.state == Execute && m.irState in {JTJal, JTJalRtr}
    ensures Agrees(m, u, ir, flags, rsa, pc)
  {
    hide CsrDataIn, AluOpOf, ImmediateAluOp, Rd, Alu.TakeBranch, Funct12, Opcode, Funct3;
  }

  lemma JalrAgrees(m: Matrix, u: MC.MicroMatrix, ir: Word, flags: Alu.Flags, rsa: Word, pc: Word)
    requires SameState(m, u) && m.state == Execute && m.irState in {ITJalr, ITJalrRtr}
    ensures Agrees(m, u, ir, flags, rsa, pc)
  {
    hide CsrDataIn, AluOpOf, ImmediateAluOp, Rd, Alu.TakeBranch, Funct12, Opcode, Funct3;
  }

  lemma BranchAgrees(m: Matrix, u: MC.MicroMatrix, ir: Word, flags: Alu.Flags, rsa: Word, pc: Word)
    requires SameState(m, u) && m.state == Execute && m.irState in {BType, BTBranch}
    ensures Agrees(m, u, ir, flags, rsa, pc)
  {
    hide CsrDataIn, AluOpOf, ImmediateAluOp, Rd, Alu.TakeBranch, Funct12, Opcode, Funct3;
  }

  lemma UpperAgrees(m: Matrix, u: MC.MicroMatrix, ir: Word, flags: Alu.Flags, rsa: Word, pc: Word)
    requires SameState(m, u) && m.state == Execute && m.irState in {UType, UTypeAui}
    ensures Agrees(m, u, ir, flags, rsa, pc)
  {
    hide CsrDataIn, AluOpOf, ImmediateAluOp, Rd, Alu.TakeBranch, Funct12, Opcode, Funct3;
  }

  lemma LoadAgrees(m: Matrix, u: MC.MicroMatrix, ir: Word, flags: Alu.Flags, rsa: Word, pc: Word)
    requires SameState(m, u) && m.state == Execute && m.irState in {ITLoad, ITLDMemAcc, ITLDMemMdr, ITLDMemCmpl}
    ensures Agrees(m, u, ir, flags, rsa, pc)
  {
    hide CsrDataIn, AluOpOf, ImmediateAluOp, Rd, Alu.TakeBranch, Funct12, Opcode, Funct3;
  }

  lemma StoreAgrees(m: Matrix, u: MC.MicroMatrix, ir: Word, flags: Alu.Flags, rsa: Word, pc: Word)
    requires SameState(m, u) && m.state == Execute && m.irState in {STStore, STMemAcc, STMemWrt}
    ensures Agrees(m, u, ir, flags, rsa, pc)
  {
    hide CsrDataIn, AluOpOf, ImmediateAluOp, Rd, Alu.TakeBranch, Funct12, Opcode, Funct3;
  }

  /** In corresponding states the two controllers drive the same signals, the hoisted alu_op
      included, and go to corresponding states. */
  lemma ControllersAgree(m: Matrix, u: MC.MicroMatrix, ir: Word, flags: Alu.Flags, rsa: Word, pc: Word)
    requires SameState(m, u) && Bit(m.csrs.mstatus, MSTATUS_MIE) == 0
    requires m.state == Decode ==> Opcode(ir) != ITYPE_E
    ensures Agrees(m, u, ir, flags, rsa, pc)
  {
    hide Outputs, MC.MicroOutputs, SameControl, Opcode, Bit;
    if m.state == Execute && m.irState == PreFetch {
      CheckAgrees(m, u, ir, flags, rsa, pc);
    } else if m.state == Execute {
      match m.irState {
        case RType | RTCmpl => RegisterAgrees(m, u, ir, flags, rsa, pc);
        case ITALU | ITALUCmpl => ImmediateAgrees(m, u, ir, flags, rsa, pc);
        case JTJal | JTJalRtr => JalAgrees(m, u, ir, flags, rsa, pc);
        case ITJalr | ITJalrRtr => JalrAgrees(m, u, ir, flags, rsa, pc);
        case BType | BTBranch => BranchAgrees(m, u, ir, flags, rsa, pc);
        case UType | UTypeAui => UpperAgrees(m, u, ir, flags, rsa, pc);
        case ITLoad | ITLDMemAcc | ITLDMemMdr | ITLDMemCmpl => LoadAgrees(m, u, ir, flags, rsa, pc);
        case STStore | STMemAcc | STMemWrt => StoreAgrees(m, u, ir, flags, rsa, pc);
      }
    } else {
      FetchAgrees(m, u, ir, flags, rsa, pc);
    }
  }

  /** The registers a falling edge changes are not those the next state depends on, so it does not
      matter that the refactored controller reads them half a clock later. */
  lemma LateReadHarmless(u: MC.MicroCore)
    requires u.m.state in {MC.Fetch, MC.Decode, MC.Execute, MC.PreFetch}
    ensures var c := MC.MicroOutputs(u.m, true, false, u.d.ir, u.d.flags);
      var d := ClockedDatapath(u.d, c.out);
      MC.MicroClocked(u.m, MC.MicroOutputs(u.m, true, false, d.ir, d.flags), true) == MC.MicroClocked(u.m, c, true)
  {
    var c := MC.MicroOutputs(u.m, true, false, u.d.ir, u.d.flags);
    var d := ClockedDatapath(u.d, c.out);
    if u.m.state in {MC.Decode, MC.Execute} {
      NoIrLoad(u.m, u.d.ir, u.d.flags);
      Progress.IrHeld(u.d, c.out);
      FlagsOnlyTake(u.m, d.ir, u.d.flags, d.flags);
    } else {
      NextFixed(u.m, u.d.ir, u.d.flags, d.ir, d.flags);
    }
  }

  predicate SameNext(c: MC.MicroControl, d: MC.MicroControl) {
    c.resetComplete == d.resetComplete && c.nextState == d.nextState
    && c.nextVector == d.nextVector && c.nextIr == d.nextIr
  }

  lemma NoIrLoad(m: MC.MicroMatrix, ir: Word, flags: Alu.Flags)
    requires m.state in {MC.Decode, MC.Execute}
    ensures !MC.MicroOutputs(m, true, false, ir, flags).out.irLd
  {
    hide AluOpOf, ImmediateAluOp, Rd, Alu.TakeBranch, MC.MicroDispatch, Funct3;
  }

  lemma FlagsOnlyTake(m: MC.MicroMatrix, ir: Word, f: Alu.Flags, g: Alu.Flags)
    requires m.state in {MC.Decode, MC.Execute}
    ensures SameNext(MC.MicroOutputs(m, true, false, ir, f), MC.MicroOutputs(m, true, false, ir, g))
  {
    hide AluOpOf, ImmediateAluOp, Rd, Alu.TakeBranch, MC.MicroDispatch, Funct3;
  }

  lemma NextFixed(m: MC.MicroMatrix, ir: Word, f: Alu.Flags, ir': Word, g: Alu.Flags)
    requires m.state in {MC.Fetch, MC.PreFetch, MC.Reset}
    ensures SameNext(MC.MicroOutputs(m, true, false, ir, f), MC.MicroOutputs(m, true, false, ir', g))
  {
    hide MC.HoistedAluOp;
  }

  /** One clock: related cores stay related while no SYSTEM instruction is dispatched, whatever
      interrupt edge arrives. */
  lemma StepRelated(s: Core, u: MC.MicroCore, edge: bool)
    requires Related(s, u) && NotSystem(s)
    ensures Related(Clock(s, true, edge), MC.MicroClock(u, true))
  {
    hide Outputs, MC.MicroOutputs, ClockedDatapath, Plain, Opcode, Bit;
    ControllersAgree(s.m, u.m, s.d.ir, s.d.flags, s.d.rsa, s.d.pc);
    LateReadHarmless(u);
    MstatusKept(s.m, Outputs(s.m, true, false, s.d.ir, s.d.flags, s.d.rsa, s.d.pc), edge);
  }

  lemma MstatusKept(m: Matrix, c: Control, edge: bool)
    requires !c.writeCsr
    ensures Clocked(m, c, true, edge).csrs.mstatus == m.csrs.mstatus
  {
    hide SetBit32;
  }

  /** Any number of clocks: while the program dispatches no SYSTEM instruction and interrupts stay
      disabled, the refactored core's datapath is the original's, clock for clock. */
  lemma {:induction false} RunRelated(s: Core, u: MC.MicroCore, irq: nat -> bool, t: nat, n: nat)
    requires Related(s, u) && forall k: nat | k < n :: NotSystem(Run(s, irq, t, k))
    ensures Related(Run(s, irq, t, n), MC.MicroRun(u, n))
  {
    hide Clock, MC.MicroClock, Related, NotSystem;
    if n > 0 {
      RunRelated(s, u, irq, t, n - 1);
      assert NotSystem(Run(s, irq, t, n - 1));
      Execution.RunNext(s, irq, t, n - 1);
      StepRelated(Run(s, irq, t, n - 1), MC.MicroRun(u, n - 1), irq(t + n - 1));
    } else {
      assert Run(s, irq, t, 0) == s && MC.MicroRun(u, 0) == u;
    }
  }

  // ---------------------------------------------------------------
  // Reset
  // ---------------------------------------------------------------

  /** Both cores are in the same step of the reset sequence; ir_state may hold anything. */
  predicate BothResetting(s: Core, u: MC.MicroCore, v: ResetState) {
    && s.m.state == Reset && s.m.vectorState == v && u.m.state == MC.Reset && u.m.vectorState == v
    && s.d == u.d && Bit(s.m.csrs.mstatus, MSTATUS_MIE) == 0
  }

  lemma ResetSignals(s: Core, u: MC.MicroCore)
    requires BothResetting(s, u, s.m.vectorState)
    ensures var c := Outputs(s.m, true, false, s.d.ir, s.d.flags, s.d.rsa, s.d.pc);
      var d := MC.MicroOutputs(u.m, true, false, u.d.ir, u.d.flags);
      && c.out == d.out.(aluOp := Alu.ADD_OP) && !c.writeCsr
      && !c.out.aluLd && !c.out.flagsLd && !c.out.rgWr && (c.out.pcLd ==> c.out.pcSrc != PCSrcAluImm)
      && c.nextVector == d.nextVector && c.resetComplete == d.resetComplete == (s.m.vectorState == Vector3)
      && (s.m.vectorState == Vector3 ==>
            c.nextState == Fetch && c.nextIr == ITLoad && d.nextState == MC.PreFetch && d.nextIr == ITLoad)
      && c.nextVector == match s.m.vectorState
                         case Sync0 => Vector0
                         case Vector0 => Vector1
                         case Vector1 => Vector2
                         case Vector2 => Vector3
                         case Vector3 => Sync0
  {
    hide MC.HoistedAluOp, CsrDataIn, Bit;
  }

  /** An unused ALU result does not matter. */
  lemma AluOpUnused(d: Datapath, out: Signals, op: nat)
    requires !out.aluLd && !out.flagsLd && !out.rgWr && (out.pcLd ==> out.pcSrc != PCSrcAluImm)
    ensures ClockedDatapath(d, out.(aluOp := op)) == ClockedDatapath(d, out)
  {
    hide AluY, AluFlags, Immediate, Pmmu.ReadOut, Pmmu.MergeIn, Pmmu.WordAddr, ReadReg, WriteReg;
  }

  lemma ResetStep(s: Core, u: MC.MicroCore, edge: bool)
    requires BothResetting(s, u, s.m.vectorState)
    ensures var r, w := Clock(s, true, edge), MC.MicroClock(u, true);
      match s.m.vectorState
      case Sync0 => BothResetting(r, w, Vector0)
      case Vector0 => BothResetting(r, w, Vector1)
      case Vector1 => BothResetting(r, w, Vector2)
      case Vector2 => BothResetting(r, w, Vector3)
      case Vector3 =>
        && r.m.state == Fetch && r.m.irState == ITLoad && w.m.state == MC.PreFetch && w.m.irState == ITLoad
        && r.d == w.d && Bit(r.m.csrs.mstatus, MSTATUS_MIE) == 0
        && Settled(r.d)
  {
    hide Outputs, MC.MicroOutputs, ClockedDatapath, ClockedCsrs, Bit, Settled;
    ResetDatapath(s, u, edge);
    ResetSignals(s, u);
    ResetReadsLate(u, MC.MicroClock(u, true).d);
    if s.m.vectorState == Vector3 {
      LastResetSettles(s);
    }
  }

  lemma RestoreAluOp(a: Signals, b: Signals)
    requires a == b.(aluOp := Alu.ADD_OP)
    ensures b == a.(aluOp := b.aluOp)
  {
  }

  lemma ClockParts(s: Core, edge: bool)
    ensures var c := Outputs(s.m, true, false, s.d.ir, s.d.flags, s.d.rsa, s.d.pc);
      Clock(s, true, edge) == Core(Clocked(s.m, c, true, edge), ClockedDatapath(s.d, c.out))
  {
    hide Outputs, Clocked, ClockedDatapath;
  }

  lemma MicroDatapath(u: MC.MicroCore)
    ensures MC.MicroClock(u, true).d == ClockedDatapath(u.d, MC.MicroOutputs(u.m, true, false, u.d.ir, u.d.flags).out)
  {
    hide MC.MicroOutputs, MC.MicroClocked, ClockedDatapath;
  }

  lemma ResetDatapath(s: Core, u: MC.MicroCore, edge: bool)
    requires BothResetting(s, u, s.m.vectorState)
    ensures Clock(s, true, edge).d == MC.MicroClock(u, true).d
    ensures Clock(s, true, edge).m.csrs.mstatus == s.m.csrs.mstatus
  {
    var c := Outputs(s.m, true, false, s.d.ir, s.d.flags, s.d.rsa, s.d.pc);
    var d := MC.MicroOutputs(u.m, true, false, u.d.ir, u.d.flags);
    assert s.d == u.d;
    ClockParts(s, edge);
    MicroDatapath(u);
    hide *;
    ResetSignals(s, u);
    RestoreAluOp(c.out, d.out);
    AluOpUnused(s.d, c.out, d.out.aluOp);
    MstatusKept(s.m, c, edge);
  }

  lemma ResetReadsLate(u: MC.MicroCore, d: Datapath)
    requires u.m.state == MC.Reset
    ensures SameNext(MC.MicroOutputs(u.m, true, false, u.d.ir, u.d.flags),
                     MC.MicroOutputs(u.m, true, false, d.ir, d.flags))
  {
    NextFixed(u.m, u.d.ir, u.d.flags, d.ir, d.flags);
  }

  /** The BRAM output shows the word at pc, and RsA and RsB the registers the IR names. */
  predicate Settled(d: Datapath) {
    d.memOut == d.mem[Pmmu.WordAddr(d.pc)] && d.rsa == ReadReg(d.regs, Rs1(d.ir)) && d.rsb == ReadReg(d.regs, Rs2(d.ir))
  }

  lemma LastResetSettles(s: Core)
    requires s.m.state == Reset && s.m.vectorState == Vector3
    ensures Settled(ClockedDatapath(s.d, Outputs(s.m, true, false, s.d.ir, s.d.flags, s.d.rsa, s.d.pc).out))
  {
    hide AluY, AluFlags, Immediate, Pmmu.ReadOut, Pmmu.MergeIn, Pmmu.WordAddr, ReadReg, WriteReg, Rs1, Rs2, CsrDataIn;
  }

  /** The extra clock of the refactored reset, in PreFetch, changes nothing. */
  lemma ExtraPreFetch(u: MC.MicroCore)
    requires u.m.state == MC.PreFetch && u.m.irState == ITLoad && Settled(u.d)
    ensures var w := MC.MicroClock(u, true);
      w.d == u.d && w.m.state == MC.Fetch && w.m.irState == ITLoad
  {
    hide AluY, AluFlags, Immediate, Pmmu.ReadOut, Pmmu.MergeIn, Pmmu.WordAddr, ReadReg, WriteReg, Rs1, Rs2;
  }

  lemma ResetSequence(s: Core, u: MC.MicroCore, irq: nat -> bool, t: nat)
    requires BothResetting(s, u, Sync0)
    ensures BothResetting(Run(s, irq, t, 4), MC.MicroRun(u, 4), Vector3)
  {
    hide Clock, MC.MicroClock, Run, MC.MicroRun, Settled, Bit;
    MicroNext(u, 0);
    MicroNext(u, 1);
    MicroNext(u, 2);
    MicroNext(u, 3);
    Execution.RunNext(s, irq, t, 0);
    Execution.RunNext(s, irq, t, 1);
    Execution.RunNext(s, irq, t, 2);
    Execution.RunNext(s, irq, t, 3);
    ResetStep(s, u, irq(t));
    ResetStep(Run(s, irq, t, 1), MC.MicroRun(u, 1), irq(t + 1));
    ResetStep(Run(s, irq, t, 2), MC.MicroRun(u, 2), irq(t + 2));
    ResetStep(Run(s, irq, t, 3), MC.MicroRun(u, 3), irq(t + 3));
  }

  /** Five clocks of the original reset and six of the refactored one lead to related cores, whatever
      ir_state the refactored controller was stopped in. */
  lemma ResetsRelated(s: Core, u: MC.MicroCore, irq: nat -> bool, t: nat)
    requires BothResetting(s, u, Sync0)
    ensures Related(Run(s, irq, t, 5), MC.MicroRun(u, 6))
  {
    hide Clock, MC.MicroClock, Run, MC.MicroRun, Settled, Bit;
    ResetSequence(s, u, irq, t);
    Execution.RunNext(s, irq, t, 4);
    MicroNext(u, 4);
    MicroNext(u, 5);
    ResetStep(Run(s, irq, t, 4), MC.MicroRun(u, 4), irq(t + 4));
    ExtraPreFetch(MC.MicroRun(u, 5));
  }

  lemma MicroNext(u: MC.MicroCore, n: nat)
    ensures MC.MicroRun(u, n + 1) == MC.MicroClock(MC.MicroRun(u, n), true) && MC.MicroRun(u, 0) == u
  {
    hide MC.MicroClock;
  }

  // ---------------------------------------------------------------
  // Why the invariant is needed
  // ---------------------------------------------------------------

  /** The hoisted alu_op is the original's in Decode exactly if ir_state is not one of the three
      states it looks for, or asks for an addition anyway. */
  lemma HoistSoundInDecode(m: Matrix, u: MC.MicroMatrix, ir: Word, flags: Alu.Flags, rsa: Word, pc: Word)
    requires m.state == Decode && u.state == MC.Decode
    ensures Outputs(m, true, false, ir, flags, rsa, pc).out == MC.MicroOutputs(u, true, false, ir, flags).out
            <==> MC.HoistedAluOp(u.irState, ir) == Alu.ADD_OP
    ensures u.irState !in {RType, ITALU, BType} ==> MC.HoistedAluOp(u.irState, ir) == Alu.ADD_OP
    ensures u.irState == BType ==> MC.HoistedAluOp(u.irState, ir) != Alu.ADD_OP
  {
    hide AluOpOf, ImmediateAluOp, Dispatch, MC.MicroDispatch, CsrDataIn;
  }

  /** With BType left in ir_state, Decode would step pc back instead of forward. */
  lemma StaleIrStateStepsBack(u: MC.MicroCore)
    requires u.m.state == MC.Decode && u.m.irState == BType
    ensures MC.MicroClock(u, true).d.pc == Wrap(u.d.pc - 4)
  {
    hide Immediate, Pmmu.ReadOut, Pmmu.MergeIn, Pmmu.WordAddr, ReadReg, WriteReg, MC.MicroDispatch, MC.MicroClocked;
    Pow2Of32();
  }
}
