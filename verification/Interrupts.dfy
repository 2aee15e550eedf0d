/** Interrupts: no nesting at any clock of any run, precise trap entry, and return to the
    interrupted program. */
module Interrupts {
  import opened Bits
  import opened Csr
  import opened ControlMatrix
  import opened RangerRisc
  import opened Execution
  import opened MicroSteps
  import opened Refinement
  import opened WholeRun
  import Isa

  // ---------------------------------------------------------------
  // No nesting, clock by clock, for any inputs
  // ---------------------------------------------------------------

  /** The core after `n` clocks with any reset line and any interrupt edges. */
  function Trace(s: Core, reset: nat -> bool, irq: nat -> bool, n: nat): Core {
    if n == 0 then s else Clock(Trace(s, reset, irq, n - 1), reset(n - 1), irq(n - 1))
  }

  predicate Executes(s: Core, i: InstructionState) {
    s.m.state == Execute && s.m.irState == i
  }

  /** This clock starts a trap. */
  predicate TrapEntry(s: Core) {
    Executes(s, PreFetch) && IrqPending(s.m.csrs) && !s.m.inProgress
  }

  /** This clock ends a handler: the second clock of mret, or reset. */
  predicate HandlerEnd(s: Core) {
    Executes(s, ITMretClr) || s.m.state == Reset
  }

  lemma InProgressPersists(s: Core, reset: bool, edge: bool)
    ensures TrapEntry(s) ==> Clock(s, reset, edge).m.inProgress
    ensures s.m.inProgress && !HandlerEnd(s) ==> Clock(s, reset, edge).m.inProgress
  {
    hide ClockedDatapath, ClockedCsrs, MstatusOnTrap, MstatusOnReturn, SetBit32, AlgoData, Bit;
  }

  lemma {:induction false} InProgressUntilEnd(s: Core, reset: nat -> bool, irq: nat -> bool, i: nat, j: nat)
    requires i < j && TrapEntry(Trace(s, reset, irq, i))
    requires forall k | i < k < j :: !HandlerEnd(Trace(s, reset, irq, k))
    ensures Trace(s, reset, irq, j).m.inProgress
    decreases j
  {
    hide Clock, TrapEntry, HandlerEnd;
    InProgressPersists(Trace(s, reset, irq, j - 1), reset(j - 1), irq(j - 1));
    if i == j - 1 {
    } else {
      InProgressUntilEnd(s, reset, irq, i, j - 1);
    }
  }

  /** Traps never nest: between two trap entries of any run, handlers that set MIE again included,
      there is the end of an mret or a reset. */
  lemma NoNesting(s: Core, reset: nat -> bool, irq: nat -> bool, i: nat, j: nat)
    requires i < j && TrapEntry(Trace(s, reset, irq, i)) && TrapEntry(Trace(s, reset, irq, j))
    ensures exists k :: i < k < j && HandlerEnd(Trace(s, reset, irq, k))
  {
    hide Clock, Trace, HandlerEnd, IrqPending;
    if forall k | i < k < j :: !HandlerEnd(Trace(s, reset, irq, k)) {
      InProgressUntilEnd(s, reset, irq, i, j);
    }
  }

  /** The end of the mret that returns from a handler. */
  predicate TrapReturn(s: Core) {
    Executes(s, ITMretClr) && s.m.inProgress
  }

  lemma AfterReturn(s: Core, edge: bool)
    requires TrapReturn(s)
    ensures var r := Clock(s, true, edge);
      Executes(r, PreFetch) && !TrapEntry(r)
  {
    hide ClockedDatapath, MstatusOnTrap, MstatusOnReturn, AlgoData, SetBit;
    BitOfSetBit(s.m.csrs.mip, MIP_MEIP, 0, MIP_MEIP);
  }

  lemma CheckThenDecode(s: Core, edge: bool)
    ensures Executes(s, PreFetch) && !TrapEntry(s) ==> Clock(s, true, edge).m.state == Fetch
    ensures s.m.state == Fetch ==> Clock(s, true, edge).m.state == Decode
    ensures s.m.state == Decode ==> Executes(Clock(s, true, edge), Dispatch(s.d.ir))
  {
    hide ClockedDatapath, ClockedCsrs, MstatusOnTrap, MstatusOnReturn, SetBit32, AlgoData, Bit, Dispatch;
  }

  /** A trap return leads to the interrupt check, Fetch and Decode, with no trap meanwhile. */
  lemma ReturnFetches(s: Core, irq: nat -> bool, t: nat)
    requires TrapReturn(s)
    ensures forall k: nat | 1 <= k <= 4 :: !TrapEntry(Run(s, irq, t, k))
    ensures Executes(Run(s, irq, t, 1), PreFetch)
  {
    hide Clock, Run, Dispatch, IrqPending, TrapReturn;
    RunNext(s, irq, t, 0);
    RunNext(s, irq, t, 1);
    RunNext(s, irq, t, 2);
    RunNext(s, irq, t, 3);
    AfterReturn(s, irq(t));
    CheckThenDecode(Run(s, irq, t, 1), irq(t + 1));
    CheckThenDecode(Run(s, irq, t, 2), irq(t + 2));
    CheckThenDecode(Run(s, irq, t, 3), irq(t + 3));
    DispatchNeverChecks(Run(s, irq, t, 3).d.ir);
    forall k: nat | 1 <= k <= 4 ensures !TrapEntry(Run(s, irq, t, k)) {
      assert k == 1 || k == 2 || k == 3 || k == 4;
    }
  }

  /** The clock after a trap return is the interrupt check of the handler's mret. */
  lemma ReturnReachesBoundary(s: Core, irq: nat -> bool, t: nat)
    requires TrapReturn(s) && !s.m.resetTrigger
    ensures Boundary(Run(s, irq, t, 2))
  {
    hide Clock, Run, Boundary, TrapReturn, TrapEntry, IrqPending, Abs, Isa.Traps, Isa.Arrive;
    ReturnFetches(s, irq, t);
    RunNext(s, irq, t, 0);
    RunNext(s, irq, t, 1);
    var p := Run(s, irq, t, 1);
    ReturnKeepsLatch(s, irq(t));
    NoTrapDue(p);
    CheckPasses(p, irq(t + 1));
  }

  lemma ReturnKeepsLatch(s: Core, edge: bool)
    requires TrapReturn(s) && !s.m.resetTrigger
    ensures !Clock(s, true, edge).m.resetTrigger
  {
    hide ClockedDatapath, MstatusOnTrap, MstatusOnReturn, AlgoData, SetBit, ClockedCsrs;
  }

  lemma NoTrapDue(p: Core)
    requires Executes(p, PreFetch) && !TrapEntry(p)
    ensures !Isa.Traps(Abs(p))
  {
    hide Bit;
  }

  /** A trap entry is followed by the three states of the trap and a Fetch. */
  lemma TrapStates(s: Core, irq: nat -> bool, t: nat)
    requires TrapEntry(s)
    ensures Executes(Run(s, irq, t, 1), IRQ0) && Executes(Run(s, irq, t, 2), IRQ1) && Executes(Run(s, irq, t, 3), IRQ2)
  {
    hide *;
    RunNext(s, irq, t, 0);
    RunNext(s, irq, t, 1);
    RunNext(s, irq, t, 2);
    TrapState(s, irq(t));
    TrapState(Run(s, irq, t, 1), irq(t + 1));
    TrapState(Run(s, irq, t, 2), irq(t + 2));
  }

  lemma TrapState(s: Core, edge: bool)
    ensures TrapEntry(s) ==> Executes(Clock(s, true, edge), IRQ0)
    ensures Executes(s, IRQ0) ==> Executes(Clock(s, true, edge), IRQ1)
    ensures Executes(s, IRQ1) ==> Executes(Clock(s, true, edge), IRQ2)
  {
    hide ClockedDatapath, ClockedCsrs, MstatusOnTrap, MstatusOnReturn, SetBit32, AlgoData, Bit, Dispatch, CsrDataIn,
         IrqPending, Latched, AlignDown;
  }

  /** After a trap return an instruction of the interrupted program retires, as the interpreter
      retires it, before the next trap entry, however many edges arrive. */
  lemma ReturnRetiresOne(s: Core, irq: nat -> bool, t: nat, k: nat)
    requires TrapReturn(s) && !s.m.resetTrigger
    requires Isa.Legal(Abs(Run(s, irq, t, 2)))
    requires k >= 1 && TrapEntry(Run(s, irq, t, k))
    ensures
      var b := Run(s, irq, t, 2);
      var n := Isa.Latency(Isa.Decode(Isa.Fetched(Abs(b)))) - 1;
      var p := Run(s, irq, t, 2 + n);
      Boundary(b) && 2 + n <= k && In(p, PreFetch) && Abs(p) == Isa.Retire(Abs(b), irq, t + 2)
  {
    hide Clock, Run, Abs, Boundary, TrapReturn, TrapEntry, Isa.Decode, Isa.Fetched, Isa.Latency, Isa.Retire;
    ReturnFetches(s, irq, t);
    ReturnReachesBoundary(s, irq, t);
    var b := Run(s, irq, t, 2);
    FetchedIsMemOut(b);
    InstructionRefines(b, irq, t + 2);
    var n := Isa.Latency(Isa.Decode(Isa.Fetched(Abs(b)))) - 1;
    RunCompose(s, irq, t, 2, n);
    var p := Run(s, irq, t, 2 + n);
    if k < 2 + n {
      var e := Run(s, irq, t, k);
      TrapStates(e, irq, t + k);
      RunCompose(s, irq, t, k, 2 + n - k);
    }
  }

  lemma DispatchNeverChecks(ir: Word)
    ensures Dispatch(ir) != PreFetch
  {
  }

  // ---------------------------------------------------------------
  // Precise traps
  // ---------------------------------------------------------------

  /** Whatever instruction has just retired, a trap stores the interpreter's next pc in mepc,
      jumps to mtvec, and leaves the registers and memory the instruction left. */
  lemma PreciseTrap(s: Core, irq: nat -> bool, t: nat)
    requires Boundary(s) && Isa.Legal(Abs(s)) && Isa.Traps(Isa.Retire(Abs(s), irq, t))
    ensures
      var a := Abs(s);
      var i := Isa.Decode(Isa.Fetched(a));
      var done := Isa.Execute(Isa.Arrive(a, irq(t) || irq(t + 1), a.inHandler), i);
      var q := Run(s, irq, t, Isa.TimedStep(a, irq, t).1);
      && Boundary(q) && q.m.inProgress
      && Abs(q).csrs.mepc == done.pc && Abs(q).pc == done.csrs.mtvec
      && Abs(q).regs == done.regs && Abs(q).mem == done.mem
      && (LeavesCsrs(i) ==> SameMachine(done, Isa.Execute(a, i)))
  {
    hide Run, Abs, Boundary, Isa.Decode, Isa.Execute, Isa.Latency, Isa.Fetched, Isa.WithEnables, SetBit32, Bit;
    StepRefines(s, irq, t);
    AbsInHandler(Run(s, irq, t, Isa.TimedStep(Abs(s), irq, t).1));
    var a := Abs(s);
    var i := Isa.Decode(Isa.Fetched(a));
    if LeavesCsrs(i) {
      ExecutePlain(Isa.Arrive(a, irq(t) || irq(t + 1), a.inHandler), a, i);
    }
  }

  // ---------------------------------------------------------------
  // Return to the interrupted program
  // ---------------------------------------------------------------

  /** A CSR access that leaves its CSR with another value than before. */
  predicate Rewrites(a: Isa.Arch, i: Isa.Instr)
    requires i.CsrAccess?
  {
    var current := ReadCsr(a.csrs, i.csr);
    var v := match i.operand case Register(r) => a.regs[r] case Zimm(z) => z;
    !(i.operand == Isa.Register(0) && i.form != Isa.Swap) && Isa.ModifiedCsr(i.form, current, v) != current
  }

  /** `n` handler instructions, none of which is mret or changes mstatus or mepc; they may read both. */
  predicate HandlerBody(a: Isa.Arch, irq: nat -> bool, t: nat, n: nat)
    decreases n
  {
    n > 0 ==>
      var i := Isa.Decode(Isa.Fetched(a));
      && i != Isa.Illegal && i != Isa.Mret
      && (i.CsrAccess? && i.csr in {MSTATUS, MEPC} ==> !Rewrites(a, i))
      && var (b, clocks) := Isa.TimedStep(a, irq, t);
         HandlerBody(b, irq, t + clocks, n - 1)
  }

  /** Setting or clearing no bits is a plain read. */
  lemma ReadsRewriteNothing(a: Isa.Arch, rd: Isa.RegIndex, csr: nat)
    ensures !Rewrites(a, Isa.CsrAccess(Isa.SetBits, rd, Isa.Zimm(0), csr))
    ensures !Rewrites(a, Isa.CsrAccess(Isa.ClearBits, rd, Isa.Zimm(0), csr))
    ensures !Rewrites(a, Isa.CsrAccess(Isa.SetBits, rd, Isa.Register(0), csr))
  {
    hide And;
    Pow2Of32();
    AllOnes(32, ReadCsr(a.csrs, csr));
  }

  lemma {:induction false} AllOnes(n: nat, x: nat)
    requires x < Pow2(n)
    ensures And(Pow2(n) - 1, x) == x
  {
    if n == 0 || x == 0 {
    } else {
      AllOnes(n - 1, x / 2);
    }
  }

  predicate SavedAs(a: Isa.Arch, mepc: Word, mstatus: Word) {
    a.inHandler && a.csrs.mepc == mepc && a.csrs.mstatus == mstatus
  }

  lemma HandlerStep(a: Isa.Arch, irq: nat -> bool, t: nat, mepc: Word, mstatus: Word)
    requires SavedAs(a, mepc, mstatus) && HandlerBody(a, irq, t, 1)
    ensures SavedAs(Isa.TimedStep(a, irq, t).0, mepc, mstatus)
  {
    hide Isa.Decode, Isa.Fetched, Isa.Compute, Isa.Holds, Isa.LoadValue, Isa.StoreValue, SetBit32, Bit,
         Isa.ModifiedCsr, Isa.Latency;
  }

  lemma {:induction false} HandlerKeepsSaved(a: Isa.Arch, irq: nat -> bool, t: nat, n: nat, mepc: Word, mstatus: Word)
    requires SavedAs(a, mepc, mstatus) && HandlerBody(a, irq, t, n)
    ensures SavedAs(Isa.TimedRun(a, irq, t, n).0, mepc, mstatus) && Isa.LegalRun(a, irq, t, n)
    decreases n
  {
    hide Isa.TimedStep, Isa.Decode, SavedAs;
    if n == 0 {
    } else {
      HandlerStep(a, irq, t, mepc, mstatus);
      var (b, clocks) := Isa.TimedStep(a, irq, t);
      HandlerKeepsSaved(b, irq, t + clocks, n - 1, mepc, mstatus);
    }
  }

  lemma EnablesRestored(mstatus: Word)
    requires Bit(mstatus, MSTATUS_MIE) == 1
    ensures var saved := Isa.WithEnables(mstatus, 0, Bit(mstatus, MSTATUS_MIE));
      Isa.WithEnables(saved, Bit(saved, MSTATUS_MPIE), 0) == SetBit32(mstatus, MSTATUS_MPIE, 0)
  {
    var saved := Isa.WithEnables(mstatus, 0, 1);
    var x := SetBit(mstatus, MSTATUS_MPIE, 1);
    BitOfSetBit(x, MSTATUS_MIE, 0, MSTATUS_MPIE);
    BitOfSetBit(mstatus, MSTATUS_MPIE, 1, MSTATUS_MPIE);
    SetBitCommutes(x, MSTATUS_MIE, 0, MSTATUS_MPIE, 0);
    SetBitTwice(mstatus, MSTATUS_MPIE, 1, 0);
    var y := SetBit(mstatus, MSTATUS_MPIE, 0);
    assert SetBit(saved, MSTATUS_MPIE, 0) == SetBit(y, MSTATUS_MIE, 0);
    SetBitTwice(y, MSTATUS_MIE, 0, 1);
    BitOfSetBit(mstatus, MSTATUS_MPIE, 0, MSTATUS_MIE);
    SetBitSame(y, MSTATUS_MIE, 1);
  }

  /** mret in a handler that kept mepc and mstatus returns to the interrupted pc, aligned down,
      with MIE set again, and is never itself followed by a trap. */
  lemma MretResumes(a: Isa.Arch, irq: nat -> bool, t: nat, pc: Word, mstatus: Word)
    requires Isa.Decode(Isa.Fetched(a)) == Isa.Mret && Bit(mstatus, MSTATUS_MIE) == 1
    requires SavedAs(a, pc, Isa.WithEnables(mstatus, 0, Bit(mstatus, MSTATUS_MIE)))
    ensures var b := Isa.TimedStep(a, irq, t).0;
      && b.pc == pc - pc % 4 && b.regs == a.regs && b.mem == a.mem
      && b.csrs.mstatus == SetBit32(mstatus, MSTATUS_MPIE, 0)
      && Bit(b.csrs.mstatus, MSTATUS_MIE) == 1
      && !b.inHandler
  {
    hide Isa.Decode, Isa.Fetched, Isa.WithEnables, SetBit;
    EnablesRestored(mstatus);
    BitOfSetBit(a.csrs.mip, MIP_MEIP, 0, MIP_MEIP);
    BitOfSetBit(mstatus, MSTATUS_MPIE, 0, MSTATUS_MIE);
  }

  /** The whole excursion at the core: an instruction retires into a trap, the handler runs `n`
      instructions without touching mepc or mstatus, and its mret brings the core back to the
      pc the trap had replaced, with interrupts enabled. */
  lemma InterruptRoundTrip(s: Core, irq: nat -> bool, t: nat, n: nat)
    requires Boundary(s) && Isa.Legal(Abs(s))
    requires Isa.Traps(Isa.Retire(Abs(s), irq, t))
    requires var (h, clocks) := Isa.TimedStep(Abs(s), irq, t);
      && HandlerBody(h, irq, t + clocks, n)
      && Isa.Decode(Isa.Fetched(Isa.TimedRun(h, irq, t + clocks, n).0)) == Isa.Mret
    ensures
      var interrupted := Isa.Retire(Abs(s), irq, t);
      var (r, end) := Isa.TimedRun(Abs(s), irq, t, n + 2);
      var q := Run(s, irq, t, end - t);
      && Boundary(q) && Abs(q) == r
      && q.d.pc == AlignDown(interrupted.pc)
      && q.m.csrs.mstatus == SetBit32(interrupted.csrs.mstatus, MSTATUS_MPIE, 0)
      && IsEnabled(q.m.csrs.mstatus)
      && !q.m.inProgress
  {
    hide Run, Abs, Boundary, Isa.Decode, Isa.TimedStep, Isa.TimedRun, Isa.LegalRun, Isa.Legal, Isa.Retire, Isa.Traps,
         Isa.WithEnables, Bit, SetBit32, Isa.Fetched, AlignDown, SavedAs, HandlerBody;
    var a := Abs(s);
    var (h, clocks) := Isa.TimedStep(a, irq, t);
    var interrupted := Isa.Retire(a, irq, t);
    var saved := Isa.WithEnables(interrupted.csrs.mstatus, 0, Bit(interrupted.csrs.mstatus, MSTATUS_MIE));
    TrapSaves(a, irq, t);
    HandlerKeepsSaved(h, irq, t + clocks, n, interrupted.pc, saved);
    var (b, t') := Isa.TimedRun(h, irq, t + clocks, n);
    MretResumes(b, irq, t', interrupted.pc, interrupted.csrs.mstatus);
    LegalBits(b);
    RunSplit(h, irq, t + clocks, n);
    RunFirst(a, irq, t, n + 1);
    RunRefines(s, irq, t, n + 2);
    var (r, end) := Isa.TimedRun(a, irq, t, n + 2);
    AbsFields(Run(s, irq, t, end - t));
    AlignedDown(interrupted.pc);
  }

  lemma RunFirst(a: Isa.Arch, irq: nat -> bool, t: nat, n: nat)
    ensures var (h, clocks) := Isa.TimedStep(a, irq, t);
      && Isa.TimedRun(a, irq, t, n + 1) == Isa.TimedRun(h, irq, t + clocks, n)
      && (Isa.Legal(a) && Isa.LegalRun(h, irq, t + clocks, n) ==> Isa.LegalRun(a, irq, t, n + 1))
  {
    hide Isa.TimedStep, Isa.Legal;
  }

  lemma LegalBits(b: Isa.Arch)
    requires Isa.Decode(Isa.Fetched(b)) == Isa.Mret
    ensures Isa.Legal(b)
  {
    hide Isa.Decode, Isa.Fetched;
  }

  predicate IsEnabled(mstatus: Word) {
    Bit(mstatus, MSTATUS_MIE) == 1
  }

  lemma AlignedDown(pc: Word)
    ensures AlignDown(pc) == pc - pc % 4
  {
  }

  lemma AbsFields(s: Core)
    ensures Abs(s).pc == s.d.pc && Abs(s).csrs == s.m.csrs && Abs(s).inHandler == s.m.inProgress
  {
  }

  lemma TrapSaves(a: Isa.Arch, irq: nat -> bool, t: nat)
    requires Isa.Traps(Isa.Retire(a, irq, t))
    ensures var x := Isa.Retire(a, irq, t);
      && Bit(x.csrs.mstatus, MSTATUS_MIE) == 1
      && SavedAs(Isa.TimedStep(a, irq, t).0, x.pc, Isa.WithEnables(x.csrs.mstatus, 0, Bit(x.csrs.mstatus, MSTATUS_MIE)))
  {
    hide Isa.Retire, Isa.WithEnables, Bit, Isa.Decode, Isa.Fetched;
  }

  /** The last step of a run of legal instructions, split off. */
  lemma {:induction false} RunSplit(a: Isa.Arch, irq: nat -> bool, t: nat, n: nat)
    ensures var (b, t') := Isa.TimedRun(a, irq, t, n);
      var (c, clocks) := Isa.TimedStep(b, irq, t');
      && Isa.TimedRun(a, irq, t, n + 1) == (c, t' + clocks)
      && (Isa.LegalRun(a, irq, t, n) && Isa.Legal(b) ==> Isa.LegalRun(a, irq, t, n + 1))
    decreases n
  {
    hide Isa.TimedStep, Isa.Legal;
    if n > 0 {
      var (a', clocks) := Isa.TimedStep(a, irq, t);
      RunSplit(a', irq, t + clocks, n - 1);
    } else {
      var (c, clocks) := Isa.TimedStep(a, irq, t);
      assert Isa.TimedRun(c, irq, t + clocks, 0) == (c, t + clocks);
    }
  }

  // ---------------------------------------------------------------
  // Which edges a trap entry loses
  // ---------------------------------------------------------------

  /** The two interrupt lines agree at every clock outside [from, to). */
  ghost predicate SameOutside(irq: nat -> bool, other: nat -> bool, from: nat, to: nat) {
    forall k: nat | k < from || to <= k :: irq(k) == other(k)
  }

  lemma RetireSeesEarlier(a: Isa.Arch, irq: nat -> bool, other: nat -> bool, t: nat)
    requires var n := Isa.Latency(Isa.Decode(Isa.Fetched(a))); SameOutside(irq, other, t + n - 1, t + n + 2)
    ensures Isa.Retire(a, irq, t) == Isa.Retire(a, other, t)
  {
    hide Isa.Decode, Isa.Fetched, Isa.Execute;
    var n := Isa.Latency(Isa.Decode(Isa.Fetched(a)));
    assert forall k: nat | k < t + n - 1 :: irq(k) == other(k);
    assert Isa.AnyEdge(irq, t + 2, t + n - 1) == Isa.AnyEdge(other, t + 2, t + n - 1);
  }

  /** When an instruction of latency n retires into a trap, the edges of exactly three clocks are
      lost: the interrupt check and the two after it.  Whatever the line does there, the core ends
      up in the same state; an edge in the last clock of the trap is latched again. */
  lemma TrapLosesEdges(s: Core, irq: nat -> bool, other: nat -> bool, t: nat)
    requires Boundary(s) && Isa.Legal(Abs(s)) && Isa.Traps(Isa.Retire(Abs(s), irq, t))
    requires var n := Isa.Latency(Isa.Decode(Isa.Fetched(Abs(s)))); SameOutside(irq, other, t + n - 1, t + n + 2)
    ensures var n := Isa.Latency(Isa.Decode(Isa.Fetched(Abs(s))));
      var q := Run(s, irq, t, n + 3);
      && Boundary(q) && Abs(q) == Abs(Run(s, other, t, n + 3))
      && (q.m.triggered <==> irq(t + n + 2))
  {
    hide Run, Abs, Boundary, Isa.Decode, Isa.Fetched, Isa.Latency, Isa.Retire, Isa.Traps, Isa.Legal;
    RetireSeesEarlier(Abs(s), irq, other, t);
    StepRefines(s, irq, t);
    StepRefines(s, other, t);
    LatchOf(Run(s, irq, t, Isa.Latency(Isa.Decode(Isa.Fetched(Abs(s)))) + 3));
  }

  lemma LatchOf(s: Core)
    ensures Abs(s).latched == s.m.triggered
  {
  }

  /** Without a trap no edge is lost: the latch afterwards shows whether one arrived in any clock of
      the instruction. */
  lemma NoTrapKeepsEdges(s: Core, irq: nat -> bool, t: nat)
    requires Boundary(s) && Isa.Legal(Abs(s)) && !Isa.Traps(Isa.Retire(Abs(s), irq, t))
    ensures var n := Isa.Latency(Isa.Decode(Isa.Fetched(Abs(s))));
      var q := Run(s, irq, t, n);
      Boundary(q) && (q.m.triggered <==> s.m.triggered || Isa.AnyEdge(irq, t, t + n))
  {
    hide Run, Abs, Boundary, Isa.Decode, Isa.Fetched, Isa.Traps, Isa.Legal, Isa.Execute;
    var a := Abs(s);
    var n := Isa.Latency(Isa.Decode(Isa.Fetched(a)));
    StepRefines(s, irq, t);
    LatchOf(s);
    LatchOf(Run(s, irq, t, n));
    ExecuteKeepsLatch(Isa.Arrive(a, irq(t) || irq(t + 1), a.inHandler), Isa.Decode(Isa.Fetched(a)));
    EdgeUnion(irq, t, n - 1);
    EdgeSplit(irq, t, n - 1);
  }

  lemma ExecuteKeepsLatch(a: Isa.Arch, i: Isa.Instr)
    ensures Isa.Execute(a, i).latched == a.latched
  {
    hide Isa.LoadValue, Isa.StoreValue, Isa.Compute, Isa.Holds, SetBit32;
  }
}
