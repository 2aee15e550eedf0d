/** Whole runs: reset, and any number of instructions and interrupts, cycle by cycle. */
module WholeRun {
  import opened Bits
  import opened Encoding
  import opened Csr
  import opened ControlMatrix
  import opened Pmmu
  import opened RangerRisc
  import opened MicroSteps
  import opened Execution
  import opened MemoryRefinement
  import opened Refinement
  import Isa

  // ---------------------------------------------------------------
  // From the interrupt check to the next boundary
  // ---------------------------------------------------------------

  /** No trap: one clock fetches the next instruction. */
  lemma CheckPasses(p: Core, edge: bool)
    requires In(p, PreFetch) && !Isa.Traps(Abs(p))
    ensures var q := Clock(p, true, edge);
      Boundary(q) && Abs(q) == Isa.Arrive(Abs(p), edge, p.m.inProgress)
  {
    hide Clock, BytesOf, Bit, WordAddr;
    StepPreFetch(p, edge);
  }

  lemma TrapCsrs(c: Csrs, latched: bool)
    requires Isa.Pending(c)
    ensures Raised(c, latched, false) == c
    ensures MstatusOnTrap(c.mstatus) == Isa.WithEnables(c.mstatus, 0, Bit(c.mstatus, MSTATUS_MIE))
  {
    SetBitSame(c.mip, MIP_MEIP, 1);
  }

  /** The first two clocks of a trap: mstatus is rewritten and pc stored in mepc.  Edges up to the
      second are lost. */
  lemma TrapStores(p: Core, irq: nat -> bool, t: nat)
    requires In(p, PreFetch) && Isa.Traps(Abs(p))
    ensures var q, mstatus := Run(p, irq, t, 2), p.m.csrs.mstatus;
      && q.m.state == Execute && q.m.irState == IRQ1 && q.m.resetTrigger && !q.m.triggered && q.m.inProgress
      && q.m.csrs == p.m.csrs.(mstatus := MstatusOnTrap(mstatus), mepc := p.d.pc)
      && q.d == Sampled(Sampled(p.d))
  {
    hide Run, Clock, BytesOf, Bit, MstatusOnTrap, Raised;
    StepTrap(p, irq(t));
    RaisedKeeps(p.m.csrs, MstatusOnTrap(p.m.csrs.mstatus), p.m.triggered || irq(t));
    RunNext(p, irq, t, 0);
    StepIrq0(Run(p, irq, t, 1), irq(t + 1));
    RunNext(p, irq, t, 1);
  }

  /** A trap: three more clocks store pc in mepc, load mtvec and fetch the handler.  Edges up to
      the second of them are lost. */
  lemma CheckTraps(p: Core, irq: nat -> bool, t: nat)
    requires In(p, PreFetch) && Isa.Traps(Abs(p))
    ensures var q := Run(p, irq, t, 4);
      Boundary(q) && Abs(q) == Isa.EnterTrap(Abs(p), irq(t + 3))
  {
    hide Run, Clock, BytesOf, WordAddr, Bit, MstatusOnTrap, Isa.WithEnables;
    TrapCsrs(p.m.csrs, false);
    TrapStores(p, irq, t);
    StepIrq1(Run(p, irq, t, 2), irq(t + 2));
    RunNext(p, irq, t, 2);
    StepIrq2(Run(p, irq, t, 3), irq(t + 3));
    RunNext(p, irq, t, 3);
  }

  lemma RaisedKeeps(c: Csrs, mstatus: Word, latched: bool)
    requires Isa.Pending(c)
    ensures Raised(c.(mstatus := mstatus), latched, false) == c.(mstatus := mstatus)
  {
    SetBitSame(c.mip, MIP_MEIP, 1);
  }

  lemma StepTraps(s: Core, irq: nat -> bool, t: nat, n: nat)
    requires n == Isa.Latency(Isa.Decode(Isa.Fetched(Abs(s)))) && n >= 1
    requires var p := Run(s, irq, t, n - 1);
      In(p, PreFetch) && Abs(p) == Isa.Retire(Abs(s), irq, t) && Isa.Traps(Abs(p))
    ensures var (b, clocks) := Isa.TimedStep(Abs(s), irq, t);
      var q := Run(s, irq, t, clocks);
      clocks == n + 3 && Boundary(q) && Abs(q) == b
  {
    hide *;
    CheckTraps(Run(s, irq, t, n - 1), irq, t + n - 1);
    RunCompose(s, irq, t, n - 1, 4);
    TimedStepIs(Abs(s), irq, t);
  }

  lemma StepPasses(s: Core, irq: nat -> bool, t: nat, n: nat)
    requires n == Isa.Latency(Isa.Decode(Isa.Fetched(Abs(s)))) && n >= 1
    requires var p := Run(s, irq, t, n - 1);
      In(p, PreFetch) && Abs(p) == Isa.Retire(Abs(s), irq, t) && !Isa.Traps(Abs(p))
    ensures var (b, clocks) := Isa.TimedStep(Abs(s), irq, t);
      var q := Run(s, irq, t, clocks);
      clocks == n && Boundary(q) && Abs(q) == b
  {
    hide *;
    AbsInHandler(Run(s, irq, t, n - 1));
    CheckPasses(Run(s, irq, t, n - 1), irq(t + n - 1));
    RunNext(s, irq, t, n - 1);
    TimedStepIs(Abs(s), irq, t);
  }

  lemma TimedStepIs(a: Isa.Arch, irq: nat -> bool, t: nat)
    ensures var n := Isa.Latency(Isa.Decode(Isa.Fetched(a)));
      var done := Isa.Retire(a, irq, t);
      Isa.TimedStep(a, irq, t)
        == if Isa.Traps(done) then (Isa.EnterTrap(done, irq(t + n + 2)), n + 3)
           else (Isa.Arrive(done, irq(t + n - 1), done.inHandler), n)
  {
    hide Isa.Retire, Isa.Traps, Isa.EnterTrap, Isa.Arrive, Isa.Decode, Isa.Fetched;
  }

  /** One instruction, with the trap that may follow it: the core reaches the next boundary after
      exactly the interpreter's number of clocks, in the interpreter's state. */
  lemma StepRefines(s: Core, irq: nat -> bool, t: nat)
    requires Boundary(s) && Isa.Legal(Abs(s))
    ensures var (b, clocks) := Isa.TimedStep(Abs(s), irq, t);
      var q := Run(s, irq, t, clocks);
      Boundary(q) && Abs(q) == b && 4 <= clocks <= 10
  {
    hide Run, Isa.Decode, Abs, Isa.Retire, Isa.Traps, In, Isa.Fetched, Boundary, Isa.Latency, Isa.TimedStep;
    FetchedIsMemOut(s);
    InstructionRefines(s, irq, t);
    var n := Isa.Latency(Isa.Decode(s.d.memOut));
    if Isa.Traps(Abs(Run(s, irq, t, n - 1))) {
      StepTraps(s, irq, t, n);
    } else {
      StepPasses(s, irq, t, n);
    }
  }

  lemma AbsInHandler(p: Core)
    ensures Abs(p).inHandler == p.m.inProgress && Abs(p).csrs == p.m.csrs
  {
  }

  /** Any number of instructions and traps, for any program (one that rewrites itself included)
      and any interrupt edges: after the interpreter's `n` steps the core stands at a boundary in
      the interpreter's state, on the interpreter's clock. */
  lemma {:induction false} RunRefines(s: Core, irq: nat -> bool, t: nat, n: nat)
    requires Boundary(s) && Isa.LegalRun(Abs(s), irq, t, n)
    ensures var (b, t') := Isa.TimedRun(Abs(s), irq, t, n);
      && t + 4 * n <= t' <= t + 10 * n
      && var q := Run(s, irq, t, t' - t);
         Boundary(q) && Abs(q) == b
    decreases n
  {
    hide Clock, Abs, Isa.TimedStep, Boundary, Isa.Legal;
    if n == 0 {
    } else {
      var (b, clocks) := Isa.TimedStep(Abs(s), irq, t);
      StepRefines(s, irq, t);
      var s' := Run(s, irq, t, clocks);
      RunRefines(s', irq, t + clocks, n - 1);
      var (_, t') := Isa.TimedRun(b, irq, t + clocks, n - 1);
      RunCompose(s, irq, t, clocks, t' - (t + clocks));
    }
  }

  // ---------------------------------------------------------------
  // Runs without interrupts: the plain interpreter
  // ---------------------------------------------------------------

  /** `n` instructions of the interpreter alone. */
  function IsaRun(a: Isa.Arch, n: nat): Isa.Arch
    decreases n
  {
    if n == 0 then a else IsaRun(Isa.Execute(a, Isa.Decode(Isa.Fetched(a))), n - 1)
  }

  /** The next `n` instructions are legal and outside the SYSTEM group. */
  predicate PlainProgram(a: Isa.Arch, n: nat)
    decreases n
  {
    n > 0 ==>
      var i := Isa.Decode(Isa.Fetched(a));
      i != Isa.Illegal && LeavesCsrs(i) && PlainProgram(Isa.Execute(a, i), n - 1)
  }

  /** Interrupts cannot be taken while one of the two enable bits is clear. */
  predicate Disabled(c: Csrs) {
    Bit(c.mstatus, MSTATUS_MIE) == 0 || Bit(c.mie, MIE_MEIE) == 0
  }

  /** Agreement on everything a program without CSR instructions can see. */
  predicate SameMachine(a: Isa.Arch, b: Isa.Arch) {
    a.pc == b.pc && a.regs == b.regs && a.mem == b.mem
  }

  lemma ExecutePlain(a: Isa.Arch, b: Isa.Arch, i: Isa.Instr)
    requires SameMachine(a, b) && LeavesCsrs(i)
    ensures var a' := Isa.Execute(a, i);
      SameMachine(a', Isa.Execute(b, i)) && a'.csrs == a.csrs && a'.inHandler == a.inHandler
  {
    hide Isa.LoadValue, Isa.StoreValue, Isa.Compute, Isa.Holds;
  }

  lemma PlainStep(a: Isa.Arch, b: Isa.Arch, irq: nat -> bool, t: nat)
    requires SameMachine(a, b) && (a.inHandler || Disabled(a.csrs))
    requires var i := Isa.Decode(Isa.Fetched(b)); i != Isa.Illegal && LeavesCsrs(i)
    ensures var i := Isa.Decode(Isa.Fetched(b));
      var (a', clocks) := Isa.TimedStep(a, irq, t);
      && Isa.Legal(a)
      && SameMachine(a', Isa.Execute(b, i))
      && a'.inHandler == a.inHandler && (a'.inHandler || Disabled(a'.csrs))
  {
    hide Isa.Decode, Isa.LoadValue, Isa.Execute, Bit, SetBit32;
    ExecutePlain(Isa.Arrive(a, irq(t) || irq(t + 1), a.inHandler), b, Isa.Decode(Isa.Fetched(b)));
  }

  lemma {:induction false} PlainRunLegal(a: Isa.Arch, b: Isa.Arch, irq: nat -> bool, t: nat, n: nat)
    requires SameMachine(a, b) && PlainProgram(b, n) && (a.inHandler || Disabled(a.csrs))
    ensures Isa.LegalRun(a, irq, t, n)
    ensures SameMachine(Isa.TimedRun(a, irq, t, n).0, IsaRun(b, n))
    decreases n
  {
    hide Isa.TimedStep, Isa.Decode, Isa.Execute, Isa.Legal, Isa.Fetched, Disabled, LeavesCsrs;
    if n == 0 {
    } else {
      PlainStep(a, b, irq, t);
      var (a', clocks) := Isa.TimedStep(a, irq, t);
      PlainRunLegal(a', Isa.Execute(b, Isa.Decode(Isa.Fetched(b))), irq, t + clocks, n - 1);
    }
  }

  /** Without SYSTEM instructions and with interrupts disabled, `n` instructions leave exactly the
      pc, registers and memory of `n` interpreter steps, whatever edges arrive. */
  lemma PlainRunRefines(s: Core, irq: nat -> bool, t: nat, n: nat) returns (clocks: nat)
    requires Boundary(s) && PlainProgram(Abs(s), n) && (s.m.inProgress || Disabled(s.m.csrs))
    ensures 4 * n <= clocks <= 10 * n
    ensures var q := Run(s, irq, t, clocks);
      Boundary(q) && SameMachine(Abs(q), IsaRun(Abs(s), n))
  {
    hide Run, Abs, Boundary, Isa.TimedRun, Isa.LegalRun, IsaRun, PlainProgram;
    AbsInHandler(s);
    PlainRunLegal(Abs(s), Abs(s), irq, t, n);
    RunRefines(s, irq, t, n);
    clocks := Isa.TimedRun(Abs(s), irq, t, n).1 - t;
  }

  // ---------------------------------------------------------------
  // Reset
  // ---------------------------------------------------------------

  predicate Resetting(s: Core, v: ResetState) {
    s.m.state == Reset && s.m.vectorState == v
  }

  /** A clock with reset asserted, from any state at all. */
  lemma StepAsserted(s: Core, edge: bool)
    ensures var r := Clock(s, false, edge);
      Resetting(r, Sync0) && r.d.resetVector == s.d.resetVector
  {
  }

  lemma StepReset(s: Core, edge: bool)
    requires s.m.state == Reset
    ensures var r := Clock(s, true, edge);
      && r.d.resetVector == s.d.resetVector && r.d.mem == s.d.mem && r.d.regs == s.d.regs
      && r.m.resetTrigger == s.m.resetTrigger && !r.m.inProgress
      && match s.m.vectorState
         case Sync0 => Resetting(r, Vector0)
         case Vector0 => Resetting(r, Vector1) && r.d.pc == s.d.resetVector
         case Vector1 => Resetting(r, Vector2) && r.d.memOut == s.d.mem[WordAddr(s.d.pc)]
         case Vector2 => Resetting(r, Vector3) && r.d.pc == s.d.memOut
         case Vector3 => r.m.state == Fetch && r.d.pc == s.d.pc && r.d.memOut == s.d.mem[WordAddr(s.d.pc)]
  {
    hide AluY, Immediate, MergeIn;
  }

  /** Five clocks after reset is released the core stands at an instruction boundary with pc
      loaded from the reset vector, and neither registers nor memory have changed. */
  lemma ResetReachesBoundary(s: Core, irq: nat -> bool, t: nat)
    requires Resetting(s, Sync0) && !s.m.resetTrigger
    ensures var r := Run(s, irq, t, 5);
      && Boundary(r)
      && r.d.pc == s.d.mem[WordAddr(s.d.resetVector)]
      && r.d.mem == s.d.mem && r.d.regs == s.d.regs && !r.m.inProgress
  {
    hide Run, Clock, WordAddr;
    var s1 := Run(s, irq, t, 1);
    var s2 := Run(s, irq, t, 2);
    var s3 := Run(s, irq, t, 3);
    var s4 := Run(s, irq, t, 4);
    RunNext(s, irq, t, 0);
    RunNext(s, irq, t, 1);
    RunNext(s, irq, t, 2);
    RunNext(s, irq, t, 3);
    RunNext(s, irq, t, 4);
    StepReset(s, irq(t));
    StepReset(s1, irq(t + 1));
    StepReset(s2, irq(t + 2));
    StepReset(s3, irq(t + 3));
    StepReset(s4, irq(t + 4));
  }
}
