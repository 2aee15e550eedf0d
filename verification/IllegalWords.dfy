/** What the core does with words that are no RV32I instruction it knows. */
module IllegalWords {
  import opened Bits
  import opened Encoding
  import opened Csr
  import opened ControlMatrix
  import opened Pmmu
  import opened RangerRisc
  import opened MicroSteps
  import opened Execution
  import Halting
  import MB = MicroBisimulation
  import MC = MicroCode

  /** An opcode outside the ten of the core, or a SYSTEM word without funct3 that is not ecall, ebreak
      or mret. */
  predicate Unknown(w: Word) {
    || w % 0x80 !in {0x33, 0x13, 0x03, 0x67, 0x73, 0x23, 0x63, 0x37, 0x17, 0x6F}
    || (w % 0x80 == 0x73 && w / 0x1000 % 8 == 0 && w / 0x10_0000 !in {0x000, 0x001, 0x302})
  }

  /** Such a word is taken for a load: seven clocks from its fetch to the check included, rd gets what
      the memory holds at rs1 plus the immediate. */
  lemma UnknownLoads(s: Core, irq: nat -> bool, t: nat)
    requires Boundary(s) && Unknown(s.d.memOut)
    ensures var w, p := s.d.memOut, Run(s, irq, t, 6);
      var addr := Wrap(ReadReg(s.d.regs, Rs1(w)) + Immediate(w));
      && p.m.state == Execute && p.m.irState == PreFetch && p.d.pc == Wrap(s.d.pc + 4) && p.d.mem == s.d.mem
      && p.d.regs == WriteReg(s.d.regs, Rd(w), ReadOut(Funct3(w), addr, s.d.mem[WordAddr(addr)], true))
      && (w % 0x80 != 0x73 ==> Immediate(w) == 0)
  {
    hide Run, ReadOut, WordAddr, ReadReg, WriteReg, Executing, Rs1, Rs2, Rd;
    assert Dispatch(s.d.memOut) == ITLoad;
    RunLoad(s, irq, t);
  }

  /** FENCE, with rd zero as the manual writes it, does nothing but take its time. */
  lemma FenceDoesNothing(s: Core, irq: nat -> bool, t: nat)
    requires Boundary(s) && s.d.memOut % 0x1000 == 0x00F
    ensures var p := Run(s, irq, t, 6);
      && p.m.state == Execute && p.m.irState == PreFetch
      && p.d.pc == Wrap(s.d.pc + 4) && p.d.mem == s.d.mem && p.d.regs == s.d.regs
  {
    hide Run, ReadOut, WordAddr, ReadReg, Boundary, Immediate;
    FenceFields(s.d.memOut);
    UnknownLoads(s, irq, t);
  }

  lemma FenceFields(w: Word)
    requires w % 0x1000 == 0x00F
    ensures Unknown(w) && Rd(w) == 0
  {
    DivideUnique(w, 0x80, w / 0x1000 * 32, 0x0F);
    DivideUnique(w / 0x1000 * 32, 0x20, w / 0x1000, 0);
  }

  // ---------------------------------------------------------------
  // SYSTEM with funct3 four
  // ---------------------------------------------------------------

  /** At Fetch with a SYSTEM word of funct3 four on the BRAM output. */
  predicate AtFour(s: Core) {
    s.m.state == Fetch && !s.m.resetTrigger && s.d.memOut % 0x80 == 0x73 && s.d.memOut / 0x1000 % 8 == 4
  }

  lemma StepFour(s: Core, irq: bool)
    requires In(s, ITCSR) && IsCsrInstr(s.d.ir) && Funct3(s.d.ir) == 4
    ensures Clock(s, true, irq)
         == Core(Advance(s.m, irq, ITLoad).(state := Fetch), Sampled(s.d).(rsa := s.d.rsa))
  {
    hide AluY, AluFlags, Immediate, ReadOut, MergeIn, WordAddr;
  }

  lemma OnceRound(s: Core, irq: nat -> bool, t: nat)
    requires AtFour(s)
    ensures var p := Run(s, irq, t, 3);
      && AtFour(p) && p.d.memOut == s.d.memOut && p.d.pc == Wrap(s.d.pc + 4)
      && p.d.regs == s.d.regs && p.d.mem == s.d.mem && p.m.csrs == s.m.csrs.(mip := p.m.csrs.mip)
  {
    assert IsCsrInstr(s.d.memOut) && Funct3(s.d.memOut) == 4 && Dispatch(s.d.memOut) == ITCSR;
    AddIsWrap(s.d.pc, 4);
    hide Run, Clock, AluY, Rs1, Rs2, ReadReg, Dispatch, IsCsrInstr, SetBit32, Wrap, WordAddr;
    var s1, s2 := Run(s, irq, t, 1), Run(s, irq, t, 2);
    RunNext(s, irq, t, 0);
    StepFetch(s, irq(t));
    RunNext(s, irq, t, 1);
    StepDecode(s1, irq(t + 1));
    RunNext(s, irq, t, 2);
    StepFour(s2, irq(t + 2));
  }

  lemma NextFour(pc: Word, n: nat)
    requires n > 0
    ensures Wrap(Wrap(pc + 4) + 4 * (n - 1)) == Wrap(pc + 4 * n)
  {
    WrapSum(pc + 4, 4 * (n - 1));
  }

  /** The core goes back to Fetch without reading the memory, so it meets the same word again for ever,
      three clocks and four bytes of pc at a time, and does nothing else. */
  lemma {:induction false} FourRepeats(s: Core, irq: nat -> bool, t: nat, n: nat)
    requires AtFour(s)
    ensures var p := Run(s, irq, t, 3 * n);
      && p.m.state == Fetch && p.d.memOut == s.d.memOut && p.d.pc == Wrap(s.d.pc + 4 * n)
      && p.d.regs == s.d.regs && p.d.mem == s.d.mem
    decreases n
  {
    hide Run, AtFour, Wrap;
    if n == 0 {
      RunNext(s, irq, t, 0);
      AtFourIs(s);
    } else {
      OnceRound(s, irq, t);
      FourRepeats(Run(s, irq, t, 3), irq, t + 3, n - 1);
      RunCompose(s, irq, t, 3, 3 * (n - 1));
      NextFour(s.d.pc, n);
    }
  }

  lemma AtFourIs(s: Core)
    requires AtFour(s)
    ensures s.m.state == Fetch && s.d.pc == Wrap(s.d.pc + 0)
  {
  }

  // ---------------------------------------------------------------
  // SYSTEM words in the refactored core
  // ---------------------------------------------------------------

  /** A core of the original kind in the first state of a load, interrupts off. */
  function Loading(d: Datapath): Core {
    Core(Matrix(Execute, Sync0, ITLoad, Csrs(0, 0, 0, 0, 0), false, false, false), d)
  }

  lemma LoadsFrom(d: Datapath, irq: nat -> bool, k: nat)
    requires k <= 4 && forall j: nat :: !irq(j)
    ensures Run(Loading(d), irq, 0, k).m.state == Execute
    ensures k == 4 ==> var p := Run(Loading(d), irq, 0, 4);
      var addr := Wrap(d.rsa + Immediate(d.ir));
      && p.m.irState == PreFetch && p.d.pc == d.pc && p.d.mem == d.mem
      && p.d.regs == WriteReg(d.regs, Rd(d.ir), ReadOut(Funct3(d.ir), addr, d.mem[WordAddr(addr)], true))
  {
    hide Run, Clock, AluY, Immediate, ReadReg, WriteReg, Rd, Rs1, Rs2, WordAddr, ReadOut, SetBit32, Wrap;
    var s := Loading(d);
    AddIsWrap(d.rsa, Immediate(d.ir));
    RunNext(s, irq, 0, 0);
    StepAddress(s, irq(0));
    RunNext(s, irq, 0, 1);
    StepReadData(Run(s, irq, 0, 1), irq(1));
    RunNext(s, irq, 0, 2);
    StepLoadMdr(Run(s, irq, 0, 2), irq(2));
    RunNext(s, irq, 0, 3);
    StepLoadComplete(Run(s, irq, 0, 3), irq(3));
  }

  lemma {:induction false} MicroCompose(u: MC.MicroCore, m: nat, n: nat)
    ensures MC.MicroRun(MC.MicroRun(u, m), n) == MC.MicroRun(u, m + n)
  {
    hide MC.MicroClock;
    if n == 0 {
    } else {
      MicroCompose(u, m, n - 1);
    }
  }

  lemma MicroLoadDispatch(w: Word)
    requires w % 0x80 == 0x73 && w / 0x10_0000 >= 2
    ensures MC.MicroDispatch(w) == ITLoad
  {
  }

  lemma LoadingRelated(u: MC.MicroCore)
    requires u.m.state == MC.Execute && u.m.irState == ITLoad
    ensures MB.Related(Loading(u.d), u)
  {
    ZeroBit(3);
  }

  lemma RelatedMeans(s: Core, u: MC.MicroCore)
    requires MB.Related(s, u) && s.m.state == Execute && s.m.irState == PreFetch
    ensures s.d == u.d && u.m.state == MC.PreFetch
  {
  }

  lemma NoDispatch(s: Core)
    requires s.m.state == Execute
    ensures MB.NotSystem(s)
  {
  }

  /** The refactored core has no CSRs: it carries out every SYSTEM word but ebreak and ecall, the CSR
      instructions and mret included, as a load. */
  lemma MicroSystemLoads(u: MC.MicroCore)
    requires u.m.state == MC.Fetch && u.m.irState == ITLoad
    requires u.d.memOut % 0x80 == 0x73 && u.d.memOut / 0x10_0000 >= 2
    ensures var w, p := u.d.memOut, MC.MicroRun(u, 6);
      var addr := Wrap(ReadReg(u.d.regs, Rs1(w)) + Immediate(w));
      && p.m.state == MC.PreFetch && p.d.pc == Wrap(u.d.pc + 4) && p.d.mem == u.d.mem
      && p.d.regs == WriteReg(u.d.regs, Rd(w), ReadOut(Funct3(w), addr, u.d.mem[WordAddr(addr)], true))
  {
    hide *;
    var irq := (k: nat) => false;
    var u1, u2 := MC.MicroRun(u, 1), MC.MicroRun(u, 2);
    MB.MicroNext(u, 0);
    MB.MicroNext(u, 1);
    Halting.MicroFetched(u);
    MicroLoadDispatch(u.d.memOut);
    Halting.MicroDecodes(u1);
    LoadingRelated(u2);
    forall k: nat | k < 4 ensures MB.NotSystem(Run(Loading(u2.d), irq, 0, k)) {
      LoadsFrom(u2.d, irq, k);
      NoDispatch(Run(Loading(u2.d), irq, 0, k));
    }
    LoadsFrom(u2.d, irq, 4);
    MB.RunRelated(Loading(u2.d), u2, irq, 0, 4);
    RelatedMeans(Run(Loading(u2.d), irq, 0, 4), MC.MicroRun(u2, 4));
    MicroCompose(u, 2, 4);
  }
}
