/** What ebreak and ecall do to the core: it stops where it is. */
module Halting {
  import opened Bits
  import opened Encoding
  import opened Csr
  import opened CM = ControlMatrix
  import opened RangerRisc
  import opened MicroSteps
  import opened Execution
  import Alu
  import Interrupts
  import MC = MicroCode
  import Pmmu
  import Progress

  /** SYSTEM words with funct3 zero and funct12 0 (ecall) or 1 (ebreak), whatever rs1 and rd hold. */
  predicate Stops(w: Word) {
    w % 0x80 == 0x73 && w / 0x1000 % 8 == 0 && w / 0x10_0000 < 2
  }

  lemma StopsDispatch(w: Word)
    ensures Stops(w) <==> Dispatch(w) == ITEbreak || Dispatch(w) == ITECall
  {
  }

  lemma StepStopped(s: Core, irq: bool)
    requires In(s, ITEbreak) || In(s, ITECall)
    ensures Clock(s, true, irq) == Core(Advance(s.m, irq, s.m.irState), Sampled(s.d))
  {
    hide AluY, AluFlags, Immediate, Pmmu.ReadOut, Pmmu.MergeIn, Pmmu.WordAddr, CsrDataIn;
  }

  lemma {:induction false} StoppedState(s: Core, irq: nat -> bool, t: nat, k: nat)
    requires Boundary(s) && Stops(s.d.memOut) && k >= 2
    ensures Run(s, irq, t, k) == Core(Executing(s, irq, t, k, Dispatch(s.d.memOut)), Decoded(s.d))
  {
    hide Run, Clock, Dispatch, Stops, Executing, Advance, Sampled, ReadReg, Pmmu.WordAddr, Rs1, Rs2, Boundary;
    StopsDispatch(s.d.memOut);
    if k == 2 {
      FetchDecode(s, irq, t);
    } else {
      StoppedState(s, irq, t, k - 1);
      var i, p := Dispatch(s.d.memOut), Run(s, irq, t, k - 1);
      assert !s.m.resetTrigger by { BoundaryFacts(s); }
      StepStopped(p, irq(t + k - 1));
      Resampled(Decoded(s.d));
      RunNext(s, irq, t, k - 1);
      ExecutingMore(s, irq, t, k - 1, i, i);
    }
  }

  lemma BoundaryFacts(s: Core)
    requires Boundary(s)
    ensures !s.m.resetTrigger && s.d.mem[Pmmu.WordAddr(s.d.pc)] == s.d.memOut
  {
  }

  /** Once such a word is fetched the core never leaves Execute, under any interrupt edges: pc rests
      behind the word, and registers, memory and the CSRs keep what they held, MEIP apart. */
  lemma StopsForGood(s: Core, irq: nat -> bool, t: nat, k: nat)
    requires Boundary(s) && Stops(s.d.memOut) && k >= 2
    ensures var p := Run(s, irq, t, k);
      && p.m.state == Execute && p.d.ir == s.d.memOut && p.d.pc == Wrap(s.d.pc + 4)
      && p.d.regs == s.d.regs && p.d.mem == s.d.mem && p.m.inProgress == s.m.inProgress
      && p.m.csrs == s.m.csrs.(mip := p.m.csrs.mip)
      && (forall b: nat | b != 11 :: Bit(p.m.csrs.mip, b) == Bit(s.m.csrs.mip, b))
  {
    hide Run, Bit, Pmmu.WordAddr, Dispatch, Rs1, Rs2;
    BoundaryFacts(s);
    StoppedState(s, irq, t, k);
    forall b: nat | b != 11 ensures Bit(Run(s, irq, t, k).m.csrs.mip, b) == Bit(s.m.csrs.mip, b) {
      BitOfSetBit(s.m.csrs.mip, 11, 1, b);
    }
  }

  /** The two words the assembler writes for them. */
  lemma EbreakAndEcallStop(s: Core, irq: nat -> bool, t: nat, k: nat)
    requires Boundary(s) && s.d.memOut in {0x0010_0073, 0x0000_0073} && k >= 2
    ensures var p := Run(s, irq, t, k);
      && p.m.state == Execute && p.d.pc == Wrap(s.d.pc + 4) && p.d.regs == s.d.regs && p.d.mem == s.d.mem
      && p.m.csrs.mstatus == s.m.csrs.mstatus && p.m.csrs.mepc == s.m.csrs.mepc
      && p.m.inProgress == s.m.inProgress
  {
    hide Run, Boundary, Bit;
    StopsForGood(s, irq, t, k);
  }

  lemma FetchLoads(s: Core, edge: bool)
    requires Boundary(s)
    ensures Progress.Consistent(s) && Clock(s, true, edge).d.ir == s.d.memOut
  {
    hide Pmmu.WordAddr;
    StepFetch(s, edge);
  }

  /** From a boundary the core fetches again, within ten clocks, if and only if the word it has
      fetched is not one of those. */
  lemma FetchesAgainIff(s: Core, irq: nat -> bool, t: nat)
    requires Boundary(s)
    ensures (exists k :: 1 <= k <= 10 && Run(s, irq, t, k).m.state == Fetch) <==> !Stops(s.d.memOut)
    ensures (exists k :: 1 <= k && Run(s, irq, t, k).m.state == Fetch) <==> !Stops(s.d.memOut)
  {
    hide Run, Clock, Stops, Dispatch;
    FetchLoads(s, irq(t));
    StopsDispatch(s.d.memOut);
    if Stops(s.d.memOut) {
      forall k | 1 <= k ensures Run(s, irq, t, k).m.state != Fetch {
        if k == 1 {
          RunNext(s, irq, t, 0);
          StepFetch(s, irq(t));
        } else {
          StopsForGood(s, irq, t, k);
        }
      }
    } else {
      var k := Progress.FetchRecurs(s, irq, t);
    }
  }

  // ---------------------------------------------------------------
  // The refactored controller
  // ---------------------------------------------------------------

  predicate MicroStopped(u: MC.MicroCore, u0: MC.MicroCore) {
    && (u.m.state == MC.Halt || (u.m.state == MC.Execute && u.m.irState in {ITEbreak, ITECall}))
    && u.d.pc == Wrap(u0.d.pc + 4) && u.d.regs == u0.d.regs && u.d.mem == u0.d.mem
  }

  lemma MicroFetched(u: MC.MicroCore)
    requires u.m.state == MC.Fetch && u.m.irState == ITLoad
    ensures var n := MC.MicroClock(u, true);
      && n.m.state == MC.Decode && n.m.irState == ITLoad && n.d.ir == u.d.memOut
      && n.d.pc == u.d.pc && n.d.regs == u.d.regs && n.d.mem == u.d.mem
  {
    hide AluY, AluFlags, Immediate, Pmmu.MergeIn, Pmmu.WordAddr, ReadReg, WriteReg, MC.MicroExecute, MC.MicroDispatch;
  }

  lemma StopsMicroDispatch(w: Word)
    requires Stops(w)
    ensures MC.MicroDispatch(w) == if w / 0x10_0000 == 1 then ITEbreak else ITECall
  {
  }

  lemma DecodeSignals(m: MC.MicroMatrix, ir: Word, flags: Alu.Flags)
    requires m.state == MC.Decode && m.irState == ITLoad
    ensures var c := MC.MicroOutputs(m, true, false, ir, flags);
      && c.out == IdleSignals.(aluLd := true, pcLd := true) && c.resetComplete
      && c.nextState == MC.Execute && c.nextIr == MC.MicroDispatch(ir)
  {
    hide MC.MicroDispatch, MC.MicroExecute, MC.MicroReset, Alu.TakeBranch;
  }

  lemma DecodeDatapath(d: Datapath)
    ensures var n := ClockedDatapath(d, IdleSignals.(aluLd := true, pcLd := true));
      && n.ir == d.ir && n.pc == Wrap(d.pc + 4) && n.rsa == ReadReg(d.regs, Rs1(d.ir))
      && n.regs == d.regs && n.mem == d.mem
  {
    AddIsWrap(d.pc, 4);
    hide AluY, AluFlags, Immediate, Pmmu.ReadOut, Pmmu.MergeIn, Pmmu.WordAddr, ReadReg, WriteReg;
  }

  /** The clock of Decode in the refactored core. */
  lemma MicroDecodes(u: MC.MicroCore)
    requires u.m.state == MC.Decode && u.m.irState == ITLoad
    ensures var n := MC.MicroClock(u, true);
      && n.m.state == MC.Execute && n.m.irState == MC.MicroDispatch(u.d.ir)
      && n.d.ir == u.d.ir && n.d.pc == Wrap(u.d.pc + 4) && n.d.rsa == ReadReg(u.d.regs, Rs1(u.d.ir))
      && n.d.regs == u.d.regs && n.d.mem == u.d.mem
  {
    hide MC.MicroOutputs, ClockedDatapath, MC.MicroDispatch, ReadReg, Wrap, Rs1;
    DecodeSignals(u.m, u.d.ir, u.d.flags);
    DecodeDatapath(u.d);
    DecodeSignals(u.m, MC.MicroClock(u, true).d.ir, MC.MicroClock(u, true).d.flags);
  }

  lemma MicroDecoded(u: MC.MicroCore)
    requires u.m.state == MC.Decode && u.m.irState == ITLoad && Stops(u.d.ir)
    ensures MicroStopped(MC.MicroClock(u, true), u)
    ensures MC.MicroClock(u, true).m.irState == if u.d.ir / 0x10_0000 == 1 then ITEbreak else ITECall
    ensures MC.MicroClock(u, true).m.state == MC.Execute && MC.MicroClock(u, true).d.ir == u.d.ir
  {
    hide MC.MicroClock, MC.MicroDispatch, Stops, ReadReg, Wrap;
    StopsMicroDispatch(u.d.ir);
    MicroDecodes(u);
  }

  lemma MicroStays(u: MC.MicroCore, u0: MC.MicroCore)
    requires MicroStopped(u, u0)
    ensures var n := MC.MicroClock(u, true);
      && MicroStopped(n, u0)
      && (u.m.state == MC.Execute && u.m.irState == ITECall ==> n.m.state == MC.Execute && n.m.irState == ITECall)
      && (u.m.state == MC.Halt || u.m.irState == ITEbreak ==> n.m.state == MC.Halt)
  {
    hide AluY, AluFlags, Immediate, Pmmu.ReadOut, Pmmu.MergeIn, Pmmu.WordAddr, ReadReg, WriteReg, Alu.TakeBranch,
         MC.MicroDispatch;
  }

  /** The refactored core stops at the same words: in Halt after ebreak, in Execute after ecall. */
  lemma {:induction false} MicroStopsForGood(u: MC.MicroCore, k: nat)
    requires u.m.state == MC.Fetch && u.m.irState == ITLoad && Stops(u.d.memOut) && k >= 3
    ensures var n, ebreak := MC.MicroRun(u, k), u.d.memOut / 0x10_0000 == 1;
      && MicroStopped(n, u)
      && n.m.state == (if ebreak then MC.Halt else MC.Execute) && (!ebreak ==> n.m.irState == ITECall)
  {
    hide MC.MicroClock, MicroStopped, Stops;
    if k == 3 {
      MicroFetched(u);
      assert MC.MicroRun(u, 1) == MC.MicroClock(MC.MicroRun(u, 0), true);
      MicroDecoded(MC.MicroRun(u, 1));
      SameStart(MC.MicroRun(u, 2), MC.MicroRun(u, 1), u);
      MicroStays(MC.MicroRun(u, 2), u);
    } else {
      MicroStopsForGood(u, k - 1);
      MicroStays(MC.MicroRun(u, k - 1), u);
    }
  }

  lemma SameStart(u: MC.MicroCore, a: MC.MicroCore, b: MC.MicroCore)
    requires MicroStopped(u, a) && a.d.pc == b.d.pc && a.d.regs == b.d.regs && a.d.mem == b.d.mem
    ensures MicroStopped(u, b)
  {
  }
}
