/** The core from an instruction boundary to the interrupt check, one lemma per kind of
    instruction, in terms of the datapath at the boundary. */
module Execution {
  import opened Bits
  import opened Encoding
  import opened Csr
  import opened ControlMatrix
  import opened Pmmu
  import opened RangerRisc
  import opened MicroSteps
  import Alu
  import Isa

  /** An instruction boundary: the BRAM output already holds the word pc points at. */
  predicate Boundary(s: Core) {
    && s.m.state == Fetch
    && !s.m.resetTrigger
    && s.d.memOut == s.d.mem[WordAddr(s.d.pc)]
  }

  // ---------------------------------------------------------------
  // Several clocks of the controller
  // ---------------------------------------------------------------

  /** The controller `k` clocks after `m` when no clock writes a CSR. */
  function AdvanceBy(m: Matrix, irq: nat -> bool, t: nat, k: nat, next: InstructionState): Matrix {
    var latched := m.triggered || Isa.AnyEdge(irq, t, t + k);
    m.(irState := next, triggered := latched, csrs := Raised(m.csrs, latched, m.inProgress))
  }

  lemma RaisedAgain(c: Csrs, l1: bool, l2: bool, masked: bool)
    requires l1 ==> l2
    ensures Raised(Raised(c, l1, masked), l2, masked) == Raised(c, l2, masked)
  {
    SetBitTwice(c.mip, MIP_MEIP, 1, 1);
  }

  lemma EdgeSplit(irq: nat -> bool, t: nat, k: nat)
    ensures Isa.AnyEdge(irq, t, t + k + 1) <==> Isa.AnyEdge(irq, t, t + k) || irq(t + k)
    ensures Isa.AnyEdge(irq, t, t + 1) <==> irq(t)
    ensures !Isa.AnyEdge(irq, t, t)
  {
    if Isa.AnyEdge(irq, t, t + k + 1) {
      var j :| t <= j < t + k + 1 && irq(j);
      assert j == t + k || t <= j < t + k;
    }
  }

  lemma AdvanceOnce(m: Matrix, irq: nat -> bool, t: nat, next: InstructionState)
    ensures Advance(m, irq(t), next) == AdvanceBy(m, irq, t, 1, next)
  {
    EdgeSplit(irq, t, 0);
  }

  lemma AdvanceMore(m: Matrix, irq: nat -> bool, t: nat, k: nat, i: InstructionState, next: InstructionState)
    ensures Advance(AdvanceBy(m, irq, t, k, i), irq(t + k), next) == AdvanceBy(m, irq, t, k + 1, next)
  {
    EdgeSplit(irq, t, k);
    var l1 := m.triggered || Isa.AnyEdge(irq, t, t + k);
    var l2 := m.triggered || Isa.AnyEdge(irq, t, t + k + 1);
    RaisedAgain(m.csrs, l1, l2, m.inProgress);
  }

  lemma RunNext(s: Core, irq: nat -> bool, t: nat, n: nat)
    ensures Run(s, irq, t, 0) == s
    ensures Run(s, irq, t, n + 1) == Clock(Run(s, irq, t, n), true, irq(t + n))
  {
    hide Clock;
    RunCompose(s, irq, t, n, 1);
    var p := Run(s, irq, t, n);
    assert Run(p, irq, t + n, 1) == Run(Clock(p, true, irq(t + n)), irq, t + n + 1, 0);
  }

  // ---------------------------------------------------------------
  // Fetch and Decode
  // ---------------------------------------------------------------

  /** The controller in Execute/`i`, `k` clocks after the boundary `s`. */
  function Executing(s: Core, irq: nat -> bool, t: nat, k: nat, i: InstructionState): (m: Matrix)
    ensures m.state == Execute && m.irState == i && m.resetTrigger == s.m.resetTrigger
    ensures m.inProgress == s.m.inProgress
  {
    AdvanceBy(s.m, irq, t, k, i).(state := Execute)
  }

  lemma ExecutingMore(s: Core, irq: nat -> bool, t: nat, k: nat, i: InstructionState, next: InstructionState)
    ensures Advance(Executing(s, irq, t, k, i), irq(t + k), next) == Executing(s, irq, t, k + 1, next)
  {
    AdvanceMore(s.m, irq, t, k, i, next);
  }

  /** The datapath when the instruction at pc has been fetched and decoded. */
  function Decoded(d: Datapath): Datapath {
    var w := d.mem[WordAddr(d.pc)];
    var y := Wrap(d.pc + 4);
    d.(ir := w, pcPrior := d.pc, pc := y, aluOut := y,
       rsa := ReadReg(d.regs, Rs1(w)), rsb := ReadReg(d.regs, Rs2(w)))
  }

  lemma AddIsWrap(a: Word, b: Word)
    ensures AluY(Alu.ADD_OP, a, b) == Wrap(a + b)
  {
    Pow2Of32();
  }

  lemma FetchDecode(s: Core, irq: nat -> bool, t: nat)
    requires Boundary(s)
    ensures Run(s, irq, t, 2) == Core(Executing(s, irq, t, 2, Dispatch(s.d.memOut)), Decoded(s.d))
  {
    hide Run, Clock, AluY, Rd, Rs1, Rs2, WordAddr;
    var s1 := Clock(s, true, irq(t));
    RunNext(s, irq, t, 0);
    RunNext(s, irq, t, 1);
    StepFetch(s, irq(t));
    StepDecode(s1, irq(t + 1));
    AdvanceOnce(s.m, irq, t, ITLoad);
    AdvanceMore(s.m, irq, t, 1, ITLoad, Dispatch(s.d.memOut));
    AddIsWrap(s.d.pc, 4);
  }

  /** RsA and RsB keep their values while the instruction and its sources stay the same. */
  lemma Resampled(d: Datapath)
    requires d.rsa == ReadReg(d.regs, Rs1(d.ir)) && d.rsb == ReadReg(d.regs, Rs2(d.ir))
    ensures Sampled(d) == d
  {
  }

  /** `n` clocks after the boundary the core stands at the interrupt check, no CSR has been
      written, and pc, registers and memory are as given. */
  predicate Retired(s: Core, irq: nat -> bool, t: nat, n: nat, pc: Word, regs: Regs, mem: Bank) {
    var p := Run(s, irq, t, n);
    && p.m == Executing(s, irq, t, n, PreFetch)
    && p.d.pc == pc && p.d.regs == regs && p.d.mem == mem
  }

  // ---------------------------------------------------------------
  // The instructions
  // ---------------------------------------------------------------

  lemma RunAlu(s: Core, irq: nat -> bool, t: nat)
    requires Boundary(s) && Opcode(s.d.memOut) in {RTYPE, ITYPE}
    ensures
      var d := Decoded(s.d);
      var y := if Opcode(d.ir) == RTYPE then AluY(AluOpOf(d.ir), d.rsa, d.rsb)
               else AluY(ImmediateAluOp(d.ir), d.rsa, Immediate(d.ir));
      Retired(s, irq, t, if Rd(d.ir) == 0 then 3 else 4, d.pc, WriteReg(d.regs, Rd(d.ir), y), d.mem)
  {
    hide Run, Clock, Executing, Advance, AluY, AluFlags, Immediate, Rd, Rs1, Rs2, WordAddr, ReadOut, MergeIn;
    FetchDecode(s, irq, t);
    var s2 := Run(s, irq, t, 2);
    var i := Dispatch(s.d.memOut);
    StepAlu(s2, irq(t + 2));
    RunNext(s, irq, t, 2);
    ExecutingMore(s, irq, t, 2, i, PreFetch);
    if Rd(s2.d.ir) != 0 {
      var j := if i == RType then RTCmpl else ITALUCmpl;
      ExecutingMore(s, irq, t, 2, i, j);
      ExecutingMore(s, irq, t, 3, j, PreFetch);
      StepAluComplete(Run(s, irq, t, 3), irq(t + 3));
      RunNext(s, irq, t, 3);
    }
  }

  lemma RunUpper(s: Core, irq: nat -> bool, t: nat)
    requires Boundary(s) && Opcode(s.d.memOut) in {UTYPE_L, UTYPE_A}
    ensures
      var d := Decoded(s.d);
      var base := if Opcode(d.ir) == UTYPE_L then 0 else s.d.pc;
      Retired(s, irq, t, 3, d.pc, WriteReg(d.regs, Rd(d.ir), Wrap(base + Immediate(d.ir))), d.mem)
  {
    hide Run, Clock, Executing, Advance, AluY, AluFlags, Immediate, Rd, Rs1, Rs2, WordAddr, ReadOut, MergeIn;
    FetchDecode(s, irq, t);
    var s2 := Run(s, irq, t, 2);
    StepUpper(s2, irq(t + 2));
    RunNext(s, irq, t, 2);
    ExecutingMore(s, irq, t, 2, Dispatch(s.d.memOut), PreFetch);
    AddIsWrap(0, Immediate(s2.d.ir));
    AddIsWrap(s.d.pc, Immediate(s2.d.ir));
  }

  lemma RunJal(s: Core, irq: nat -> bool, t: nat)
    requires Boundary(s) && Opcode(s.d.memOut) == JTYPE
    ensures
      var d := Decoded(s.d);
      Retired(s, irq, t, if Rd(d.ir) == 0 then 3 else 4, Wrap(s.d.pc + Immediate(d.ir)),
              WriteReg(d.regs, Rd(d.ir), Wrap(s.d.pc + 4)), d.mem)
  {
    hide Run, Clock, Executing, Advance, AluY, AluFlags, Immediate, Rd, Rs1, Rs2, WordAddr, ReadOut, MergeIn;
    FetchDecode(s, irq, t);
    var s2 := Run(s, irq, t, 2);
    StepJump(s2, irq(t + 2));
    RunNext(s, irq, t, 2);
    AddIsWrap(s.d.pc, Immediate(s2.d.ir));
    AddIsWrap(s.d.pc, 4);
    if Rd(s2.d.ir) == 0 {
      ExecutingMore(s, irq, t, 2, JTJal, PreFetch);
    } else {
      ExecutingMore(s, irq, t, 2, JTJal, JTJalRtr);
      StepLink(Run(s, irq, t, 3), irq(t + 3));
      RunNext(s, irq, t, 3);
      ExecutingMore(s, irq, t, 3, JTJalRtr, PreFetch);
    }
  }

  lemma RunJalr(s: Core, irq: nat -> bool, t: nat)
    requires Boundary(s) && Opcode(s.d.memOut) == ITYPE_J
    ensures
      var d := Decoded(s.d);
      Retired(s, irq, t, if Rd(d.ir) == 0 then 3 else 4, Wrap(d.rsa + Immediate(d.ir)),
              WriteReg(d.regs, Rd(d.ir), Wrap(s.d.pc + 4)), d.mem)
  {
    hide Run, Clock, Executing, Advance, AluY, AluFlags, Immediate, Rd, Rs1, Rs2, WordAddr, ReadOut, MergeIn;
    FetchDecode(s, irq, t);
    var s2 := Run(s, irq, t, 2);
    StepJump(s2, irq(t + 2));
    RunNext(s, irq, t, 2);
    AddIsWrap(s2.d.rsa, Immediate(s2.d.ir));
    AddIsWrap(s.d.pc, 4);
    if Rd(s2.d.ir) == 0 {
      ExecutingMore(s, irq, t, 2, ITJalr, PreFetch);
    } else {
      ExecutingMore(s, irq, t, 2, ITJalr, ITJalrRtr);
      StepLink(Run(s, irq, t, 3), irq(t + 3));
      RunNext(s, irq, t, 3);
      ExecutingMore(s, irq, t, 3, ITJalrRtr, PreFetch);
    }
  }

  lemma RunBranch(s: Core, irq: nat -> bool, t: nat)
    requires Boundary(s) && Opcode(s.d.memOut) == BTYPE
    ensures
      var d := Decoded(s.d);
      var taken := Alu.TakeBranch(Funct3(d.ir), AluFlags(Alu.SUB_OP, d.rsa, d.rsb));
      Retired(s, irq, t, 4, if taken then Wrap(s.d.pc + Immediate(d.ir)) else d.pc, d.regs, d.mem)
  {
    hide Run, Clock, Executing, Advance, AluY, AluFlags, Immediate, Rd, Rs1, Rs2, WordAddr, ReadOut, MergeIn;
    FetchDecode(s, irq, t);
    var s2 := Run(s, irq, t, 2);
    StepCompare(s2, irq(t + 2));
    RunNext(s, irq, t, 2);
    ExecutingMore(s, irq, t, 2, BType, BTBranch);
    StepBranch(Run(s, irq, t, 3), irq(t + 3));
    RunNext(s, irq, t, 3);
    ExecutingMore(s, irq, t, 3, BTBranch, PreFetch);
    AddIsWrap(s.d.pc, Immediate(s2.d.ir));
  }

  /** The effective address of a load or store, one clock after Decode. */
  lemma RunAddress(s: Core, irq: nat -> bool, t: nat, next: InstructionState)
    requires Boundary(s) && Dispatch(s.d.memOut) in {ITLoad, STStore}
    requires next == if Dispatch(s.d.memOut) == ITLoad then ITLDMemAcc
                     else if Funct3(s.d.memOut) % 4 == 2 then STMemWrt else STMemAcc
    ensures
      var d := Decoded(s.d);
      Run(s, irq, t, 3) == Core(Executing(s, irq, t, 3, next), d.(aluOut := Wrap(d.rsa + Immediate(d.ir))))
  {
    hide Run, Clock, Executing, Advance, AluY, AluFlags, Immediate, Rd, Rs1, Rs2, WordAddr;
    FetchDecode(s, irq, t);
    var s2 := Run(s, irq, t, 2);
    StepAddress(s2, irq(t + 2));
    RunNext(s, irq, t, 2);
    ExecutingMore(s, irq, t, 2, Dispatch(s.d.memOut), next);
    AddIsWrap(s2.d.rsa, Immediate(s2.d.ir));
  }

  /** The three clocks in which a load reads the BRAM and loads the MDR. */
  lemma RunRead(s: Core, irq: nat -> bool, t: nat)
    requires Boundary(s) && Dispatch(s.d.memOut) == ITLoad
    ensures
      var d := Decoded(s.d);
      var addr := Wrap(d.rsa + Immediate(d.ir));
      var word := d.mem[WordAddr(addr)];
      Run(s, irq, t, 5) == Core(Executing(s, irq, t, 5, ITLDMemCmpl),
                                d.(aluOut := addr, memOut := word, mdr := ReadOut(Funct3(d.ir), addr, word, true)))
  {
    hide Run, Clock, Executing, Advance, Sampled, AluY, AluFlags, Immediate, ReadReg, Rd, Rs1, Rs2, WordAddr, ReadOut;
    RunAddress(s, irq, t, ITLDMemAcc);
    var s3 := Run(s, irq, t, 3);
    var word := s3.d.mem[WordAddr(s3.d.aluOut)];
    Resampled(s3.d);
    StepReadData(s3, irq(t + 3));
    RunNext(s, irq, t, 3);
    ExecutingMore(s, irq, t, 3, ITLDMemAcc, ITLDMemMdr);
    var s4 := Core(Executing(s, irq, t, 4, ITLDMemMdr), s3.d.(memOut := word));
    assert Run(s, irq, t, 4) == s4;
    Resampled(s4.d);
    StepLoadMdr(s4, irq(t + 4));
    RunNext(s, irq, t, 4);
    ExecutingMore(s, irq, t, 4, ITLDMemMdr, ITLDMemCmpl);
  }

  lemma RunLoad(s: Core, irq: nat -> bool, t: nat)
    requires Boundary(s) && Dispatch(s.d.memOut) == ITLoad
    ensures
      var d := Decoded(s.d);
      var addr := Wrap(d.rsa + Immediate(d.ir));
      Retired(s, irq, t, 6, d.pc,
              WriteReg(d.regs, Rd(d.ir), ReadOut(Funct3(d.ir), addr, d.mem[WordAddr(addr)], true)), d.mem)
  {
    hide Run, Clock, Executing, Advance, Sampled, AluY, AluFlags, Immediate, ReadReg, Rd, Rs1, Rs2, WordAddr, ReadOut;
    RunRead(s, irq, t);
    var s5 := Run(s, irq, t, 5);
    Resampled(s5.d);
    StepLoadComplete(s5, irq(t + 5));
    RunNext(s, irq, t, 5);
    ExecutingMore(s, irq, t, 5, ITLDMemCmpl, PreFetch);
  }

  lemma RunStoreWord(s: Core, irq: nat -> bool, t: nat)
    requires Boundary(s) && Opcode(s.d.memOut) == STYPE && Funct3(s.d.memOut) % 4 == 2
    ensures
      var d := Decoded(s.d);
      var addr := Wrap(d.rsa + Immediate(d.ir));
      Retired(s, irq, t, 4, d.pc, d.regs,
              d.mem[WordAddr(addr) := MergeIn(Funct3(d.ir), addr, d.mem[WordAddr(addr)], d.rsb)])
  {
    hide Run, Clock, Executing, Advance, Sampled, AluY, AluFlags, Immediate, ReadReg, Rd, Rs1, Rs2, WordAddr, ReadOut;
    RunAddress(s, irq, t, STMemWrt);
    var s3 := Run(s, irq, t, 3);
    Resampled(s3.d);
    StepWriteData(s3, irq(t + 3));
    RunNext(s, irq, t, 3);
    ExecutingMore(s, irq, t, 3, STMemWrt, PreFetch);
  }

  lemma RunStorePart(s: Core, irq: nat -> bool, t: nat)
    requires Boundary(s) && Opcode(s.d.memOut) == STYPE && Funct3(s.d.memOut) % 4 != 2
    ensures
      var d := Decoded(s.d);
      var addr := Wrap(d.rsa + Immediate(d.ir));
      Retired(s, irq, t, 5, d.pc, d.regs,
              d.mem[WordAddr(addr) := MergeIn(Funct3(d.ir), addr, d.mem[WordAddr(addr)], d.rsb)])
  {
    hide Run, Clock, Executing, Advance, Sampled, AluY, AluFlags, Immediate, ReadReg, Rd, Rs1, Rs2, WordAddr, MergeIn;
    RunAddress(s, irq, t, STMemAcc);
    var s3 := Run(s, irq, t, 3);
    Resampled(s3.d);
    StepReadData(s3, irq(t + 3));
    RunNext(s, irq, t, 3);
    ExecutingMore(s, irq, t, 3, STMemAcc, STMemWrt);
    var s4 := Core(Executing(s, irq, t, 4, STMemWrt), s3.d.(memOut := s3.d.mem[WordAddr(s3.d.aluOut)]));
    assert Run(s, irq, t, 4) == s4;
    Resampled(s4.d);
    StepWriteData(s4, irq(t + 4));
    RunNext(s, irq, t, 4);
    ExecutingMore(s, irq, t, 4, STMemWrt, PreFetch);
  }

  // ---------------------------------------------------------------
  // CSR instructions and mret
  // ---------------------------------------------------------------

  /** The CSR forms that skip rd: one clock in ITCSR. */
  lemma RunCsrSkip(s: Core, irq: nat -> bool, t: nat)
    requires Boundary(s) && IsCsrInstr(s.d.memOut) && CsrSkipsRd(s.d.memOut)
    ensures
      var d := Decoded(s.d);
      var p := Run(s, irq, t, 3);
      var m := Executing(s, irq, t, 2, ITCSR);
      var csrs := if Funct3(d.ir) == CSRRW then WriteCsr(m.csrs, Funct12(d.ir), d.rsa) else m.csrs;
      && p.m == Executing(s, irq, t, 3, PreFetch).(csrs := Raised(csrs, p.m.triggered, s.m.inProgress))
      && p.d.pc == d.pc && p.d.regs == d.regs && p.d.mem == d.mem
  {
    hide Run, Clock, Immediate, Rs2, WordAddr;
    FetchDecode(s, irq, t);
    var s2 := Run(s, irq, t, 2);
    StepCsrSkip(s2, irq(t + 2));
    RunNext(s, irq, t, 2);
    ExecutingMore(s, irq, t, 2, ITCSR, PreFetch);
  }

  /** The other CSR forms: rd gets the value read in ITCSR, one clock before the CSR itself is
      rewritten from RsA, which both states hold. */
  lemma RunCsr(s: Core, irq: nat -> bool, t: nat)
    requires Boundary(s) && IsCsrInstr(s.d.memOut) && !CsrSkipsRd(s.d.memOut) && Funct3(s.d.memOut) != 4
    ensures
      var d := Decoded(s.d);
      var p := Run(s, irq, t, 4);
      var m2, m3 := Executing(s, irq, t, 2, ITCSR), Executing(s, irq, t, 3, ITCSRLd);
      var addr := Funct12(d.ir);
      var v := if Funct3(d.ir) == CSRRW then d.rsa else AlgoData(ReadCsr(m3.csrs, addr), d.ir, d.rsa);
      && p.m == Executing(s, irq, t, 4, PreFetch).(
           csrs := Raised(WriteCsr(m3.csrs, addr, v), p.m.triggered, s.m.inProgress))
      && p.d.pc == d.pc && p.d.mem == d.mem
      && p.d.regs == WriteReg(d.regs, Rd(d.ir), ReadCsr(m2.csrs, addr))
  {
    hide Run, Clock, Immediate, Rs2, WordAddr;
    FetchDecode(s, irq, t);
    var s2 := Run(s, irq, t, 2);
    StepCsrRead(s2, irq(t + 2));
    RunNext(s, irq, t, 2);
    ExecutingMore(s, irq, t, 2, ITCSR, ITCSRLd);
    StepCsrWrite(Run(s, irq, t, 3), irq(t + 3));
    RunNext(s, irq, t, 3);
    ExecutingMore(s, irq, t, 3, ITCSRLd, PreFetch);
  }

  lemma RunMret(s: Core, irq: nat -> bool, t: nat)
    requires Boundary(s) && s.d.memOut == 0x3020_0073
    ensures
      var p := Run(s, irq, t, 4);
      var m3 := Executing(s, irq, t, 3, ITMretClr);
      var csrs := m3.csrs.(mstatus := MstatusOnReturn(m3.csrs.mstatus), mip := SetBit32(m3.csrs.mip, MIP_MEIP, 0));
      && p.m == Executing(s, irq, t, 4, PreFetch).(
           csrs := Raised(csrs, p.m.triggered, s.m.inProgress), inProgress := false)
      && p.d.pc == AlignDown(s.m.csrs.mepc) && p.d.regs == s.d.regs && p.d.mem == s.d.mem
  {
    hide Run, Clock, Immediate, Rs1, Rs2, WordAddr;
    FetchDecode(s, irq, t);
    var s2 := Run(s, irq, t, 2);
    assert Dispatch(s.d.memOut) == ITMret;
    StepReturn(s2, irq(t + 2));
    RunNext(s, irq, t, 2);
    ExecutingMore(s, irq, t, 2, ITMret, ITMretClr);
    StepReturnClear(Run(s, irq, t, 3), irq(t + 3));
    RunNext(s, irq, t, 3);
    ExecutingMore(s, irq, t, 3, ITMretClr, PreFetch);
  }
}
