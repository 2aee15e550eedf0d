/** One lemma per controller state: the core after one clock with reset released. */
module MicroSteps {
  import opened Bits
  import opened Encoding
  import opened Csr
  import opened ControlMatrix
  import opened Pmmu
  import opened RangerRisc
  import Alu

  predicate In(s: Core, i: InstructionState) {
    s.m.state == Execute && s.m.irState == i && !s.m.resetTrigger
  }

  /** mip.MEIP raised when the latch is set and no interrupt is in progress. */
  function Raised(c: Csrs, latched: bool, masked: bool): Csrs {
    if latched && !masked then c.(mip := SetBit32(c.mip, MIP_MEIP, 1)) else c
  }

  /** The controller after a clock that moves it to Execute/`next` and writes no CSR. */
  function Advance(m: Matrix, irq: bool, next: InstructionState): Matrix {
    m.(irState := next, triggered := m.triggered || irq,
       csrs := Raised(m.csrs, m.triggered || irq, m.inProgress))
  }

  /** The datapath after a clock that enables no register but RsA and RsB. */
  function Sampled(d: Datapath): Datapath {
    d.(rsa := ReadReg(d.regs, Rs1(d.ir)), rsb := ReadReg(d.regs, Rs2(d.ir)))
  }

  function Imm(d: Datapath): Word {
    Immediate(d.ir)
  }

  lemma StepFetch(s: Core, irq: bool)
    requires s.m.state == Fetch && !s.m.resetTrigger
    ensures Clock(s, true, irq)
         == Core(Advance(s.m, irq, ITLoad).(state := Decode),
                 Sampled(s.d).(ir := s.d.memOut, pcPrior := s.d.pc))
  {
  }

  lemma StepDecode(s: Core, irq: bool)
    requires s.m.state == Decode && !s.m.resetTrigger
    ensures Clock(s, true, irq)
         == Core(Advance(s.m, irq, Dispatch(s.d.ir)).(state := Execute),
                 Sampled(s.d).(pc := AluY(Alu.ADD_OP, s.d.pc, 4), aluOut := AluY(Alu.ADD_OP, s.d.pc, 4)))
  {
  }

  lemma StepAlu(s: Core, irq: bool)
    requires In(s, RType) || In(s, ITALU)
    ensures var y := if s.m.irState == RType then AluY(AluOpOf(s.d.ir), s.d.rsa, s.d.rsb)
                     else AluY(ImmediateAluOp(s.d.ir), s.d.rsa, Imm(s.d));
      Clock(s, true, irq)
         == Core(Advance(s.m, irq, if Rd(s.d.ir) == 0 then PreFetch
                                   else if s.m.irState == RType then RTCmpl else ITALUCmpl),
                 Sampled(s.d).(aluOut := y))
  {
    hide AluY, AluFlags, Immediate, ReadOut, MergeIn, WordAddr;
  }

  lemma StepAluComplete(s: Core, irq: bool)
    requires In(s, RTCmpl) || In(s, ITALUCmpl)
    ensures Clock(s, true, irq)
         == Core(Advance(s.m, irq, PreFetch),
                 Sampled(s.d).(regs := WriteReg(s.d.regs, Rd(s.d.ir), s.d.aluOut)))
  {
    hide AluY, AluFlags, Immediate, ReadOut, MergeIn, WordAddr;
  }

  // ---- Loads ----

  /** ITLoad and STStore compute the effective address. */
  lemma StepAddress(s: Core, irq: bool)
    requires In(s, ITLoad) || In(s, STStore)
    ensures Clock(s, true, irq)
         == Core(Advance(s.m, irq, if s.m.irState == ITLoad then ITLDMemAcc
                                   else if Funct3(s.d.ir) % 4 == 2 then STMemWrt else STMemAcc),
                 Sampled(s.d).(aluOut := AluY(Alu.ADD_OP, s.d.rsa, Imm(s.d))))
  {
  }

  /** ITLDMemAcc and STMemAcc read the addressed word. */
  lemma StepReadData(s: Core, irq: bool)
    requires In(s, ITLDMemAcc) || In(s, STMemAcc)
    ensures Clock(s, true, irq)
         == Core(Advance(s.m, irq, if s.m.irState == ITLDMemAcc then ITLDMemMdr else STMemWrt),
                 Sampled(s.d).(memOut := s.d.mem[WordAddr(s.d.aluOut)]))
  {
  }

  lemma StepLoadMdr(s: Core, irq: bool)
    requires In(s, ITLDMemMdr)
    ensures Clock(s, true, irq)
         == Core(Advance(s.m, irq, ITLDMemCmpl),
                 Sampled(s.d).(memOut := s.d.mem[WordAddr(s.d.aluOut)],
                               mdr := ReadOut(Funct3(s.d.ir), s.d.aluOut, s.d.memOut, true)))
  {
  }

  lemma StepLoadComplete(s: Core, irq: bool)
    requires In(s, ITLDMemCmpl)
    ensures Clock(s, true, irq)
         == Core(Advance(s.m, irq, PreFetch),
                 Sampled(s.d).(regs := WriteReg(s.d.regs, Rd(s.d.ir), s.d.mdr)))
  {
  }

  // ---- Stores ----

  lemma StepWriteData(s: Core, irq: bool)
    requires In(s, STMemWrt)
    ensures Clock(s, true, irq)
         == Core(Advance(s.m, irq, PreFetch),
                 Sampled(s.d).(mem := s.d.mem[WordAddr(s.d.aluOut) :=
                   MergeIn(Funct3(s.d.ir), s.d.aluOut, s.d.memOut, s.d.rsb)]))
  {
  }

  // ---- Jumps ----

  lemma StepJump(s: Core, irq: bool)
    requires In(s, JTJal) || In(s, ITJalr)
    ensures var base := if s.m.irState == JTJal then s.d.pcPrior else s.d.rsa;
      Clock(s, true, irq)
         == Core(Advance(s.m, irq, if Rd(s.d.ir) == 0 then PreFetch
                                   else if s.m.irState == JTJal then JTJalRtr else ITJalrRtr),
                 Sampled(s.d).(pc := AluY(Alu.ADD_OP, base, Imm(s.d))))
  {
    hide AluY, AluFlags, Immediate, ReadOut, MergeIn, WordAddr;
  }

  lemma StepLink(s: Core, irq: bool)
    requires In(s, JTJalRtr) || In(s, ITJalrRtr)
    ensures Clock(s, true, irq)
         == Core(Advance(s.m, irq, PreFetch),
                 Sampled(s.d).(regs := WriteReg(s.d.regs, Rd(s.d.ir), AluY(Alu.ADD_OP, s.d.pcPrior, 4))))
  {
    hide AluY, AluFlags, Immediate, ReadOut, MergeIn, WordAddr;
  }

  lemma StepUpper(s: Core, irq: bool)
    requires In(s, UType) || In(s, UTypeAui)
    ensures var base := if s.m.irState == UType then 0 else s.d.pcPrior;
      Clock(s, true, irq)
         == Core(Advance(s.m, irq, PreFetch),
                 Sampled(s.d).(regs := WriteReg(s.d.regs, Rd(s.d.ir), AluY(Alu.ADD_OP, base, Imm(s.d)))))
  {
    hide AluY, AluFlags, Immediate, ReadOut, MergeIn, WordAddr;
  }

  // ---- Branches ----

  lemma StepCompare(s: Core, irq: bool)
    requires In(s, BType)
    ensures Clock(s, true, irq)
         == Core(Advance(s.m, irq, BTBranch),
                 Sampled(s.d).(flags := AluFlags(Alu.SUB_OP, s.d.rsa, s.d.rsb)))
  {
  }

  lemma StepBranch(s: Core, irq: bool)
    requires In(s, BTBranch)
    ensures var target := AluY(Alu.ADD_OP, s.d.pcPrior, Imm(s.d));
      Clock(s, true, irq)
         == Core(Advance(s.m, irq, PreFetch),
                 Sampled(s.d).(aluOut := target,
                               pc := if Alu.TakeBranch(Funct3(s.d.ir), s.d.flags) then target else s.d.pc))
  {
  }

  // ---- CSR instructions ----

  /** The forms that leave ITCSR for the interrupt check without writing rd. */
  predicate CsrSkipsRd(ir: Word) {
    || (Funct3(ir) == CSRRW && Rd(ir) == 0)
    || (Funct3(ir) in {CSRRS, CSRRC} && Rs1(ir) == 0)
  }

  lemma StepCsrRead(s: Core, irq: bool)
    requires In(s, ITCSR) && IsCsrInstr(s.d.ir) && !CsrSkipsRd(s.d.ir) && Funct3(s.d.ir) != 4
    ensures Clock(s, true, irq)
         == Core(Advance(s.m, irq, ITCSRLd),
                 Sampled(s.d).(rsa := s.d.rsa,
                               regs := WriteReg(s.d.regs, Rd(s.d.ir), ReadCsr(s.m.csrs, Funct12(s.d.ir)))))
  {
    hide AluY, AluFlags, Immediate, ReadOut, MergeIn, WordAddr;
  }

  lemma StepCsrWrite(s: Core, irq: bool)
    requires In(s, ITCSRLd) && IsCsrInstr(s.d.ir) && !CsrSkipsRd(s.d.ir) && Funct3(s.d.ir) != 4
    ensures var current := ReadCsr(s.m.csrs, Funct12(s.d.ir));
      var v := if Funct3(s.d.ir) == CSRRW then s.d.rsa else AlgoData(current, s.d.ir, s.d.rsa);
      Clock(s, true, irq)
         == Core(Advance(s.m, irq, PreFetch).(
                   csrs := Raised(WriteCsr(s.m.csrs, Funct12(s.d.ir), v), s.m.triggered || irq, s.m.inProgress)),
                 Sampled(s.d).(rsa := s.d.rsa))
  {
    hide AluY, AluFlags, Immediate, ReadOut, MergeIn, WordAddr;
  }

  lemma StepCsrSkip(s: Core, irq: bool)
    requires In(s, ITCSR) && IsCsrInstr(s.d.ir) && CsrSkipsRd(s.d.ir)
    ensures var csrs := if Funct3(s.d.ir) == CSRRW then WriteCsr(s.m.csrs, Funct12(s.d.ir), s.d.rsa) else s.m.csrs;
      Clock(s, true, irq)
         == Core(Advance(s.m, irq, PreFetch).(csrs := Raised(csrs, s.m.triggered || irq, s.m.inProgress)),
                 Sampled(s.d).(rsa := s.d.rsa))
  {
  }

  // ---- Return from a trap ----

  lemma StepReturn(s: Core, irq: bool)
    requires In(s, ITMret)
    ensures Clock(s, true, irq)
         == Core(Advance(s.m, irq, ITMretClr), Sampled(s.d).(pc := AlignDown(s.m.csrs.mepc)))
  {
  }

  lemma StepReturnClear(s: Core, irq: bool)
    requires In(s, ITMretClr)
    ensures var csrs := s.m.csrs.(mstatus := MstatusOnReturn(s.m.csrs.mstatus),
                                  mip := SetBit32(s.m.csrs.mip, MIP_MEIP, 0));
      Clock(s, true, irq)
         == Core(Advance(s.m, irq, PreFetch).(
                   csrs := Raised(csrs, s.m.triggered || irq, s.m.inProgress), inProgress := false),
                 Sampled(s.d))
  {
  }

  // ---- The interrupt check and trap entry ----

  lemma StepPreFetch(s: Core, irq: bool)
    requires In(s, PreFetch) && !(IrqPending(s.m.csrs) && !s.m.inProgress)
    ensures Clock(s, true, irq)
         == Core(Advance(s.m, irq, ITLoad).(state := Fetch),
                 Sampled(s.d).(memOut := s.d.mem[WordAddr(s.d.pc)]))
  {
  }

  lemma StepTrap(s: Core, irq: bool)
    requires In(s, PreFetch) && IrqPending(s.m.csrs) && !s.m.inProgress
    ensures var csrs := s.m.csrs.(mstatus := MstatusOnTrap(s.m.csrs.mstatus));
      Clock(s, true, irq)
         == Core(Advance(s.m, irq, IRQ0).(
                   csrs := Raised(csrs, s.m.triggered || irq, false), inProgress := true),
                 Sampled(s.d))
  {
  }

  lemma StepIrq0(s: Core, irq: bool)
    requires In(s, IRQ0) && s.m.inProgress
    ensures Clock(s, true, irq)
         == Core(s.m.(irState := IRQ1, csrs := s.m.csrs.(mepc := s.d.pc), resetTrigger := true, triggered := false),
                 Sampled(s.d))
  {
  }

  lemma StepIrq1(s: Core, irq: bool)
    requires s.m.state == Execute && s.m.irState == IRQ1 && s.m.resetTrigger && !s.m.triggered && s.m.inProgress
    ensures Clock(s, true, irq)
         == Core(s.m.(irState := IRQ2, resetTrigger := false), Sampled(s.d).(pc := s.m.csrs.mtvec))
  {
  }

  lemma StepIrq2(s: Core, irq: bool)
    requires In(s, IRQ2) && s.m.inProgress
    ensures Clock(s, true, irq)
         == Core(s.m.(state := Fetch, irState := ITLoad, triggered := s.m.triggered || irq),
                 Sampled(s.d).(memOut := s.d.mem[WordAddr(s.d.pc)]))
  {
  }
}
