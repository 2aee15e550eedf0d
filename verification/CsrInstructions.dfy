/** CSR instructions, trap entry, mret and the interrupt latch bit by bit, with the addresses and bit
    positions of the RISC-V Instruction Set Manual, Volume II, sections 2.2 and 3.1, written out. */
module CsrInstructions {
  import opened Bits
  import opened Csr
  import opened ControlMatrix
  import opened Encoding
  import opened MemoryRefinement
  import opened RangerRisc
  import opened MicroSteps
  import opened Execution
  import opened Refinement
  import Isa
  import Pmmu
  import WholeRun

  // ---------------------------------------------------------------
  // The interpreter
  // ---------------------------------------------------------------

  lemma ModifiedCsrBits(current: Word, operand: Word, k: nat)
    requires k < 32
    ensures Bit(Isa.ModifiedCsr(Isa.Swap, current, operand), k) == Bit(operand, k)
    ensures Bit(Isa.ModifiedCsr(Isa.SetBits, current, operand), k) == 1
            <==> Bit(current, k) == 1 || Bit(operand, k) == 1
    ensures Bit(Isa.ModifiedCsr(Isa.ClearBits, current, operand), k) == 1
            <==> Bit(current, k) == 1 && Bit(operand, k) == 0
  {
    hide Bit, And, Or, Not32;
    BitOfOr(operand, current, k);
    BitOfAnd(Not32(operand), current, k);
    BitOfNot(operand, k);
    BitProducts(Bit(operand, k), Bit(current, k));
  }

  lemma BitProducts(u: Bit01, v: Bit01)
    ensures (1 - u) * v == 1 <==> v == 1 && u == 0
  {
    BitProduct(1 - u, v);
    if u == 1 {
      assert 0 * v == 0;
    }
  }

  /** Bit k of a CSR after a form of funct3 `f` with operand `v`; `hit` says that it is the one named. */
  predicate Written(hit: bool, f: nat, was: Word, v: Word, now: Word, k: nat) {
    Bit(now, k) == 1 <==>
      if !hit then Bit(was, k) == 1
      else if f % 4 == 1 then Bit(v, k) == 1
      else if f % 4 == 2 then Bit(was, k) == 1 || Bit(v, k) == 1
      else Bit(was, k) == 1 && Bit(v, k) == 0
  }

  /** All five CSRs at once; MEIP, bit 11 of mip, may be raised besides. */
  predicate AllWritten(addr: nat, f: nat, c: Csrs, v: Word, r: Csrs, raised: bool, k: nat) {
    && Written(addr == 0x300, f, c.mstatus, v, r.mstatus, k)
    && Written(addr == 0x304, f, c.mie, v, r.mie, k)
    && Written(addr == 0x305, f, c.mtvec, v, r.mtvec, k)
    && Written(addr == 0x341, f, c.mepc, v, r.mepc, k)
    && (if raised && k == 11 then Bit(r.mip, 11) == 1 else Written(addr == 0x344, f, c.mip, v, r.mip, k))
  }

  /** What an address reads. */
  function Held(c: Csrs, addr: nat): Word {
    match addr
    case 0x300 => c.mstatus
    case 0x304 => c.mie
    case 0x305 => c.mtvec
    case 0x341 => c.mepc
    case 0x344 => c.mip
    case _ => 0
  }

  function FormOf(f: nat): Isa.CsrForm {
    if f % 4 == 1 then Isa.Swap else if f % 4 == 2 then Isa.SetBits else Isa.ClearBits
  }

  lemma ModifiedIsWritten(f: nat, was: Word, v: Word, k: nat)
    requires f % 4 != 0 && k < 32
    ensures Written(true, f, was, v, Isa.ModifiedCsr(FormOf(f), was, v), k)
    ensures Written(false, f, was, v, was, k)
  {
    hide Isa.ModifiedCsr, Bit;
    ModifiedCsrBits(was, v, k);
  }

  lemma HeldIsRead(c: Csrs, addr: nat)
    ensures Held(c, addr) == ReadCsr(c, addr)
  {
  }

  lemma RewrittenBits(f: nat, addr: nat, c: Csrs, v: Word, k: nat)
    requires f % 4 != 0 && k < 32
    ensures AllWritten(addr, f, c, v, Rewritten(c, addr, FormOf(f), v), false, k)
  {
    hide Isa.ModifiedCsr, Bit, Written;
    ModifiedIsWritten(f, c.mstatus, v, k);
    ModifiedIsWritten(f, c.mie, v, k);
    ModifiedIsWritten(f, c.mtvec, v, k);
    ModifiedIsWritten(f, c.mepc, v, k);
    ModifiedIsWritten(f, c.mip, v, k);
  }

  /** With no bits to set or clear a CSR keeps its value. */
  lemma NothingWritten(f: nat, addr: nat, c: Csrs, k: nat)
    requires f % 4 in {2, 3}
    ensures AllWritten(addr, f, c, 0, c, false, k)
  {
    ZeroBit(k);
  }

  lemma RaisedWritten(addr: nat, f: nat, c: Csrs, v: Word, r: Csrs, raised: bool, masked: bool, k: nat)
    requires AllWritten(addr, f, c, v, r, false, k)
    ensures AllWritten(addr, f, c, v, Raised(r, raised, masked), raised && !masked, k)
  {
    hide Bit;
    BitOfSetBit(r.mip, 11, 1, k);
    BitOfSetBit(r.mip, 11, 1, 11);
  }

  // ---------------------------------------------------------------
  // The core
  // ---------------------------------------------------------------

  // The fields of a CSR instruction
  function AddrField(w: Word): (a: nat) { w / 0x10_0000 }
  function FormField(w: Word): (f: nat) { w / 0x1000 % 8 }
  function RdField(w: Word): RegIndex { w / 0x80 % 32 }
  function Rs1Field(w: Word): RegIndex { w / 0x8000 % 32 }

  /** The six SYSTEM forms that access a CSR. */
  predicate IsCsrWord(w: Word) {
    w % 0x80 == 0x73 && FormField(w) in {1, 2, 3, 5, 6, 7}
  }

  /** csrrw without rd, or csrrs and csrrc with x0: one clock less. */
  predicate Short(w: Word) {
    (FormField(w) == 1 && RdField(w) == 0) || (FormField(w) in {2, 3} && Rs1Field(w) == 0)
  }

  /** The value of a register, or the immediate in the place of rs1. */
  function OperandOf(d: Datapath, w: Word): Word {
    if FormField(w) >= 4 then Rs1Field(w) else if Rs1Field(w) == 0 then 0 else d.regs[Rs1Field(w)]
  }

  lemma WordFields(w: Word)
    requires IsCsrWord(w)
    ensures var f, i := FormField(w), Isa.Decode(w);
      && i.CsrAccess? && i.csr == AddrField(w) == Funct12(w) && i.rd == RdField(w) == Rd(w)
      && i.form == FormOf(f) && Funct3(w) == f && f % 4 != 0 && Rs1(w) == Rs1Field(w)
      && IsCsrInstr(w) && (CsrSkipsRd(w) <==> Short(w))
  {
    hide Isa.ImmI, Isa.ImmS, Isa.ImmB, Isa.ImmU, Isa.ImmJ;
  }

  lemma EarlierEdges(s: Core, irq: nat -> bool, t: nat)
    ensures var c, m := s.m.csrs, s.m.inProgress;
      var m2, m3 := Executing(s, irq, t, 2, ITCSR), Executing(s, irq, t, 3, ITCSRLd);
      var m4 := Executing(s, irq, t, 4, PreFetch);
      && m2.csrs == Raised(c, m2.triggered, m) && m3.csrs == Raised(c, m3.triggered, m)
      && (m2.triggered <==> s.m.triggered || irq(t) || irq(t + 1))
      && m2.triggered == Executing(s, irq, t, 2, PreFetch).triggered
      && m3.triggered == Executing(s, irq, t, 3, PreFetch).triggered
      && (m2.triggered ==> m3.triggered) && (m3.triggered ==> m4.triggered)
  {
    hide Raised;
    EdgeSplit(irq, t, 0);
    EdgeSplit(irq, t, 1);
    EdgeSplit(irq, t, 2);
    EdgeSplit(irq, t, 3);
  }

  lemma RaisedNot(c: Csrs, masked: bool)
    ensures Raised(c, false, masked) == c
  {
  }

  lemma RaisedMask(c: Csrs, latched: bool, masked: bool)
    ensures Raised(c, latched, masked) == Raised(c, !masked && latched, false)
  {
    hide SetBit32;
  }

  lemma OperandIs(s: Core)
    requires Boundary(s) && IsCsrWord(s.d.memOut)
    ensures var w, d := s.d.memOut, Decoded(s.d);
      && d.ir == w && d.pc == Wrap(s.d.pc + 4) && d.mem == s.d.mem && d.regs == s.d.regs
      && (if FormField(w) < 4 then d.rsa else Rs1(w)) == OperandOf(s.d, w)
      && (FormField(w) == 1 ==> d.rsa == OperandOf(s.d, w))
  {
    hide Pmmu.WordAddr;
  }

  predicate MovedOn(s: Core, p: Core) {
    In(p, PreFetch) && p.d.pc == Wrap(s.d.pc + 4) && p.d.mem == s.d.mem && p.m.inProgress == s.m.inProgress
  }

  lemma Stands(s: Core, irq: nat -> bool, t: nat, n: nat, p: Core, csrs: Csrs)
    requires Boundary(s) && IsCsrWord(s.d.memOut)
    requires p.m == Executing(s, irq, t, n, PreFetch).(csrs := csrs)
    requires p.d.pc == Decoded(s.d).pc && p.d.mem == Decoded(s.d).mem
    ensures MovedOn(s, p) && p.m.csrs == csrs && p.m.triggered == Executing(s, irq, t, n, PreFetch).triggered
  {
    hide Executing, Pmmu.WordAddr;
  }

  lemma SwapForm(f: nat)
    ensures f == 1 ==> FormOf(f) == Isa.Swap
    ensures CSRRW == 1
  {
  }

  /** Neither an edge before the read nor one before the write makes a difference to the CSRs. */
  lemma LongForm(s: Core, irq: nat -> bool, t: nat)
    requires Boundary(s) && IsCsrWord(s.d.memOut) && !Short(s.d.memOut)
    ensures var w, c, p := s.d.memOut, s.m.csrs, Run(s, irq, t, 4);
      var raised := !s.m.inProgress && (s.m.triggered || irq(t) || irq(t + 1));
      && MovedOn(s, p)
      && p.m.csrs == Raised(Rewritten(c, AddrField(w), FormOf(FormField(w)), OperandOf(s.d, w)), p.m.triggered,
                            s.m.inProgress)
      && p.d.regs == WriteReg(s.d.regs, RdField(w), ReadCsr(Raised(c, raised, false), AddrField(w)))
  {
    hide *;
    var w, c, p := s.d.memOut, s.m.csrs, Run(s, irq, t, 4);
    var m2, m3 := Executing(s, irq, t, 2, ITCSR), Executing(s, irq, t, 3, ITCSRLd);
    var m4 := Executing(s, irq, t, 4, PreFetch);
    var f, addr, v := FormField(w), AddrField(w), OperandOf(s.d, w);
    WordFields(w);
    OperandIs(s);
    RunCsrRewrites(s, irq, t);
    Stands(s, irq, t, 4, p, Raised(Rewritten(m3.csrs, addr, FormOf(f), v), p.m.triggered, s.m.inProgress));
    EarlierEdges(s, irq, t);
    RaisedNot(c, s.m.inProgress);
    RaisedMask(c, m2.triggered, s.m.inProgress);
    RewriteAtomic(c, false, m3.triggered, m4.triggered, s.m.inProgress, addr, FormOf(f), v);
  }

  lemma ShortForm(s: Core, irq: nat -> bool, t: nat)
    requires Boundary(s) && IsCsrWord(s.d.memOut) && Short(s.d.memOut)
    ensures var w, c, p := s.d.memOut, s.m.csrs, Run(s, irq, t, 3);
      var csrs := if FormField(w) == 1 then Rewritten(c, AddrField(w), FormOf(FormField(w)), OperandOf(s.d, w)) else c;
      MovedOn(s, p) && p.m.csrs == Raised(csrs, p.m.triggered, s.m.inProgress) && p.d.regs == s.d.regs
  {
    hide *;
    var w, c, p := s.d.memOut, s.m.csrs, Run(s, irq, t, 3);
    var m2, m3 := Executing(s, irq, t, 2, ITCSR), Executing(s, irq, t, 3, PreFetch);
    var f, addr, v := FormField(w), AddrField(w), OperandOf(s.d, w);
    WordFields(w);
    OperandIs(s);
    SwapForm(f);
    SwapWrites(m2.csrs, addr, v);
    RunCsrSkip(s, irq, t);
    var csrs := if f == 1 then WriteCsr(m2.csrs, addr, v) else m2.csrs;
    Stands(s, irq, t, 3, p, Raised(csrs, p.m.triggered, s.m.inProgress));
    EarlierEdges(s, irq, t);
    RaisedNot(c, s.m.inProgress);
    RaisedAgain(c, m2.triggered, m3.triggered, s.m.inProgress);
    RewriteAtomic(c, false, m2.triggered, m3.triggered, s.m.inProgress, addr, Isa.Swap, v);
  }

  lemma SwapWrites(c: Csrs, addr: nat, v: Word)
    ensures Rewritten(c, addr, Isa.Swap, v) == WriteCsr(c, addr, v)
  {
  }

  lemma ShortOperand(d: Datapath, w: Word)
    requires IsCsrWord(w)
    ensures FormField(w) % 4 != 0
    ensures Short(w) && FormField(w) != 1 ==> OperandOf(d, w) == 0 && FormField(w) % 4 in {2, 3}
  {
    hide FormField, RdField, Rs1Field;
  }

  /** A CSR instruction from boundary to interrupt check, bit by bit: the CSR its address names takes
      the operand, the union or the difference; the others keep theirs. */
  lemma CsrWordBits(s: Core, irq: nat -> bool, t: nat, k: nat)
    requires Boundary(s) && IsCsrWord(s.d.memOut) && k < 32
    ensures var w := s.d.memOut;
      var p := Run(s, irq, t, if Short(w) then 3 else 4);
      && MovedOn(s, p)
      && AllWritten(AddrField(w), FormField(w), s.m.csrs, OperandOf(s.d, w), p.m.csrs,
                    p.m.triggered && !s.m.inProgress, k)
  {
    hide *;
    var w, c := s.d.memOut, s.m.csrs;
    var f, addr, v := FormField(w), AddrField(w), OperandOf(s.d, w);
    ShortOperand(s.d, w);
    RewrittenBits(f, addr, c, v, k);
    if Short(w) {
      var p := Run(s, irq, t, 3);
      ShortForm(s, irq, t);
      if f != 1 {
        NothingWritten(f, addr, c, k);
        RaisedWritten(addr, f, c, v, c, p.m.triggered, s.m.inProgress, k);
      } else {
        RaisedWritten(addr, f, c, v, Rewritten(c, addr, FormOf(f), v), p.m.triggered, s.m.inProgress, k);
      }
    } else {
      LongForm(s, irq, t);
      RaisedWritten(addr, f, c, v, Rewritten(c, addr, FormOf(f), v), Run(s, irq, t, 4).m.triggered, s.m.inProgress, k);
    }
  }

  /** The old value as rd gets it, with MEIP as raised by an edge in the first two clocks. */
  predicate ReadsAs(c: Csrs, addr: nat, raised: bool, v: Word) {
    && (addr != 0x344 || !raised ==> v == Held(c, addr))
    && (addr == 0x344 && raised ==> forall k: nat | k < 32 :: Bit(v, k) == if k == 11 then 1 else Bit(c.mip, k))
  }

  lemma RaisedReads(c: Csrs, addr: nat, raised: bool)
    ensures ReadsAs(c, addr, raised, ReadCsr(Raised(c, raised, false), addr))
  {
    HeldIsRead(c, addr);
    hide Bit, SetBit;
    forall k: nat ensures Bit(SetBit32(c.mip, 11, 1), k) == if k == 11 then 1 else Bit(c.mip, k) {
      BitOfSetBit(c.mip, 11, 1, k);
    }
  }

  lemma OneRegister(r: Regs, i: RegIndex, v: Word)
    ensures var n := WriteReg(r, i, v); i != 0 ==> n[i] == v
    ensures forall j: RegIndex | j != i :: WriteReg(r, i, v)[j] == r[j]
  {
  }

  /** rd gets the old value, unless the form has no rd or does nothing; no other register changes. */
  lemma CsrWordReads(s: Core, irq: nat -> bool, t: nat)
    requires Boundary(s) && IsCsrWord(s.d.memOut)
    ensures var w := s.d.memOut;
      var p, rd := Run(s, irq, t, if Short(w) then 3 else 4), RdField(w);
      && (forall i: RegIndex | i != rd || Short(w) :: p.d.regs[i] == s.d.regs[i])
      && (rd != 0 && !Short(w) ==>
            ReadsAs(s.m.csrs, AddrField(w), !s.m.inProgress && (s.m.triggered || irq(t) || irq(t + 1)), p.d.regs[rd]))
  {
    hide *;
    var w, c := s.d.memOut, s.m.csrs;
    if Short(w) {
      ShortForm(s, irq, t);
    } else {
      var raised := !s.m.inProgress && (s.m.triggered || irq(t) || irq(t + 1));
      LongForm(s, irq, t);
      RaisedReads(c, AddrField(w), raised);
      OneRegister(s.d.regs, RdField(w), ReadCsr(Raised(c, raised, false), AddrField(w)));
    }
  }

  // ---------------------------------------------------------------
  // The latch, trap entry and mret
  // ---------------------------------------------------------------

  /** Outside a handler an interrupt edge raises bit 11 of mip and nothing else; inside one it waits. */
  lemma LatchBits(s: Core, irq: nat -> bool, t: nat, k: nat)
    requires Boundary(s)
    ensures var p := Run(s, irq, t, 1);
      && p.m.csrs == s.m.csrs.(mip := p.m.csrs.mip) && (p.m.triggered <==> s.m.triggered || irq(t))
      && (Bit(p.m.csrs.mip, k) == 1 <==>
            Bit(s.m.csrs.mip, k) == 1 || (k == 11 && !s.m.inProgress && (s.m.triggered || irq(t))))
  {
    hide Clock, Bit, Pmmu.WordAddr;
    RunNext(s, irq, t, 0);
    StepFetch(s, irq(t));
    BitOfSetBit(s.m.csrs.mip, 11, 1, k);
  }

  /** A trap is taken at the interrupt check if and only if bit 3 of mstatus, bit 11 of mie and bit 11
      of mip are set and no handler runs; otherwise the next instruction is fetched. */
  lemma TrapCondition(s: Core, irq: nat -> bool, t: nat)
    requires In(s, PreFetch)
    ensures var p, c := Run(s, irq, t, 1), s.m.csrs;
      var taken := Bit(c.mstatus, 3) == 1 && Bit(c.mie, 11) == 1 && Bit(c.mip, 11) == 1 && !s.m.inProgress;
      if taken then In(p, IRQ0) && p.m.inProgress else Boundary(p)
  {
    hide Clock, Bit, Pmmu.WordAddr, MstatusOnTrap, SetBit32;
    RunNext(s, irq, t, 0);
    if IrqPending(s.m.csrs) && !s.m.inProgress {
      StepTrap(s, irq(t));
    } else {
      StepPreFetch(s, irq(t));
    }
  }

  /** Trap entry moves bit 3 of mstatus to bit 7 and clears it. */
  lemma TrapBits(s: Core, irq: nat -> bool, t: nat, k: nat)
    requires In(s, PreFetch) && Isa.Traps(Abs(s))
    ensures var p, c := Run(s, irq, t, 4), s.m.csrs;
      && Boundary(p) && p.d.pc == c.mtvec && p.m.inProgress && p.m.csrs.mepc == s.d.pc
      && p.m.csrs == c.(mstatus := p.m.csrs.mstatus, mepc := s.d.pc)
      && Bit(p.m.csrs.mstatus, k) == if k == 3 then 0 else if k == 7 then 1 else Bit(c.mstatus, k)
  {
    hide Run, Bit, BytesOf, Boundary;
    WholeRun.CheckTraps(s, irq, t);
    var m := s.m.csrs.mstatus;
    BitOfSetBit(SetBit32(m, 7, Bit(m, 3)), 3, 0, k);
    BitOfSetBit(m, 7, Bit(m, 3), k);
  }

  /** mret moves bit 7 of mstatus to bit 3 and clears it; MEIP goes, unless an edge outside a handler
      is latched. */
  lemma MretBits(s: Core, irq: nat -> bool, t: nat, k: nat)
    requires Boundary(s) && s.d.memOut == 0x3020_0073
    ensures var p, c := Run(s, irq, t, 4), s.m.csrs;
      && In(p, PreFetch) && p.d.pc == c.mepc / 4 * 4 && !p.m.inProgress
      && p.m.csrs == c.(mstatus := p.m.csrs.mstatus, mip := p.m.csrs.mip)
      && Bit(p.m.csrs.mstatus, k) == (if k == 3 then Bit(c.mstatus, 7) else if k == 7 then 0 else Bit(c.mstatus, k))
      && (Bit(p.m.csrs.mip, k) == 1 <==>
            if k == 11 then p.m.triggered && !s.m.inProgress else Bit(c.mip, k) == 1)
  {
    RunMret(s, irq, t);
    var m, x := s.m.csrs.mstatus, s.m.csrs.mip;
    var x3 := Executing(s, irq, t, 3, ITMretClr).csrs.mip;
    assert x3 == x || x3 == SetBit32(x, 11, 1);
    hide Run, Bit, SetBit;
    BitOfSetBit(SetBit32(m, 3, Bit(m, 7)), 7, 0, k);
    BitOfSetBit(m, 3, Bit(m, 7), k);
    BitOfSetBit(x, 11, 1, k);
    BitOfSetBit(x3, 11, 0, k);
    BitOfSetBit(SetBit32(x3, 11, 0), 11, 1, k);
  }
}
