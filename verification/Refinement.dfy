/** The core refines the interpreter: clock by clock between two instruction boundaries, then
    over whole runs, with interrupt edges at any clock. */
module Refinement {
  import opened Bits
  import opened Encoding
  import opened Csr
  import opened ControlMatrix
  import opened Pmmu
  import opened RangerRisc
  import opened MicroSteps
  import opened Execution
  import opened MemoryRefinement
  import opened DecodeRefinement
  import Alu
  import Isa

  // ---------------------------------------------------------------
  // Abstraction
  // ---------------------------------------------------------------

  function RegsOf(r: Regs): Isa.Registers {
    r[0 := 0]
  }

  /** The architectural state a core represents. */
  function Abs(s: Core): Isa.Arch {
    Isa.Arch(s.d.pc, RegsOf(s.d.regs), BytesOf(s.d.mem), s.m.csrs, s.m.inProgress, s.m.triggered)
  }

  /** From the boundary `s` the core reaches the interrupt check after the instruction's latency,
      having done what the interpreter does. */
  predicate Refined(s: Core, irq: nat -> bool, t: nat) {
    var i := Isa.Decode(s.d.memOut);
    var p := Run(s, irq, t, Isa.Latency(i) - 1);
    In(p, PreFetch) && Abs(p) == Isa.Retire(Abs(s), irq, t)
  }

  lemma FetchedIsMemOut(s: Core)
    requires Boundary(s)
    ensures Isa.Fetched(Abs(s)) == s.d.memOut
  {
    FetchRefines(s.d.mem, s.d.pc);
  }

  lemma EdgeUnion(irq: nat -> bool, t: nat, n: nat)
    requires n >= 2
    ensures Isa.AnyEdge(irq, t, t + n) <==> irq(t) || irq(t + 1) || Isa.AnyEdge(irq, t + 2, t + n)
  {
    if Isa.AnyEdge(irq, t, t + n) {
      var k :| t <= k < t + n && irq(k);
      assert k == t || k == t + 1 || t + 2 <= k < t + n;
    }
  }

  /** Executing an instruction that is neither a CSR access nor mret. */
  predicate LeavesCsrs(i: Isa.Instr) {
    !i.CsrAccess? && !i.Mret?
  }

  /** An instruction that touches no CSR: it is enough to agree on pc, registers and memory. */
  lemma QuietInstruction(s: Core, irq: nat -> bool, t: nat, i: Isa.Instr, pc: Word, regs: Regs, mem: Bank)
    requires Boundary(s) && i == Isa.Decode(s.d.memOut) && LeavesCsrs(i) && i != Isa.Illegal
    requires Retired(s, irq, t, Isa.Latency(i) - 1, pc, regs, mem)
    requires var a := Abs(s);
      Isa.Execute(a, i) == a.(pc := pc, regs := RegsOf(regs), mem := BytesOf(mem))
    ensures Refined(s, irq, t)
  {
    hide Run, BytesOf, Isa.Decode, RegsOf, Isa.Fetched, Isa.Execute, SetBit32;
    var a, n := Abs(s), Isa.Latency(i) - 1;
    FetchedIsMemOut(s);
    EdgeUnion(irq, t, n);
    var before := Isa.Arrive(a, irq(t) || irq(t + 1), a.inHandler);
    ExecuteIgnoresCsrs(a, before.csrs, before.latched, i);
    RaisedAgain(s.m.csrs, before.latched, a.latched || Isa.AnyEdge(irq, t, t + n), a.inHandler);
  }

  lemma ExecuteIgnoresCsrs(a: Isa.Arch, csrs: Csrs, latched: bool, i: Isa.Instr)
    requires LeavesCsrs(i)
    ensures Isa.Execute(a.(csrs := csrs, latched := latched), i) == Isa.Execute(a, i).(csrs := csrs, latched := latched)
  {
  }

  // ---------------------------------------------------------------
  // Registers
  // ---------------------------------------------------------------

  lemma RegistersRefine(r: Regs, i: RegIndex, v: Word)
    ensures RegsOf(r)[i] == ReadReg(r, i)
    ensures RegsOf(WriteReg(r, i, v)) == Isa.SetReg(RegsOf(r), i, v)
  {
  }

  // ---------------------------------------------------------------
  // One instruction
  // ---------------------------------------------------------------

  lemma AluCodes(w: Word)
    ensures match Isa.Decode(w)
      case Op(kind, rd, rs1, rs2) =>
        Opcode(w) == RTYPE && AluOpOf(w) == OpCode(kind) && rd == Rd(w) && rs1 == Rs1(w) && rs2 == Rs2(w)
      case OpImm(kind, rd, rs1, imm) =>
        && Opcode(w) == ITYPE && ImmediateAluOp(w) == OpCode(kind) && rd == Rd(w) && rs1 == Rs1(w)
        && Wrap(imm) == Immediate(w)
      case _ => true
  {
    ImmediateRefines(w);
    assert Funct7Up(w) == w / 0x200_0000 / 0x10;
  }

  /** An instruction leaves the interpreter in a state that differs in pc, registers and memory. */
  predicate ExecutesTo(s: Core, pc: Word, regs: Regs, mem: Bank) {
    Isa.Execute(Abs(s), Isa.Decode(s.d.memOut)) == Abs(s).(pc := pc, regs := RegsOf(regs), mem := BytesOf(mem))
  }

  lemma OpExecutes(s: Core)
    requires Boundary(s) && (Isa.Decode(s.d.memOut).Op? || Isa.Decode(s.d.memOut).OpImm?)
    ensures
      var w, d := s.d.memOut, Decoded(s.d);
      var y := if Isa.Decode(w).Op? then AluY(AluOpOf(w), d.rsa, d.rsb)
               else AluY(ImmediateAluOp(w), d.rsa, Immediate(w));
      ExecutesTo(s, d.pc, WriteReg(d.regs, Rd(w), y), d.mem)
  {
    hide BytesOf, Isa.Decode, Immediate, Isa.Compute, AluY, Opcode, Rd, Rs1, Rs2, Wrap, AluOpOf, ImmediateAluOp;
    var w, i, d := s.d.memOut, Isa.Decode(s.d.memOut), Decoded(s.d);
    AluCodes(w);
    RegistersRefine(s.d.regs, i.rs1, 0);
    if i.Op? {
      AluRefines(i.kind, d.rsa, d.rsb);
      RegistersRefine(s.d.regs, i.rs2, 0);
      RegistersRefine(s.d.regs, i.rd, AluY(AluOpOf(w), d.rsa, d.rsb));
    } else {
      AluRefines(i.kind, d.rsa, Immediate(w));
      RegistersRefine(s.d.regs, i.rd, AluY(ImmediateAluOp(w), d.rsa, Immediate(w)));
    }
  }

  lemma RefineOp(s: Core, irq: nat -> bool, t: nat)
    requires Boundary(s) && (Isa.Decode(s.d.memOut).Op? || Isa.Decode(s.d.memOut).OpImm?)
    ensures Refined(s, irq, t)
  {
    hide Run, Isa.Decode, Isa.Execute, Abs, Refined, Immediate, AluY, Rd, WriteReg, Retired, AluOpOf, ImmediateAluOp;
    var w, d := s.d.memOut, Decoded(s.d);
    AluCodes(w);
    RunAlu(s, irq, t);
    OpExecutes(s);
    var y := if Isa.Decode(w).Op? then AluY(AluOpOf(w), d.rsa, d.rsb) else AluY(ImmediateAluOp(w), d.rsa, Immediate(w));
    QuietInstruction(s, irq, t, Isa.Decode(w), d.pc, WriteReg(d.regs, Rd(w), y), d.mem);
  }

  lemma UpperFields(w: Word)
    ensures match Isa.Decode(w)
      case Lui(rd, imm) => Opcode(w) == UTYPE_L && rd == Rd(w) && Immediate(w) == Wrap(imm)
      case Auipc(rd, imm) => Opcode(w) == UTYPE_A && rd == Rd(w) && Immediate(w) == Wrap(imm)
      case Jal(rd, imm) => Opcode(w) == JTYPE && rd == Rd(w) && Immediate(w) == Wrap(imm)
      case Jalr(rd, rs1, imm) => Opcode(w) == ITYPE_J && rd == Rd(w) && rs1 == Rs1(w) && Immediate(w) == Wrap(imm)
      case _ => true
  {
    hide Immediate, Isa.ImmI, Isa.ImmS, Isa.ImmB, Isa.ImmU, Isa.ImmJ;
    ImmediateRefines(w);
  }

  lemma UpperExecutes(s: Core)
    requires Boundary(s) && (Isa.Decode(s.d.memOut).Lui? || Isa.Decode(s.d.memOut).Auipc?)
    ensures
      var w, d := s.d.memOut, Decoded(s.d);
      var base := if Isa.Decode(w).Lui? then 0 else s.d.pc;
      ExecutesTo(s, d.pc, WriteReg(d.regs, Rd(w), Wrap(base + Immediate(w))), d.mem)
  {
    hide BytesOf, Isa.Decode, Immediate, Opcode, Rd, Rs1, Rs2, Funct3, Wrap;
    var w, i := s.d.memOut, Isa.Decode(s.d.memOut);
    UpperFields(w);
    var base := if i.Lui? then 0 else s.d.pc;
    WrapSum(base, i.imm);
    RegistersRefine(s.d.regs, i.rd, Wrap(base + Immediate(w)));
  }

  lemma RefineUpper(s: Core, irq: nat -> bool, t: nat)
    requires Boundary(s) && (Isa.Decode(s.d.memOut).Lui? || Isa.Decode(s.d.memOut).Auipc?)
    ensures Refined(s, irq, t)
  {
    hide Run, Isa.Decode, Isa.Execute, Abs, Refined, Immediate, Rd, WriteReg, Retired, Wrap;
    var w, d := s.d.memOut, Decoded(s.d);
    UpperFields(w);
    RunUpper(s, irq, t);
    UpperExecutes(s);
    var base := if Isa.Decode(w).Lui? then 0 else s.d.pc;
    QuietInstruction(s, irq, t, Isa.Decode(w), d.pc, WriteReg(d.regs, Rd(w), Wrap(base + Immediate(w))), d.mem);
  }

  lemma JumpExecutes(s: Core)
    requires Boundary(s) && (Isa.Decode(s.d.memOut).Jal? || Isa.Decode(s.d.memOut).Jalr?)
    ensures
      var w, d := s.d.memOut, Decoded(s.d);
      var base := if Isa.Decode(w).Jal? then s.d.pc else d.rsa;
      ExecutesTo(s, Wrap(base + Immediate(w)), WriteReg(d.regs, Rd(w), Wrap(s.d.pc + 4)), d.mem)
  {
    hide BytesOf, Isa.Decode, Immediate, Opcode, Rd, Rs1, Rs2, Funct3, Wrap;
    var w, i, d := s.d.memOut, Isa.Decode(s.d.memOut), Decoded(s.d);
    UpperFields(w);
    RegistersRefine(s.d.regs, i.rd, Wrap(s.d.pc + 4));
    if i.Jalr? {
      RegistersRefine(s.d.regs, i.rs1, 0);
    }
    WrapSum(if i.Jal? then s.d.pc else d.rsa, i.imm);
  }

  lemma RefineJump(s: Core, irq: nat -> bool, t: nat)
    requires Boundary(s) && (Isa.Decode(s.d.memOut).Jal? || Isa.Decode(s.d.memOut).Jalr?)
    ensures Refined(s, irq, t)
  {
    hide Run, Isa.Decode, Isa.Execute, Abs, Refined, Immediate, Rd, WriteReg, Retired, Wrap;
    var w, d := s.d.memOut, Decoded(s.d);
    UpperFields(w);
    if Isa.Decode(w).Jal? {
      RunJal(s, irq, t);
    } else {
      RunJalr(s, irq, t);
    }
    JumpExecutes(s);
    var base := if Isa.Decode(w).Jal? then s.d.pc else d.rsa;
    QuietInstruction(s, irq, t, Isa.Decode(w), Wrap(base + Immediate(w)),
                     WriteReg(d.regs, Rd(w), Wrap(s.d.pc + 4)), d.mem);
  }

  lemma BranchFields(w: Word)
    requires Isa.Decode(w).Branch?
    ensures var i := Isa.Decode(w);
      && Opcode(w) == BTYPE && i.rs1 == Rs1(w) && i.rs2 == Rs2(w)
      && Funct3(w) == BranchCode(i.cond) && Immediate(w) == Wrap(i.imm)
  {
    hide Immediate, Isa.ImmI, Isa.ImmS, Isa.ImmB, Isa.ImmU, Isa.ImmJ;
    ImmediateRefines(w);
  }

  lemma RefineBranch(s: Core, irq: nat -> bool, t: nat)
    requires Boundary(s) && Isa.Decode(s.d.memOut).Branch?
    ensures Refined(s, irq, t)
  {
    hide Run, BytesOf, Isa.Decode, Immediate, AluFlags, Alu.TakeBranch, Isa.Holds;
    var w, i, d := s.d.memOut, Isa.Decode(s.d.memOut), Decoded(s.d);
    BranchFields(w);
    RunBranch(s, irq, t);
    BranchRefines(i.cond, d.rsa, d.rsb);
    RegistersRefine(s.d.regs, i.rs1, 0);
    RegistersRefine(s.d.regs, i.rs2, 0);
    WrapSum(s.d.pc, i.imm);
    var pc := if Isa.Holds(i.cond, d.rsa, d.rsb) then Wrap(s.d.pc + Immediate(w)) else d.pc;
    QuietInstruction(s, irq, t, i, pc, d.regs, d.mem);
  }

  lemma MemoryFields(w: Word)
    ensures match Isa.Decode(w)
      case Load(size, unsigned, rd, rs1, imm) =>
        && Opcode(w) == ITYPE_L && rd == Rd(w) && rs1 == Rs1(w) && Immediate(w) == Wrap(imm)
        && Funct3(w) in {0, 1, 2, 4, 5} && size == SizeOf(Funct3(w)) && unsigned == (Funct3(w) >= 4)
      case Store(size, rs1, rs2, imm) =>
        && Opcode(w) == STYPE && rs1 == Rs1(w) && rs2 == Rs2(w) && Immediate(w) == Wrap(imm)
        && Funct3(w) < 3 && size == SizeOf(Funct3(w))
      case _ => true
  {
    hide Immediate, Isa.ImmI, Isa.ImmS, Isa.ImmB, Isa.ImmU, Isa.ImmJ;
    ImmediateRefines(w);
  }

  lemma LoadExecutes(s: Core)
    requires Boundary(s) && Isa.Decode(s.d.memOut).Load?
    ensures
      var w, d := s.d.memOut, Decoded(s.d);
      var addr := Wrap(d.rsa + Immediate(w));
      ExecutesTo(s, d.pc, WriteReg(d.regs, Rd(w), ReadOut(Funct3(w), addr, d.mem[WordAddr(addr)], true)), d.mem)
  {
    hide BytesOf, Isa.Decode, Immediate, ReadOut, Isa.LoadValue, SizeOf, Opcode, Rd, Rs1, Rs2, Funct3, Wrap, WordAddr;
    var w, i, d := s.d.memOut, Isa.Decode(s.d.memOut), Decoded(s.d);
    MemoryFields(w);
    var addr := Wrap(d.rsa + Immediate(w));
    WrapSum(d.rsa, i.imm);
    LoadRefines(d.mem, Funct3(w), addr);
    RegistersRefine(s.d.regs, i.rs1, 0);
    RegistersRefine(s.d.regs, i.rd, ReadOut(Funct3(w), addr, d.mem[WordAddr(addr)], true));
  }

  lemma RefineLoad(s: Core, irq: nat -> bool, t: nat)
    requires Boundary(s) && Isa.Decode(s.d.memOut).Load?
    ensures Refined(s, irq, t)
  {
    hide Run, Isa.Decode, Isa.Execute, Abs, Refined, Immediate, Rd, WriteReg, Retired, Wrap, ReadOut, WordAddr;
    var w, d := s.d.memOut, Decoded(s.d);
    MemoryFields(w);
    RunLoad(s, irq, t);
    LoadExecutes(s);
    var addr := Wrap(d.rsa + Immediate(w));
    var y := ReadOut(Funct3(w), addr, d.mem[WordAddr(addr)], true);
    QuietInstruction(s, irq, t, Isa.Decode(w), d.pc, WriteReg(d.regs, Rd(w), y), d.mem);
  }

  lemma StoreExecutes(s: Core)
    requires Boundary(s) && Isa.Decode(s.d.memOut).Store?
    ensures
      var w, d := s.d.memOut, Decoded(s.d);
      var addr := Wrap(d.rsa + Immediate(w));
      ExecutesTo(s, d.pc, d.regs, d.mem[WordAddr(addr) := MergeIn(Funct3(w), addr, d.mem[WordAddr(addr)], d.rsb)])
  {
    hide BytesOf, Isa.Decode, Immediate, MergeIn, Isa.StoreValue, SizeOf, Opcode, Rd, Rs1, Rs2, Funct3, Wrap, WordAddr;
    var w, i, d := s.d.memOut, Isa.Decode(s.d.memOut), Decoded(s.d);
    MemoryFields(w);
    var addr := Wrap(d.rsa + Immediate(w));
    WrapSum(d.rsa, i.imm);
    StoreRefines(d.mem, Funct3(w), addr, d.rsb);
    RegistersRefine(s.d.regs, i.rs1, 0);
    RegistersRefine(s.d.regs, i.rs2, 0);
  }

  lemma RefineStore(s: Core, irq: nat -> bool, t: nat)
    requires Boundary(s) && Isa.Decode(s.d.memOut).Store?
    ensures Refined(s, irq, t)
  {
    hide Run, Isa.Decode, Isa.Execute, Abs, Refined, Immediate, Retired, Wrap, MergeIn, WordAddr, Funct3;
    var w, d := s.d.memOut, Decoded(s.d);
    MemoryFields(w);
    if Funct3(w) == 2 {
      RunStoreWord(s, irq, t);
    } else {
      RunStorePart(s, irq, t);
    }
    StoreExecutes(s);
    var addr := Wrap(d.rsa + Immediate(w));
    var mem := d.mem[WordAddr(addr) := MergeIn(Funct3(w), addr, d.mem[WordAddr(addr)], d.rsb)];
    QuietInstruction(s, irq, t, Isa.Decode(w), d.pc, d.regs, mem);
  }

  // ---------------------------------------------------------------
  // CSR instructions
  // ---------------------------------------------------------------

  lemma CsrFields(w: Word)
    requires Isa.Decode(w).CsrAccess?
    ensures var i := Isa.Decode(w);
      && Opcode(w) == ITYPE_E && IsCsrInstr(w) && Funct3(w) in {1, 2, 3, 5, 6, 7}
      && i.rd == Rd(w) && i.csr == Funct12(w)
      && i.operand == (if Funct3(w) < 4 then Isa.Register(Rs1(w)) else Isa.Zimm(Rs1(w)))
      && i.form == (if Funct3(w) % 4 == 1 then Isa.Swap else if Funct3(w) % 4 == 2 then Isa.SetBits else Isa.ClearBits)
  {
    hide Isa.ImmI, Isa.ImmS, Isa.ImmB, Isa.ImmU, Isa.ImmJ;
  }

  /** The value the core computes for the CSR is the interpreter's. */
  lemma CsrValueRefines(w: Word, current: Word, rsa: Word)
    requires Isa.Decode(w).CsrAccess?
    ensures var i := Isa.Decode(w);
      var operand := if Funct3(w) < 4 then rsa else Rs1(w);
      (if Funct3(w) == CSRRW then rsa else AlgoData(current, w, rsa)) == Isa.ModifiedCsr(i.form, current, operand)
  {
    hide Isa.Decode, Or, And;
    CsrFields(w);
  }

  /** MEIP raised between reading and rewriting mip ends up set all the same. */
  lemma RaiseThroughModify(form: Isa.CsrForm, x: Word, v: Word)
    ensures SetBit32(Isa.ModifiedCsr(form, SetBit32(x, MIP_MEIP, 1), v), MIP_MEIP, 1)
         == SetBit32(Isa.ModifiedCsr(form, x, v), MIP_MEIP, 1)
  {
    hide SetBit;
    SetBitThroughOr(v, x, MIP_MEIP, 1);
    SetBitThroughAnd(Not32(v), x, MIP_MEIP, 1);
  }

  function Rewritten(c: Csrs, addr: nat, form: Isa.CsrForm, v: Word): Csrs {
    WriteCsr(c, addr, Isa.ModifiedCsr(form, ReadCsr(c, addr), v))
  }

  /** A CSR rewrite is atomic with respect to the interrupt latch: whether MEIP is raised before
      the CSR is read or between the read and the write makes no difference afterwards. */
  lemma RewriteAtomic(c: Csrs, l2: bool, l3: bool, l4: bool, masked: bool, addr: nat, form: Isa.CsrForm, v: Word)
    requires (l2 ==> l3) && (l3 ==> l4)
    ensures Raised(Rewritten(Raised(c, l3, masked), addr, form, v), l4, masked)
         == Raised(Rewritten(Raised(c, l2, masked), addr, form, v), l4, masked)
  {
    hide Isa.ModifiedCsr, SetBit;
    RaiseThroughModify(form, c.mip, v);
    SetBitTwice(c.mip, MIP_MEIP, 1, 1);
  }

  /** The interpreter state just after Decode, the interrupt latch included. */
  function BeforeExecute(s: Core, irq: nat -> bool, t: nat): Isa.Arch {
    var m := Executing(s, irq, t, 2, ITCSR);
    Abs(s).(csrs := m.csrs, latched := m.triggered)
  }

  /** `done` once the latch has acted on it up to the interrupt check, `n` clocks after the boundary. */
  function AfterExecute(s: Core, irq: nat -> bool, t: nat, n: nat, done: Isa.Arch): Isa.Arch {
    var l := Executing(s, irq, t, n, PreFetch).triggered;
    done.(latched := l, csrs := Raised(done.csrs, l, s.m.inProgress))
  }

  /** Isa.Retire as the instruction run between the two arrivals of the latch. */
  lemma RetireIs(s: Core, irq: nat -> bool, t: nat, i: Isa.Instr, n: nat, done: Isa.Arch)
    requires Boundary(s) && i == Isa.Decode(s.d.memOut) && n == Isa.Latency(i) - 1
    requires done == Isa.Execute(BeforeExecute(s, irq, t), i)
    requires done.latched == BeforeExecute(s, irq, t).latched
    ensures Isa.Retire(Abs(s), irq, t) == AfterExecute(s, irq, t, n, done)
  {
    hide Isa.Execute, Isa.Decode, BytesOf, RegsOf, SetBit32, Isa.Fetched;
    FetchedIsMemOut(s);
    EdgeUnion(irq, t, 2);
    EdgeUnion(irq, t, n);
  }

  /** The interpreter on a CSR instruction, in the core's terms. */
  function CsrDone(a: Isa.Arch, w: Word, rsa: Word): Isa.Arch {
    var f, addr := Funct3(w), Funct12(w);
    var operand := if f < 4 then rsa else Rs1(w);
    var form := if f % 4 == 1 then Isa.Swap else if f % 4 == 2 then Isa.SetBits else Isa.ClearBits;
    var next := a.(pc := Wrap(a.pc + 4));
    if f in {CSRRS, CSRRC} && Rs1(w) == 0 then next
    else next.(regs := Isa.SetReg(a.regs, Rd(w), ReadCsr(a.csrs, addr)),
               csrs := Rewritten(a.csrs, addr, form, operand))
  }

  lemma ExecuteCsr(a: Isa.Arch, w: Word)
    requires Isa.Decode(w).CsrAccess?
    ensures Isa.Execute(a, Isa.Decode(w)) == CsrDone(a, w, a.regs[Rs1(w)])
  {
    hide Isa.Decode, ReadCsr, WriteCsr, Isa.ModifiedCsr, Funct12, Rd, Rs1;
    CsrFields(w);
  }

  lemma RefineCsrSkip(s: Core, irq: nat -> bool, t: nat)
    requires Boundary(s) && Isa.Decode(s.d.memOut).CsrAccess? && CsrSkipsRd(s.d.memOut)
    ensures Refined(s, irq, t)
  {
    hide Run, BytesOf, Isa.Decode, Isa.Execute, Isa.Retire, Raised, Executing, WordAddr, Funct12, Rs1, Rs2, Rd,
         Immediate, AlgoData, ReadCsr, WriteCsr;
    var w, i, d := s.d.memOut, Isa.Decode(s.d.memOut), Decoded(s.d);
    CsrFields(w);
    RunCsrSkip(s, irq, t);
    RegistersRefine(s.d.regs, Rs1(w), 0);
    var a := BeforeExecute(s, irq, t);
    ExecuteCsr(a, w);
    RetireIs(s, irq, t, i, 3, CsrDone(a, w, d.rsa));
  }

  lemma CsrDoneWrites(a: Isa.Arch, w: Word, rsa: Word)
    requires Isa.Decode(w).CsrAccess? && !CsrSkipsRd(w)
    ensures var i := Isa.Decode(w);
      CsrDone(a, w, rsa)
        == a.(pc := Wrap(a.pc + 4), regs := Isa.SetReg(a.regs, Rd(w), ReadCsr(a.csrs, i.csr)),
              csrs := Rewritten(a.csrs, i.csr, i.form, if Funct3(w) < 4 then rsa else Rs1(w)))
  {
    hide Isa.Decode, Isa.SetReg, Rewritten, ReadCsr;
    CsrFields(w);
  }

  lemma CsrState(s: Core, irq: nat -> bool, t: nat)
    requires Boundary(s) && Isa.Decode(s.d.memOut).CsrAccess? && !CsrSkipsRd(s.d.memOut)
    ensures var p := Run(s, irq, t, 4);
      && In(p, PreFetch)
      && Abs(p) == AfterExecute(s, irq, t, 4, CsrDone(BeforeExecute(s, irq, t), s.d.memOut, Decoded(s.d).rsa))
  {
    hide Run, BytesOf, Isa.Decode, Raised, Executing, CsrDone, CsrSkipsRd, Funct3, Rs1, Rd, ReadCsr, Rewritten,
         RegsOf, Isa.SetReg, ReadReg, WriteReg, WordAddr;
    var w, i, d := s.d.memOut, Isa.Decode(s.d.memOut), Decoded(s.d);
    RunCsrRewrites(s, irq, t);
    CsrDoneWrites(BeforeExecute(s, irq, t), w, d.rsa);
    RegistersRefine(s.d.regs, Rd(w), ReadCsr(Executing(s, irq, t, 2, ITCSR).csrs, i.csr));
    RewriteAtomicAt(s, irq, t, i.csr, i.form, if Funct3(w) < 4 then d.rsa else Rs1(w));
  }

  lemma RefineCsr(s: Core, irq: nat -> bool, t: nat)
    requires Boundary(s) && Isa.Decode(s.d.memOut).CsrAccess? && !CsrSkipsRd(s.d.memOut)
    ensures Refined(s, irq, t)
  {
    hide Run, BytesOf, Isa.Decode, Isa.Execute, Isa.Retire, Executing, Rs1, CsrDone, Abs;
    var w, a := s.d.memOut, BeforeExecute(s, irq, t);
    CsrState(s, irq, t);
    BeforeExecuteReads(s, irq, t, Rs1(w));
    ExecuteCsr(a, w);
    CsrDoneWrites(a, w, Decoded(s.d).rsa);
    CsrLatency(w);
    RetireIs(s, irq, t, Isa.Decode(w), 4, CsrDone(a, w, Decoded(s.d).rsa));
  }

  lemma CsrLatency(w: Word)
    requires Isa.Decode(w).CsrAccess? && !CsrSkipsRd(w)
    ensures Isa.Latency(Isa.Decode(w)) == 5
  {
    hide Isa.Decode;
    CsrFields(w);
  }

  lemma BeforeExecuteReads(s: Core, irq: nat -> bool, t: nat, i: RegIndex)
    ensures BeforeExecute(s, irq, t).regs[i] == ReadReg(s.d.regs, i)
  {
  }

  /** RunCsr with the value written as the interpreter names it. */
  lemma RunCsrRewrites(s: Core, irq: nat -> bool, t: nat)
    requires Boundary(s) && Isa.Decode(s.d.memOut).CsrAccess? && !CsrSkipsRd(s.d.memOut)
    ensures
      var d, i := Decoded(s.d), Isa.Decode(s.d.memOut);
      var p := Run(s, irq, t, 4);
      var m2, m3 := Executing(s, irq, t, 2, ITCSR), Executing(s, irq, t, 3, ITCSRLd);
      var operand := if Funct3(d.ir) < 4 then d.rsa else Rs1(d.ir);
      && p.m == Executing(s, irq, t, 4, PreFetch).(
           csrs := Raised(Rewritten(m3.csrs, i.csr, i.form, operand), p.m.triggered, s.m.inProgress))
      && p.d.pc == d.pc && p.d.mem == d.mem
      && p.d.regs == WriteReg(d.regs, Rd(d.ir), ReadCsr(m2.csrs, i.csr))
  {
    hide Run, Isa.Decode, Raised, Executing, WordAddr, Rs1, Rs2, Rd, Immediate, AlgoData, ReadCsr, WriteCsr,
         Isa.ModifiedCsr;
    var w, i, d := s.d.memOut, Isa.Decode(s.d.memOut), Decoded(s.d);
    CsrFields(w);
    RunCsr(s, irq, t);
    CsrValueRefines(w, ReadCsr(Executing(s, irq, t, 3, ITCSRLd).csrs, i.csr), d.rsa);
  }

  lemma RewriteAtomicAt(s: Core, irq: nat -> bool, t: nat, addr: nat, form: Isa.CsrForm, v: Word)
    ensures var m2, m3 := Executing(s, irq, t, 2, ITCSR), Executing(s, irq, t, 3, ITCSRLd);
      var l := Executing(s, irq, t, 4, PreFetch).triggered;
      Raised(Rewritten(m3.csrs, addr, form, v), l, s.m.inProgress)
        == Raised(Rewritten(m2.csrs, addr, form, v), l, s.m.inProgress)
  {
    hide Rewritten, SetBit32;
    EdgeSplit(irq, t, 2);
    EdgeSplit(irq, t, 3);
    RewriteAtomic(s.m.csrs, Executing(s, irq, t, 2, ITCSR).triggered, Executing(s, irq, t, 3, ITCSRLd).triggered,
                  Executing(s, irq, t, 4, PreFetch).triggered, s.m.inProgress, addr, form, v);
  }

  // ---------------------------------------------------------------
  // mret
  // ---------------------------------------------------------------

  lemma ReturnRefines(mstatus: Word, mip: Word)
    ensures MstatusOnReturn(mstatus) == Isa.WithEnables(mstatus, Bit(mstatus, MSTATUS_MPIE), 0)
    ensures SetBit32(SetBit32(mip, MIP_MEIP, 1), MIP_MEIP, 0) == SetBit32(mip, MIP_MEIP, 0)
  {
    SetBitCommutes(mstatus, MSTATUS_MIE, Bit(mstatus, MSTATUS_MPIE), MSTATUS_MPIE, 0);
    SetBitTwice(mip, MIP_MEIP, 1, 0);
  }

  lemma MretWord(w: Word)
    requires Isa.Decode(w).Mret?
    ensures w == 0x3020_0073
  {
    hide Isa.ImmI, Isa.ImmS, Isa.ImmB, Isa.ImmU, Isa.ImmJ;
  }

  /** The interpreter's mret, in the core's terms. */
  lemma ExecuteMret(a: Isa.Arch)
    ensures Isa.Execute(a, Isa.Mret)
         == a.(pc := AlignDown(a.csrs.mepc),
               csrs := a.csrs.(mstatus := MstatusOnReturn(a.csrs.mstatus), mip := SetBit32(a.csrs.mip, MIP_MEIP, 0)),
               inHandler := false)
  {
    hide SetBit32, Bit;
    ReturnRefines(a.csrs.mstatus, 0);
  }

  lemma MretState(s: Core, irq: nat -> bool, t: nat)
    requires Boundary(s) && s.d.memOut == 0x3020_0073
    ensures var p := Run(s, irq, t, 4);
      && In(p, PreFetch)
      && Abs(p) == AfterExecute(s, irq, t, 4, Isa.Execute(BeforeExecute(s, irq, t), Isa.Mret))
  {
    hide Run, BytesOf, Isa.Execute, SetBit32, WordAddr, MstatusOnReturn, AlignDown, Bit;
    RunMret(s, irq, t);
    ReturnRefines(0, s.m.csrs.mip);
    ExecuteMret(BeforeExecute(s, irq, t));
  }

  lemma RefineMret(s: Core, irq: nat -> bool, t: nat)
    requires Boundary(s) && Isa.Decode(s.d.memOut).Mret?
    ensures Refined(s, irq, t)
  {
    hide Run, BytesOf, Isa.Decode, Isa.Execute, Isa.Retire, Executing, AlignDown, Raised, Abs;
    var a := BeforeExecute(s, irq, t);
    MretWord(s.d.memOut);
    MretState(s, irq, t);
    ExecuteMret(a);
    RetireIs(s, irq, t, Isa.Mret, 4, Isa.Execute(a, Isa.Mret));
  }

  // ---------------------------------------------------------------
  // Instruction boundaries
  // ---------------------------------------------------------------

  /** Every legal instruction. */
  lemma InstructionRefines(s: Core, irq: nat -> bool, t: nat)
    requires Boundary(s) && Isa.Decode(s.d.memOut) != Isa.Illegal
    ensures Refined(s, irq, t)
  {
    hide Isa.Decode, Refined, Boundary, CsrSkipsRd;
    match Isa.Decode(s.d.memOut)
    case Lui(_, _) | Auipc(_, _) => RefineUpper(s, irq, t);
    case Jal(_, _) | Jalr(_, _, _) => RefineJump(s, irq, t);
    case Branch(_, _, _, _) => RefineBranch(s, irq, t);
    case Load(_, _, _, _, _) => RefineLoad(s, irq, t);
    case Store(_, _, _, _) => RefineStore(s, irq, t);
    case OpImm(_, _, _, _) | Op(_, _, _, _) => RefineOp(s, irq, t);
    case CsrAccess(_, _, _, _) =>
      if CsrSkipsRd(s.d.memOut) { RefineCsrSkip(s, irq, t); } else { RefineCsr(s, irq, t); }
    case Mret => RefineMret(s, irq, t);
  }
}
