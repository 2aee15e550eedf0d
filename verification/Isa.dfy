/** An RV32I interpreter with machine-mode CSRs and one external interrupt: the RISC-V
    Instruction Set Manual, Volume I, sections 2.2 to 2.6 and 9.1, in the dialect of this core.
    The dialect's departures from the standard are marked "Dialect". */
module Isa {
  import opened Bits
  import opened Csr

  const MEM_BYTES := 0x1000

  type Memory = m: seq<Byte> | |m| == MEM_BYTES witness seq(MEM_BYTES, i => 0)

  type RegIndex = x: int | 0 <= x < 32

  type Registers = r: seq<Word> | |r| == 32 && r[0] == 0 witness seq(32, i => 0)

  datatype AluKind = Add | Sub | Sll | Slt | Sltu | Xor | Srl | Sra | Or | And

  datatype Cond = Eq | Ne | Lt | Ge | Ltu | Geu

  datatype CsrForm = Swap | SetBits | ClearBits

  datatype CsrOperand = Register(rs1: RegIndex) | Zimm(z: RegIndex)

  datatype Instr =
    | Lui(rd: RegIndex, imm: int)
    | Auipc(rd: RegIndex, imm: int)
    | Jal(rd: RegIndex, imm: int)
    | Jalr(rd: RegIndex, rs1: RegIndex, imm: int)
    | Branch(cond: Cond, rs1: RegIndex, rs2: RegIndex, imm: int)
    | Load(size: nat, unsigned: bool, rd: RegIndex, rs1: RegIndex, imm: int)
    | Store(size: nat, rs1: RegIndex, rs2: RegIndex, imm: int)
    | OpImm(kind: AluKind, rd: RegIndex, rs1: RegIndex, imm: int)
    | Op(kind: AluKind, rd: RegIndex, rs1: RegIndex, rs2: RegIndex)
    | CsrAccess(form: CsrForm, rd: RegIndex, operand: CsrOperand, csr: nat)
    | Mret
    | Illegal

  // ---------------------------------------------------------------
  // Decoding
  // ---------------------------------------------------------------

  function SignExtend(x: nat, half: nat): int {
    if x < half then x else x - 2 * half
  }

  function ImmI(w: Word): int { SignExtend(w / 0x10_0000, 0x800) }

  function ImmS(w: Word): int { SignExtend(w / 0x200_0000 * 32 + w / 0x80 % 32, 0x800) }

  function ImmB(w: Word): int {
    SignExtend(w / 0x8000_0000 * 0x1000 + w / 0x80 % 2 * 0x800 + w / 0x200_0000 % 64 * 32 + w / 0x100 % 16 * 2, 0x1000)
  }

  function ImmU(w: Word): int { w / 0x1000 * 0x1000 }

  function ImmJ(w: Word): int {
    SignExtend(w / 0x8000_0000 * 0x10_0000 + w / 0x1000 % 256 * 0x1000 + w / 0x10_0000 % 2 * 0x800
               + w / 0x20_0000 % 1024 * 2, 0x10_0000)
  }

  function DecodeAlu(funct3: nat, alternate: bool): AluKind {
    if funct3 == 0 then (if alternate then Sub else Add)
    else if funct3 == 1 then Sll
    else if funct3 == 2 then Slt
    else if funct3 == 3 then Sltu
    else if funct3 == 4 then Xor
    else if funct3 == 5 then (if alternate then Sra else Srl)
    else if funct3 == 6 then Or
    else And
  }

  function Decode(w: Word): Instr {
    var opcode := w % 0x80;
    var rd := w / 0x80 % 32;
    var funct3 := w / 0x1000 % 8;
    var rs1 := w / 0x8000 % 32;
    var rs2 := w / 0x10_0000 % 32;
    var funct7 := w / 0x200_0000;
    match opcode
    case 0x37 => Lui(rd, ImmU(w))
    case 0x17 => Auipc(rd, ImmU(w))
    case 0x6F => Jal(rd, ImmJ(w))
    case 0x67 => if funct3 == 0 then Jalr(rd, rs1, ImmI(w)) else Illegal
    case 0x63 =>
      (match funct3
       case 0 => Branch(Eq, rs1, rs2, ImmB(w))
       case 1 => Branch(Ne, rs1, rs2, ImmB(w))
       case 4 => Branch(Lt, rs1, rs2, ImmB(w))
       case 5 => Branch(Ge, rs1, rs2, ImmB(w))
       case 6 => Branch(Ltu, rs1, rs2, ImmB(w))
       case 7 => Branch(Geu, rs1, rs2, ImmB(w))
       case _ => Illegal)
    case 0x03 =>
      (match funct3
       case 0 => Load(1, false, rd, rs1, ImmI(w))
       case 1 => Load(2, false, rd, rs1, ImmI(w))
       case 2 => Load(4, false, rd, rs1, ImmI(w))
       case 4 => Load(1, true, rd, rs1, ImmI(w))
       case 5 => Load(2, true, rd, rs1, ImmI(w))
       case _ => Illegal)
    case 0x23 =>
      (match funct3
       case 0 => Store(1, rs1, rs2, ImmS(w))
       case 1 => Store(2, rs1, rs2, ImmS(w))
       case 2 => Store(4, rs1, rs2, ImmS(w))
       case _ => Illegal)
    case 0x13 =>
      if funct3 == 1 then
        if funct7 == 0 then OpImm(Sll, rd, rs1, rs2) else Illegal
      else if funct3 == 5 then
        if funct7 == 0 then OpImm(Srl, rd, rs1, rs2)
        else if funct7 == 0x20 then OpImm(Sra, rd, rs1, rs2) else Illegal
      else OpImm(DecodeAlu(funct3, false), rd, rs1, ImmI(w))
    case 0x33 =>
      if funct7 == 0 then Op(DecodeAlu(funct3, false), rd, rs1, rs2)
      else if funct7 == 0x20 && (funct3 == 0 || funct3 == 5) then Op(DecodeAlu(funct3, true), rd, rs1, rs2)
      else Illegal
    case 0x73 =>
      (match funct3
       case 1 => CsrAccess(Swap, rd, Register(rs1), w / 0x10_0000)
       case 2 => CsrAccess(SetBits, rd, Register(rs1), w / 0x10_0000)
       case 3 => CsrAccess(ClearBits, rd, Register(rs1), w / 0x10_0000)
       case 5 => CsrAccess(Swap, rd, Zimm(rs1), w / 0x10_0000)
       case 6 => CsrAccess(SetBits, rd, Zimm(rs1), w / 0x10_0000)
       case 7 => CsrAccess(ClearBits, rd, Zimm(rs1), w / 0x10_0000)
       case _ => if w == 0x3020_0073 then Mret else Illegal)
    case _ => Illegal
  }

  // ---------------------------------------------------------------
  // Memory: a flat little-endian byte array
  // ---------------------------------------------------------------

  function LoadBytes(m: Memory, addr: nat, n: nat): nat
    requires addr + n <= MEM_BYTES
    decreases n
  {
    if n == 0 then 0 else m[addr] + 0x100 * LoadBytes(m, addr + 1, n - 1)
  }

  function StoreBytes(m: Memory, addr: nat, n: nat, v: nat): Memory
    requires addr + n <= MEM_BYTES
    decreases n
  {
    if n == 0 then m else StoreBytes(m[addr := v % 0x100], addr + 1, n - 1, v / 0x100)
  }

  /** Dialect: an access is aligned down to its size, and addresses wrap at 4 KiB. */
  function Effective(addr: Word, size: nat): (e: nat)
    ensures e < MEM_BYTES && (size in {1, 2, 4} ==> e + size <= MEM_BYTES)
  {
    if size in {1, 2, 4} then (addr - addr % size) % MEM_BYTES else 0
  }

  /** The register value of `size` bytes read. */
  function Extended(v: nat, size: nat, unsigned: bool): Word {
    Wrap(if unsigned || size == 4 then v else if size == 1 then SignExtend(v, 0x80) else SignExtend(v, 0x8000))
  }

  function LoadValue(m: Memory, addr: Word, size: nat, unsigned: bool): Word {
    var n := if size in {1, 2} then size else 4;
    Extended(LoadBytes(m, Effective(addr, n), n), n, unsigned)
  }

  function StoreValue(m: Memory, addr: Word, size: nat, v: Word): Memory {
    if size in {1, 2, 4} then StoreBytes(m, Effective(addr, size), size, v) else m
  }

  // ---------------------------------------------------------------
  // Execution
  // ---------------------------------------------------------------

  /** The architectural state.  `inHandler` is set from trap entry to mret; `latched` says that
      an interrupt edge has arrived since the last trap entry. */
  datatype Arch = Arch(pc: Word, regs: Registers, mem: Memory, csrs: Csrs, inHandler: bool, latched: bool)

  function SetReg(r: Registers, i: RegIndex, v: Word): Registers {
    if i == 0 then r else r[i := v]
  }

  /** Dialect: a shift uses the whole second operand.  Up to 32 the right arithmetic shift is
      floor division; beyond that the 64-bit sign extension runs out and zeros enter. */
  function Compute(k: AluKind, a: Word, b: Word): Word {
    match k
    case Add => Wrap(a + b)
    case Sub => Wrap(a - b)
    case Sll => Wrap(a * Pow2(b))
    case Slt => if Signed32(a) < Signed32(b) then 1 else 0
    case Sltu => if a < b then 1 else 0
    case Xor => Wrap(Bits.Xor(a, b))
    case Srl => Wrap(a / Pow2(b))
    case Sra =>
      if b <= 32 then Wrap(Signed32(a) / Pow2(b))
      else Wrap((if a < 0x8000_0000 then a else 0xFFFF_FFFF_0000_0000 + a) / Pow2(b))
    case Or => Wrap(Bits.Or(a, b))
    case And => Wrap(Bits.And(a, b))
  }

  predicate Holds(c: Cond, a: Word, b: Word) {
    match c
    case Eq => a == b
    case Ne => a != b
    case Lt => Signed32(a) < Signed32(b)
    case Ge => Signed32(a) >= Signed32(b)
    case Ltu => a < b
    case Geu => a >= b
  }

  function ModifiedCsr(form: CsrForm, current: Word, operand: Word): Word {
    match form
    case Swap => operand
    case SetBits => Or32(operand, current)
    case ClearBits => And32(Not32(operand), current)
  }

  /** One CSR instruction: rd receives the old value, the CSR the modified one.
      Dialect: csrrs and csrrc with rs1 = x0 do nothing at all. */
  function ExecCsr(a: Arch, form: CsrForm, rd: RegIndex, operand: CsrOperand, csr: nat): Arch {
    var next := a.(pc := Wrap(a.pc + 4));
    if operand == Register(0) && form != Swap then next
    else
      var v := match operand case Register(r) => a.regs[r] case Zimm(z) => z;
      var current := ReadCsr(a.csrs, csr);
      next.(regs := SetReg(a.regs, rd, current), csrs := WriteCsr(a.csrs, csr, ModifiedCsr(form, current, v)))
  }

  /** mstatus with the two interrupt-enable bits replaced. */
  function WithEnables(mstatus: Word, mie: Bit01, mpie: Bit01): Word {
    SetBit32(SetBit32(mstatus, MSTATUS_MPIE, mpie), MSTATUS_MIE, mie)
  }

  /** Dialect: mret clears MPIE, drops the pending bit and resumes at mepc aligned down. */
  function ExecMret(a: Arch): Arch {
    var mpie := Bit(a.csrs.mstatus, MSTATUS_MPIE);
    a.(pc := a.csrs.mepc - a.csrs.mepc % 4,
       csrs := a.csrs.(mstatus := WithEnables(a.csrs.mstatus, mpie, 0),
                       mip := SetBit32(a.csrs.mip, MIP_MEIP, 0)),
       inHandler := false)
  }

  /** The instruction at pc.  Dialect: the two low bits of pc are ignored. */
  function Fetched(a: Arch): Word {
    LoadValue(a.mem, a.pc, 4, true)
  }

  function Execute(a: Arch, i: Instr): Arch {
    var next := a.(pc := Wrap(a.pc + 4));
    match i
    case Lui(rd, imm) => next.(regs := SetReg(a.regs, rd, Wrap(imm)))
    case Auipc(rd, imm) => next.(regs := SetReg(a.regs, rd, Wrap(a.pc + imm)))
    case Jal(rd, imm) => a.(pc := Wrap(a.pc + imm), regs := SetReg(a.regs, rd, Wrap(a.pc + 4)))
    case Jalr(rd, rs1, imm) =>    // Dialect: bit 0 of the target is kept
      a.(pc := Wrap(a.regs[rs1] + imm), regs := SetReg(a.regs, rd, Wrap(a.pc + 4)))
    case Branch(cond, rs1, rs2, imm) =>
      if Holds(cond, a.regs[rs1], a.regs[rs2]) then a.(pc := Wrap(a.pc + imm)) else next
    case Load(size, unsigned, rd, rs1, imm) =>
      next.(regs := SetReg(a.regs, rd, LoadValue(a.mem, Wrap(a.regs[rs1] + imm), size, unsigned)))
    case Store(size, rs1, rs2, imm) =>
      next.(mem := StoreValue(a.mem, Wrap(a.regs[rs1] + imm), size, a.regs[rs2]))
    case OpImm(kind, rd, rs1, imm) =>
      next.(regs := SetReg(a.regs, rd, Compute(kind, a.regs[rs1], Wrap(imm))))
    case Op(kind, rd, rs1, rs2) =>
      next.(regs := SetReg(a.regs, rd, Compute(kind, a.regs[rs1], a.regs[rs2])))
    case CsrAccess(form, rd, operand, csr) => ExecCsr(a, form, rd, operand, csr)
    case Mret => ExecMret(a)
    case Illegal => a
  }

  // ---------------------------------------------------------------
  // Interrupts
  // ---------------------------------------------------------------

  predicate Pending(c: Csrs) {
    Bit(c.mstatus, MSTATUS_MIE) == 1 && Bit(c.mie, MIE_MEIE) == 1 && Bit(c.mip, MIP_MEIP) == 1
  }

  /** The interrupt line during part of an instruction: an edge is latched, and the latch raises
      mip.MEIP unless `masked`. */
  function Arrive(a: Arch, edge: bool, masked: bool): Arch {
    var l := a.latched || edge;
    a.(latched := l,
       csrs := if l && !masked then a.csrs.(mip := SetBit32(a.csrs.mip, MIP_MEIP, 1)) else a.csrs)
  }

  /** Trap entry; `edge` is an interrupt edge arriving once the latch is open again. */
  function EnterTrap(a: Arch, edge: bool): Arch {
    a.(pc := a.csrs.mtvec,
       csrs := a.csrs.(mepc := a.pc,
                       mstatus := WithEnables(a.csrs.mstatus, 0, Bit(a.csrs.mstatus, MSTATUS_MIE))),
       inHandler := true,
       latched := edge)
  }

  // ---------------------------------------------------------------
  // Time
  // ---------------------------------------------------------------

  /** Clocks from the fetch of `i` to the interrupt check that retires it. */
  function Latency(i: Instr): (n: nat)
    ensures 4 <= n <= 7
  {
    match i
    case Lui(_, _) => 4
    case Auipc(_, _) => 4
    case Jal(rd, _) => if rd == 0 then 4 else 5
    case Jalr(rd, _, _) => if rd == 0 then 4 else 5
    case Branch(_, _, _, _) => 5
    case Load(_, _, _, _, _) => 7
    case Store(size, _, _, _) => if size == 4 then 5 else 6
    case OpImm(_, rd, _, _) => if rd == 0 then 4 else 5
    case Op(_, rd, _, _) => if rd == 0 then 4 else 5
    case CsrAccess(form, rd, operand, _) =>
      if form == Swap && rd == 0 && operand.Register? then 4
      else if form != Swap && operand == Register(0) then 4 else 5
    case Mret => 5
    case Illegal => 4
  }

  /** Does an interrupt edge arrive in clocks [from, to)? */
  predicate AnyEdge(irq: nat -> bool, from: nat, to: nat) {
    exists k :: from <= k < to && irq(k)
  }

  /** One instruction that starts at clock `t`, up to the decision whether to trap. */
  function Retire(a: Arch, irq: nat -> bool, t: nat): Arch {
    var i := Decode(Fetched(a));
    var before := Arrive(a, irq(t) || irq(t + 1), a.inHandler);
    Arrive(Execute(before, i), AnyEdge(irq, t + 2, t + Latency(i) - 1), a.inHandler)
  }

  predicate Traps(a: Arch) {
    Pending(a.csrs) && !a.inHandler
  }

  /** One instruction with the trap that may follow it, and the clocks both take. */
  function TimedStep(a: Arch, irq: nat -> bool, t: nat): (r: (Arch, nat))
  {
    var n := Latency(Decode(Fetched(a)));
    var done := Retire(a, irq, t);
    if Traps(done) then (EnterTrap(done, irq(t + n + 2)), n + 3)
    else (Arrive(done, irq(t + n - 1), done.inHandler), n)
  }

  /** `n` instructions (trap entries included) from clock `t`: the state and the clock reached. */
  function TimedRun(a: Arch, irq: nat -> bool, t: nat, n: nat): (r: (Arch, nat))
    ensures t <= r.1
    decreases n
  {
    if n == 0 then (a, t)
    else
      var (b, clocks) := TimedStep(a, irq, t);
      TimedRun(b, irq, t + clocks, n - 1)
  }

  predicate Legal(a: Arch) {
    Decode(Fetched(a)) != Illegal
  }

  /** Every instruction of the run is one the core implements. */
  ghost predicate LegalRun(a: Arch, irq: nat -> bool, t: nat, n: nat)
    decreases n
  {
    n > 0 ==>
      && Legal(a)
      && var (b, clocks) := TimedStep(a, irq, t);
         LegalRun(b, irq, t + clocks, n - 1)
  }
}
