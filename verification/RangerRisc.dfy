/** The core: the controller wired to the datapath registers, the register file and the BRAM,
    all of which change on the same falling clock edge. */
module RangerRisc {
  import opened Bits
  import opened Encoding
  import opened ControlMatrix
  import opened Pmmu
  import Alu

  type Regs = r: seq<Word> | |r| == 32 witness seq(32, i => 0)

  datatype Datapath = Datapath(
    resetVector: Word,
    pc: Word, pcPrior: Word, ir: Word,
    aluOut: Word, flags: Alu.Flags,
    mdr: Word, rsa: Word, rsb: Word,
    regs: Regs,
    mem: Bank, memOut: Word)

  datatype Core = Core(m: Matrix, d: Datapath)

  /** A register-file read port. */
  function ReadReg(regs: Regs, i: RegIndex): Word {
    if i == 0 then 0 else regs[i]
  }

  function WriteReg(regs: Regs, i: RegIndex, v: Word): Regs {
    if i == 0 then regs else regs[i := v]
  }

  function AluY(op: nat, a: Word, b: Word): Word {
    Pow2Of32();
    Alu.Result(32, op, a, b)
  }

  function AluFlags(op: nat, a: Word, b: Word): Alu.Flags {
    Pow2Of32();
    Alu.Compute(32, op, a, b).flags
  }

  function AMux(d: Datapath, s: AMuxSrc): Word {
    match s
    case ASrcPC => d.pc
    case ASrcPrior => d.pcPrior
    case ASrcZero => 0
    case ASrcRsa => d.rsa
  }

  function BMux(d: Datapath, s: BMuxSrc): Word {
    match s
    case BSrcRsb => d.rsb
    case BSrcFour => 4
    case BSrcImm => Immediate(d.ir)
    case BSrcZero => 0
  }

  /** Every datapath register after one falling clock edge under the given control signals. */
  function ClockedDatapath(d: Datapath, s: Signals): Datapath {
    var a := AMux(d, s.aSrc);
    var b := BMux(d, s.bSrc);
    var y := AluY(s.aluOp, a, b);
    var addr := if s.addrSrc then d.aluOut else d.pc;
    var funct3 := if s.rstSrc then 2 else Funct3(d.ir);
    var pmmuOut := ReadOut(funct3, addr, d.memOut, s.memRd);
    var pcIn := match s.pcSrc
                case PCSrcAluImm => y
                case PCSrcAluOut => d.aluOut
                case PCSrcResetVec => d.resetVector
                case PCSrcRDCSR => s.rdData
                case PCSrcResetAdr => pmmuOut;
    var wd := match s.wdSrc
              case WDSrcImm => y
              case WDSrcALUOut => d.aluOut
              case WDSrcMDR => d.mdr
              case WDSrcCSR => s.rdData;
    Datapath(
      d.resetVector,
      if s.pcLd then pcIn else d.pc,
      if s.pcpLd then d.pc else d.pcPrior,
      if s.irLd then pmmuOut else d.ir,
      if s.aluLd then y else d.aluOut,
      if s.flagsLd then AluFlags(s.aluOp, a, b) else d.flags,
      if s.mdrLd then pmmuOut else d.mdr,
      if s.rsaLd then ReadReg(d.regs, Rs1(d.ir)) else d.rsa,
      ReadReg(d.regs, Rs2(d.ir)),
      if s.rgWr then WriteReg(d.regs, Rd(d.ir), wd) else d.regs,
      if s.memWr then d.mem[WordAddr(addr) := MergeIn(funct3, addr, d.memOut, d.rsb)] else d.mem,
      if s.memRd then d.mem[WordAddr(addr)] else d.memOut)
  }

  /** One clock of the core.  The memory is never busy. */
  function Clock(s: Core, resetHigh: bool, irqEdge: bool): Core {
    var c := Outputs(s.m, resetHigh, false, s.d.ir, s.d.flags, s.d.rsa, s.d.pc);
    Core(Clocked(s.m, c, resetHigh, irqEdge), ClockedDatapath(s.d, c.out))
  }

  /** `n` clocks from time `t` with reset released, under the interrupt edges `irq`. */
  function Run(s: Core, irq: nat -> bool, t: nat, n: nat): Core
    decreases n
  {
    if n == 0 then s else Run(Clock(s, true, irq(t)), irq, t + 1, n - 1)
  }

  lemma {:induction false} RunCompose(s: Core, irq: nat -> bool, t: nat, m: nat, n: nat)
    ensures Run(s, irq, t, m + n) == Run(Run(s, irq, t, m), irq, t + m, n)
    decreases m
  {
    hide Clock;
    if m == 0 {
    } else {
      RunCompose(Clock(s, true, irq(t)), irq, t + 1, m - 1, n);
    }
  }
}
