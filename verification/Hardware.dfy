/** The core as clocked objects: every method is one falling clock edge, and its contract is the
    step of the corresponding value model. */
module Hardware {
  import opened Bits
  import opened Encoding
  import opened Csr
  import opened ControlMatrix
  import opened Pmmu
  import Alu
  import RR = RangerRisc

  /** The BRAM: separate write and read enables; a read in a writing clock sees the old word. */
  class Memory {
    const mem: array<Word>
    var dataOut: Word

    predicate Valid()
      reads this
    {
      mem.Length == WORDS
    }

    /** Power-up contents are arbitrary. */
    constructor (contents: array<Word>, output: Word)
      requires contents.Length == WORDS
      ensures Valid() && mem == contents && dataOut == output
    {
      mem, dataOut := contents, output;
    }

    method Clock(data: Word, addr: nat, wr: bool, rd: bool)
      requires Valid() && addr < WORDS
      modifies this, mem
      ensures Valid()
      ensures mem[..] == if wr then old(mem[..])[addr := data] else old(mem[..])
      ensures dataOut == if rd then old(mem[addr]) else old(dataOut)
    {
      if rd {
        dataOut := mem[addr];
      }
      if wr {
        mem[addr] := data;
      }
    }
  }

  class RegisterFile {
    const bank: array<Word>

    predicate Valid()
      reads this
    {
      bank.Length == 32
    }

    constructor (contents: array<Word>)
      requires contents.Length == 32
      ensures Valid() && bank == contents
    {
      bank := contents;
    }

    /** A read port. */
    function Source(i: RegIndex): (v: Word)
      requires Valid()
      reads this, bank
      ensures v == RR.ReadReg(bank[..], i)
    {
      if i == 0 then 0 else bank[i]
    }

    method Clock(we: bool, dst: RegIndex, data: Word)
      requires Valid()
      modifies bank
      ensures Valid()
      ensures bank[..] == if we then RR.WriteReg(old(bank[..]), dst, data) else old(bank[..])
    {
      if we && dst != 0 {
        bank[dst] := data;
      }
    }
  }

  /** The controller's registers and its two clocked blocks. */
  class ControlUnit {
    var state: MatrixState
    var vectorState: ResetState
    var irState: InstructionState
    var mstatus: Word
    var mie: Word
    var mip: Word
    var mepc: Word
    var mtvec: Word
    var interruptInProgress: bool
    var irqResetTrigger: bool
    var irqTriggered: bool

    function Registers(): Csrs
      reads this`mstatus, this`mie, this`mip, this`mepc, this`mtvec
    {
      Csrs(mstatus, mie, mip, mepc, mtvec)
    }

    function View(): Matrix
      reads this
    {
      Matrix(state, vectorState, irState, Registers(), interruptInProgress, irqResetTrigger, irqTriggered)
    }

    /** Power-up: the CSRs hold anything. */
    constructor (c: Csrs, inProgress: bool)
      ensures View() == Matrix(Reset, Sync0, ITLoad, c, inProgress, false, false)
    {
      state, vectorState, irState := Reset, Sync0, ITLoad;
      mstatus, mie, mip, mepc, mtvec := c.mstatus, c.mie, c.mip, c.mepc, c.mtvec;
      interruptInProgress, irqResetTrigger, irqTriggered := inProgress, false, false;
    }

    method WriteCsrs(write: bool, addr: nat, data: Word)
      modifies this`mstatus, this`mie, this`mip, this`mepc, this`mtvec
      ensures Registers() == if write then WriteCsr(old(Registers()), addr, data) else old(Registers())
    {
      if write {
        if addr == MSTATUS {
          mstatus := data;
        } else if addr == MIE {
          mie := data;
        } else if addr == MTVEC {
          mtvec := data;
        } else if addr == MIP {
          mip := data;
        } else if addr == MEPC {
          mepc := data;
        }
      }
    }

    method NextState(c: Control, resetHigh: bool)
      modifies this`state, this`vectorState, this`irState
      ensures state == if !resetHigh || !c.resetComplete then Reset else c.nextState
      ensures vectorState == if !resetHigh then Sync0 else if c.resetComplete then old(vectorState) else c.nextVector
      ensures irState == if resetHigh && c.resetComplete then c.nextIr else old(irState)
    {
      if !resetHigh {
        state := Reset;
        vectorState := Sync0;
      } else {
        if c.resetComplete {
          state := c.nextState;
          irState := c.nextIr;
        } else {
          state := Reset;
          vectorState := c.nextVector;
        }
      }
    }

    /** The case statement of the clocked block, on the state before the edge. */
    method TrackInterrupt(wasState: MatrixState, wasIr: InstructionState, irqPending: bool)
      modifies this`interruptInProgress, this`irqResetTrigger
      ensures interruptInProgress ==
              if wasState == Reset then false
              else if wasState == Execute && wasIr == PreFetch && irqPending && !old(interruptInProgress) then true
              else if wasState == Execute && wasIr == ITMretClr then false
              else old(interruptInProgress)
      ensures irqResetTrigger ==
              if wasState == Execute && wasIr == IRQ0 then true
              else if wasState == Execute && wasIr == IRQ1 then false
              else old(irqResetTrigger)
    {
      if wasState == Reset {
        interruptInProgress := false;
      } else if wasState == Execute {
        match wasIr {
          case PreFetch =>
            if irqPending && !interruptInProgress {
              interruptInProgress := true;
            }
          case IRQ0 => irqResetTrigger := true;
          case IRQ1 => irqResetTrigger := false;
          case ITMretClr => interruptInProgress := false;
          case _ =>
        }
      }
    }

    /** The CSR writes of the clocked block, last assignment first in rank: an instruction's write,
        the clear by mret, a latched interrupt. */
    method ClockCsrs(c: Control, wasState: MatrixState, wasIr: InstructionState, wasInProgress: bool)
      modifies this`mstatus, this`mie, this`mip, this`mepc, this`mtvec
      ensures Registers() == AssignedCsrs(old(Registers()), c, wasState == Execute && wasIr == ITMretClr,
                                      irqTriggered && !wasInProgress)
    {
      hide WriteCsr, SetBit32;
      WriteCsrs(c.writeCsr, c.csrAddr, c.csrData);
      if wasState == Execute && wasIr == ITMretClr {
        mip := SetBit32(mip, MIP_MEIP, 0);
      }
      if irqTriggered && !wasInProgress {
        mip := SetBit32(mip, MIP_MEIP, 1);
      }
    }

    /** One falling clock edge, with the irq edge that may have come since the last one.  The irq
        domain captures that edge first, and clears its latch as irq_reset_trigger rises. */
    method Clock(c: Control, resetHigh: bool, irqEdge: bool)
      modifies this
      ensures View() == Clocked(old(View()), c, resetHigh, irqEdge)
    {
      ghost var m := View();
      ghost var n := Clocked(m, c, resetHigh, irqEdge);
      ClockedParts(m, c, resetHigh, irqEdge);
      hide Clocked, ClockedCsrs, AssignedCsrs, WriteCsr, SetBit32;
      if irqEdge {
        irqTriggered := !irqResetTrigger;
      }
      var wasState, wasIr, wasInProgress, wasTrigger := state, irState, interruptInProgress, irqResetTrigger;
      NextState(c, resetHigh);
      ClockCsrs(c, wasState, wasIr, wasInProgress);
      TrackInterrupt(wasState, wasIr, c.irqPending);
      if irqResetTrigger && !wasTrigger {
        irqTriggered := false;
      }
    }
  }

  /** The step of the value model, register by register. */
  lemma ClockedParts(m: Matrix, c: Control, resetHigh: bool, irqEdge: bool)
    ensures var n := Clocked(m, c, resetHigh, irqEdge);
      var latched := Latched(m, irqEdge);
      var executing := m.state == Execute;
      && n.state == (if !resetHigh || !c.resetComplete then Reset else c.nextState)
      && n.vectorState == (if !resetHigh then Sync0 else if c.resetComplete then m.vectorState else c.nextVector)
      && n.irState == (if resetHigh && c.resetComplete then c.nextIr else m.irState)
      && n.csrs == AssignedCsrs(m.csrs, c, executing && m.irState == ITMretClr, latched && !m.inProgress)
      && n.inProgress == (if m.state == Reset then false
                          else if executing && m.irState == PreFetch && c.irqPending && !m.inProgress then true
                          else if executing && m.irState == ITMretClr then false else m.inProgress)
      && n.resetTrigger == (if executing && m.irState == IRQ0 then true
                            else if executing && m.irState == IRQ1 then false else m.resetTrigger)
      && n.triggered == (latched && !(n.resetTrigger && !m.resetTrigger))
  {
    hide WriteCsr, SetBit32;
  }

  /** The core as wired: controller, datapath registers, register file and BRAM. */
  class Core {
    const matrix: ControlUnit
    const regFile: RegisterFile
    const bram: Memory
    const resetVector: Word
    var pc: Word
    var pcPrior: Word
    var ir: Word
    var aluOut: Word
    var flags: Alu.Flags
    var mdr: Word
    var rsa: Word
    var rsb: Word

    predicate Valid()
      reads this, regFile, bram
    {
      regFile.Valid() && bram.Valid()
    }

    function Registers(): RR.Datapath
      requires Valid()
      reads this, regFile, regFile.bank, bram, bram.mem
    {
      RR.Datapath(resetVector, pc, pcPrior, ir, aluOut, flags, mdr, rsa, rsb,
                  regFile.bank[..], bram.mem[..], bram.dataOut)
    }

    function View(): RR.Core
      requires Valid()
      reads this, matrix, regFile, regFile.bank, bram, bram.mem
    {
      RR.Core(matrix.View(), Registers())
    }

    constructor (m: ControlUnit, r: RegisterFile, b: Memory, d: RR.Datapath)
      requires r.Valid() && b.Valid() && d.regs == r.bank[..] && d.mem == b.mem[..] && d.memOut == b.dataOut
      ensures Valid() && View() == RR.Core(m.View(), d)
    {
      matrix, regFile, bram := m, r, b;
      resetVector, pc, pcPrior, ir := d.resetVector, d.pc, d.pcPrior, d.ir;
      aluOut, flags, mdr, rsa, rsb := d.aluOut, d.flags, d.mdr, d.rsa, d.rsb;
    }

    /** The load enables of the datapath registers; RsB always loads. */
    method LoadRegisters(s: Signals, pcMuxOut: Word, pmmuOut: Word, aluImmOut: Word, aluFlagsOut: Alu.Flags,
                         rs1Out: Word, rs2Out: Word)
      modifies this
      ensures pc == (if s.pcLd then pcMuxOut else old(pc)) && pcPrior == (if s.pcpLd then old(pc) else old(pcPrior))
      ensures ir == (if s.irLd then pmmuOut else old(ir)) && aluOut == (if s.aluLd then aluImmOut else old(aluOut))
      ensures flags == (if s.flagsLd then aluFlagsOut else old(flags)) && mdr == (if s.mdrLd then pmmuOut else old(mdr))
      ensures rsa == (if s.rsaLd then rs1Out else old(rsa)) && rsb == rs2Out
    {
      rsa := if s.rsaLd then rs1Out else rsa;
      rsb := rs2Out;
      mdr := if s.mdrLd then pmmuOut else mdr;
      aluOut := if s.aluLd then aluImmOut else aluOut;
      flags := if s.flagsLd then aluFlagsOut else flags;
      ir := if s.irLd then pmmuOut else ir;
      pcPrior := if s.pcpLd then pc else pcPrior;
      pc := if s.pcLd then pcMuxOut else pc;
    }

    function PcMux(s: Signals, aluImmOut: Word, pmmuOut: Word): Word
      reads this
    {
      match s.pcSrc
      case PCSrcAluImm => aluImmOut
      case PCSrcAluOut => aluOut
      case PCSrcResetVec => resetVector
      case PCSrcRDCSR => s.rdData
      case PCSrcResetAdr => pmmuOut
    }

    function WdMux(s: Signals, aluImmOut: Word): Word
      reads this
    {
      match s.wdSrc
      case WDSrcImm => aluImmOut
      case WDSrcALUOut => aluOut
      case WDSrcMDR => mdr
      case WDSrcCSR => s.rdData
    }

    /** The datapath under the control signals, every mux read before the edge. */
    method ClockRegisters(s: Signals)
      requires Valid()
      modifies this, regFile.bank, bram, bram.mem
      ensures Valid() && Registers() == RR.ClockedDatapath(old(Registers()), s)
    {
      hide RR.AluY, RR.AluFlags, Immediate, ReadOut, MergeIn, WordAddr, RR.ReadReg, RR.WriteReg, RR.AMux, RR.BMux;
      ghost var d := Registers();
      var aMuxOut, bMuxOut := RR.AMux(Registers(), s.aSrc), RR.BMux(Registers(), s.bSrc);
      var aluImmOut, aluFlagsOut := RR.AluY(s.aluOp, aMuxOut, bMuxOut), RR.AluFlags(s.aluOp, aMuxOut, bMuxOut);
      var addrMux := if s.addrSrc then aluOut else pc;
      var funct3 := if s.rstSrc then 2 else Funct3(ir);
      var pmmuOut := ReadOut(funct3, addrMux, bram.dataOut, s.memRd);
      var storeData := MergeIn(funct3, addrMux, bram.dataOut, rsb);
      var rs1Out, rs2Out := regFile.Source(Rs1(ir)), regFile.Source(Rs2(ir));
      regFile.Clock(s.rgWr, Rd(ir), WdMux(s, aluImmOut));
      assert bram.mem[..] == d.mem;
      bram.Clock(storeData, WordAddr(addrMux), s.memWr, s.memRd);
      LoadRegisters(s, PcMux(s, aluImmOut, pmmuOut), pmmuOut, aluImmOut, aluFlagsOut, rs1Out, rs2Out);
    }

    /** One clock of the core. */
    method Clock(resetHigh: bool, irqEdge: bool)
      requires Valid()
      modifies this, matrix, regFile.bank, bram, bram.mem
      ensures Valid() && View() == RR.Clock(old(View()), resetHigh, irqEdge)
    {
      hide Outputs, Clocked, RR.ClockedDatapath;
      var c := Outputs(matrix.View(), resetHigh, false, ir, flags, rsa, pc);
      matrix.Clock(c, resetHigh, irqEdge);
      ClockRegisters(c.out);
    }
  }
}
