# Ranger RISC: a verified model

This project models the RV32I soft core of the repository, its UART and SPI peripherals and its
assembler, and proves what each of them is for. A hardware description is modelled clock by clock:
one step is one active clock edge, at which every register takes the value its process assigns from
the values before the edge. Combinational logic is a function; clocked processes are methods of a
class whose fields are the flip-flops, and each method's contract ties the new registers to a step
function of the old ones. The theorems are about those step functions, so they hold of the objects.

What is proved, in one sentence each:

* **The core runs programs.** Five clocks after reset the core stands at an instruction boundary,
  and from any boundary, for any program (self-modifying ones included), any number of instructions
  and any interrupt edges at any clocks, it reaches the state of an RV32I interpreter with
  machine-mode CSRs, on the interpreter's own count of clocks.
* **It stops where it should.** At ebreak and ecall the core stays in Execute for good with everything
  as it was; after every other word it fetches again within ten clocks.
* **Interrupts are precise and do not nest.** A trap saves exactly the interpreter's next pc, `mret`
  resumes there, between two trap entries of any run there is the end of an `mret` or a reset and, after an
  `mret`, a retired instruction, and a trap loses the edges of exactly three clocks.
* **The refactored controller is the same machine.** Clock for clock, the microcode controller drives
  the datapath as the original does for every program without SYSTEM instructions.
* **The UART delivers.** Whatever is driven into the transmitter, the receiver wired to it reports
  those bytes, in order, once each; it tolerates exactly the bit periods of 207 to 232 clocks; and
  the demonstration top answers every accepted byte with exactly four frames.
* **The SPI master delivers.** In every mode and at every clock rate each byte takes 16 clock edges
  and is exchanged with any slave bit by bit at the edges of the mode; the master asks for every byte
  of a burst, and chip select frames exactly those and rises a fixed time after the last.
* **The assembler and the decoder agree.** For every mnemonic it is stated exactly which operands
  survive assembling and decoding, and a branch executed where the assembler put it lands on the line
  after its label.

`Bits` holds the arithmetic of binary words. `Isa` is the interpreter the core is compared with: the
RISC-V Instruction Set Manual, Volume I, sections 2.2 to 2.6 and 9.1, and Volume II, section 3.1.6.1,
with the places where the core departs from them marked "Dialect". `ControlMatrix`, `RangerRisc`,
`Alu`, `Encoding`, `Pmmu`, `Csr` are the core; `Hardware` is the core as objects; `MicroSteps`,
`Execution`, `MemoryRefinement`, `DecodeRefinement`, `Refinement`, `WholeRun`, `Interrupts` and
`Progress` are the proof; `CsrInstructions` says bit by bit what the CSRs do, `Halting` and
`IllegalWords` what the words outside the interpreter do, and `Dialect` where the interpreter itself
leaves the standard. `MicroCode` and `MicroBisimulation` are the refactored controller. `CDCSynchron`
and the `UART*`/`Uart*` modules are the UART, the `SPI*`/`Spi*` modules the SPI master, and the `Asm*`
modules with `Assemblers` the assembler: `AsmPasses` its two passes, `AsmPlacement` and `AsmAddresses`
where they put each line. `dafny verify dfyconfig.toml` checks everything.

## Where the code and its documents differ

* The README (line 293) says mepc is loaded with PC or PC_prior; the code always stores PC
  (`modules/ControlMatrixCSRs.sv:1000-1003`), which is what makes traps precise, and the model follows it.
* A comment in Fetch says reading is enabled by default (`modules/ControlMatrixCSRs.sv:384`); the default is
  inactive, and the model follows the code: the word was read one clock earlier.
* The comment on labels promises byte addresses after the first pass (`tools/gen-instr/assembler/main.go:80`);
  the addresses kept are word addresses.
* A `$` on a label without an address divides the running pc by four; the model does the same.

## Model

| member | source | states |
|---|---|---|
| `Alu.SubtractFlags` | modules/ALU.sv:65-127 | at every width of two bits or more the Z, C and N xor V flags of a subtraction decide equality, unsigned order and signed order |
| `Alu.BranchDecidesComparison` | modules/ControlMatrixCSRs.sv:728-768 | each of the six take_branch equations equals the comparison its branch is named after |
| `Alu.SetLessThanAgreesWithBranches` | modules/ALU.sv:90-108 | slt and sltu give the same two comparisons as blt and bltu decide |
| `Alu.ArithmeticShift` | modules/ALU.sv:84-88 | sra is floor division of the signed operand by the power of two, for amounts up to the width |
| `Alu.CarryOfShift` | modules/ALU.sv:76-82 | shifting by one, left or right, the C flag is the bit that falls out |
| `DecodeRefinement.ImmediateRefines` | modules/Immediate.sv:25-62 | every concatenation with its replicated sign is the format's signed immediate modulo 2^32 |
| `DecodeRefinement.AluRefines` | modules/ALU.sv:53-118 | the ALU result is the interpreter's arithmetic for all ten operations and all operands |
| `DecodeRefinement.BranchRefines` | modules/ControlMatrixCSRs.sv:703-780 | a branch is taken exactly when the interpreter's condition holds |
| `DecodeRefinement.ShiftConformsIffSmall` | modules/ALU.sv:76-88 | a register shift agrees with the standard's masked amount for every operand if and only if the amount is below 32 |
| `DecodeRefinement.JalrConformsIffEven` | modules/ControlMatrixCSRs.sv:618-635 | jalr reaches the standard's target if and only if rs1 plus immediate is even |
| `Dialect.LoadConformsIffAligned` | modules/Pmmu.sv:51-123 | a load is the standard's read of consecutive little-endian bytes, for every memory, if and only if its address is a multiple of its size |
| `Dialect.StoreConformsIffAligned` | modules/Pmmu.sv:51-145 | a store is the standard's write of consecutive bytes, for every memory and value, if and only if its address is a multiple of its size |
| `Dialect.CsrReadConformsIff` | modules/ControlMatrixCSRs.sv:891-899 | csrrs and csrrc with x0 read as the standard says if and only if rd is x0 or already holds the value |
| `Dialect.MretConforms` | modules/ControlMatrixCSRs.sv:945-970 | mret's mstatus differs from the standard's always, in MPIE alone; its mip agrees if and only if no external interrupt is pending |
| `MemoryRefinement.LoadRefines` | modules/Pmmu.sv:38-123 | byte, halfword and word selection with extension is the load from a flat little-endian byte array |
| `MemoryRefinement.FetchRefines` | modules/RangerRiscCSRs.sv:178-194 | the BRAM word at pc is the little-endian instruction word of the byte array |
| `MemoryRefinement.MergedLanes` | modules/Pmmu.sv:85-131 | a merged word has the stored bytes in the addressed lanes and the old bytes elsewhere |
| `MemoryRefinement.StoreRefines` | modules/Pmmu.sv:85-145 | sb, sh and sw by read, merge and write are the byte stores of the flat array |
| `MemoryRefinement.StoreThenLoad` | modules/Pmmu.sv:108-145 | in the byte array a store changes no byte but its own, and a signed or unsigned load of the same cell returns the stored bytes extended |
| `MemoryRefinement.MergeThenRead` | modules/Pmmu.sv:38-145 | in the BRAM a load of the same size from a word sb, sh or sw has merged returns the stored bytes extended |
| `Execution.FetchDecode` | modules/ControlMatrixCSRs.sv:381-476 | two clocks after a boundary IR, PC_prior, PC and both operand registers hold the next instruction's values |
| `Execution.RunAlu` | modules/ControlMatrixCSRs.sv:489-565 | R-type and I-type operations retire with the ALU result in rd, in one clock less for x0 |
| `Execution.RunUpper` | modules/ControlMatrixCSRs.sv:818-846 | lui and auipc retire with immediate, or PC_prior plus immediate, in rd |
| `Execution.RunJal` | modules/ControlMatrixCSRs.sv:782-816 | jal retires at PC_prior plus immediate with the return address in rd |
| `Execution.RunJalr` | modules/ControlMatrixCSRs.sv:618-652 | jalr retires at rs1 plus immediate with the return address in rd, also when rd is rs1 |
| `Execution.RunBranch` | modules/ControlMatrixCSRs.sv:703-780 | a branch retires at its target or at the next instruction by the flags saved one clock earlier |
| `Execution.RunLoad` | modules/ControlMatrixCSRs.sv:569-616 | a load retires with the extended part of the addressed word in rd |
| `Execution.RunStoreWord` | modules/ControlMatrixCSRs.sv:654-697 | a word store retires with only the addressed word changed |
| `Execution.RunStorePart` | modules/ControlMatrixCSRs.sv:654-697 | a byte or halfword store retires with the merge of the word just read |
| `Execution.RunCsrSkip` | modules/ControlMatrixCSRs.sv:861-921 | the forms that skip rd or the write retire a clock earlier |
| `Execution.RunCsr` | modules/ControlMatrixCSRs.sv:861-943 | rd gets the value read in ITCSR and the CSR the value computed from RsA as frozen over both clocks |
| `Execution.RunMret` | modules/ControlMatrixCSRs.sv:945-970 | mret loads PC from mepc aligned down, moves MPIE to MIE and drops the pending bit |
| `Refinement.RefineCsr` | modules/ControlMatrixCSRs.sv:861-943 | a CSR instruction refines read old, write new for all six forms, also with rd equal to rs1 and with interrupt edges meanwhile |
| `Refinement.RewriteAtomic` | modules/ControlMatrixCSRs.sv:1068-1131 | an interrupt raising MEIP between the read and the write of mip has the same outcome as one before the instruction |
| `CsrInstructions.ModifiedCsrBits` | modules/ControlMatrixCSRs.sv:283-300 | bit by bit a CSR instruction writes the operand, the union of CSR and operand, or the CSR without the operand's bits |
| `CsrInstructions.CsrWordBits` | modules/ControlMatrixCSRs.sv:861-943 | at the core, for every CSR word and every interrupt edge: bit by bit the CSR at 0x300, 0x304, 0x305, 0x341 or 0x344 takes that value, the others keep theirs, bit 11 of mip apart |
| `CsrInstructions.CsrWordReads` | modules/ControlMatrixCSRs.sv:256-278 | rd gets the value held at that literal address, with bit 11 of mip as raised by then, and no other register changes |
| `CsrInstructions.LatchBits` | modules/ControlMatrixCSRs.sv:1119-1149 | an edge sets bit 11 of mip outside a handler and no other bit, and waits inside one |
| `CsrInstructions.TrapCondition` | modules/ControlMatrixCSRs.sv:972-997 | a trap is taken if and only if bit 3 of mstatus, bit 11 of mie and bit 11 of mip are set and no handler runs |
| `CsrInstructions.TrapBits` | modules/ControlMatrixCSRs.sv:972-1025 | trap entry moves bit 3 of mstatus to bit 7 and clears it, leaving every other CSR bit but mepc |
| `CsrInstructions.MretBits` | modules/ControlMatrixCSRs.sv:945-970 | mret moves bit 7 of mstatus to bit 3 and clears it and bit 11 of mip, and resumes at mepc aligned down to four |
| `Refinement.InstructionRefines` | modules/ControlMatrixCSRs.sv:478-1033 | every legal instruction takes the core from boundary to interrupt check in the interpreter's state after the interpreter's latency |
| `WholeRun.CheckPasses` | modules/ControlMatrixCSRs.sv:972-997 | with no trap due, PreFetch reads the next instruction and reaches a boundary |
| `WholeRun.CheckTraps` | modules/ControlMatrixCSRs.sv:972-1025 | with a trap due, four clocks save pc in mepc, set the enables, load mtvec and reach the handler's boundary |
| `WholeRun.StepRefines` | modules/ControlMatrixCSRs.sv:308-1033 | one instruction with the trap that may follow it is one interpreter step, in 4 to 10 clocks |
| `WholeRun.RunRefines` | modules/RangerRiscCSRs.sv:100-329 | any number of instructions and traps under any interrupt edges is that many interpreter steps, to the clock |
| `WholeRun.PlainRunRefines` | modules/RangerRiscCSRs.sv:100-329 | without SYSTEM instructions and with interrupts disabled, pc, registers and memory are those of the plain interpreter |
| `WholeRun.StepAsserted` | modules/ControlMatrixCSRs.sv:1046-1063 | a clock with reset low puts any state whatsoever into the start of the reset sequence |
| `WholeRun.ResetReachesBoundary` | modules/ControlMatrixCSRs.sv:311-379 | five clocks after release the core is at a boundary with pc read from the reset vector, registers and memory untouched |
| `Interrupts.NoNesting` | modules/ControlMatrixCSRs.sv:972-997 | for any reset line, any edges and any handler code, two trap entries are separated by the end of an mret or a reset |
| `Interrupts.ReturnRetiresOne` | modules/ControlMatrixCSRs.sv:957-997 | whenever a trap entry follows a trap return, an instruction of the interrupted program has retired in between, in the state the interpreter retires it to |
| `Interrupts.TrapLosesEdges` | modules/ControlMatrixCSRs.sv:1134-1149 | of an instruction that retires into a trap, edges in the interrupt check and the two clocks after it leave no trace, and one in the last clock of the trap is latched |
| `Interrupts.NoTrapKeepsEdges` | modules/ControlMatrixCSRs.sv:1134-1149 | without a trap the latch after an instruction is set if and only if it was before or an edge came in any of its clocks |
| `Interrupts.PreciseTrap` | modules/ControlMatrixCSRs.sv:999-1025 | whatever has just retired, mepc gets the interpreter's next pc and the trap changes no register or memory cell |
| `Interrupts.HandlerKeepsSaved` | modules/ControlMatrixCSRs.sv:1065-1131 | handler code that does not change mepc or mstatus, which it may read, leaves both as the trap saved them, whatever edges arrive |
| `Interrupts.ReadsRewriteNothing` | modules/ControlMatrixCSRs.sv:889-943 | setting or clearing no bits of a CSR is among the accesses a handler may make |
| `Interrupts.MretResumes` | modules/ControlMatrixCSRs.sv:945-970 | mret then resumes at the saved pc, aligned down, with MIE set and MPIE clear, and is not itself followed by a trap |
| `Interrupts.InterruptRoundTrip` | modules/ControlMatrixCSRs.sv:945-1025 | at the core: trap, any handler of n instructions, mret, and the interrupted program goes on where it stopped |
| `Progress.ConsistentAlways` | modules/ControlMatrixCSRs.sv:402-476 | one clock from any state keeps ir_state with the opcode held in IR |
| `Progress.ConsistentRun` | modules/ControlMatrixCSRs.sv:308-1063 | from a Fetch or from reset, at every clock of every run, whatever the reset and interrupt lines do, ir_state belongs to the opcode held in IR |
| `Progress.EveryClockProgresses` | modules/ControlMatrixCSRs.sv:381-1033 | with reset released every clock reaches Fetch or lowers a rank, unless ebreak or ecall is being executed |
| `Progress.FetchRecurs` | modules/ControlMatrixCSRs.sv:381-1033 | for every instruction word, illegal ones included, the next Fetch follows within ten clocks |
| `Halting.StopsForGood` | modules/ControlMatrixCSRs.sv:848-856 | once a SYSTEM word of funct3 zero with funct12 0 or 1 is fetched the core never leaves Execute, whatever edges arrive: pc stays behind the word, and registers, memory and CSRs keep what they held, MEIP apart |
| `Halting.EbreakAndEcallStop` | modules/ControlMatrixCSRs.sv:848-856 | the same for the two words 0x00100073 and 0x00000073 themselves |
| `Halting.FetchesAgainIff` | modules/ControlMatrixCSRs.sv:381-1033 | from a boundary the core fetches again, and within ten clocks, if and only if the word is not one of those |
| `Halting.MicroStopsForGood` | simulation/ranger_microcode/MicroCodeMatrix.sv:765-791 | the refactored core stops at the same words, in Halt after ebreak and in Execute after ecall |
| `IllegalWords.UnknownLoads` | modules/ControlMatrixCSRs.sv:402-476 | any opcode the core does not know, and any other SYSTEM word of funct3 zero, is carried out as a load |
| `IllegalWords.FenceDoesNothing` | modules/ControlMatrixCSRs.sv:402-476 | FENCE with rd zero changes pc alone |
| `IllegalWords.FourRepeats` | modules/ControlMatrixCSRs.sv:910-914 | a SYSTEM word of funct3 four is met again for ever, three clocks and four bytes of pc at a time, because Fetch is entered without reading the memory |
| `IllegalWords.MicroSystemLoads` | simulation/ranger_microcode/MicroCodeMatrix.sv:396-449 | the refactored core carries out every SYSTEM word but ebreak and ecall, CSR instructions and mret included, as a load |
| `Hardware.Memory.Clock` | modules/Memory.sv:100-110 | one cell is written when enabled, and a read in the same clock returns the old word |
| `Hardware.RegisterFile.Source` | modules/RegisterFile.sv:81-84 | x0 reads zero, every other register its content |
| `Hardware.RegisterFile.Clock` | modules/RegisterFile.sv:70-79 | one register is written when enabled, never x0 |
| `Hardware.ControlUnit.NextState` | modules/ControlMatrixCSRs.sv:1046-1063 | state, vector_state and ir_state by reset and reset-complete |
| `Hardware.ControlUnit.WriteCsrs` | modules/ControlMatrixCSRs.sv:1068-1079 | at most the addressed CSR changes |
| `Hardware.ControlUnit.TrackInterrupt` | modules/ControlMatrixCSRs.sv:1081-1119 | interrupt_in_progress and irq_reset_trigger by the state before the edge |
| `Hardware.ControlUnit.ClockCsrs` | modules/ControlMatrixCSRs.sv:1065-1131 | the later of write, clear and pending assignment wins in mip |
| `Hardware.ControlUnit.Clock` | modules/ControlMatrixCSRs.sv:1046-1149 | all controller registers and the irq latch after an edge are the value model's |
| `Hardware.Core.LoadRegisters` | modules/RangerRiscCSRs.sv:197-318 | each datapath register loads or holds by its enable, PC_prior from the old PC |
| `Hardware.Core.ClockRegisters` | modules/RangerRiscCSRs.sv:151-329 | registers, register file and BRAM after an edge are the value model's datapath |
| `Hardware.Core.Clock` | modules/RangerRiscCSRs.sv:100-329 | one clock of the wired objects is one clock of the value model |
| `MicroCode.MicroCodeMatrix.Clock` | simulation/ranger_microcode/MicroCodeMatrix.sv:804-822 | the three state registers after an edge are those of the step function |
| `MicroBisimulation.DispatchAgrees` | simulation/ranger_microcode/MicroCodeMatrix.sv:396-449 | both Decodes choose the same instruction state outside SYSTEM |
| `MicroBisimulation.ControllersAgree` | simulation/ranger_microcode/MicroCodeMatrix.sv:138-797 | in corresponding states both controllers drive equal signals, hoisted alu_op and take_branch included, and go to corresponding states |
| `MicroBisimulation.LateReadHarmless` | simulation/ranger_microcode/MicroCodeMatrix.sv:804-822 | moving the state on the other clock edge, after the datapath registers, changes no next state |
| `MicroBisimulation.StepRelated` | simulation/ranger_microcode/MicroCodeMatrix.sv:241-822 | one clock keeps the two cores related while no SYSTEM instruction is dispatched |
| `MicroBisimulation.RunRelated` | simulation/ranger_microcode/MicroCodeMatrix.sv:241-822 | any number of clocks leaves equal datapaths, with PreFetch of Execute mapped to the state PreFetch |
| `MicroBisimulation.ResetsRelated` | simulation/ranger_microcode/MicroCodeMatrix.sv:293-361 | five clocks of the original reset and six of the refactored one give related cores, from any stale ir_state |
| `MicroBisimulation.HoistSoundInDecode` | simulation/ranger_microcode/MicroCodeMatrix.sv:140-163 | in Decode the hoisted alu_op drives the original signals if and only if it asks for an addition |
| `MicroBisimulation.StaleIrStateStepsBack` | simulation/ranger_microcode/MicroCodeMatrix.sv:140-163 | with BType left in ir_state Decode would move pc back by four |
| `UartTiming.CountIncComputed` | Synthesis/uart/UARTTx.sv:29 | the baud increment computed from clock and rate is 302 |
| `UartTiming.FirstTicks` | Synthesis/uart/UARTRx.sv:50-57 | a cleared accumulator first shows its full, half and quarter tick to clocks 219, 110 and 56 |
| `CDCSynchron.Synchroniser.Clock` | Synthesis/uart/CDCSynchron.sv:25-29 | the three flops shift by one |
| `UARTTx.UartTx.Clock` | Synthesis/uart/UARTTx.sv:49-126 | all transmitter registers after an edge are those of the step function |
| `UARTTx.LineInSlot` | Synthesis/uart/UARTTx.sv:72-99 | the line in each bit slot, with the one clock by which data bits after the first are late |
| `UARTTx.TxAdvances` | Synthesis/uart/UARTTx.sv:49-126 | a transmission runs through its 8N1 waveform clock by clock whatever the inputs do, with tx_complete in exactly one clock |
| `UARTRx.UartRx.Clock` | Synthesis/uart/UARTRx.sv:59-149 | all receiver registers and the synchroniser after an edge are those of the step function |
| `UARTRx.RxAdvances` | Synthesis/uart/UARTRx.sv:71-115 | from a falling edge the receiver samples the line at clock 110 + 219(k+1) for bit k, whatever the line does, and rx_byte reads zero until the stop bit |
| `UARTRx.ResetWaits` | Synthesis/uart/UARTRx.sv:59-149 | from any state one clock of reset and two more with the line high leave the receiver waiting, nothing collected and nothing reported |
| `UARTRx.RxCompletes` | Synthesis/uart/UARTRx.sv:117-135 | it completes at the quarter tick exactly if the line is high |
| `UARTRx.ReportsSamples` | Synthesis/uart/UARTRx.sv:59-149 | for any line at all the first byte reported is made of the eight samples, least significant first |
| `UARTRx.ReportsOnTime` | Synthesis/uart/UARTRx.sv:117-140 | with the stop bit in time the report comes at one fixed clock, lasts one clock and leaves the receiver waiting |
| `UARTRx.CollectsByte` | Synthesis/uart/UARTRx.sv:91-115 | samples that are the bits of a byte shift in to that byte |
| `UartLink.WaveformSamples` | Synthesis/uart/UARTTx.sv:72-115 | every sample of the transmitter's waveform is the data bit meant |
| `UartLink.LinkAdvances` | Synthesis/uart/UARTRx.sv:59-149 | every clock keeps transmitter and receiver in step, for any driver |
| `UartLink.EverythingArrives` | Synthesis/uart/UARTTx.sv:49-126 | over runs of any length the bytes received are a prefix of the bytes sent, at most one behind, and equal when the transmitter is idle |
| `UartLink.ArrivesOnTime` | Synthesis/uart/UARTRx.sv:59-149 | a byte sent is received after one fixed number of clocks and not before, and the transmitter is idle again after another, whatever is driven meanwhile |
| `UartTolerance.SampleSlot` | Synthesis/uart/UARTRx.sv:81-115 | with a period of 207 to 232 clocks sample k falls into slot k + 1 |
| `UartTolerance.BaudTolerance` | Synthesis/uart/UARTRx.sv:43-135 | every byte sent with a constant bit period is decoded if and only if the period is 207 to 232 clocks |
| `UartTop.UartTopModule.ControlBlock` | Synthesis/uart/Top.sv:75-147 | the control registers after an edge, state taken from the registered next_state |
| `UartTop.UartTopModule.Clock` | Synthesis/uart/Top.sv:18-147 | control block, transmitter and receiver step together from the values before the edge |
| `UartTop.TopAdvances` | Synthesis/uart/Top.sv:94-140 | every clock takes the module through the phases of one reply, each frame started once although each state lasts two clocks |
| `UartTop.PowerUpReady` | Synthesis/uart/Top.sv:77-92 | six clocks after power-up with arbitrary uninitialised registers the module is idle |
| `UartTop.RepliesExactly` | Synthesis/uart/Top.sv:75-147 | from power-up and for any line the frames started are a prefix of 4F 6B 0D 0A once per accepted byte, and all of them when idle |
| `UartTop.ReplyTakes` | Synthesis/uart/Top.sv:109-140 | a reply takes exactly 8782 clocks: the module is idle then and at no clock between |
| `UartTop.ShowsLastAccepted` | Synthesis/uart/Top.sv:58-107 | over any run from power-up the display shows the last accepted byte, a hexadecimal digit by its value |
| `SPIProtocol.SpiProtocol.ClockEdges` | simulation/spi/SPIProtocol.sv:63-105 | the edge generator's registers after an edge |
| `SPIProtocol.SpiProtocol.ClockByte` | simulation/spi/SPIProtocol.sv:109-120 | the byte is kept at data-valid, delayed one clock |
| `SPIProtocol.SpiProtocol.ClockMosi` | simulation/spi/SPIProtocol.sv:124-144 | the MOSI process reads the others' registers as the edge found them |
| `SPIProtocol.SpiProtocol.ClockMiso` | simulation/spi/SPIProtocol.sv:147-169 | the MISO process reads the others' registers as the edge found them |
| `SPIProtocol.SpiProtocol.Clock` | simulation/spi/SPIProtocol.sv:63-180 | the five processes run in some order and still make one simultaneous step |
| `SPIProtocol.BitCounts` | simulation/spi/SPIProtocol.sv:122-169 | exactly the edges that shift put out a bit and exactly the edges that sample take one in |
| `SPIProtocol.MosiAdvances` | simulation/spi/SPIProtocol.sv:124-144 | MOSI shows the next bit of the byte, most significant first, in both phases |
| `SPIProtocol.MisoAdvances` | simulation/spi/SPIProtocol.sv:147-169 | looped back, each bit is read while MOSI still shows it |
| `SPIProtocol.SpiAdvances` | simulation/spi/SPIProtocol.sv:63-180 | in all four modes and at every clock rate each clock takes the engine to the next phase of the byte |
| `SpiModes.RestsByMode` | simulation/spi/SPIProtocol.sv:53-73 | by its number: in modes 2 and 3 the clock pin is high in reset and whenever the engine is ready, in modes 0 and 1 low |
| `SpiModes.EveryClockByTheEdges` | simulation/spi/SPIProtocol.sv:122-180 | at every clock of every run with any MISO line: modes 0 and 3 take MISO exactly as the pin rises and move MOSI as it falls, modes 1 and 2 the other way round |
| `SpiModes.ExchangesByte` | simulation/spi/SPIProtocol.sv:63-180 | with any slave, in every mode and at every rate: at its j-th sampling edge MOSI shows the j-th bit of the byte, and the byte read is made of the eight MISO values at those edges, first on top |
| `SpiLoopback.EveryByteReturns` | simulation/spi/SPIProtocol.sv:63-180 | for every mode, rate and disciplined driver the bytes read are the bytes sent, once each, with 16 changes of the clock pin per byte and the pin at CPOL when ready |
| `SpiLoopback.OneByte` | simulation/spi/SPIProtocol.sv:63-180 | one data-valid pulse makes the engine ready again after 16 * CLKS_PER_HALF_BIT + 2 clocks with 16 edges and the byte received |
| `SPIMaster.SpiMaster.Clock` | simulation/spi/SPIMaster.sv:80-147 | chip-select machine, receive counter and engine step together |
| `SPIMaster.Clog2` | simulation/spi/SPIMaster.sv:46-50 | the width is the least whose power of two reaches the argument |
| `SPIMaster.Ranges` | simulation/spi/SPIMaster.sv:46-62 | the byte counters range over the least power of two above MAX_BYTES_PER_CS, the inactive counter over the least that reaches CS_INACTIVE_CLKS, or four below two |
| `SpiBurst.EveryBurst` | simulation/spi/SPIMaster.sv:80-153 | for every disciplined driver each stretch of chip select low carries exactly its burst, all read back and counted, and stretches are at least the loaded period and two clocks apart |
| `SpiBurst.AsksForNext` | simulation/spi/SPIMaster.sv:98-153 | inside a burst o_TX_Ready asks for the next byte exactly 16 * CLKS_PER_HALF_BIT + 2 clocks after the last one given and not before, chip select low |
| `SpiDriver.EveryBurstPossible` | simulation/spi/SPIMaster.sv:80-153 | for every configuration and every burst its counter holds there is a disciplined driver with which one window closes on exactly those bytes, sent and received |
| `SpiBurst.LastByteEndsBurst` | simulation/spi/SPIMaster.sv:98-118 | chip select stays low while the last byte of a burst is sent and rises exactly 16 * CLKS_PER_HALF_BIT + 3 clocks after that byte is given |
| `SpiBurst.ReadyForNextBurst` | simulation/spi/SPIMaster.sv:119-126 | once chip select has risen, the next burst is accepted after exactly the loaded inactive period and one clock |
| `SpiBurst.LengthHonoured` | simulation/spi/SPIMaster.sv:88-95 | a complete stretch of chip select low carries as many bytes as were asked for if and only if that is not zero, and the counter's full range otherwise |
| `SpiBurst.InactiveHonoured` | simulation/spi/SPIMaster.sv:46-126 | CS_INACTIVE_CLKS survives in its counter if and only if it is not a power of two from 2 up, and is lost to zero otherwise |
| `AsmBits.Negate` | tools/gen-instr/utils/bits.go:12-21 | every digit is flipped in place |
| `AsmBits.AddOne` | tools/gen-instr/utils/bits.go:31-43 | the digits after the first are incremented modulo their range and the first is untouched |
| `AsmBits.TwosComplement` | tools/gen-instr/utils/bits.go:3-10 | the value left, with the lost carry |
| `AsmBits.ComplementCorrect` | tools/gen-instr/utils/bits.go:3-43 | the result is the two's complement if and only if the digits below the first are not all zero |
| `AsmBits.ReverseArray` | tools/gen-instr/utils/bits.go:51-57 | the array is reversed in place |
| `AsmFormats.BinaryStringToArray` | tools/gen-instr/utils/formats.go:82-96 | one digit per character |
| `AsmFormats.BinaryArrayToString` | tools/gen-instr/utils/formats.go:70-80 | the digits as characters, reversed on request, the array unchanged |
| `AsmFormats.IntToBinaryString` | tools/gen-instr/utils/formats.go:56-68 | a binary string of the stated width and value for every 64-bit integer |
| `AsmFormats.IntToBinaryArray` | tools/gen-instr/utils/formats.go:110-112 | the same as an array |
| `AsmFormats.TwosComplementBound` | tools/gen-instr/utils/formats.go:56-68 | the string is exactly the 32 bits of v modulo 2^32 if and only if -2^32 < v < 2^32 and v is not -2^31 |
| `AsmFormats.FieldOf` | tools/gen-instr/utils/formats.go:110-112 | a slice of the array is the corresponding bit field of the integer |
| `Assemblers.PutRegister` | tools/gen-instr/assemblers/b_branching.go:94-118 | five digits at the field's place hold the register number modulo 32, the rest of the array unchanged |
| `Assemblers.BtypeBranch` | tools/gen-instr/assemblers/b_branching.go:65-172 | the word with the offset scattered over [31:25] and [11:7], bit 31 from bit 19 |
| `Assemblers.Jal` | tools/gen-instr/assemblers/jal.go:56-130 | the word with the offset scattered over [31:12] |
| `Assemblers.Loads` | tools/gen-instr/assemblers/loads.go:49-142 | the I-format word of the five loads |
| `Assemblers.ItypeAlu` | tools/gen-instr/assemblers/i_alu.go:42-157 | the I-format word of the nine operations, bit 30 forced for srai |
| `Assemblers.Jalr` | tools/gen-instr/assemblers/jalr.go:64-138 | the I-format word with bit 20 forced to zero |
| `Assemblers.Stores` | tools/gen-instr/assemblers/stores.go:40-125 | the S-format word |
| `Assemblers.Lui` | tools/gen-instr/assemblers/lui.go:28-91 | the U-format word of lui |
| `Assemblers.Auipc` | tools/gen-instr/assemblers/auipc.go:29-92 | the U-format word of auipc |
| `Assemblers.RtypeAlu` | tools/gen-instr/assemblers/r_alu.go:30-150 | the R-format word of the ten operations |
| `AsmRoundTrip.BranchRoundTrip` | tools/gen-instr/assemblers/b_branching.go:84-153 | a branch decodes to its operands if and only if the offset is even and in [-4096, 4094]; there the hardware immediate is the offset |
| `AsmRoundTrip.JalRoundTrip` | tools/gen-instr/assemblers/jal.go:70-99 | jal decodes to its operands if and only if the offset is even and in [-2^20, 2^20 - 2] |
| `AsmRoundTrip.LoadRoundTrip` | tools/gen-instr/assemblers/loads.go:59-133 | a load decodes to its operands if and only if the offset is in [-2048, 2047] |
| `AsmRoundTrip.ImmediateRoundTrip` | tools/gen-instr/assemblers/i_alu.go:54-148 | an immediate operation decodes to its operands if and only if the immediate is in [-2048, 2047], for shifts in [0, 31] |
| `AsmRoundTrip.JalrRoundTrip` | tools/gen-instr/assemblers/jalr.go:76-128 | jalr decodes to its operands if and only if the offset is even and in [-2048, 2046] |
| `AsmRoundTrip.StoreRoundTrip` | tools/gen-instr/assemblers/stores.go:50-116 | a store decodes to its operands if and only if the offset is in [-2048, 2047] |
| `AsmRoundTrip.UpperRoundTrip` | tools/gen-instr/assemblers/lui.go:38-82 | lui and auipc decode to the immediate times 4096 if and only if it is in [0, 2^20), and the hardware immediate is that product modulo 2^32 always |
| `AsmRoundTrip.RegisterRoundTrip` | tools/gen-instr/assemblers/r_alu.go:38-141 | register operations always decode to their operands |
| `AsmPasses.FindLabels` | tools/gen-instr/assembler/main.go:125-176 | the label map and the label names in order |
| `AsmAddresses.LabelMoves` | tools/gen-instr/assembler/main.go:144-166 | a label without an address keeps the running word address, one with an address moves it there, and `$` divides either by four |
| `AsmAddresses.OthersCount` | tools/gen-instr/assembler/main.go:134-171 | the address starts at zero and every line that is no label, blank or comment adds one |
| `AsmAddresses.UnaddressedPlaces` | tools/gen-instr/assembler/main.go:125-263 | a source without label addresses and lines of spaces is laid out without gap or overlap: every emitting line at the number of those before it |
| `AsmAddresses.UnaddressedDistinct` | tools/gen-instr/assembler/main.go:125-263 | its placements all differ and keep the order of the source |
| `AsmAddresses.UnaddressedLabel` | tools/gen-instr/assembler/main.go:147-166 | its labels name the address of the first line emitted after them |
| `AsmPasses.ProcessSection` | tools/gen-instr/assembler/main.go:178-263 | the placed lines of one section and where the scan stopped |
| `AsmPasses.Assemble` | tools/gen-instr/assembler/main.go:81-105 | the placed lines of all sections, or failure on an unknown reference |
| `AsmPlacement.ScanFollowsWalk` | tools/gen-instr/assembler/main.go:189-260 | the scan of one section, from any line and in any state, places what one walk over the lines places up to the label that ends it, and the rest of the walk starts at that label |
| `AsmPlacement.ProgramWalks` | tools/gen-instr/assembler/main.go:81-105 | any source assembles if and only if it has a label and every reference names one, and then the sections together are one walk over its lines |
| `AsmPlacement.PlacedExactly` | tools/gen-instr/assembler/main.go:178-263 | for any source that assembles, exactly the lines the walk takes are placed, each at the walk's address |
| `AsmPlacement.SpacesCountedOnce` | tools/gen-instr/assembler/main.go:134-171 | any line of spaces moves the first pass's counter by one and the second pass's not at all |
| `AsmPlacement.LeadingLinesShift` | tools/gen-instr/assembler/main.go:183-248 | with lines before the first label every line up to the second label is placed at the first label's mapped address plus the emitting lines since the start of the source |
| `AsmPlacement.SectionStartsAtMap` | tools/gen-instr/assembler/main.go:178-263 | any later section whose label does not repeat the one before it is counted from the address the map holds for its name |
| `AsmPlacement.RepeatedLabelUsesLast` | tools/gen-instr/assembler/main.go:165-168 | of a name defined several times every such section is counted from the address of the last definition |
| `AsmPlacement.RepeatedInARowSwallows` | tools/gen-instr/assembler/main.go:237-248 | a label that repeats the one before it continues its section to the end of the source, taking every label of another name for an instruction |
| `AsmPlacement.LabelKeepsAddress` | tools/gen-instr/assembler/main.go:143-168 | with distinct names the map keeps the address each label was given |
| `AsmPlacement.ProgramPlaces` | tools/gen-instr/assembler/main.go:81-105 | with distinct names and a leading label exactly the data, reference and instruction lines are placed, each at the first pass's address less the lines of spaces since its label |
| `AsmPlacement.PassesAgree` | tools/gen-instr/assembler/main.go:125-263 | both passes give every line the same address if and only if no emitting line has a line of spaces between its label and itself |
| `AsmPlacement.LineAfterLabel` | tools/gen-instr/assembler/main.go:178-263 | an emitting line is placed as many words after its label's mapped address as emitting lines lie between, names repeated elsewhere or not |
| `AsmPasses.AssembleBranch` | tools/gen-instr/assemblers/b_branching.go:40-63 | the offset is four times the distance of the word addresses |
| `AsmPasses.AssembleJal` | tools/gen-instr/assemblers/jal.go:33-55 | the same for jal |
| `AsmPlacement.BranchLands` | tools/gen-instr/assemblers/b_branching.go:40-155 | a taken branch within range, executed by the interpreter or as PC_prior plus the decoded immediate, reaches its label's address |
| `AsmPlacement.JalLands` | tools/gen-instr/assemblers/jal.go:33-98 | jal within range reaches its label's address |
| `AsmPlacement.BranchesLandOnLabels` | tools/gen-instr/assembler/main.go:125-263 | end to end: a branch taken where its line was placed arrives where the line after its label was placed |
| `AsmAddresses.UnknownTarget` | tools/gen-instr/utils/formats.go:44-48 | a branch to a name that is no label is assembled as one to address zero |
| `AsmPlacement.DataReference` | tools/gen-instr/assembler/main.go:400-467 | a load of @Label+n reads the n-th line after the label, if and only if its byte address is below 2048 |
| `AsmAddresses.WrittenOffset` | tools/gen-instr/assembler/main.go:400-432 | an offset written as a number or a sum is that number, and a load with it decodes to it if and only if it is in [-2048, 2047] |
| `AsmAddresses.LabelReference` | tools/gen-instr/assembler/main.go:441-467 | a load of @Label reads the first line after the label, if and only if its byte address is below 2048 |
| `AsmAddresses.ReferenceLineHolds` | tools/gen-instr/assembler/main.go:210-232 | a reference line holds the byte address of the first line after its label |
| `AsmPlacement.LeadingLineExample` | tools/gen-instr/assembler/main.go:183-248 | one example: a line before the label L at 5 is placed at 5 and the line after it at 6 |
| `AsmPlacement.RepeatedLabelExample` | tools/gen-instr/assembler/main.go:165-168 | one example: two labels L in a row, at 0 and 16, place their lines at 16 and 17 |

## Left out

- RunRefines: covers runs of the instructions the interpreter calls legal; StopsForGood, UnknownLoads and FourRepeats say what ecall, ebreak, unknown opcodes and SYSTEM words of funct3 four do instead.
- PlainRunRefines: needs MIE or MEIE clear, or a handler in progress; with interrupts enabled RunRefines applies.
- ResetReachesBoundary: irq_reset_trigger is clear, as at power-up and outside the trap handshake.
- LoadConformsIffAligned: addresses beyond the BRAM are taken to repeat it, on both sides of the comparison; the same holds of stores.
- MretResumes: needs mepc and mstatus untouched by the handler, and resumes at the saved pc aligned down to four.
- RunRelated: SYSTEM instructions differ by design (MicroSystemLoads and MicroStopsForGood say how), so programs that dispatch one are excluded.
- BtypeBranch: silent for operands with |v| >= 2^32 or v = -2^31, whose digit array is not the 32-bit two's complement; the same holds of the other assemblers.
- ReportsOnTime: one stop bit, as configured; the two-stop-bit build is not modelled.
- SpiProtocol: the width of r_SPI_Clk_Count is not modelled; the proved phases keep it below 2 * CLKS_PER_HALF_BIT, where it cannot wrap.
- EveryByteReturns: MISO is tied to MOSI; ExchangesByte covers any MISO line, but no slave is modelled.
- EveryBurst: data-valid is pulsed only while o_TX_Ready and i_TX_Count fits its width.
- ProgramPlaces: needs distinct, non-empty label names and a leading label; PlacedExactly covers every source that assembles.
- UnaddressedPlaces: needs distinct, non-empty label names and a leading label.
- The ALU flags of operations other than subtraction and the shifts by one are modelled, but no state loads them.
- Operation codes the ALU does not know drive X in the source and are read as zero; two-valued flops throughout, so no metastability, delay or X propagation.
- Memory is fixed at 2^10 words and is never busy, as wired; the memory-mapped output of the microcode build's own wiring is not part of its comparison.
- Interrupt edges are sampled per clock; reset asserted in the middle of a trap handshake is covered by NoNesting but not by the refinement, which starts from a boundary.
- The eight datapath registers are fields of one object, not instances of the Register module; debug outputs (ready, halt) and simulation displays are omitted.
- Text and regular-expression parsing, register and mnemonic names, hexadecimal printing, JSON contexts and file writing of the assembler; its CSR forms; its ebreak and mret constants.
- Console, test benches, waveform tracing and Makefiles; the older controller pair without CSRs; the unused CSR module; other SPI, seven-segment and blinky designs.
