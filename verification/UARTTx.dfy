/** The UART transmitter, one step per rising edge of sourceClk, and the waveform it sends. */
module UARTTx {
  import opened Bits
  import opened UartTiming

  datatype TxState = TxReset | TxIdle | TxStartBit | TxSending | TxStopBit | TxComplete

  const STOP_BITS := 1

  datatype Tx = Tx(state: TxState, baud: nat, bitCnt: nat, bits: Byte, stopBits: nat, out: bool, complete: bool)

  /** One clock.  `en` is tx_en, active low. */
  function TxClock(t: Tx, en: bool, byte: Byte): Tx {
    var n := t.(baud := Advance(t.baud));
    match t.state
    case TxReset => n.(bits := 0, complete := false, state := TxIdle)
    case TxIdle =>
      if !en then n.(state := TxStartBit, out := false, bits := byte, baud := 0)
      else n.(out := true)
    case TxStartBit =>
      if Tick(t.baud) then n.(state := TxSending, out := t.bits % 2 == 1, baud := 0, bitCnt := 7) else n
    case TxSending =>
      var s := n.(out := t.bits % 2 == 1);
      if !Tick(t.baud) then s
      else
        var shifted := s.(baud := 0, bits := t.bits / 2, bitCnt := (t.bitCnt - 1) % 8);
        if t.bitCnt == 0 then shifted.(state := TxStopBit, out := true, stopBits := STOP_BITS) else shifted
    case TxStopBit =>
      if t.stopBits == 0 then n.(state := TxComplete, complete := true)
      else if Tick(t.baud) then n.(baud := 0, bitCnt := 0, stopBits := t.stopBits - 1)
      else n
    case TxComplete => n.(state := TxIdle, complete := false)
  }

  /** The transmitter as instantiated: its registers, written by one clocked block. */
  class UartTx {
    var state: TxState
    var baudCounter: nat
    var bitCnt: nat
    var txBits: Byte
    var stopBits: nat
    var txOut: bool
    var txComplete: bool

    function View(): Tx
      reads this
    {
      Tx(state, baudCounter, bitCnt, txBits, stopBits, txOut, txComplete)
    }

    /** Power-up: only the state and the bit counter are initialised. */
    constructor (baud: nat, bits: Byte, stops: nat, out: bool, complete: bool)
      ensures View() == Tx(TxReset, baud, 0, bits, stops, out, complete)
    {
      state, bitCnt := TxReset, 0;
      baudCounter, txBits, stopBits, txOut, txComplete := baud, bits, stops, out, complete;
    }

    method Clock(txEn: bool, txByte: Byte)
      modifies this
      ensures View() == TxClock(old(View()), txEn, txByte)
    {
      var baudTick := Tick(baudCounter);
      baudCounter := Advance(baudCounter);
      match state {
        case TxReset =>
          txBits := 0;
          txComplete := false;
          state := TxIdle;
        case TxIdle =>
          txOut := true;
          if !txEn {
            state := TxStartBit;
            txOut := false;
            txBits := txByte;
            baudCounter := 0;
          }
        case TxStartBit =>
          if baudTick {
            state := TxSending;
            txOut := txBits % 2 == 1;
            baudCounter := 0;
            bitCnt := 7;
          }
        case TxSending =>
          txOut := txBits % 2 == 1;
          if baudTick {
            if bitCnt == 0 {
              state := TxStopBit;
              txOut := true;
              stopBits := STOP_BITS;
            }
            baudCounter := 0;
            txBits := txBits / 2;
            bitCnt := (bitCnt - 1) % 8;
          }
        case TxStopBit =>
          if stopBits > 0 {
            if baudTick {
              baudCounter := 0;
              bitCnt := 0;
              stopBits := stopBits - 1;
            }
          } else {
            state := TxComplete;
            txComplete := true;
          }
        case TxComplete =>
          state := TxIdle;
          txComplete := false;
      }
    }
  }

  // ---------------------------------------------------------------
  // The waveform
  // ---------------------------------------------------------------

  /** Where a transmission stands: clock `i` of slot `slot` (0 the start bit, 1 to 8 the data bits,
      9 the stop bit), then one clock to notice the end and one with tx_complete. */
  datatype TxPhase = Quiet | Slot(byte: Byte, slot: nat, i: nat) | Ending(byte: Byte) | Completing(byte: Byte)

  predicate ValidPhase(p: TxPhase) {
    p.Slot? ==> p.slot <= 9 && p.i < BIT
  }

  function NextPhase(p: TxPhase, en: bool, byte: Byte): TxPhase {
    match p
    case Quiet => if en then Quiet else Slot(byte, 0, 0)
    case Slot(b, k, i) => if i < BIT - 1 then Slot(b, k, i + 1) else if k < 9 then Slot(b, k + 1, 0) else Ending(b)
    case Ending(b) => Completing(b)
    case Completing(_) => Quiet
  }

  /** `b` shifted right `k` times. */
  function Shifted(b: Byte, k: nat): Byte {
    if k == 0 then b else Shifted(b, k - 1) / 2
  }

  lemma {:induction false} BitOfShifted(b: Byte, k: nat, j: nat)
    ensures Bit(Shifted(b, k), j) == Bit(b, k + j)
  {
    if k == 0 {
    } else {
      BitOfShifted(b, k - 1, j + 1);
    }
  }

  /** The line of an 8N1 frame for `b`, `c` clocks after it went low.  Data bits after the first
      come one clock late; before the frame and from the stop bit on the line is high. */
  predicate Line(b: Byte, c: int) {
    if c < 0 then true
    else if c < BIT then false
    else if c < 9 * BIT then Bit(b, if c < 2 * BIT then 0 else (c - 1) / BIT - 1) == 1
    else true
  }

  /** Clocks since the line went low. */
  function Elapsed(p: TxPhase): int {
    match p
    case Quiet => -1
    case Slot(_, k, i) => BIT * k + i
    case Ending(_) => BIT * 10
    case Completing(_) => BIT * 10 + 1
  }

  /** The transmitter's registers in each phase. */
  predicate TxAt(t: Tx, p: TxPhase) {
    && ValidPhase(p)
    && (t.complete <==> p.Completing?)
    && match p
       case Quiet => t.state == TxIdle && t.out
       case Slot(b, k, i) =>
         && t.baud == i * COUNT_INC
         && t.out == Line(b, BIT * k + i)
         && (if k == 0 then t.state == TxStartBit && t.bits == b
             else if k <= 8 then t.state == TxSending && t.bits == Shifted(b, k - 1) && t.bitCnt == 8 - k
             else t.state == TxStopBit && t.stopBits == STOP_BITS)
       case Ending(_) => t.state == TxStopBit && t.stopBits == 0 && t.out
       case Completing(_) => t.state == TxComplete && t.out
  }

  /** In slot k the line carries data bit k - 1, the first clock of slots 2 to 8 still the bit
      before it. */
  lemma LineInSlot(b: Byte, k: nat, i: nat)
    requires k <= 9 && i < BIT
    ensures Line(b, BIT * k + i) ==
            (k == 9 || (k > 0 && Bit(b, if i == 0 && k > 1 then k - 2 else k - 1) == 1))
  {
    if 0 < k <= 8 {
      var c := BIT * k + i;
      if i == 0 {
        assert (c - 1) / BIT == k - 1;
      } else {
        assert (c - 1) / BIT == k;
      }
    }
  }

  /** Every clock takes the transmitter from one phase to the next, whatever its inputs; only a
      quiet transmitter looks at them. */
  lemma TxAdvances(t: Tx, p: TxPhase, en: bool, byte: Byte)
    requires TxAt(t, p)
    ensures TxAt(TxClock(t, en, byte), NextPhase(p, en, byte))
  {
    hide Line, Tick, Bit, Shifted;
    match p
    case Slot(b, k, i) =>
      SlotAdvances(t, b, k, i, en, byte);
    case Quiet => LineInSlot(byte, 0, 0);
    case Ending(_) =>
    case Completing(_) =>
  }

  lemma SlotAdvances(t: Tx, b: Byte, k: nat, i: nat, en: bool, byte: Byte)
    requires TxAt(t, Slot(b, k, i))
    ensures TxAt(TxClock(t, en, byte), NextPhase(Slot(b, k, i), en, byte))
  {
    hide Line, Tick, Bit;
    FirstTicks(i);
    LineInSlot(b, k, i);
    if i < BIT - 1 {
      LineInSlot(b, k, i + 1);
    } else if k < 9 {
      LineInSlot(b, k + 1, 0);
    }
    if 0 < k <= 8 {
      BitOfShifted(b, k - 1, 0);
      FirstBit(Shifted(b, k - 1));
    }
    FirstBit(b);
  }

  lemma FirstBit(b: Byte)
    ensures Bit(b, 0) == b % 2
  {
  }
}
