/** The UART receiver, one step per rising edge of sourceClk, and what it makes of any line. */
module UARTRx {
  import opened Bits
  import opened UartTiming
  import opened CDCSynchron

  datatype RxState = RxReset | RxIdle | RxHalfBit | RxStartBit | RxReceiving | RxStopBit | RxComplete

  datatype Rx = Rx(state: RxState, sync: Sync, baud: nat, bitCnt: nat, bits: Byte, byte: Byte, complete: bool)

  /** {Rx_sync, rx_bits[7:1]} */
  function ShiftIn(bits: Byte, s: bool): Byte {
    (if s then 0x80 else 0) + bits / 2
  }

  /** One clock.  `reset` is active low; `line` is rx_in. */
  function RxClock(r: Rx, reset: bool, line: bool): Rx {
    var n := r.(sync := SyncClock(r.sync, line), baud := Advance(r.baud));
    var s :=
      match r.state
      case RxReset => n.(bits := 0, complete := false, state := RxIdle, baud := 0, byte := 0)
      case RxIdle =>
        if r.sync.Falling() then n.(state := RxStartBit, byte := 0, bits := 0, baud := 0) else n
      case RxStartBit =>
        if HalfTick(r.baud) then n.(state := RxHalfBit, baud := 0) else n
      case RxHalfBit =>
        if Tick(r.baud) then
          n.(state := RxReceiving, baud := 0, bits := ShiftIn(r.bits, r.sync.Value()), bitCnt := 7)
        else n
      case RxReceiving =>
        if !Tick(r.baud) then n
        else if r.bitCnt == 0 then n.(state := RxStopBit, baud := 0)
        else n.(bits := ShiftIn(r.bits, r.sync.Value()), bitCnt := (r.bitCnt - 1) % 8, baud := 0)
      case RxStopBit =>
        var copied := n.(byte := r.bits);
        if QuarterTick(r.baud) && r.sync.Value() then
          copied.(state := RxComplete, baud := 0, bitCnt := 0, complete := true)
        else copied
      case RxComplete => n.(complete := false, state := RxIdle);
    if !reset then s.(state := RxReset) else s
  }

  /** The receiver as instantiated, with its synchroniser. */
  class UartRx {
    var state: RxState
    const rxSync: Synchroniser
    var baudCounter: nat
    var bitCnt: nat
    var rxBits: Byte
    var rxByte: Byte
    var rxComplete: bool

    function View(): Rx
      reads this, rxSync
    {
      Rx(state, rxSync.View(), baudCounter, bitCnt, rxBits, rxByte, rxComplete)
    }

    /** Power-up: only the state is initialised. */
    constructor (sync: Synchroniser, baud: nat, cnt: nat, bits: Byte, byte: Byte, complete: bool)
      ensures rxSync == sync && View() == Rx(RxIdle, sync.View(), baud, cnt, bits, byte, complete)
    {
      state, rxSync, baudCounter, bitCnt := RxIdle, sync, baud, cnt;
      rxBits, rxByte, rxComplete := bits, byte, complete;
    }

    method Clock(reset: bool, rxIn: bool)
      modifies this, rxSync
      ensures View() == RxClock(old(View()), reset, rxIn)
    {
      hide Tick, HalfTick, QuarterTick, Advance, ShiftIn;
      var rxFallingEdge, rxSynced := rxSync.View().Falling(), rxSync.View().Value();
      var baudTick, baudHalfTick, baudQuarterTick := Tick(baudCounter), HalfTick(baudCounter), QuarterTick(baudCounter);
      rxSync.Clock(rxIn);
      baudCounter := Advance(baudCounter);
      match state {
        case RxReset =>
          rxBits := 0;
          rxComplete := false;
          state := RxIdle;
          baudCounter := 0;
          rxByte := 0;
        case RxIdle =>
          if rxFallingEdge {
            state := RxStartBit;
            rxByte := 0;
            rxBits := 0;
            baudCounter := 0;
          }
        case RxStartBit =>
          if baudHalfTick {
            state := RxHalfBit;
            baudCounter := 0;
          }
        case RxHalfBit =>
          if baudTick {
            state := RxReceiving;
            baudCounter := 0;
            rxBits := ShiftIn(rxBits, rxSynced);
            bitCnt := 7;
          }
        case RxReceiving =>
          if baudTick {
            if bitCnt == 0 {
              state := RxStopBit;
            } else {
              rxBits := ShiftIn(rxBits, rxSynced);
              bitCnt := (bitCnt - 1) % 8;
            }
            baudCounter := 0;
          }
        case RxStopBit =>
          rxByte := rxBits;
          if baudQuarterTick && rxSynced {
            state := RxComplete;
            baudCounter := 0;
            bitCnt := 0;
            rxComplete := true;
          }
        case RxComplete =>
          rxComplete := false;
          state := RxIdle;
      }
      if !reset {
        state := RxReset;
      }
    }
  }

  // ---------------------------------------------------------------
  // What the receiver does with a line
  // ---------------------------------------------------------------

  /** A line by clock: `line(n)` is rx_in at clock n.  A frame is taken to begin at clock 0. */
  type LineAt = int -> bool

  predicate FrameStart(line: LineAt) {
    line(-3) && line(-2) && line(-1) && !line(0)
  }

  /** The clock whose line value becomes data bit k. */
  function SampleClock(k: nat): nat {
    HALF + BIT * (k + 1)
  }

  /** The first n samples, shifted in. */
  function Collected(line: LineAt, n: nat): Byte {
    if n == 0 then 0 else ShiftIn(Collected(line, n - 1), line(SampleClock(n - 1)))
  }

  /** Where the receiver stands in a frame: `i` clocks after the edge was seen, after half a bit,
      after sample `k`, or after the eighth bit period. */
  datatype RxPhase = Detect(i: nat) | Start(i: nat) | Half(i: nat) | Receive(k: nat, i: nat) | Stop(i: nat)

  predicate ValidPhase(p: RxPhase) {
    match p
    case Detect(i) => i < 2
    case Start(i) => i < HALF
    case Half(i) => i < BIT
    case Receive(k, i) => k < 8 && i < BIT
    case Stop(i) => i < QUARTER
  }

  /** The clock after which the phase holds. */
  function ClockOf(p: RxPhase): nat {
    match p
    case Detect(i) => i
    case Start(i) => 2 + i
    case Half(i) => 2 + HALF + i
    case Receive(k, i) => 2 + SampleClock(k) + i
    case Stop(i) => 2 + SampleClock(8) + i
  }

  function NextPhase(p: RxPhase): (q: RxPhase)
    requires ValidPhase(p) && p != Stop(QUARTER - 1)
    ensures ValidPhase(q) && ClockOf(q) == ClockOf(p) + 1
  {
    match p
    case Detect(i) => if i < 1 then Detect(i + 1) else Start(0)
    case Start(i) => if i < HALF - 1 then Start(i + 1) else Half(0)
    case Half(i) => if i < BIT - 1 then Half(i + 1) else Receive(0, 0)
    case Receive(k, i) =>
      if i < BIT - 1 then Receive(k, i + 1) else if k < 7 then Receive(k + 1, 0) else Stop(0)
    case Stop(i) => Stop(i + 1)
  }

  predicate SyncAt(s: Sync, line: LineAt, n: int) {
    s == Sync(line(n), line(n - 1), line(n - 2))
  }

  /** The receiver's registers in each phase. */
  predicate RxAt(r: Rx, line: LineAt, p: RxPhase) {
    && ValidPhase(p) && !r.complete
    && SyncAt(r.sync, line, ClockOf(p))
    && match p
       case Detect(_) => r.state == RxIdle
       case Start(i) => r.state == RxStartBit && r.baud == i * COUNT_INC && r.bits == 0 && r.byte == 0
       case Half(i) => r.state == RxHalfBit && r.baud == i * COUNT_INC && r.bits == 0 && r.byte == 0
       case Receive(k, i) =>
         && r.state == RxReceiving && r.baud == i * COUNT_INC && r.bitCnt == 7 - k
         && r.bits == Collected(line, k + 1) && r.byte == 0
       case Stop(i) =>
         && r.state == RxStopBit && r.baud == i * COUNT_INC && r.bits == Collected(line, 8)
         && r.byte == if i == 0 then 0 else Collected(line, 8)
  }

  /** Every clock before the last takes the receiver to the next phase, whatever the line does
      after its first falling edge. */
  lemma RxAdvances(r: Rx, line: LineAt, p: RxPhase)
    requires FrameStart(line) && RxAt(r, line, p) && p != Stop(QUARTER - 1)
    ensures RxAt(RxClock(r, true, line(ClockOf(p) + 1)), line, NextPhase(p))
  {
    hide Tick, HalfTick, QuarterTick, ShiftIn;
    if p.Receive? {
      ReceiveAdvances(r, line, p.k, p.i);
    } else if !p.Detect? {
      hide Collected;
      FirstTicks(p.i);
      CollectedNext(line, 0);
    }
  }

  lemma ReceiveAdvances(r: Rx, line: LineAt, k: nat, i: nat)
    requires RxAt(r, line, Receive(k, i))
    ensures RxAt(RxClock(r, true, line(ClockOf(Receive(k, i)) + 1)), line, NextPhase(Receive(k, i)))
  {
    hide Tick, HalfTick, QuarterTick, ShiftIn, Collected;
    FirstTicks(i);
    CollectedNext(line, k + 1);
  }

  lemma CollectedNext(line: LineAt, n: nat)
    ensures Collected(line, 0) == 0
    ensures Collected(line, n + 1) == ShiftIn(Collected(line, n), line(SampleClock(n)))
  {
  }

  /** At the last clock the receiver completes exactly if the line was high two clocks earlier. */
  lemma RxCompletes(r: Rx, line: LineAt)
    requires RxAt(r, line, Stop(QUARTER - 1))
    ensures var c := ClockOf(Stop(QUARTER - 1));
      var n := RxClock(r, true, line(c + 1));
      && SyncAt(n.sync, line, c + 1)
      && n.byte == Collected(line, 8)
      && n.complete == line(c - 1)
      && n.state == if line(c - 1) then RxComplete else RxStopBit
  {
    hide Tick, HalfTick, QuarterTick, Collected;
    FirstTicks(QUARTER - 1);
  }

  /** The receiver after clocks first..last of a line. */
  function RxRun(r: Rx, line: LineAt, first: int, n: nat): Rx
    decreases n
  {
    if n == 0 then r else RxClock(RxRun(r, line, first, n - 1), true, line(first + n - 1))
  }

  predicate RxWaiting(r: Rx) {
    r.state == RxIdle && !r.complete && r.sync == Sync(true, true, true)
  }

  lemma ResetClock(r: Rx)
    ensures var q := RxClock(r, false, true); q.state == RxReset && q.sync.bit0
  {
    hide Tick, HalfTick, QuarterTick, ShiftIn, Advance;
  }

  /** Waiting with the line high, `n` clocks of it in the synchroniser. */
  predicate Cleared(r: Rx, n: nat) {
    && r.state == RxIdle && !r.complete && r.bits == 0 && r.byte == 0
    && r.sync.bit0 && r.sync.bit1 && (n >= 3 ==> r.sync.bit2)
  }

  lemma ClearedNext(r: Rx, n: nat)
    ensures r.state == RxReset && r.sync.bit0 ==> Cleared(RxClock(r, true, true), 2)
    ensures Cleared(r, n) && n >= 2 ==> Cleared(RxClock(r, true, true), n + 1)
  {
    hide Tick, HalfTick, QuarterTick, ShiftIn, Advance;
  }

  lemma {:induction false} ClearedAfter(r: Rx, n: nat)
    requires n >= 1
    ensures Cleared(RxRun(RxClock(r, false, true), k => true, 0, n), n + 1)
  {
    hide RxClock, Cleared;
    ResetClock(r);
    var q := RxRun(RxClock(r, false, true), k => true, 0, n - 1);
    if n == 1 {
      ClearedNext(q, 1);
    } else {
      ClearedAfter(r, n - 1);
      ClearedNext(q, n);
    }
  }

  /** One clock of reset and two more with the line high, from any state whatever: the receiver waits
      for a frame, with nothing collected and nothing reported. */
  lemma ResetWaits(r: Rx, n: nat)
    requires n >= 2
    ensures var q := RxRun(RxClock(r, false, true), k => true, 0, n);
      RxWaiting(q) && q.bits == 0 && q.byte == 0
  {
    hide RxClock, RxRun;
    ClearedAfter(r, n);
  }

  lemma RxBegins(r: Rx, line: LineAt)
    requires FrameStart(line) && RxWaiting(r)
    ensures RxAt(RxClock(r, true, line(0)), line, Detect(0))
  {
  }

  function PhaseAfter(n: nat): RxPhase
    requires n < 2 + SampleClock(8) + QUARTER
    ensures ValidPhase(PhaseAfter(n)) && ClockOf(PhaseAfter(n)) == n
  {
    hide NextPhase;
    if n == 0 then Detect(0) else NextPhase(PhaseAfter(n - 1))
  }

  lemma {:induction false} RxFollows(r: Rx, line: LineAt, n: nat)
    requires FrameStart(line) && RxWaiting(r) && n < 2 + SampleClock(8) + QUARTER
    ensures RxAt(RxRun(r, line, 0, n + 1), line, PhaseAfter(n))
  {
    hide RxClock, RxAt, NextPhase, RxWaiting, FrameStart;
    if n == 0 {
      RxBegins(r, line);
      assert RxRun(r, line, 0, 0) == r;
    } else {
      RxFollows(r, line, n - 1);
      RxAdvances(RxRun(r, line, 0, n), line, PhaseAfter(n - 1));
    }
  }

  // ---------------------------------------------------------------
  // What the receiver reports, for any line at all
  // ---------------------------------------------------------------

  /** Clocks from the first low clock to the completion of an undisturbed frame. */
  const FRAME := 2 + SampleClock(8) + QUARTER

  predicate Holding(r: Rx, v: Byte) {
    r.state == RxStopBit && !r.complete && r.bits == v
  }

  lemma StopStep(r: Rx, v: Byte, line: bool)
    requires Holding(r, v)
    ensures var n := RxClock(r, true, line);
      if n.complete then n.byte == v else Holding(n, v)
  {
    hide QuarterTick;
  }

  /** Run `n` clocks of the line, the receiver completes at the last and not before. */
  predicate FirstReport(r: Rx, line: LineAt, n: nat) {
    RxRun(r, line, 0, n).complete && forall k: nat :: k < n ==> !RxRun(r, line, 0, k).complete
  }

  lemma {:induction false} HoldsUntilReport(r: Rx, line: LineAt, n: nat)
    requires FrameStart(line) && RxWaiting(r) && n >= FRAME
    requires forall k: nat :: k <= n ==> !RxRun(r, line, 0, k).complete
    ensures Holding(RxRun(r, line, 0, n), Collected(line, 8))
  {
    hide RxClock, Collected, RxWaiting, FrameStart;
    if n == FRAME {
      RxFollows(r, line, FRAME - 1);
      LastPhase();
    } else {
      HoldsUntilReport(r, line, n - 1);
      assert !RxRun(r, line, 0, n).complete;
      StopStep(RxRun(r, line, 0, n - 1), Collected(line, 8), line(n - 1));
    }
  }

  lemma LastPhase()
    ensures PhaseAfter(FRAME - 1) == Stop(QUARTER - 1)
  {
    hide PhaseAfter;
    assert ClockOf(PhaseAfter(FRAME - 1)) == FRAME - 1;
  }

  /** Whatever a line does after its first falling edge, the first byte reported is made of its
      values at the eight sample clocks, least significant first. */
  lemma ReportsSamples(r: Rx, line: LineAt, n: nat)
    requires FrameStart(line) && RxWaiting(r) && FirstReport(r, line, n)
    ensures RxRun(r, line, 0, n).byte == Collected(line, 8)
  {
    hide RxClock, Collected, FrameStart, PhaseAfter, Holding;
    if n == 0 {
    } else if n <= FRAME {
      RxFollows(r, line, n - 1);
    } else {
      HoldsUntilReport(r, line, n - 1);
      StopStep(RxRun(r, line, 0, n - 1), Collected(line, 8), line(n - 1));
    }
  }

  /** With the line high in time for the stop bit, the report comes after exactly FRAME + 1 clocks,
      lasts one clock, and leaves the receiver waiting if the line stays high. */
  lemma ReportsOnTime(r: Rx, line: LineAt)
    requires FrameStart(line) && RxWaiting(r) && line(FRAME - 2)
    ensures FirstReport(r, line, FRAME + 1)
    ensures line(FRAME - 1) && line(FRAME) && line(FRAME + 1) ==> RxWaiting(RxRun(r, line, 0, FRAME + 2))
  {
    hide RxClock, Collected, FrameStart, PhaseAfter;
    forall k: nat | k <= FRAME ensures !RxRun(r, line, 0, k).complete {
      if k == 0 {
        assert RxRun(r, line, 0, 0) == r;
      } else {
        RxFollows(r, line, k - 1);
      }
    }
    RxFollows(r, line, FRAME - 1);
    LastPhase();
    RxCompletes(RxRun(r, line, 0, FRAME), line);
    CompleteLasts(RxRun(r, line, 0, FRAME + 1), line(FRAME + 1));
  }

  lemma CompleteLasts(r: Rx, line: bool)
    requires r.state == RxComplete
    ensures var n := RxClock(r, true, line);
      n.state == RxIdle && !n.complete && n.sync == SyncClock(r.sync, line)
  {
  }

  // ---------------------------------------------------------------
  // Samples of a byte
  // ---------------------------------------------------------------

  /** The samples are the bits of `b`, least significant first. */
  predicate SamplesAre(line: LineAt, b: Byte, n: nat) {
    forall k: nat :: k < n ==> line(SampleClock(k)) == (Bit(b, k) == 1)
  }

  lemma {:induction false} BitSplit(x: nat, k: nat)
    ensures x % Pow2(k + 1) == x % Pow2(k) + Bit(x, k) * Pow2(k)
  {
    if k == 0 {
    } else {
      BitSplit(x / 2, k - 1);
      ModHalf(x, Pow2(k - 1));
      ModHalf(x, Pow2(k));
      assert Pow2(k) == 2 * Pow2(k - 1);
      assert Bit(x, k) * Pow2(k) == 2 * (Bit(x / 2, k - 1) * Pow2(k - 1));
    }
  }

  lemma {:induction false} CollectsPrefix(line: LineAt, b: Byte, n: nat)
    requires n <= 8 && SamplesAre(line, b, n)
    ensures Collected(line, n) == b % Pow2(n) * Pow2(8 - n)
  {
    if n == 0 {
    } else {
      hide Collected, SampleClock;
      CollectsPrefix(line, b, n - 1);
      CollectedNext(line, n - 1);
      BitSplit(b, n - 1);
      var low := b % Pow2(n - 1);
      var s := Bit(b, n - 1);
      assert line(SampleClock(n - 1)) == (s == 1);
      ShiftedIn(low, s, n);
    }
  }

  lemma ShiftedIn(low: nat, s: Bit01, n: nat)
    requires 1 <= n <= 8
    ensures (if s == 1 then 0x80 else 0) + low * Pow2(9 - n) / 2 == (low + s * Pow2(n - 1)) * Pow2(8 - n)
  {
    var p, q := Pow2(8 - n), Pow2(n - 1);
    Pow2Add(n - 1, 8 - n);
    assert Pow2(9 - n) == 2 * p;
    assert q * p == Pow2(7) == 0x80;
    hide Pow2;
    assert low * (2 * p) == low * p * 2;
    DivideUnique(low * (2 * p), 2, low * p, 0);
    assert (low + s * q) * p == low * p + s * q * p;
    if s == 1 {
      assert s * q * p == 0x80;
    }
  }

  /** Eight samples that are the bits of `b` collect to `b`. */
  lemma CollectsByte(line: LineAt, b: Byte)
    requires SamplesAre(line, b, 8)
    ensures Collected(line, 8) == b
  {
    hide Collected;
    CollectsPrefix(line, b, 8);
    assert Pow2(8) == 0x100;
  }

  /** The last sample is the top bit. */
  lemma TopSample(line: LineAt)
    ensures Collected(line, 8) >= 0x80 <==> line(SampleClock(7))
  {
    hide Collected;
    CollectedNext(line, 7);
  }
}
