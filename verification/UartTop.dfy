/** The UART demonstration top: it receives a byte and replies "Ok", carriage return, line feed.
    Its next state is itself a register, so every control state lasts at least two clocks. */
module UartTop {
  import opened Bits
  import opened UartTiming
  import opened CDCSynchron
  import Tx = UARTTx
  import Rx = UARTRx

  datatype ControlState = CSReset | CSReset1 | CSResetComplete | CSIdle | CSSend | CSSending | CSStop

  datatype Registers = Registers(
    state: ControlState, nextState: ControlState, reset: bool, cntByte: nat, txEn: bool, txByte: Byte,
    displayByte: Byte)

  /** The three parts, the bytes accepted while idle, and the bytes whose transmission started. */
  datatype Top = Top(r: Registers, tx: Tx.Tx, rx: Rx.Rx, accepted: seq<Byte>, started: seq<Byte>)

  const Reply: seq<Byte> := [0x4F, 0x6B, 0x0D, 0x0A]

  function ReplyByte(cnt: nat): Byte {
    if cnt == 0 then 0x4F else if cnt == 1 then 0x6B else if cnt == 2 then 0x0D else 0x0A
  }

  function Digit(byte: Byte): Byte {
    if byte > 0x39 then (byte - 0x57) % 0x100 else (byte - 0x30) % 0x100
  }

  /** One clock of the control block. */
  function ControlClock(r: Registers, rxComplete: bool, rxByte: Byte, txComplete: bool): Registers {
    var n := r.(state := r.nextState);
    match r.state
    case CSReset => n.(reset := true, cntByte := 0, txEn := true, nextState := CSReset1)
    case CSReset1 => n.(reset := false, nextState := CSResetComplete)
    case CSResetComplete => n.(reset := true, nextState := CSIdle)
    case CSIdle => if rxComplete then n.(displayByte := Digit(rxByte), nextState := CSSend) else n
    case CSSend => n.(txEn := false, nextState := CSSending, txByte := ReplyByte(r.cntByte))
    case CSSending =>
      var s := n.(txEn := true);
      if !txComplete then s
      else if r.cntByte == 3 then s.(nextState := CSIdle, cntByte := 0)
      else s.(nextState := CSSend, cntByte := (r.cntByte + 1) % 4)
    case CSStop => n
  }

  function TopClock(t: Top, line: bool): Top {
    Top(
      ControlClock(t.r, t.rx.complete, t.rx.byte, t.tx.complete),
      Tx.TxClock(t.tx, t.r.txEn, t.r.txByte),
      Rx.RxClock(t.rx, t.r.reset, line),
      if t.r.state == CSIdle && t.rx.complete then t.accepted + [t.rx.byte] else t.accepted,
      if t.tx.state == Tx.TxIdle && !t.r.txEn then t.started + [t.r.txByte] else t.started)
  }

  function TopRun(t: Top, line: nat -> bool, n: nat): Top {
    if n == 0 then t else TopClock(TopRun(t, line, n - 1), line(n - 1))
  }

  /** The top module as wired. */
  class UartTopModule {
    const uartTx: Tx.UartTx
    const uartRx: Rx.UartRx
    var state: ControlState
    var nextState: ControlState
    var reset: bool
    var cntByte: nat
    var txEn: bool
    var txByte: Byte
    var displayByte: Byte
    ghost var accepted: seq<Byte>
    ghost var started: seq<Byte>

    function Control(): Registers
      reads this
    {
      Registers(state, nextState, reset, cntByte, txEn, txByte, displayByte)
    }

    ghost function View(): Top
      reads this, uartTx, uartRx, uartRx.rxSync
    {
      Top(Control(), uartTx.View(), uartRx.View(), accepted, started)
    }

    /** Power-up: only the two state registers are initialised. */
    constructor (tx: Tx.UartTx, rx: Rx.UartRx, rst: bool, cnt: nat, en: bool, byte: Byte, display: Byte)
      ensures uartTx == tx && uartRx == rx
      ensures View() == Top(Registers(CSReset, CSReset, rst, cnt, en, byte, display), tx.View(), rx.View(), [], [])
    {
      uartTx, uartRx := tx, rx;
      state, nextState, reset, cntByte, txEn, txByte, displayByte := CSReset, CSReset, rst, cnt, en, byte, display;
      accepted, started := [], [];
    }

    method Clock(rxIn: bool)
      modifies this, uartTx, uartRx, uartRx.rxSync
      ensures View() == TopClock(old(View()), rxIn)
    {
      hide Tx.TxClock, Rx.RxClock, ControlClock;
      var rxComplete, rxByte, txComplete := uartRx.rxComplete, uartRx.rxByte, uartTx.txComplete;
      ghost var accepts, starts := state == CSIdle && rxComplete, uartTx.state == Tx.TxIdle && !txEn;
      ghost var sentByte := txByte;
      uartTx.Clock(txEn, txByte);
      uartRx.Clock(reset, rxIn);
      ControlBlock(rxComplete, rxByte, txComplete);
      if accepts {
        accepted := accepted + [rxByte];
      }
      if starts {
        started := started + [sentByte];
      }
    }

    /** The case statement of the control block. */
    method ControlBlock(rxComplete: bool, rxByte: Byte, txComplete: bool)
      modifies this`state, this`nextState, this`reset, this`cntByte, this`txEn, this`txByte, this`displayByte
      ensures Control() == ControlClock(old(Control()), rxComplete, rxByte, txComplete)
    {
      var oldNext := nextState;
      match state {
        case CSReset =>
          reset := true;
          cntByte := 0;
          txEn := true;
          nextState := CSReset1;
        case CSReset1 =>
          reset := false;
          nextState := CSResetComplete;
        case CSResetComplete =>
          reset := true;
          nextState := CSIdle;
        case CSIdle =>
          if rxComplete {
            if rxByte > 0x39 {
              displayByte := (rxByte - 0x57) % 0x100;
            } else {
              displayByte := (rxByte - 0x30) % 0x100;
            }
            nextState := CSSend;
          }
        case CSSend =>
          txEn := false;
          nextState := CSSending;
          txByte := ReplyByte(cntByte);
        case CSSending =>
          txEn := true;
          if txComplete {
            if cntByte == 3 {
              nextState := CSIdle;
              cntByte := 0;
            } else {
              nextState := CSSend;
              cntByte := (cntByte + 1) % 4;
            }
          }
        case CSStop =>
      }
      state := oldNext;
    }
  }

  // ---------------------------------------------------------------
  // The reply protocol
  // ---------------------------------------------------------------

  /** `n` whole replies. */
  function Replies(n: nat): seq<Byte> {
    if n == 0 then [] else Replies(n - 1) + Reply
  }

  /** Where the control block stands: idle; about to send byte j (three clocks); sending it, with
      the transmitter in phase p; or leaving after the last byte. */
  datatype TopPhase = Ready | Accepted(j: nat) | Loading(j: nat) | Enabling(j: nat)
                    | Sending(j: nat, p: Tx.TxPhase) | Finishing

  function NextPhase(t: TopPhase, rxComplete: bool): TopPhase {
    match t
    case Ready => if rxComplete then Accepted(0) else Ready
    case Accepted(j) => Loading(j)
    case Loading(j) => Enabling(j)
    case Enabling(j) => Sending(j, Tx.Slot(ReplyByte(j), 0, 0))
    case Sending(j, p) =>
      var q := Tx.NextPhase(p, true, 0);
      if q != Tx.Quiet then Sending(j, q) else if j < 3 then Accepted(j + 1) else Finishing
    case Finishing => Ready
  }

  /** Outside reset the receiver shows rx_complete exactly in its one-clock state. */
  predicate RxSane(r: Rx.Rx) {
    r.complete <==> r.state == Rx.RxComplete
  }

  predicate ControlAt(r: Registers, state: ControlState, next: ControlState, cnt: nat, en: bool) {
    r.state == state && r.nextState == next && r.cntByte == cnt && r.txEn == en && r.reset
  }

  predicate TopAt(t: Top, p: TopPhase) {
    && RxSane(t.rx)
    && (p.Accepted? || p.Loading? || p.Enabling? || p.Sending? ==> p.j < 4 && |t.accepted| > 0)
    && Tx.TxAt(t.tx, if p.Sending? then p.p else Tx.Quiet)
    && match p
       case Ready => ControlAt(t.r, CSIdle, CSIdle, 0, true) && t.started == Replies(|t.accepted|)
       case Accepted(j) =>
         && (if j == 0 then ControlAt(t.r, CSIdle, CSSend, 0, true) && !t.rx.complete
             else ControlAt(t.r, CSSending, CSSend, j, true))
         && t.started == Replies(|t.accepted| - 1) + Reply[..j]
       case Loading(j) =>
         ControlAt(t.r, CSSend, CSSend, j, true) && t.started == Replies(|t.accepted| - 1) + Reply[..j]
       case Enabling(j) =>
         && ControlAt(t.r, CSSend, CSSending, j, false) && t.r.txByte == Reply[j]
         && t.started == Replies(|t.accepted| - 1) + Reply[..j]
       case Sending(j, s) =>
         && s != Tx.Quiet && s.byte == Reply[j]
         && ControlAt(t.r, CSSending, CSSending, j, s != Tx.Slot(s.byte, 0, 0))
         && t.started == Replies(|t.accepted| - 1) + Reply[..j + 1]
       case Finishing => ControlAt(t.r, CSSending, CSIdle, 0, true) && t.started == Replies(|t.accepted|)
  }

  lemma RxStaysSane(r: Rx.Rx, line: bool)
    requires RxSane(r)
    ensures RxSane(Rx.RxClock(r, true, line))
    ensures r.complete ==> !Rx.RxClock(r, true, line).complete
  {
    hide Tick, HalfTick, QuarterTick, Rx.ShiftIn;
  }

  lemma ReplyPrefix(j: nat)
    requires j < 4
    ensures ReplyByte(j) == Reply[j] && Reply[..j + 1] == Reply[..j] + [Reply[j]] && Reply[..4] == Reply
  {
  }

  lemma TxHeld(t: Tx.Tx, p: Tx.TxPhase, en: bool, byte: Byte)
    requires Tx.TxAt(t, p)
    ensures Tx.TxAt(Tx.TxClock(t, en, byte),
                    if p == Tx.Quiet then Tx.NextPhase(p, en, byte) else Tx.NextPhase(p, true, 0))
    ensures Tx.NextPhase(Tx.Quiet, en, byte) == if en then Tx.Quiet else Tx.Slot(byte, 0, 0)
    ensures t.complete <==> p.Completing?
    ensures (t.state == Tx.TxIdle) <==> p == Tx.Quiet
    ensures p != Tx.Quiet ==> var q := Tx.NextPhase(p, true, 0);
      (q == Tx.Quiet <==> p.Completing?) && (q != Tx.Quiet ==> q.byte == p.byte && q != Tx.Slot(q.byte, 0, 0))
  {
    hide Tx.TxClock, Tx.Line;
    Tx.TxAdvances(t, p, en, byte);
  }

  /** Every clock takes the module from one phase of the reply to the next. */
  lemma TopAdvances(t: Top, p: TopPhase, line: bool)
    requires TopAt(t, p)
    ensures TopAt(TopClock(t, line), NextPhase(p, t.rx.complete))
  {
    if p.Sending? {
      SendingAdvances(t, p, line);
    } else if p.Ready? || p.Finishing? {
      IdleAdvances(t, p, line);
    } else {
      WaitingAdvances(t, p, line);
    }
  }

  lemma SendingAdvances(t: Top, p: TopPhase, line: bool)
    requires TopAt(t, p) && p.Sending?
    ensures TopAt(TopClock(t, line), NextPhase(p, t.rx.complete))
  {
    hide Tx.TxClock, Rx.RxClock, Tx.TxAt, Tx.NextPhase, RxSane, Digit, ReplyByte;
    RxStaysSane(t.rx, line);
    TxHeld(t.tx, p.p, t.r.txEn, t.r.txByte);
    ReplyPrefix(p.j);
  }

  lemma IdleAdvances(t: Top, p: TopPhase, line: bool)
    requires TopAt(t, p) && (p.Ready? || p.Finishing?)
    ensures TopAt(TopClock(t, line), NextPhase(p, t.rx.complete))
  {
    hide Tx.TxClock, Rx.RxClock, Tx.TxAt, Tx.NextPhase, RxSane, Digit, ReplyByte;
    RxStaysSane(t.rx, line);
    TxHeld(t.tx, Tx.Quiet, t.r.txEn, t.r.txByte);
  }

  lemma WaitingAdvances(t: Top, p: TopPhase, line: bool)
    requires TopAt(t, p) && (p.Accepted? || p.Loading? || p.Enabling?)
    ensures TopAt(TopClock(t, line), NextPhase(p, t.rx.complete))
  {
    hide Tx.TxClock, Rx.RxClock, Tx.TxAt, Tx.NextPhase, RxSane, Digit, ReplyByte;
    RxStaysSane(t.rx, line);
    TxHeld(t.tx, Tx.Quiet, t.r.txEn, t.r.txByte);
    ReplyPrefix(p.j);
  }

  // ---------------------------------------------------------------
  // Whole runs
  // ---------------------------------------------------------------

  /** Power-up: three state registers have their initial values, everything else is arbitrary. */
  predicate PoweredUp(t: Top) {
    && t.r.state == CSReset && t.r.nextState == CSReset
    && t.tx.state == Tx.TxReset && t.rx.state == Rx.RxIdle
    && t.accepted == [] && t.started == []
  }

  predicate Starting(t: Top, state: ControlState, next: ControlState) {
    && t.r.state == state && t.r.nextState == next && t.r.txEn && t.r.cntByte == 0
    && t.tx.state == Tx.TxIdle && !t.tx.complete
    && t.accepted == [] && t.started == []
  }

  lemma StartingSteps(t: Top, line: bool)
    ensures var n := TopClock(t, line);
      && (PoweredUp(t) ==> Starting(n, CSReset, CSReset1))
      && (Starting(t, CSReset, CSReset1) ==> Starting(n, CSReset1, CSReset1) && n.tx.out)
      && (Starting(t, CSReset1, CSReset1) ==> Starting(n, CSReset1, CSResetComplete) && n.tx.out && !n.r.reset)
      && (Starting(t, CSReset1, CSResetComplete) ==>
            Starting(n, CSResetComplete, CSResetComplete) && n.tx.out && !n.r.reset
            && (!t.r.reset ==> n.rx.state == Rx.RxReset))
      && (Starting(t, CSResetComplete, CSResetComplete) && t.rx.state == Rx.RxReset && !t.r.reset ==>
            Starting(n, CSResetComplete, CSIdle) && n.tx.out && n.r.reset && n.rx.state == Rx.RxReset && !n.rx.complete)
      && (Starting(t, CSResetComplete, CSIdle) && t.r.reset && t.rx.state == Rx.RxReset ==>
            TopAt(n, Ready) && n.accepted == [])
  {
    hide Tick, HalfTick, QuarterTick, Rx.ShiftIn, Digit, Advance, ReplyByte, Tx.Line;
  }

  /** Six clocks after power-up, whatever the uninitialised registers held, the module is idle. */
  lemma PowerUpReady(t: Top, line: nat -> bool)
    requires PoweredUp(t)
    ensures var r := TopRun(t, line, 6);
      TopAt(r, Ready) && r.accepted == []
  {
    hide TopClock, TopRun, TopAt, PoweredUp, Starting;
    RunNext(t, line, 0);
    RunNext(t, line, 1);
    RunNext(t, line, 2);
    RunNext(t, line, 3);
    RunNext(t, line, 4);
    RunNext(t, line, 5);
    StartingSteps(t, line(0));
    StartingSteps(TopRun(t, line, 1), line(1));
    StartingSteps(TopRun(t, line, 2), line(2));
    StartingSteps(TopRun(t, line, 3), line(3));
    StartingSteps(TopRun(t, line, 4), line(4));
    StartingSteps(TopRun(t, line, 5), line(5));
  }

  lemma RunNext(t: Top, line: nat -> bool, n: nat)
    ensures TopRun(t, line, n + 1) == TopClock(TopRun(t, line, n), line(n))
    ensures TopRun(t, line, 0) == t
  {
    hide TopClock;
  }

  lemma {:induction false} AlwaysInSomePhase(t: Top, line: nat -> bool, n: nat) returns (p: TopPhase)
    requires PoweredUp(t) && n >= 6
    ensures TopAt(TopRun(t, line, n), p)
  {
    hide TopClock, TopAt, NextPhase, PoweredUp;
    if n == 6 {
      PowerUpReady(t, line);
      p := Ready;
    } else {
      var p0 := AlwaysInSomePhase(t, line, n - 1);
      var r := TopRun(t, line, n - 1);
      TopAdvances(r, p0, line(n - 1));
      p := NextPhase(p0, r.rx.complete);
    }
  }

  lemma PhaseLogs(t: Top, p: TopPhase)
    requires TopAt(t, p)
    ensures t.started <= Replies(|t.accepted|)
    ensures t.r.state == CSIdle && t.r.nextState == CSIdle ==> t.started == Replies(|t.accepted|)
  {
    hide Tx.TxAt, RxSane;
    if p.Accepted? || p.Loading? || p.Enabling? || p.Sending? {
      var j := if p.Sending? then p.j + 1 else p.j;
      var n := |t.accepted|;
      assert Replies(n) == Replies(n - 1) + Reply;
      assert Reply[..j] <= Reply;
    }
  }

  /** From power-up and for any line, every byte accepted while idle starts exactly the frames
      4F 6B 0D 0A, in order, each once: what has been sent is a prefix of one reply per accepted
      byte, and all of it whenever the module is idle again. */
  lemma RepliesExactly(t: Top, line: nat -> bool, n: nat)
    requires PoweredUp(t) && n >= 6
    ensures var r := TopRun(t, line, n);
      && r.started <= Replies(|r.accepted|)
      && (r.r.state == CSIdle && r.r.nextState == CSIdle ==> r.started == Replies(|r.accepted|))
  {
    hide TopRun, PoweredUp, TopAt;
    var p := AlwaysInSomePhase(t, line, n);
    PhaseLogs(TopRun(t, line, n), p);
  }

  /** Clocks left in a reply. */
  function Remaining(p: TopPhase): int {
    match p
    case Ready => 0
    case Accepted(j) => 1 + (4 - j) * 2195
    case Loading(j) => (4 - j) * 2195
    case Enabling(j) => (4 - j) * 2195 - 1
    case Sending(j, q) => 1 + (4 - j) * 2195 - 3 - Tx.Elapsed(q)
    case Finishing => 1
  }

  lemma RemainingFalls(t: Top, p: TopPhase)
    requires TopAt(t, p) && p != Ready
    ensures Remaining(p) >= 1 && Remaining(NextPhase(p, t.rx.complete)) == Remaining(p) - 1
    ensures Remaining(p) == 1 ==> NextPhase(p, t.rx.complete) == Ready
  {
    hide Tx.Line, RxSane, Replies;
  }

  lemma {:induction false} ReplyRuns(t: Top, p: TopPhase, line: nat -> bool, n: nat) returns (q: TopPhase)
    requires TopAt(t, p) && p != Ready && n <= Remaining(p)
    ensures TopAt(TopRun(t, line, n), q) && Remaining(q) == Remaining(p) - n && (q == Ready <==> n == Remaining(p))
  {
    hide TopClock, TopAt, NextPhase;
    if n == 0 {
      q := p;
      RemainingFalls(t, p);
    } else {
      var q0 := ReplyRuns(t, p, line, n - 1);
      var r := TopRun(t, line, n - 1);
      RemainingFalls(r, q0);
      TopAdvances(r, q0, line(n - 1));
      q := NextPhase(q0, r.rx.complete);
      if q != Ready {
        RemainingFalls(TopRun(t, line, n), q);
      }
    }
  }

  predicate ShowsIdle(t: Top) {
    t.r.state == CSIdle && t.r.nextState == CSIdle
  }

  lemma IdleInReady(t: Top, p: TopPhase)
    requires TopAt(t, p)
    ensures ShowsIdle(t) <==> p == Ready
  {
    hide Tx.TxAt, RxSane, Replies;
  }

  /** A reply takes exactly 8782 clocks from the clock that accepts a byte: the module is idle then and
      at no clock between, whatever the line does meanwhile. */
  lemma ReplyTakes(t: Top, line: nat -> bool, n: nat)
    requires TopAt(t, Ready) && t.rx.complete && 1 <= n <= 8782
    ensures ShowsIdle(TopRun(t, line, n)) <==> n == 8782
    ensures n == 8782 ==> TopAt(TopRun(t, line, n), Ready)
  {
    hide TopClock, TopAt;
    TopAdvances(t, Ready, line(0));
    var t1 := TopClock(t, line(0));
    var later := (k: nat) => line(k + 1);
    var q := ReplyRuns(t1, Accepted(0), later, n - 1);
    RunShift(t, line, later, n - 1);
    IdleInReady(TopRun(t1, later, n - 1), q);
  }

  lemma {:induction false} RunShift(t: Top, line: nat -> bool, later: nat -> bool, n: nat)
    requires forall k: nat :: later(k) == line(k + 1)
    ensures TopRun(t, line, n + 1) == TopRun(TopClock(t, line(0)), later, n)
  {
    hide TopClock;
    if n > 0 {
      RunShift(t, line, later, n - 1);
    } else {
      assert TopRun(t, line, 0) == t;
      assert TopRun(TopClock(t, line(0)), later, 0) == TopClock(t, line(0));
    }
  }

  // ---------------------------------------------------------------
  // The display
  // ---------------------------------------------------------------

  /** The value of an ASCII hexadecimal digit, lower case. */
  predicate HexDigit(byte: Byte, v: nat) {
    v < 16 && byte == if v < 10 then 0x30 + v else 0x61 + (v - 10)
  }

  lemma DigitShown(byte: Byte, v: nat)
    requires HexDigit(byte, v)
    ensures Digit(byte) == v && v % 16 == v && v / 16 % 16 == 0
  {
  }

  /** The two digits of the display show v if v is the last byte accepted. */
  predicate Shows(t: Top, v: nat) {
    t.accepted != [] && HexDigit(t.accepted[|t.accepted| - 1], v) ==>
      t.r.displayByte % 16 == v && t.r.displayByte / 16 % 16 == 0
  }

  lemma DisplayNext(t: Top, line: bool)
    ensures var n, takes := TopClock(t, line), t.r.state == CSIdle && t.rx.complete;
      && n.accepted == (if takes then t.accepted + [t.rx.byte] else t.accepted)
      && n.r.displayByte == (if takes then Digit(t.rx.byte) else t.r.displayByte)
  {
    hide Tx.TxClock, Rx.RxClock, ReplyByte, Digit;
  }

  lemma ShowsNext(t: Top, line: bool, v: nat)
    requires Shows(t, v)
    ensures Shows(TopClock(t, line), v)
  {
    DisplayNext(t, line);
    if HexDigit(t.rx.byte, v) {
      DigitShown(t.rx.byte, v);
    }
    hide TopClock, HexDigit, Digit;
  }

  /** Over any run from power-up: the seven-segment pair shows the last accepted byte, a hexadecimal
      digit as its value in the right place and zero in the left one; it stays until the next byte. */
  lemma {:induction false} ShowsLastAccepted(t: Top, line: nat -> bool, n: nat, v: nat)
    requires PoweredUp(t)
    ensures Shows(TopRun(t, line, n), v)
    decreases n
  {
    hide TopClock;
    if n == 0 {
    } else {
      ShowsLastAccepted(t, line, n - 1, v);
      ShowsNext(TopRun(t, line, n - 1), line(n - 1), v);
    }
  }
}
