/** A transmitter wired to a receiver through the synchroniser. */
module UartLink {
  import opened Bits
  import opened UartTiming
  import opened CDCSynchron
  import Tx = UARTTx
  import Rx = UARTRx

  /** The two machines, the bytes the transmitter accepted and the bytes read from the receiver
      by whoever samples rx_byte at each clock that shows rx_complete. */
  datatype Link = Link(tx: Tx.Tx, rx: Rx.Rx, sent: seq<Byte>, received: seq<Byte>)

  datatype Drive = Drive(en: bool, byte: Byte)

  function LinkClock(l: Link, d: Drive): Link {
    Link(
      Tx.TxClock(l.tx, d.en, d.byte),
      Rx.RxClock(l.rx, true, l.tx.out),
      if l.tx.state == Tx.TxIdle && !d.en then l.sent + [d.byte] else l.sent,
      if l.rx.complete then l.received + [l.rx.byte] else l.received)
  }

  function LinkRun(l: Link, drive: nat -> Drive, n: nat): Link {
    if n == 0 then l else LinkClock(LinkRun(l, drive, n - 1), drive(n - 1))
  }

  /** The waveform of a byte as the receiver's synchroniser sees it, one clock after the
      transmitter drives it. */
  function Waveform(b: Byte): Rx.LineAt {
    n => Tx.Line(b, n)
  }

  lemma SlotOf(c: int, k: nat)
    requires k <= 7 && BIT * (k + 1) < c < BIT * (k + 2)
    ensures (c - 1) / BIT == k + 1
  {
  }

  /** The receiver samples every data bit well inside its slot. */
  lemma WaveformSamples(b: Byte)
    ensures Rx.FrameStart(Waveform(b)) && Rx.SamplesAre(Waveform(b), b, 8) && Waveform(b)(Rx.FRAME - 2)
  {
    hide Bit;
    forall k: nat | k < 8 ensures Waveform(b)(Rx.SampleClock(k)) == (Bit(b, k) == 1) {
      SlotOf(Rx.SampleClock(k), k);
    }
  }

  /** The receiver's registers `c` clocks after the transmitter pulled the line low. */
  predicate RxDuring(r: Rx.Rx, b: Byte, c: nat) {
    if c == 0 then Rx.RxWaiting(r)
    else if c <= Rx.FRAME then Rx.RxAt(r, Waveform(b), Rx.PhaseAfter(c - 1))
    else if c == Rx.FRAME + 1 then
      r.state == Rx.RxComplete && r.complete && r.byte == b && r.sync == Sync(true, true, true)
    else Rx.RxWaiting(r)
  }

  predicate Busy(l: Link, p: Tx.TxPhase, b: Byte) {
    && p != Tx.Quiet && p.byte == b && Tx.TxAt(l.tx, p) && 0 <= Tx.Elapsed(p)
    && RxDuring(l.rx, b, Tx.Elapsed(p))
    && l.sent == (if Tx.Elapsed(p) <= Rx.FRAME + 1 then l.received + [b] else l.received)
  }

  predicate Idle(l: Link) {
    Tx.TxAt(l.tx, Tx.Quiet) && Rx.RxWaiting(l.rx) && l.sent == l.received
  }

  predicate Inv(l: Link, p: Tx.TxPhase) {
    if p == Tx.Quiet then Idle(l) else Busy(l, p, p.byte)
  }

  lemma RxDuringAdvances(r: Rx.Rx, b: Byte, c: nat)
    requires RxDuring(r, b, c) && c < Rx.FRAME
    ensures RxDuring(Rx.RxClock(r, true, Tx.Line(b, c)), b, c + 1)
  {
    hide Rx.RxClock, Rx.RxAt, Rx.NextPhase, Rx.RxWaiting, Rx.FrameStart, Tx.Line;
    WaveformSamples(b);
    var line := Waveform(b);
    assert line(c) == Tx.Line(b, c);
    if c == 0 {
      Rx.RxBegins(r, line);
    } else {
      Rx.RxAdvances(r, line, Rx.PhaseAfter(c - 1));
      assert Rx.PhaseAfter(c) == Rx.NextPhase(Rx.PhaseAfter(c - 1));
    }
  }

  lemma StopLineHigh(b: Byte, c: int)
    requires c >= 9 * BIT
    ensures Tx.Line(b, c)
  {
  }

  lemma RxDuringEnds(r: Rx.Rx, b: Byte, c: nat)
    requires RxDuring(r, b, c) && c >= Rx.FRAME
    ensures RxDuring(Rx.RxClock(r, true, true), b, c + 1)
  {
    hide Rx.RxClock, Rx.Collected, Rx.SamplesAre, Rx.FrameStart, Tx.Line, Rx.PhaseAfter;
    if c == Rx.FRAME {
      var line := Waveform(b);
      WaveformSamples(b);
      Rx.LastPhase();
      StopLineHigh(b, Rx.FRAME);
      StopLineHigh(b, Rx.FRAME - 1);
      assert line(Rx.FRAME) == Tx.Line(b, Rx.FRAME);
      assert line(Rx.FRAME - 1) == Tx.Line(b, Rx.FRAME - 1);
      Rx.RxCompletes(r, line);
      Rx.CollectsByte(line, b);
    } else if c == Rx.FRAME + 1 {
      Rx.CompleteLasts(r, true);
    } else {
      WaitingLasts(r);
    }
  }

  lemma WaitingLasts(r: Rx.Rx)
    requires Rx.RxWaiting(r)
    ensures Rx.RxWaiting(Rx.RxClock(r, true, true))
  {
  }

  lemma OutputInPhase(t: Tx.Tx, p: Tx.TxPhase)
    requires Tx.TxAt(t, p) && p != Tx.Quiet
    ensures t.out == Tx.Line(p.byte, Tx.Elapsed(p)) && Tx.Elapsed(p) >= 0
    ensures Tx.Elapsed(p) >= 9 * BIT ==> t.out
  {
    hide Bit;
  }

  lemma RxComplete(r: Rx.Rx, b: Byte, c: nat)
    requires RxDuring(r, b, c)
    ensures r.complete <==> c == Rx.FRAME + 1
    ensures r.complete ==> r.byte == b
  {
  }

  lemma PhaseClock(p: Tx.TxPhase, en: bool, byte: Byte)
    requires Tx.ValidPhase(p) && p != Tx.Quiet
    ensures var q := Tx.NextPhase(p, en, byte);
      if q == Tx.Quiet then Tx.Elapsed(p) > Rx.FRAME + 1
      else q.byte == p.byte && Tx.Elapsed(q) == Tx.Elapsed(p) + 1
  {
  }

  /** Every clock keeps the two machines in step. */
  lemma LinkAdvances(l: Link, p: Tx.TxPhase, d: Drive)
    requires Inv(l, p)
    ensures Inv(LinkClock(l, d), Tx.NextPhase(p, d.en, d.byte))
  {
    hide Tx.TxClock, Rx.RxClock, RxDuring, Tx.Elapsed, Tx.Line, Rx.RxWaiting;
    Tx.TxAdvances(l.tx, p, d.en, d.byte);
    if p == Tx.Quiet {
      hide Tx.TxAt;
      QuietStep(l, d);
    } else {
      var c := Tx.Elapsed(p);
      OutputInPhase(l.tx, p);
      PhaseClock(p, d.en, d.byte);
      RxComplete(l.rx, p.byte, c);
      if c < Rx.FRAME {
        RxDuringAdvances(l.rx, p.byte, c);
      } else {
        RxDuringEnds(l.rx, p.byte, c);
      }
      AfterFrame(Rx.RxClock(l.rx, true, l.tx.out), p.byte, c + 1);
    }
  }

  lemma AfterFrame(r: Rx.Rx, b: Byte, c: nat)
    ensures RxDuring(r, b, c) && c > Rx.FRAME + 1 ==> Rx.RxWaiting(r)
  {
  }

  lemma QuietStep(l: Link, d: Drive)
    requires Idle(l)
    ensures Inv(LinkClock(l, d), Tx.NextPhase(Tx.Quiet, d.en, d.byte))
  {
    hide Tx.TxClock, Rx.RxClock, Tx.Line;
    Tx.TxAdvances(l.tx, Tx.Quiet, d.en, d.byte);
    WaitingLasts(l.rx);
  }

  /** End to end: whatever is driven into the transmitter, for however long, the bytes received are
      the bytes sent, in order and each exactly once; at most one is in flight, and none once the
      transmitter is idle again. */
  lemma {:induction false} EverythingArrives(l: Link, drive: nat -> Drive, n: nat) returns (p: Tx.TxPhase)
    requires Idle(l)
    ensures var r := LinkRun(l, drive, n);
      && Inv(r, p)
      && r.received <= r.sent && |r.sent| <= |r.received| + 1
      && (r.tx.state == Tx.TxIdle ==> r.received == r.sent)
  {
    hide LinkClock, Tx.NextPhase, RxDuring, Rx.RxWaiting, Tx.Elapsed, Tx.Line;
    if n == 0 {
      p := Tx.Quiet;
    } else {
      var p0 := EverythingArrives(l, drive, n - 1);
      var d := drive(n - 1);
      p := Tx.NextPhase(p0, d.en, d.byte);
      LinkAdvances(LinkRun(l, drive, n - 1), p0, d);
    }
  }

  /** The phase `c` clocks after the line went low. */
  function PhaseOf(b: Byte, c: nat): Tx.TxPhase
    requires c <= BIT * 10 + 1
    ensures var p := PhaseOf(b, c); p != Tx.Quiet && p.byte == b && Tx.ValidPhase(p) && Tx.Elapsed(p) == c
  {
    if c < BIT * 10 then Tx.Slot(b, c / BIT, c % BIT) else if c == BIT * 10 then Tx.Ending(b) else Tx.Completing(b)
  }

  lemma NextOfPhase(b: Byte, c: nat, en: bool, byte: Byte)
    requires c <= BIT * 10 + 1
    ensures Tx.NextPhase(PhaseOf(b, c), en, byte) == if c <= BIT * 10 then PhaseOf(b, c + 1) else Tx.Quiet
  {
  }

  lemma {:induction false} ByteUnderWay(l: Link, drive: nat -> Drive, c: nat)
    requires Idle(l) && !drive(0).en && c <= BIT * 10 + 1
    ensures Inv(LinkRun(l, drive, c + 1), PhaseOf(drive(0).byte, c))
    ensures LinkRun(l, drive, c + 1).sent == l.sent + [drive(0).byte]
  {
    hide LinkClock, Tx.NextPhase, RxDuring, Rx.RxWaiting, Tx.Line, PhaseOf, Tx.Elapsed;
    var b := drive(0).byte;
    if c == 0 {
      assert LinkRun(l, drive, 0) == l;
      LinkAdvances(l, Tx.Quiet, drive(0));
      StartOfPhase(b);
      Accepts(l, drive(0));
    } else {
      ByteUnderWay(l, drive, c - 1);
      var m := LinkRun(l, drive, c);
      LinkAdvances(m, PhaseOf(b, c - 1), drive(c));
      NextOfPhase(b, c - 1, drive(c).en, drive(c).byte);
      IgnoresDriver(m, PhaseOf(b, c - 1), drive(c));
    }
  }

  lemma StartOfPhase(b: Byte)
    ensures Tx.NextPhase(Tx.Quiet, false, b) == PhaseOf(b, 0)
  {
  }

  lemma Accepts(l: Link, d: Drive)
    requires Idle(l) && !d.en
    ensures LinkClock(l, d).sent == l.sent + [d.byte]
  {
    hide Tx.TxClock, Rx.RxClock;
  }

  lemma IgnoresDriver(l: Link, p: Tx.TxPhase, d: Drive)
    requires Inv(l, p) && p != Tx.Quiet
    ensures LinkClock(l, d).sent == l.sent && l.tx.state != Tx.TxIdle
  {
    hide Tx.TxClock, Rx.RxClock, RxDuring, Tx.Line;
  }

  /** Clocks from accepting a byte until the receiver's consumer has it, and until the transmitter is
      idle again. */
  const DELIVERED := Rx.FRAME + 3
  const IDLE_AGAIN := BIT * 10 + 3

  /** Every accepted byte is received after exactly DELIVERED clocks and leaves the transmitter idle
      after exactly IDLE_AGAIN, whatever is driven meanwhile. */
  lemma ArrivesOnTime(l: Link, drive: nat -> Drive, n: nat)
    requires Idle(l) && !drive(0).en && 1 <= n <= IDLE_AGAIN
    ensures var r := LinkRun(l, drive, n);
      && r.sent == l.sent + [drive(0).byte]
      && r.received == (if n < DELIVERED then l.received else l.received + [drive(0).byte])
      && (r.tx.state == Tx.TxIdle <==> n == IDLE_AGAIN)
      && (n == IDLE_AGAIN ==> Idle(r))
  {
    hide LinkClock, Tx.NextPhase, RxDuring, Rx.RxWaiting, Tx.Line, PhaseOf, LinkRun;
    var b := drive(0).byte;
    var m := LinkRun(l, drive, n);
    if n < IDLE_AGAIN {
      ByteUnderWay(l, drive, n - 1);
      IgnoresDriver(m, PhaseOf(b, n - 1), drive(n));
      SameTail(l.sent, l.received, m.received, b);
    } else {
      ByteUnderWay(l, drive, n - 2);
      var last := LinkRun(l, drive, n - 1);
      LinkAdvances(last, PhaseOf(b, n - 2), drive(n - 1));
      NextOfPhase(b, n - 2, drive(n - 1).en, drive(n - 1).byte);
      IgnoresDriver(last, PhaseOf(b, n - 2), drive(n - 1));
      RunNext(l, drive, n - 1);
    }
  }

  lemma SameTail(sent: seq<Byte>, received: seq<Byte>, now: seq<Byte>, b: Byte)
    requires sent == received
    ensures sent + [b] == now + [b] ==> now == received
  {
    if sent + [b] == now + [b] {
      assert (sent + [b])[..|sent|] == sent && (now + [b])[..|now|] == now;
    }
  }

  lemma RunNext(l: Link, drive: nat -> Drive, n: nat)
    ensures LinkRun(l, drive, n + 1) == LinkClock(LinkRun(l, drive, n), drive(n))
  {
    hide LinkClock;
  }
}
