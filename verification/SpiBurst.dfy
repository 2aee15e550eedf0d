/** Bursts of the SPI master over whole runs, with MISO tied to MOSI. */
module SpiBurst {
  import opened Bits
  import opened SPIProtocol
  import opened SpiLoopback
  import opened SPIMaster

  datatype Command = Command(dv: bool, byte: Byte, count: nat)

  /** One stretch of chip select low: the count asked for at its start, the bytes given to the
      engine and read from it meanwhile, o_RX_Count as chip select rises, and the clocks chip
      select had been high before. */
  datatype Window = Window(asked: nat, sent: seq<Byte>, received: seq<Byte>, counted: nat, gap: nat)

  /** The master, the windows so far, the open window, and the clocks chip select has been high. */
  datatype Bus = Bus(m: Master, windows: seq<Window>, open: Window, high: nat)

  function Observe(w: Window, m: Master, d: Command): Window {
    w.(sent := if d.dv then w.sent + [d.byte] else w.sent,
       received := if m.spi.r.dv then w.received + [m.spi.r.byte] else w.received)
  }

  function BusClock(g: Config, b: Bus, d: Command): Bus
    requires g.Valid()
  {
    var n := MasterClock(g, b.m, d.dv, d.byte, d.count, b.m.spi.o.mosi);
    if b.m.cs.csN then
      if n.cs.csN then Bus(n, b.windows, b.open, b.high + 1)
      else Bus(n, b.windows, Window(d.count, [d.byte], [], 0, b.high), 0)
    else
      var w := Observe(b.open, b.m, d).(counted := n.cs.rxCount);
      if n.cs.csN then Bus(n, b.windows + [w], w, 1)
      else Bus(n, b.windows, w, 0)
  }

  function BusRun(g: Config, b: Bus, drive: nat -> Command, n: nat): Bus
    requires g.Valid()
  {
    if n == 0 then b else BusClock(g, BusRun(g, b, drive, n - 1), drive(n - 1))
  }

  function Initial(g: Config): Bus {
    Bus(MasterReset(g), [], Window(0, [], [], 0, 0), 0)
  }

  /** Data-valid is pulsed only while o_TX_Ready, and a count fits its port. */
  ghost predicate Disciplined(g: Config, drive: nat -> Command, n: nat)
    requires g.Valid()
  {
    forall k: nat | k < n && drive(k).dv ::
      TxReady(BusRun(g, Initial(g), drive, k).m) && drive(k).count < g.CountRange()
  }

  /** The bytes a request for `asked` really sends. */
  function BurstLength(g: Config, asked: nat): nat {
    if asked == 0 then g.CountRange() else asked
  }

  predicate Complete(g: Config, w: Window) {
    && |w.sent| == BurstLength(g, w.asked)
    && w.received == w.sent
    && w.counted == |w.sent| % g.CountRange()
  }

  predicate Windows(g: Config, ws: seq<Window>) {
    && (forall k | 0 <= k < |ws| :: Complete(g, ws[k]))
    && (forall k | 1 <= k < |ws| :: ws[k].gap >= g.InactiveLoad() + 2)
  }

  predicate OpenWindow(g: Config, b: Bus, q: SpiPhase) {
    var w := b.open;
    && |w.sent| > 0 && |w.sent| + b.m.cs.txCount == BurstLength(g, w.asked)
    && w.asked < g.CountRange()
    && (if Read(g.spi, q) then w.received == w.sent else w.sent == w.received + [q.b])
    && b.m.cs.rxCount == |w.received| % g.CountRange()
    && (|b.windows| > 0 ==> w.gap >= g.InactiveLoad() + 2)
  }

  predicate Inv(g: Config, b: Bus, q: SpiPhase)
    requires g.Valid()
  {
    && SpiAt(g.spi, b.m.spi, q) && Windows(g, b.windows)
    && match b.m.cs.sm
       case IDLE => b.m.cs.csN && (q.Starting? || q.Ready?) && (|b.windows| > 0 ==> b.high >= g.InactiveLoad() + 2)
       case TRANSFER => !b.m.cs.csN && !q.Starting? && OpenWindow(g, b, q)
       case CS_INACTIVE =>
         b.m.cs.csN && q.Ready? && b.m.cs.inactive <= g.InactiveLoad()
         && b.high >= g.InactiveLoad() - b.m.cs.inactive + 1
  }

  lemma WrapCount(x: nat, r: nat)
    requires r > 0
    ensures (x % r + 1) % r == (x + 1) % r
  {
    assert x + 1 == (x % r + 1) + (x / r) * r;
    DivideSum(x % r + 1, x / r, r);
  }

  lemma FirstCount(g: Config, asked: nat)
    requires g.Valid() && asked < g.CountRange()
    ensures 1 + (asked - 1) % g.CountRange() == BurstLength(g, asked)
  {
    var r := g.CountRange();
    if asked == 0 {
      DivideUnique(-1, r, -1, r - 1);
    } else {
      DivideUnique(asked - 1, r, 0, asked - 1);
    }
  }

  lemma Appended(g: Config, ws: seq<Window>, w: Window)
    requires Windows(g, ws) && Complete(g, w) && (|ws| > 0 ==> w.gap >= g.InactiveLoad() + 2)
    ensures Windows(g, ws + [w])
  {
    hide Complete;
  }

  /** What the open window records in one clock. */
  lemma Observed(g: Config, b: Bus, q: SpiPhase, d: Command)
    requires g.Valid() && Inv(g, b, q) && b.m.cs.sm == TRANSFER
    requires d.dv ==> TxReady(b.m)
    ensures var n := NextPhase(g.spi.c, q, d.dv, d.byte);
      var w := Observe(b.open, b.m, d);
      && (if Read(g.spi, n) then w.received == w.sent else w.sent == w.received + [n.b])
      && |w.sent| == |b.open.sent| + (if d.dv then 1 else 0)
      && SelectClock(g, b.m.cs, b.m.spi.e.ready, b.m.spi.r.dv, d.dv, d.count).rxCount == |w.received| % g.CountRange()
      && n != Starting && (b.m.spi.e.ready && !d.dv ==> n == Ready && Read(g.spi, n))
  {
    hide SpiAt, SpiClock, NextPhase, Read, DvAt, Windows, BurstLength;
    PhaseFacts(g.spi, b.m.spi, q, false, d.byte);
    PhaseFacts(g.spi, b.m.spi, q, d.dv, d.byte);
    HalvesStay(g.spi, q, d.byte);
    ReadAdvances(g.spi, q, d.dv, d.byte);
    if DvAt(g.spi, q) {
      DvShowsByte(g.spi, b.m.spi, q);
    }
    WrapCount(|b.open.received|, g.CountRange());
  }

  lemma HalvesStay(p: Params, q: SpiPhase, byte: Byte)
    ensures q.Half? ==> NextPhase(p.c, q, false, byte) != Starting
    ensures Read(p, Ready)
  {
  }

  lemma Selected(g: Config, b: Bus, q: SpiPhase, d: Command)
    requires g.Valid() && Inv(g, b, q) && b.m.cs.sm == TRANSFER
    requires d.dv ==> TxReady(b.m)
    ensures Inv(g, BusClock(g, b, d), NextPhase(g.spi.c, q, d.dv, d.byte))
  {
    hide SpiAt, SpiClock, NextPhase, Read, DvAt, Windows, BurstLength, Observe;
    SpiAdvances(g.spi, b.m.spi, q, d.dv, d.byte) by {
      PhaseFacts(g.spi, b.m.spi, q, false, d.byte);
    }
    Observed(g, b, q, d);
    ObserveKeeps(b.open, b.m, d);
    if b.m.spi.e.ready && b.m.cs.txCount == 0 {
      Appended(g, b.windows, Observe(b.open, b.m, d).(counted := BusClock(g, b, d).m.cs.rxCount));
    }
  }

  lemma ObserveKeeps(w: Window, m: Master, d: Command)
    ensures var o := Observe(w, m, d); o.asked == w.asked && o.gap == w.gap
  {
  }

  lemma Unselected(g: Config, b: Bus, q: SpiPhase, d: Command)
    requires g.Valid() && Inv(g, b, q) && b.m.cs.sm != TRANSFER
    requires d.dv ==> TxReady(b.m) && d.count < g.CountRange()
    ensures Inv(g, BusClock(g, b, d), NextPhase(g.spi.c, q, d.dv, d.byte))
  {
    hide SpiAt, SpiClock, NextPhase, Read, DvAt, Bit, BurstLength;
    PhaseFacts(g.spi, b.m.spi, q, false, d.byte);
    SpiAdvances(g.spi, b.m.spi, q, d.dv, d.byte);
    PhaseFacts(g.spi, b.m.spi, q, d.dv, d.byte);
    ReadAdvances(g.spi, q, d.dv, d.byte);
    if d.dv {
      FirstCount(g, d.count);
    }
  }

  /** For every mode, clock rate, burst limit and inactive period, and every disciplined driver:
      each stretch of chip select low carries exactly the bytes asked for, all of them read back in
      order and counted, and two stretches are at least the loaded period and two clocks apart. */
  lemma {:induction false} EveryBurst(g: Config, drive: nat -> Command, n: nat) returns (q: SpiPhase)
    requires g.Valid() && Disciplined(g, drive, n)
    ensures var b := BusRun(g, Initial(g), drive, n);
      && Inv(g, b, q)
      && Windows(g, b.windows)
      && (!b.m.cs.csN ==> |b.open.sent| <= BurstLength(g, b.open.asked) && b.open.received <= b.open.sent)
  {
    hide BusClock, NextPhase, SpiAt, Windows, BurstLength;
    if n == 0 {
      q := Starting;
      Begin(g);
    } else {
      var q0 := EveryBurst(g, drive, n - 1);
      var b := BusRun(g, Initial(g), drive, n - 1);
      var d := drive(n - 1);
      q := NextPhase(g.spi.c, q0, d.dv, d.byte);
      if b.m.cs.sm == TRANSFER {
        Selected(g, b, q0, d);
      } else {
        Unselected(g, b, q0, d);
      }
    }
  }

  lemma Begin(g: Config)
    requires g.Valid()
    ensures Inv(g, Initial(g), Starting) && Initial(g).m.cs.csN
  {
    hide SpiReset;
    ResetStarts(g.spi);
  }

  // ---------------------------------------------------------------
  // Every burst ends
  // ---------------------------------------------------------------

  /** A byte of the burst is with the engine, and nothing has been given to it since `b0`. */
  predicate Under(g: Config, b0: Bus, b: Bus, q: SpiPhase)
    requires g.Valid()
  {
    && Inv(g, b, q) && b.m.cs.sm == TRANSFER && b.m.cs.txCount == b0.m.cs.txCount
    && b.open.sent == b0.open.sent && b.open.asked == b0.open.asked && b.windows == b0.windows
  }

  lemma UnderStep(g: Config, b0: Bus, b: Bus, q: SpiPhase, d: Command)
    requires g.Valid() && Under(g, b0, b, q) && q.Half? && (d.dv ==> TxReady(b.m))
    ensures !d.dv && !b.m.cs.csN && !TxReady(b.m)
    ensures Under(g, b0, BusClock(g, b, d), NextPhase(g.spi.c, q, false, d.byte))
  {
    hide SpiAt, SpiClock, NextPhase, Read, Windows, BurstLength, OpenWindow;
    PhaseFacts(g.spi, b.m.spi, q, false, d.byte);
    Selected(g, b, q, d);
  }

  /** With the byte done and another one owed, the master is ready for it; with none owed chip select
      rises at the next clock. */
  lemma ByteDone(g: Config, b0: Bus, b: Bus, q: SpiPhase, d: Command)
    requires g.Valid() && Under(g, b0, b, q) && q.Done?
    ensures !b.m.cs.csN && (TxReady(b.m) <==> b.m.cs.txCount > 0)
    ensures b.m.cs.txCount == 0 && !d.dv ==>
              var n := BusClock(g, b, d);
              && Inv(g, n, NextPhase(g.spi.c, q, false, d.byte)) && |n.windows| == |b0.windows| + 1
              && n.windows[|b0.windows|].sent == b0.open.sent && n.windows[|b0.windows|].asked == b0.open.asked
              && n.m.cs.csN && n.m.cs.sm == CS_INACTIVE && n.m.cs.inactive == g.InactiveLoad()
  {
    hide SpiAt, SpiClock, NextPhase, Read, Windows, BurstLength, OpenWindow;
    PhaseFacts(g.spi, b.m.spi, q, false, d.byte);
    if b.m.cs.txCount == 0 && !d.dv {
      Selected(g, b, q, d);
    }
  }

  lemma RunNext(g: Config, drive: nat -> Command, n: nat)
    requires g.Valid()
    ensures BusRun(g, Initial(g), drive, n + 1) == BusClock(g, BusRun(g, Initial(g), drive, n), drive(n))
  {
    hide BusClock;
  }

  /** Data-valid is not pulsed before the master shows ready. */
  predicate OnlyWhenReady(g: Config, drive: nat -> Command, from: nat, to: nat)
    requires g.Valid()
  {
    forall k: nat | from <= k < to && drive(k).dv :: TxReady(BusRun(g, Initial(g), drive, k).m)
  }

  lemma WhenReadySooner(g: Config, drive: nat -> Command, from: nat, n: nat)
    requires g.Valid() && from <= n && OnlyWhenReady(g, drive, from, n + 1)
    ensures OnlyWhenReady(g, drive, from, n)
    ensures drive(n).dv ==> TxReady(BusRun(g, Initial(g), drive, n).m)
  {
    hide BusRun, TxReady;
  }

  lemma AtLeastOne(g: Config)
    requires g.Valid()
    ensures g.spi.c >= 1
  {
  }

  lemma HalfBefore(c: nat, b: Byte, h: nat, i: nat, byte: Byte)
    requires ValidPhase(c, Half(b, h, i)) && c >= 1 && (i > 0 || h > 0)
    ensures var h', i' := if i > 0 then h else h - 1, if i > 0 then i - 1 else c - 1;
      && i < c && ValidPhase(c, Half(b, h', i'))
      && NextPhase(c, Half(b, h', i'), false, byte) == Half(b, h, i)
  {
  }

  /** After the clock t that gives it, a byte runs through its half periods. */
  lemma {:induction false} ByteRuns(g: Config, drive: nat -> Command, t: nat, byte: Byte, h: nat, i: nat)
    requires g.Valid() && ValidPhase(g.spi.c, Half(byte, h, i))
    requires OnlyWhenReady(g, drive, t + 1, t + 1 + g.spi.c * h + i)
    requires var b := BusRun(g, Initial(g), drive, t + 1); Under(g, b, b, Half(byte, 0, 0))
    ensures var b := BusRun(g, Initial(g), drive, t + 1);
      Under(g, b, BusRun(g, Initial(g), drive, t + 1 + g.spi.c * h + i), Half(byte, h, i))
    decreases h, i
  {
    hide *;
    var c := g.spi.c;
    AtLeastOne(g);
    if i == 0 && h == 0 {
      assert c * 0 == 0;
    } else {
      var h', i' := if i > 0 then h else h - 1, if i > 0 then i - 1 else c - 1;
      HalfBefore(c, byte, h, i, drive(t + 1 + c * h' + i').byte);
      OneBefore(c, h, i);
      var n := t + 1 + c * h' + i';
      WhenReadySooner(g, drive, t + 1, n);
      ByteRuns(g, drive, t, byte, h', i');
      RunNext(g, drive, n);
      var b0 := BusRun(g, Initial(g), drive, t + 1);
      UnderStep(g, b0, BusRun(g, Initial(g), drive, n), Half(byte, h', i'), drive(n));
    }
  }

  /** Where the byte stands n clocks after the clock that gives it. */
  function PhaseAfter(c: nat, byte: Byte, n: nat): SpiPhase
    requires c >= 1 && 1 <= n <= 16 * c + 2
  {
    if n == 16 * c + 2 then Done(byte) else Half(byte, (n - 1) / c, (n - 1) % c)
  }

  lemma PhaseEnds(g: Config, byte: Byte)
    requires g.Valid()
    ensures PhaseAfter(g.spi.c, byte, 16 * g.spi.c + 2) == Done(byte)
  {
  }

  lemma PhaseInside(c: nat, byte: Byte, n: nat)
    requires c >= 1 && 1 <= n <= 16 * c + 1
    ensures PhaseAfter(c, byte, n) == Half(byte, (n - 1) / c, (n - 1) % c)
    ensures ValidPhase(c, Half(byte, (n - 1) / c, (n - 1) % c))
  {
    HalfOfClock(n - 1, c);
  }

  lemma WhenReadyFrom(g: Config, drive: nat -> Command, from: nat, n: nat, to: nat)
    requires g.Valid() && OnlyWhenReady(g, drive, from, to) && from <= n <= to
    ensures OnlyWhenReady(g, drive, from, n)
  {
    hide BusRun, TxReady;
  }

  lemma LastHalfIs(g: Config, byte: Byte)
    requires g.Valid()
    ensures ValidPhase(g.spi.c, Half(byte, 16, 0)) && g.spi.c * 16 == 16 * g.spi.c
  {
  }

  lemma LastHalf(g: Config, drive: nat -> Command, t: nat, byte: Byte)
    requires g.Valid() && OnlyWhenReady(g, drive, t + 1, t + 1 + 16 * g.spi.c)
    requires var b := BusRun(g, Initial(g), drive, t + 1); Under(g, b, b, Half(byte, 0, 0))
    ensures var b := BusRun(g, Initial(g), drive, t + 1);
      Under(g, b, BusRun(g, Initial(g), drive, t + 1 + 16 * g.spi.c), Half(byte, 16, 0))
  {
    hide *;
    LastHalfIs(g, byte);
    ByteRuns(g, drive, t, byte, 16, 0);
  }

  lemma ByteReaches(g: Config, drive: nat -> Command, t: nat, byte: Byte, n: nat)
    requires g.Valid() && 1 <= n <= 16 * g.spi.c + 2
    requires OnlyWhenReady(g, drive, t + 1, t + 16 * g.spi.c + 2)
    requires var b := BusRun(g, Initial(g), drive, t + 1); Under(g, b, b, Half(byte, 0, 0))
    ensures var b := BusRun(g, Initial(g), drive, t + 1);
      Under(g, b, BusRun(g, Initial(g), drive, t + n), PhaseAfter(g.spi.c, byte, n))
  {
    hide *;
    var c, b0 := g.spi.c, BusRun(g, Initial(g), drive, t + 1);
    AtLeastOne(g);
    if n <= 16 * c + 1 {
      HalfOfClock(n - 1, c);
      PhaseInside(c, byte, n);
      WhenReadyFrom(g, drive, t + 1, t + n, t + 16 * c + 2);
      ByteRuns(g, drive, t, byte, (n - 1) / c, (n - 1) % c);
    } else {
      var m := t + 1 + 16 * c;
      PhaseInside(c, byte, 16 * c + 1);
      PhaseEnds(g, byte);
      WhenReadySooner(g, drive, t + 1, m);
      LastHalf(g, drive, t, byte);
      UnderStep(g, b0, BusRun(g, Initial(g), drive, m), Half(byte, 16, 0), drive(m));
      RunNext(g, drive, m);
      EndOfHalves(c, byte, drive(m).byte);
    }
  }

  /** No other byte is given while one is under way. */
  lemma ByteNotReady(g: Config, drive: nat -> Command, t: nat, byte: Byte, n: nat)
    requires g.Valid() && 1 <= n <= 16 * g.spi.c + 1
    requires OnlyWhenReady(g, drive, t + 1, t + 16 * g.spi.c + 2)
    requires var b := BusRun(g, Initial(g), drive, t + 1); Under(g, b, b, Half(byte, 0, 0))
    ensures var b := BusRun(g, Initial(g), drive, t + n); !b.m.cs.csN && !TxReady(b.m) && !drive(t + n).dv
  {
    hide BusRun, Under;
    ByteReaches(g, drive, t, byte, n);
    var b0 := BusRun(g, Initial(g), drive, t + 1);
    UnderStep(g, b0, BusRun(g, Initial(g), drive, t + n), PhaseAfter(g.spi.c, byte, n), drive(t + n));
  }

  lemma GivenToEngine(g: Config, drive: nat -> Command, t: nat)
    requires g.Valid() && Disciplined(g, drive, t + 1) && drive(t).dv
    ensures var b := BusRun(g, Initial(g), drive, t + 1);
      Inv(g, b, Half(drive(t).byte, 0, 0)) && b.m.cs.sm == TRANSFER && !b.m.cs.csN
  {
    hide BusRun, SpiAt, SpiClock, NextPhase, Read, Windows, BurstLength, OpenWindow;
    var q := EveryBurst(g, drive, t);
    var b, d := BusRun(g, Initial(g), drive, t), drive(t);
    RunNext(g, drive, t);
    PhaseFacts(g.spi, b.m.spi, q, false, d.byte);
    FreePhase(g.spi.c, q, d.byte);
    if b.m.cs.sm == TRANSFER {
      Selected(g, b, q, d);
    } else {
      Unselected(g, b, q, d);
    }
  }

  lemma FreePhase(c: nat, q: SpiPhase, byte: Byte)
    ensures Free(q) ==> NextPhase(c, q, true, byte) == Half(byte, 0, 0)
    ensures Free(q) <==> !q.Half?
  {
  }

  /** The clocks from giving the engine its last byte until chip select is high. */
  function BurstEnd(g: Config): nat {
    16 * g.spi.c + 3
  }

  /** A byte that is not the last of its burst: chip select stays low, and o_TX_Ready asks for the
      next one exactly 16 * CLKS_PER_HALF_BIT + 2 clocks after this one was given and not before. */
  lemma AsksForNext(g: Config, drive: nat -> Command, t: nat, n: nat)
    requires g.Valid() && Disciplined(g, drive, t + 16 * g.spi.c + 2) && drive(t).dv
    requires var w := BusRun(g, Initial(g), drive, t + 1).open; |w.sent| < BurstLength(g, w.asked)
    requires 1 <= n <= 16 * g.spi.c + 2
    ensures var b := BusRun(g, Initial(g), drive, t + n);
      !b.m.cs.csN && (TxReady(b.m) <==> n == 16 * g.spi.c + 2)
  {
    GivenUnder(g, drive, t);
    hide BusRun, BurstLength, Under, Inv;
    var b0, byte := BusRun(g, Initial(g), drive, t + 1), drive(t).byte;
    ByteReaches(g, drive, t, byte, n);
    if n <= 16 * g.spi.c + 1 {
      ByteNotReady(g, drive, t, byte, n);
    } else {
      ByteDone(g, b0, BusRun(g, Initial(g), drive, t + n), Done(byte), Command(false, 0, 0));
      UnderCount(g, b0, BusRun(g, Initial(g), drive, t + n), Done(byte));
    }
  }

  lemma UnderCount(g: Config, b0: Bus, b: Bus, q: SpiPhase)
    requires g.Valid() && Under(g, b0, b, q)
    ensures b.m.cs.txCount == b0.m.cs.txCount
  {
  }

  lemma GivenUnder(g: Config, drive: nat -> Command, t: nat)
    requires g.Valid() && Disciplined(g, drive, t + 1) && drive(t).dv
    ensures var b := BusRun(g, Initial(g), drive, t + 1);
      && Under(g, b, b, Half(drive(t).byte, 0, 0))
      && |b.open.sent| + b.m.cs.txCount == BurstLength(g, b.open.asked)
  {
    hide BusRun, SpiAt, Windows, BurstLength, Read;
    GivenToEngine(g, drive, t);
  }

  lemma WhenReady(g: Config, drive: nat -> Command, from: nat, to: nat)
    requires g.Valid() && Disciplined(g, drive, to)
    ensures OnlyWhenReady(g, drive, from, to)
  {
    hide BusRun, TxReady;
  }

  lemma EndsAfter(g: Config)
    ensures BurstEnd(g) == 16 * g.spi.c + 3
  {
  }

  lemma Unpulsed(g: Config, drive: nat -> Command, from: nat, to: nat, k: nat)
    requires g.Valid() && OnlyWhenReady(g, drive, from, to) && from <= k < to
    requires !TxReady(BusRun(g, Initial(g), drive, k).m)
    ensures !drive(k).dv
  {
    hide BusRun, TxReady;
  }

  /** With the last byte done the window closes on what was given. */
  lemma Closes(g: Config, drive: nat -> Command, t: nat, byte: Byte)
    requires g.Valid() && OnlyWhenReady(g, drive, t + 1, t + 16 * g.spi.c + 3)
    requires OnlyWhenReady(g, drive, t + 1, t + 16 * g.spi.c + 2)
    requires var b := BusRun(g, Initial(g), drive, t + 1); Under(g, b, b, Half(byte, 0, 0)) && b.m.cs.txCount == 0
    ensures var b0 := BusRun(g, Initial(g), drive, t + 1);
      var n := BusRun(g, Initial(g), drive, t + 16 * g.spi.c + 3);
      && (exists q :: Inv(g, n, q)) && |n.windows| == |b0.windows| + 1
      && n.windows[|b0.windows|].sent == b0.open.sent && n.windows[|b0.windows|].asked == b0.open.asked
      && n.m.cs.csN && n.m.cs.sm == CS_INACTIVE && n.m.cs.inactive == g.InactiveLoad()
  {
    hide *;
    var c, b0, m := g.spi.c, BusRun(g, Initial(g), drive, t + 1), t + 16 * g.spi.c + 2;
    ByteReaches(g, drive, t, byte, 16 * c + 2);
    PhaseEnds(g, byte);
    UnderCount(g, b0, BusRun(g, Initial(g), drive, m), Done(byte));
    ByteDone(g, b0, BusRun(g, Initial(g), drive, m), Done(byte), Command(false, 0, 0));
    Unpulsed(g, drive, t + 1, t + 16 * c + 3, m);
    ByteDone(g, b0, BusRun(g, Initial(g), drive, m), Done(byte), drive(m));
    RunNext(g, drive, m);
  }

  lemma StaysSelected(g: Config, drive: nat -> Command, t: nat, byte: Byte, n: nat)
    requires g.Valid() && OnlyWhenReady(g, drive, t + 1, t + 16 * g.spi.c + 2) && 1 <= n <= 16 * g.spi.c + 2
    requires var b := BusRun(g, Initial(g), drive, t + 1); Under(g, b, b, Half(byte, 0, 0))
    ensures !BusRun(g, Initial(g), drive, t + n).m.cs.csN
    ensures n < BurstEnd(g)
  {
    EndsAfter(g);
    hide *;
    var b0 := BusRun(g, Initial(g), drive, t + 1);
    if n <= 16 * g.spi.c + 1 {
      ByteNotReady(g, drive, t, byte, n);
    } else {
      ByteReaches(g, drive, t, byte, n);
      PhaseEnds(g, byte);
      ByteDone(g, b0, BusRun(g, Initial(g), drive, t + n), Done(byte), Command(false, 0, 0));
    }
  }

  lemma LastGiven(g: Config, drive: nat -> Command, t: nat)
    requires g.Valid() && Disciplined(g, drive, t + BurstEnd(g)) && drive(t).dv
    requires var w := BusRun(g, Initial(g), drive, t + 1).open; |w.sent| == BurstLength(g, w.asked)
    ensures var b := BusRun(g, Initial(g), drive, t + 1);
      Under(g, b, b, Half(drive(t).byte, 0, 0)) && b.m.cs.txCount == 0
    ensures OnlyWhenReady(g, drive, t + 1, t + 16 * g.spi.c + 2) && OnlyWhenReady(g, drive, t + 1, t + 16 * g.spi.c + 3)
  {
    EndsAfter(g);
    hide BusRun, BurstLength, Under, TxReady;
    GivenUnder(g, drive, t);
    WhenReady(g, drive, t + 1, t + 16 * g.spi.c + 2);
    WhenReady(g, drive, t + 1, t + 16 * g.spi.c + 3);
  }

  /** Chip select stays low while the last byte of a burst is sent and rises exactly BurstEnd clocks
      after the byte was given, for every disciplined driver. */
  lemma LastByteEndsBurst(g: Config, drive: nat -> Command, t: nat, n: nat)
    requires g.Valid() && Disciplined(g, drive, t + BurstEnd(g)) && drive(t).dv
    requires var w := BusRun(g, Initial(g), drive, t + 1).open; |w.sent| == BurstLength(g, w.asked)
    requires 1 <= n <= BurstEnd(g)
    ensures var b := BusRun(g, Initial(g), drive, t + n);
      && (b.m.cs.csN <==> n == BurstEnd(g))
      && (n == BurstEnd(g) ==> b.m.cs.sm == CS_INACTIVE && b.m.cs.inactive == g.InactiveLoad())
  {
    hide *;
    var byte := drive(t).byte;
    LastGiven(g, drive, t);
    if n <= 16 * g.spi.c + 2 {
      StaysSelected(g, drive, t, byte, n);
    } else {
      EndsAfter(g);
      Closes(g, drive, t, byte);
    }
  }

  lemma EndOfHalves(c: nat, b: Byte, byte: Byte)
    ensures NextPhase(c, Half(b, 16, 0), false, byte) == Done(b)
  {
  }

  /** Once chip select has risen, the master is ready for the next burst after the loaded period and
      one clock. */
  lemma {:induction false} ReadyForNextBurst(g: Config, drive: nat -> Command, t: nat, n: nat)
    requires g.Valid() && n <= g.InactiveLoad() + 1
    requires var b := BusRun(g, Initial(g), drive, t); b.m.cs.sm == CS_INACTIVE && b.m.cs.inactive == g.InactiveLoad()
    ensures var b := BusRun(g, Initial(g), drive, t + n);
      && (TxReady(b.m) <==> n == g.InactiveLoad() + 1)
      && (n <= g.InactiveLoad() ==> b.m.cs.sm == CS_INACTIVE && b.m.cs.inactive == g.InactiveLoad() - n)
  {
    hide BusRun, SpiClock;
    if n == 0 {
    } else {
      ReadyForNextBurst(g, drive, t, n - 1);
      RunNext(g, drive, t + n - 1);
    }
  }

  // ---------------------------------------------------------------
  // When the counters hold what they are asked to
  // ---------------------------------------------------------------

  /** A complete stretch of chip select low carries as many bytes as were asked for exactly if that is
      not zero; a request for none sends the counter's full range. */
  lemma LengthHonoured(g: Config, w: Window)
    requires g.Valid() && Complete(g, w)
    ensures |w.sent| == w.asked <==> w.asked >= 1
    ensures w.asked == 0 ==> |w.sent| == |w.received| == g.CountRange()
  {
  }

  predicate PowerOfTwo(n: nat) {
    n == Pow2(Clog2(n))
  }

  /** CS_INACTIVE_CLKS survives in its counter exactly if it is not a power of two from 2 up;
      otherwise the counter is loaded with zero. */
  lemma InactiveHonoured(g: Config)
    ensures g.InactiveLoad() == g.inactiveClks <==> !(g.inactiveClks >= 2 && PowerOfTwo(g.inactiveClks))
    ensures g.InactiveLoad() == g.inactiveClks || g.InactiveLoad() == 0
  {
    var n := g.inactiveClks;
    if n >= 2 {
      var r := Pow2(Clog2(n));
      if n < r {
        DivideUnique(n, r, 0, n);
      } else {
        DivideUnique(n, r, 1, 0);
      }
    }
  }

  /** PowerOfTwo means what it says. */
  lemma {:induction false} PowersOfTwo(k: nat)
    ensures Clog2(Pow2(k)) == k
  {
    if k == 0 {
    } else {
      Digit(Pow2(k - 1), 1);
      PowersOfTwo(k - 1);
    }
  }
}
