/** A driver for every burst: the master asks for each byte in turn, so the burst can be completed. */
module SpiDriver {
  import opened Bits
  import opened SPIProtocol
  import SpiLoopback
  import opened SPIMaster
  import opened SpiBurst

  /** Clocks from one byte of a burst to the next. */
  function Period(g: Config): (p: nat)
    ensures p > 0
  {
    16 * g.spi.c + 2
  }

  /** The clock at which byte k is given. */
  function GiveAt(g: Config, k: nat): nat {
    k * Period(g)
  }

  /** The k-th byte at clock k * Period, the length with each. */
  function Driver(g: Config, bytes: seq<Byte>): nat -> Command {
    (n: nat) =>
      if n % Period(g) == 0 && n / Period(g) < |bytes| then Command(true, bytes[n / Period(g)], |bytes|)
      else Command(false, 0, 0)
  }

  function At(g: Config, bytes: seq<Byte>, n: nat): Bus
    requires g.Valid()
  {
    BusRun(g, Initial(g), Driver(g, bytes), n)
  }

  predicate Burst(g: Config, bytes: seq<Byte>)
    requires g.Valid()
  {
    1 <= |bytes| < g.CountRange()
  }

  lemma DriverGives(g: Config, bytes: seq<Byte>, k: nat)
    requires k < |bytes|
    ensures Driver(g, bytes)(GiveAt(g, k)) == Command(true, bytes[k], |bytes|)
  {
    hide Period;
    DivideUnique(k * Period(g), Period(g), k, 0);
  }

  lemma DriverWaits(g: Config, bytes: seq<Byte>, k: nat, i: nat)
    requires 0 < i < Period(g) || (i == Period(g) && k + 1 >= |bytes|)
    ensures !Driver(g, bytes)(GiveAt(g, k) + i).dv
  {
    hide Period;
    var p := Period(g);
    if i < p {
      DivideUnique(k * p + i, p, k, i);
    } else {
      assert (k + 1) * p == k * p + p;
      DivideUnique(k * p + i, p, k + 1, 0);
    }
  }

  lemma Periods(g: Config, k: nat)
    ensures Period(g) == 16 * g.spi.c + 2 && GiveAt(g, k + 1) == GiveAt(g, k) + 16 * g.spi.c + 2 && GiveAt(g, 0) == 0
  {
    assert (k + 1) * Period(g) == k * Period(g) + Period(g);
    assert 0 * Period(g) == 0;
  }

  /** Byte k has just been given. */
  predicate GivenTo(g: Config, bytes: seq<Byte>, k: nat, b: Bus)
    requires g.Valid() && k < |bytes|
  {
    && Under(g, b, b, Half(bytes[k], 0, 0))
    && b.open.asked == |bytes| && b.open.sent == bytes[..k + 1] && b.windows == []
    && b.m.cs.txCount == |bytes| - (k + 1)
  }

  lemma FirstGiven(g: Config, bytes: seq<Byte>)
    requires g.Valid() && Burst(g, bytes)
    ensures GivenTo(g, bytes, 0, BusClock(g, Initial(g), Command(true, bytes[0], |bytes|)))
    ensures TxReady(Initial(g).m)
  {
    assert bytes[..1] == [bytes[0]];
    Begin(g);
    hide SpiAt, SpiClock, SpiLoopback.Read;
    FreePhase(g.spi.c, Starting, bytes[0]);
    Unselected(g, Initial(g), Starting, Command(true, bytes[0], |bytes|));
  }

  /** Between two bytes nothing is given. */
  lemma Silence(g: Config, bytes: seq<Byte>, k: nat, n: nat)
    requires g.Valid() && k < |bytes|
    requires n <= 16 * g.spi.c + 2 || (n == 16 * g.spi.c + 3 && k + 1 == |bytes|)
    ensures OnlyWhenReady(g, Driver(g, bytes), GiveAt(g, k) + 1, GiveAt(g, k) + n)
  {
    Periods(g, k);
    hide Period, TxReady, BusRun, GiveAt;
    forall m: nat | GiveAt(g, k) + 1 <= m < GiveAt(g, k) + n ensures !Driver(g, bytes)(m).dv {
      DriverWaits(g, bytes, k, m - GiveAt(g, k));
    }
  }

  lemma GivenMeans(g: Config, bytes: seq<Byte>, k: nat, b: Bus)
    requires g.Valid() && k < |bytes| && GivenTo(g, bytes, k, b)
    ensures Under(g, b, b, Half(bytes[k], 0, 0)) && b.m.cs.txCount == |bytes| - (k + 1)
    ensures b.open.asked == |bytes| && b.open.sent == bytes[..k + 1] && b.windows == []
  {
  }

  lemma AtIs(g: Config, bytes: seq<Byte>, n: nat)
    requires g.Valid()
    ensures At(g, bytes, n) == BusRun(g, Initial(g), Driver(g, bytes), n)
    ensures At(g, bytes, n + 1) == BusClock(g, At(g, bytes, n), Driver(g, bytes)(n))
    ensures At(g, bytes, n + 1) == BusRun(g, Initial(g), Driver(g, bytes), n + 1)
    ensures At(g, bytes, 0) == Initial(g)
  {
    hide BusClock;
  }

  /** The next byte is asked for. */
  lemma NextAsked(g: Config, bytes: seq<Byte>, k: nat)
    requires g.Valid() && k + 1 < |bytes| && GivenTo(g, bytes, k, At(g, bytes, GiveAt(g, k) + 1))
    ensures var b := At(g, bytes, GiveAt(g, k + 1));
      Under(g, At(g, bytes, GiveAt(g, k) + 1), b, Done(bytes[k])) && TxReady(b.m)
  {
    hide *;
    var drive, t, c := Driver(g, bytes), GiveAt(g, k), g.spi.c;
    var b0, b := At(g, bytes, t + 1), At(g, bytes, t + 16 * c + 2);
    Silence(g, bytes, k, 16 * c + 2);
    Periods(g, k);
    GivenMeans(g, bytes, k, b0);
    AtIs(g, bytes, t);
    AtIs(g, bytes, t + 16 * c + 2);
    ByteReaches(g, drive, t, bytes[k], 16 * c + 2);
    PhaseEnds(g, bytes[k]);
    ByteDone(g, b0, b, Done(bytes[k]), Command(false, 0, 0));
    UnderCount(g, b0, b, Done(bytes[k]));
  }

  lemma TakesNext(g: Config, bytes: seq<Byte>, k: nat, b0: Bus, b: Bus)
    requires g.Valid() && k + 1 < |bytes| && GivenTo(g, bytes, k, b0)
    requires Under(g, b0, b, Done(bytes[k])) && TxReady(b.m)
    ensures GivenTo(g, bytes, k + 1, BusClock(g, b, Command(true, bytes[k + 1], |bytes|)))
  {
    var d := Command(true, bytes[k + 1], |bytes|);
    assert bytes[..k + 1] + [bytes[k + 1]] == bytes[..k + 2];
    hide SpiAt, SpiClock, SpiLoopback.Read, Windows, OpenWindow;
    SpiLoopback.PhaseFacts(g.spi, b.m.spi, Done(bytes[k]), false, 0);
    FreePhase(g.spi.c, Done(bytes[k]), bytes[k + 1]);
    Selected(g, b, Done(bytes[k]), d);
  }

  lemma {:induction false} EveryGiven(g: Config, bytes: seq<Byte>, k: nat)
    requires g.Valid() && Burst(g, bytes) && k < |bytes|
    ensures GivenTo(g, bytes, k, At(g, bytes, GiveAt(g, k) + 1)) && TxReady(At(g, bytes, GiveAt(g, k)).m)
  {
    hide *;
    DriverGives(g, bytes, k);
    AtIs(g, bytes, GiveAt(g, k));
    Periods(g, if k > 0 then k - 1 else 0);
    if k == 0 {
      AtIs(g, bytes, 0);
      FirstGiven(g, bytes);
    } else {
      EveryGiven(g, bytes, k - 1);
      NextAsked(g, bytes, k - 1);
      TakesNext(g, bytes, k - 1, At(g, bytes, GiveAt(g, k - 1) + 1), At(g, bytes, GiveAt(g, k)));
    }
  }

  lemma PulsesAt(g: Config, bytes: seq<Byte>, n: nat) returns (k: nat)
    requires Driver(g, bytes)(n).dv
    ensures k < |bytes| && n == GiveAt(g, k) && Driver(g, bytes)(n).count == |bytes|
  {
    k := n / Period(g);
    assert k * Period(g) == n;
  }

  lemma DriverDisciplined(g: Config, bytes: seq<Byte>, n: nat)
    requires g.Valid() && Burst(g, bytes)
    ensures Disciplined(g, Driver(g, bytes), n)
  {
    var drive := Driver(g, bytes);
    hide GivenTo, GiveAt, BusRun, TxReady, Driver;
    forall m: nat | m < n && drive(m).dv
      ensures TxReady(BusRun(g, Initial(g), drive, m).m) && drive(m).count < g.CountRange()
    {
      var k := PulsesAt(g, bytes, m);
      EveryGiven(g, bytes, k);
    }
  }

  lemma WindowCloses(g: Config, bytes: seq<Byte>, k: nat)
    requires g.Valid() && Burst(g, bytes) && k + 1 == |bytes|
    ensures var b := At(g, bytes, GiveAt(g, |bytes|) + 1);
      && (exists q :: Inv(g, b, q)) && b.m.cs.csN && |b.windows| == 1
      && b.windows[0].asked == |bytes| && b.windows[0].sent == bytes
  {
    hide *;
    var t := GiveAt(g, k);
    assert bytes[..k + 1] == bytes;
    EveryGiven(g, bytes, k);
    GivenMeans(g, bytes, k, At(g, bytes, t + 1));
    Periods(g, k);
    AtIs(g, bytes, t);
    AtIs(g, bytes, t + 16 * g.spi.c + 2);
    Silence(g, bytes, k, 16 * g.spi.c + 2);
    Silence(g, bytes, k, 16 * g.spi.c + 3);
    Closes(g, Driver(g, bytes), t, bytes[k]);
  }

  lemma ReceivedAll(g: Config, b: Bus, q: SpiPhase)
    requires g.Valid() && Inv(g, b, q)
    ensures forall k | 0 <= k < |b.windows| :: b.windows[k].received == b.windows[k].sent
  {
    hide SpiAt, OpenWindow;
  }

  lemma BurstFits(g: Config, bytes: seq<Byte>)
    requires g.Valid() && 1 <= |bytes| < g.CountRange()
    ensures Burst(g, bytes) && GiveAt(g, |bytes|) == |bytes| * (16 * g.spi.c + 2)
  {
  }

  /** For every configuration and every burst its counter can hold there is a disciplined driver with
      which one window closes on exactly those bytes, sent and received. */
  lemma EveryBurstPossible(g: Config, bytes: seq<Byte>) returns (drive: nat -> Command, n: nat)
    requires g.Valid() && 1 <= |bytes| < g.CountRange()
    ensures Disciplined(g, drive, n)
    ensures var b := BusRun(g, Initial(g), drive, n);
      && b.m.cs.csN && |b.windows| == 1
      && b.windows[0].asked == |bytes| && b.windows[0].sent == bytes && b.windows[0].received == bytes
    ensures n == |bytes| * (16 * g.spi.c + 2) + 1
  {
    hide *;
    BurstFits(g, bytes);
    drive, n := Driver(g, bytes), GiveAt(g, |bytes|) + 1;
    DriverDisciplined(g, bytes, n);
    WindowCloses(g, bytes, |bytes| - 1);
    AtIs(g, bytes, n);
    var q :| Inv(g, At(g, bytes, n), q);
    ReceivedAll(g, At(g, bytes, n), q);
  }
}
