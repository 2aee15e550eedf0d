/** The four SPI modes as the pins show them, for any MISO line: polarity at rest, the edge that
    samples and the edge that shifts, from the mode's number. */
module SpiModes {
  import opened Bits
  import opened SPIProtocol

  datatype Input = Input(dv: bool, byte: Byte, miso: bool)

  /** The engine after n clocks out of reset. */
  function EngineRun(p: Params, input: nat -> Input, n: nat): Spi {
    if n == 0 then SpiReset(p)
    else SpiClock(p, EngineRun(p, input, n - 1), input(n - 1).dv, input(n - 1).byte, input(n - 1).miso)
  }

  /** Data-valid is pulsed only while the engine shows ready. */
  predicate Disciplined(p: Params, input: nat -> Input, n: nat) {
    forall k: nat | k < n && input(k).dv :: EngineRun(p, input, k).e.ready
  }

  /** SpiAt without the bits of the byte. */
  predicate EngineAt(p: Params, s: Spi, q: SpiPhase) {
    && ValidPhase(p.c, q)
    && match q
       case Starting => Resting(p, s) && !s.e.ready
       case Ready => Resting(p, s) && s.e.ready
       case Done(b) => Resting(p, s) && s.e.ready
       case Half(b, h, i) =>
         && EdgesAt(p, s.e, h, i)
         && s.pin == (p.Cpol() != (PinHalf(h, i) % 2 == 1))
         && s.t == ByteRegs(b, h == 0 && i == 0)
  }

  lemma EngineAdvances(p: Params, s: Spi, q: SpiPhase, d: Input)
    requires p.Valid() && EngineAt(p, s, q) && (d.dv ==> s.e.ready)
    ensures EngineAt(p, SpiClock(p, s, d.dv, d.byte, d.miso), NextPhase(p.c, q, d.dv, d.byte))
  {
    hide DriveMosi, ReadMiso;
    if q.Half? && q.h < 16 {
      hide GenerateClock;
      EdgesAdvance(p, s.e, q.h, q.i);
    }
  }

  lemma {:induction false} EngineRuns(p: Params, input: nat -> Input, n: nat) returns (q: SpiPhase)
    requires p.Valid() && Disciplined(p, input, n)
    ensures EngineAt(p, EngineRun(p, input, n), q)
  {
    hide SpiClock, NextPhase;
    if n == 0 {
      q := Starting;
    } else {
      var q0 := EngineRuns(p, input, n - 1);
      EngineAdvances(p, EngineRun(p, input, n - 1), q0, input(n - 1));
      q := NextPhase(p.c, q0, input(n - 1).dv, input(n - 1).byte);
    }
  }

  /** The clock pin rests high in modes 2 and 3 and low in modes 0 and 1: in reset and whenever the
      engine is ready. */
  lemma RestsByMode(p: Params, input: nat -> Input, n: nat)
    requires p.Valid() && Disciplined(p, input, n)
    ensures SpiReset(p).pin <==> p.mode >= 2
    ensures var s := EngineRun(p, input, n); n == 0 || s.e.ready ==> (s.pin <==> p.mode >= 2)
  {
    hide SpiClock;
    var q := EngineRuns(p, input, n);
  }

  /** One clock: MISO is taken exactly as the clock pin rises in modes 0 and 3, and exactly as it falls
      in modes 1 and 2; MOSI moves on with the opposite edge, and in modes 0 and 2 shows the first bit
      a clock after data-valid. */
  predicate ByTheEdges(mode: nat, s: Spi, n: Spi, miso: bool) {
    var rises, falls := !s.pin && n.pin, s.pin && !n.pin;
    var samples := if mode == 0 || mode == 3 then rises else falls;
    var shifts := if mode == 0 || mode == 3 then falls else rises;
    var first := s.t.dv && !s.e.ready && (mode == 0 || mode == 2);
    && n.r.byte == (if samples then SetBit8(s.r.byte, s.r.bit, miso) else s.r.byte)
    && n.r.dv == (samples && s.r.bit == 0)
    && n.r.bit == (if s.e.ready then 7 else if samples then (s.r.bit - 1) % 8 else s.r.bit)
    && n.o.mosi == (if first then Bit8(s.t.byte, 7) else if shifts then Bit8(s.t.byte, s.o.bit) else s.o.mosi)
    && n.o.bit == (if s.e.ready then 7 else if first then 6 else if shifts then (s.o.bit - 1) % 8 else s.o.bit)
  }

  lemma ClockByTheEdges(p: Params, s: Spi, q: SpiPhase, d: Input)
    requires p.Valid() && EngineAt(p, s, q) && (d.dv ==> s.e.ready)
    ensures ByTheEdges(p.mode, s, SpiClock(p, s, d.dv, d.byte, d.miso), d.miso)
  {
    hide GenerateClock, SetBit8, Bit8;
  }

  /** Every clock of every run. */
  lemma EveryClockByTheEdges(p: Params, input: nat -> Input, n: nat)
    requires p.Valid() && Disciplined(p, input, n + 1)
    ensures ByTheEdges(p.mode, EngineRun(p, input, n), EngineRun(p, input, n + 1), input(n).miso)
  {
    hide SpiClock, ByTheEdges, EngineAt;
    var q := EngineRuns(p, input, n);
    ClockByTheEdges(p, EngineRun(p, input, n), q, input(n));
  }

  // ---------------------------------------------------------------
  // A whole byte with any slave
  // ---------------------------------------------------------------

  /** The half period that begins with the edge at which bit j is taken. */
  function SampleHalf(mode: nat, j: nat): nat {
    2 * j + (if mode == 0 || mode == 2 then 1 else 2)
  }

  /** The clock at which bit j of a byte given at clock t is taken. */
  function SampleAt(p: Params, t: nat, j: nat): nat {
    t + 1 + p.c * SampleHalf(p.mode, j)
  }

  /** The first n bits taken are those of the line. */
  predicate Taken(p: Params, input: nat -> Input, t: nat, r: MisoRegs, n: nat) {
    r.bit == (7 - n) % 8 && forall j: nat | j < n && j < 8 :: Bit8(r.byte, 7 - j) == input(SampleAt(p, t, j)).miso
  }

  /** At each clock of the byte given at clock t. */
  predicate Exchanging(p: Params, input: nat -> Input, t: nat, s: Spi, h: nat, i: nat) {
    && EngineAt(p, s, Half(input(t).byte, h, i))
    && MosiAt(s.o, input(t).byte, BitsOut(p.Cpha(), h, i))
    && Taken(p, input, t, s.r, BitsIn(p.Cpha(), h, i))
  }

  lemma TakesLine(p: Params, input: nat -> Input, t: nat, r: MisoRegs, n: nat, miso: bool)
    requires Taken(p, input, t, r, n) && n < 8 && miso == input(SampleAt(p, t, n)).miso
    ensures Taken(p, input, t, MisoRegs(SetBit8(r.byte, r.bit, miso), r.bit == 0, Decrement3(r.bit)), n + 1)
  {
    hide Bit, SetBit, SampleAt;
    forall j: nat | j < n + 1 && j < 8
      ensures Bit8(SetBit8(r.byte, r.bit, miso), 7 - j) == input(SampleAt(p, t, j)).miso
    {
      BitOfSetBit(r.byte, 7 - n, if miso then 1 else 0, 7 - j);
    }
  }

  lemma NextSample(p: Params, t: nat, h: nat, i: nat)
    requires p.Valid() && h <= 16
    requires i == 0 && ((h % 2 == 1 && !p.Cpha()) || (h % 2 == 0 && h > 0 && p.Cpha()))
    ensures var j := BitsIn(p.Cpha(), h, i); j < 8 && SampleAt(p, t, j) == t + 1 + p.c * h
  {
    SampleWhileStable(p.Cpha(), h, i);
    assert SampleHalf(p.mode, BitsIn(p.Cpha(), h, i)) == h;
  }

  lemma MisoExchanges(p: Params, input: nat -> Input, t: nat, s: Spi, h: nat, i: nat)
    requires p.Valid() && h <= 16 && i < p.c && (h == 16 ==> i == 0)
    requires EdgesAt(p, s.e, h, i) && Taken(p, input, t, s.r, BitsIn(p.Cpha(), h, i))
    ensures var n := ReadMiso(p, s.r, s.e, input(t + 1 + p.c * h + i).miso);
      var q := NextPhase(p.c, Half(input(t).byte, h, i), false, 0);
      Taken(p, input, t, n, if q.Half? then BitsIn(p.Cpha(), q.h, q.i) else 8)
  {
    hide Bit8, SetBit8, BitsOut, GenerateClock, SampleAt;
    var g := BitsIn(p.Cpha(), h, i);
    if h < 16 {
      BitCounts(p.c, input(t).byte, h, i, p.Cpha());
    }
    if i == 0 && ((h % 2 == 1 && !p.Cpha()) || (h % 2 == 0 && h > 0 && p.Cpha())) {
      NextSample(p, t, h, i);
      TakesLine(p, input, t, s.r, g, input(t + 1 + p.c * h + i).miso);
    }
  }

  lemma ExchangeStep(p: Params, input: nat -> Input, t: nat, s: Spi, h: nat, i: nat, d: Input)
    requires p.Valid() && h < 16 && Exchanging(p, input, t, s, h, i) && !d.dv
    requires d == input(t + 1 + p.c * h + i)
    ensures var q := NextPhase(p.c, Half(input(t).byte, h, i), false, 0);
      Exchanging(p, input, t, SpiClock(p, s, false, d.byte, d.miso), q.h, q.i)
  {
    hide Taken, MosiAt, DriveMosi, ReadMiso, BitsIn, BitsOut, PinHalf, GenerateClock;
    EngineAdvances(p, s, Half(input(t).byte, h, i), d);
    MosiAdvances(p, s, input(t).byte, h, i);
    MisoExchanges(p, input, t, s, h, i);
  }

  lemma RunNext(p: Params, input: nat -> Input, n: nat)
    ensures var d := input(n);
      EngineRun(p, input, n + 1) == SpiClock(p, EngineRun(p, input, n), d.dv, d.byte, d.miso)
  {
    hide SpiClock;
  }

  lemma NotReady(p: Params, input: nat -> Input, t: nat, s: Spi, h: nat, i: nat)
    requires Exchanging(p, input, t, s, h, i)
    ensures !s.e.ready && ValidPhase(p.c, Half(input(t).byte, h, i))
  {
  }

  lemma {:induction false} ExchangeRuns(p: Params, input: nat -> Input, t: nat, h: nat, i: nat)
    requires p.Valid() && ValidPhase(p.c, Half(input(t).byte, h, i))
    requires Disciplined(p, input, t + 1 + p.c * h + i) && Exchanging(p, input, t, EngineRun(p, input, t + 1), 0, 0)
    ensures Exchanging(p, input, t, EngineRun(p, input, t + 1 + p.c * h + i), h, i)
    decreases h, i
  {
    hide EngineRun, Exchanging, SpiClock;
    if i == 0 && h == 0 {
      assert p.c * 0 == 0;
    } else {
      var h', i' := if i > 0 then h else h - 1, if i > 0 then i - 1 else p.c - 1;
      OneBefore(p.c, h, i);
      var n := t + 1 + p.c * h' + i';
      ExchangeRuns(p, input, t, h', i');
      NotReady(p, input, t, EngineRun(p, input, n), h', i');
      RunNext(p, input, n);
      ExchangeStep(p, input, t, EngineRun(p, input, n), h', i', input(n));
    }
  }

  lemma ExchangeBegins(p: Params, input: nat -> Input, t: nat)
    requires p.Valid() && Disciplined(p, input, t + 1) && input(t).dv
    ensures Exchanging(p, input, t, EngineRun(p, input, t + 1), 0, 0)
  {
    hide EngineRun, GenerateClock, Bit8, SetBit8;
    var q := EngineRuns(p, input, t);
    assert EngineRun(p, input, t).e.ready;
    RunNext(p, input, t);
    EngineAdvances(p, EngineRun(p, input, t), q, input(t));
  }

  lemma ExchangeEnds(p: Params, input: nat -> Input, t: nat, s: Spi, d: Input)
    requires p.Valid() && Exchanging(p, input, t, s, 16, 0) && !d.dv && d == input(t + 1 + p.c * 16)
    ensures var n := SpiClock(p, s, false, d.byte, d.miso); n.e.ready && Taken(p, input, t, n.r, 8)
  {
    hide Taken, MosiAt, DriveMosi, ReadMiso, BitsIn, BitsOut, PinHalf;
    MisoExchanges(p, input, t, s, 16, 0);
    assert p.c * 16 + 0 == p.c * 16;
  }

  lemma ShowsBit(p: Params, input: nat -> Input, t: nat, s: Spi, j: nat)
    requires p.Valid() && j < 8 && Exchanging(p, input, t, s, SampleHalf(p.mode, j), 0)
    ensures s.o.mosi == Bit8(input(t).byte, 7 - j)
    ensures s.pin != s.e.clk && (s.e.clk <==> p.mode == 0 || p.mode == 3)
  {
    hide Bit8, Taken;
    assert BitsOut(p.Cpha(), SampleHalf(p.mode, j), 0) == j + 1;
  }

  lemma PinFollows(p: Params, s: Spi, d: Input)
    ensures SpiClock(p, s, d.dv, d.byte, d.miso).pin == s.e.clk
  {
  }

  /** Full duplex, with any slave, in every mode and at every rate: at the j-th sampling edge of a byte
      MOSI shows its j-th bit from the top, and 16 * CLKS_PER_HALF_BIT + 2 clocks after data-valid the
      engine is ready with the eight values MISO had at those edges, the first on top.  Those are the
      rising edges of the clock pin in modes 0 and 3 and the falling ones in modes 1 and 2. */
  lemma ExchangesByte(p: Params, input: nat -> Input, t: nat, j: nat)
    requires p.Valid() && Disciplined(p, input, t + 16 * p.c + 2) && input(t).dv && j < 8
    ensures var a, b := EngineRun(p, input, SampleAt(p, t, j)), EngineRun(p, input, SampleAt(p, t, j) + 1);
      && a.o.mosi == Bit8(input(t).byte, 7 - j)
      && a.pin != b.pin && (b.pin <==> p.mode == 0 || p.mode == 3)
    ensures var r := EngineRun(p, input, t + 16 * p.c + 2);
      r.e.ready && Bit8(r.r.byte, 7 - j) == input(SampleAt(p, t, j)).miso
  {
    hide EngineRun, Exchanging, SpiClock;
    var m := t + 1 + p.c * 16;
    ExchangeBegins(p, input, t);
    var h := SampleHalf(p.mode, j);
    MulMonotone(h, 16, p.c);
    ExchangeRuns(p, input, t, h, 0);
    ShowsBit(p, input, t, EngineRun(p, input, SampleAt(p, t, j)), j);
    RunNext(p, input, SampleAt(p, t, j));
    PinFollows(p, EngineRun(p, input, SampleAt(p, t, j)), input(SampleAt(p, t, j)));
    ExchangeRuns(p, input, t, 16, 0);
    NotReady(p, input, t, EngineRun(p, input, m), 16, 0);
    RunNext(p, input, m);
    ExchangeEnds(p, input, t, EngineRun(p, input, m), input(m));
  }
}
