/** The SPI engine with MISO tied to MOSI, over whole runs. */
module SpiLoopback {
  import opened Bits
  import opened SPIProtocol

  datatype Drive = Drive(dv: bool, byte: Byte)

  /** The engine, the bytes given to it, the bytes read at clocks that show o_RX_DV, and the number
      of times o_SPI_Clk has changed. */
  datatype Loop = Loop(s: Spi, sent: seq<Byte>, received: seq<Byte>, edges: nat)

  function LoopClock(p: Params, l: Loop, d: Drive): Loop {
    var n := SpiClock(p, l.s, d.dv, d.byte, l.s.o.mosi);
    Loop(n,
         if d.dv then l.sent + [d.byte] else l.sent,
         if l.s.r.dv then l.received + [l.s.r.byte] else l.received,
         l.edges + (if n.pin != l.s.pin then 1 else 0))
  }

  function LoopRun(p: Params, l: Loop, drive: nat -> Drive, n: nat): Loop {
    if n == 0 then l else LoopClock(p, LoopRun(p, l, drive, n - 1), drive(n - 1))
  }

  /** Data-valid is pulsed only while the engine shows ready. */
  predicate Disciplined(p: Params, l: Loop, drive: nat -> Drive, n: nat) {
    forall k: nat | k < n :: drive(k).dv ==> LoopRun(p, l, drive, k).s.e.ready
  }

  /** The byte under way has been read by the consumer. */
  predicate Read(p: Params, q: SpiPhase) {
    match q
    case Half(_, h, i) => !p.Cpha() && ((h == 15 && i >= 2) || (h == 16 && p.c > 1))
    case Done(_) => !p.Cpha()
    case _ => true
  }

  predicate Inv(p: Params, l: Loop, q: SpiPhase) {
    && SpiAt(p, l.s, q)
    && (q.Half? ==> |l.sent| > 0)
    && l.edges == (if q.Half? then 16 * (|l.sent| - 1) + PinHalf(q.h, q.i) else 16 * |l.sent|)
    && (if Read(p, q) then l.received == l.sent else l.sent == l.received + [q.b])
  }

  lemma ReadAdvances(p: Params, q: SpiPhase, dv: bool, byte: Byte)
    requires p.Valid() && ValidPhase(p.c, q) && (dv ==> Free(q))
    ensures var n := NextPhase(p.c, q, dv, byte);
      && (DvAt(p, q) ==> !Read(p, q))
      && (if dv then !Read(p, n) && (Read(p, q) || DvAt(p, q)) && n == Half(byte, 0, 0)
          else (Read(p, n) <==> Read(p, q) || DvAt(p, q)) && (!Read(p, n) ==> n.b == q.b))
  {
  }

  lemma DvShowsByte(p: Params, s: Spi, q: SpiPhase)
    requires SpiAt(p, s, q) && DvAt(p, q)
    ensures s.r.byte == q.b
  {
    hide TopBits, Bit8;
    AllBits(s.r.byte, q.b);
  }

  lemma PinOf(p: Params, s: Spi, q: SpiPhase)
    requires SpiAt(p, s, q)
    ensures s.pin == (p.Cpol() != (q.Half? && PinHalf(q.h, q.i) % 2 == 1))
  {
  }

  lemma PinAdvances(c: nat, q: SpiPhase)
    requires ValidPhase(c, q) && q.Half? && c >= 1
    ensures var n := NextPhase(c, q, false, 0);
      if n.Half? then PinHalf(q.h, q.i) <= PinHalf(n.h, n.i) <= PinHalf(q.h, q.i) + 1 else PinHalf(q.h, q.i) == 15
  {
  }

  lemma LoopAdvances(p: Params, l: Loop, q: SpiPhase, d: Drive)
    requires p.Valid() && Inv(p, l, q) && (d.dv ==> Free(q))
    ensures Inv(p, LoopClock(p, l, d), NextPhase(p.c, q, d.dv, d.byte))
  {
    hide SpiAt, SpiClock, NextPhase, Read, DvAt, PinHalf;
    SpiAdvances(p, l.s, q, d.dv, d.byte);
    var n := NextPhase(p.c, q, d.dv, d.byte);
    PhaseFacts(p, l.s, q, d.dv, d.byte);
    ReadAdvances(p, q, d.dv, d.byte);
    if DvAt(p, q) {
      DvShowsByte(p, l.s, q);
    }
    PinOf(p, l.s, q);
    PinOf(p, LoopClock(p, l, d).s, n);
    if q.Half? {
      PinAdvances(p.c, q);
    }
  }

  lemma PhaseFacts(p: Params, s: Spi, q: SpiPhase, dv: bool, byte: Byte)
    requires SpiAt(p, s, q) && (dv ==> Free(q))
    ensures ValidPhase(p.c, q) && s.r.dv == DvAt(p, q)
    ensures s.e.ready <==> q.Ready? || q.Done?
    ensures var n := NextPhase(p.c, q, dv, byte);
      && (q.Half? ==> n == NextPhase(p.c, q, false, 0))
      && (!q.Half? ==> n == if dv then Half(byte, 0, 0) else Ready)
    ensures PinHalf(0, 0) == 0
  {
  }

  lemma FreeWhenReady(p: Params, l: Loop, q: SpiPhase)
    requires Inv(p, l, q) && l.s.e.ready
    ensures Free(q)
  {
  }

  lemma InvRuns(p: Params, l: Loop, drive: nat -> Drive, n: nat, q: SpiPhase)
    requires p.Valid() && n > 0 && Disciplined(p, l, drive, n) && Inv(p, LoopRun(p, l, drive, n - 1), q)
    ensures Inv(p, LoopRun(p, l, drive, n), NextPhase(p.c, q, drive(n - 1).dv, drive(n - 1).byte))
  {
    hide LoopClock, Inv, NextPhase;
    var b, d := LoopRun(p, l, drive, n - 1), drive(n - 1);
    if d.dv {
      FreeWhenReady(p, b, q);
    }
    LoopAdvances(p, b, q, d);
  }

  lemma InvMeans(p: Params, l: Loop, q: SpiPhase)
    requires Inv(p, l, q)
    ensures l.received <= l.sent && |l.sent| <= |l.received| + 1
    ensures l.s.e.ready ==> l.edges == 16 * |l.sent| && l.s.pin == p.Cpol()
    ensures q == Ready ==> l.received == l.sent
  {
    hide SpiAt, PinHalf;
    PhaseFacts(p, l.s, q, false, 0);
    PinOf(p, l.s, q);
  }

  /** For every mode, every clock rate and every disciplined driver: the bytes read back are the
      bytes sent, in order and once each; at most one is under way.  Whenever the engine is ready
      o_SPI_Clk has changed exactly 16 times per byte and rests at CPOL. */
  lemma {:induction false} EveryByteReturns(p: Params, drive: nat -> Drive, n: nat) returns (q: SpiPhase)
    requires p.Valid() && Disciplined(p, Loop(SpiReset(p), [], [], 0), drive, n)
    ensures var l := LoopRun(p, Loop(SpiReset(p), [], [], 0), drive, n);
      && Inv(p, l, q)
      && l.received <= l.sent && |l.sent| <= |l.received| + 1
      && (l.s.e.ready ==> l.edges == 16 * |l.sent| && l.s.pin == p.Cpol())
      && (q == Ready ==> l.received == l.sent)
  {
    var l0 := Loop(SpiReset(p), [], [], 0);
    if n == 0 {
      q := Starting;
      ResetStarts(p);
    } else {
      var q0 := EveryByteReturns(p, drive, n - 1);
      q := NextPhase(p.c, q0, drive(n - 1).dv, drive(n - 1).byte);
      InvRuns(p, l0, drive, n, q0);
    }
    hide *;
    InvMeans(p, LoopRun(p, l0, drive, n), q);
  }

  lemma ResetStarts(p: Params)
    ensures SpiAt(p, SpiReset(p), Starting)
  {
  }

  /** No data-valid pulse in clocks [from, to). */
  predicate NoPulse(drive: nat -> Drive, from: nat, to: nat) {
    forall k: nat | from <= k < to :: !drive(k).dv
  }

  lemma {:induction false} HalvesPass(p: Params, l: Loop, b: Byte, drive: nat -> Drive, h: nat, i: nat)
    requires p.Valid() && Inv(p, LoopRun(p, l, drive, 1), Half(b, 0, 0)) && ValidPhase(p.c, Half(b, h, i))
    requires NoPulse(drive, 1, 1 + p.c * h + i)
    ensures Inv(p, LoopRun(p, l, drive, 1 + p.c * h + i), Half(b, h, i))
    ensures |LoopRun(p, l, drive, 1 + p.c * h + i).sent| == |LoopRun(p, l, drive, 1).sent|
    decreases h, i
  {
    hide LoopClock, Inv, NoPulse;
    if i > 0 {
      HalvesFewer(drive, p.c * h + i);
      HalvesPass(p, l, b, drive, h, i - 1);
      StepInside(p, l, drive, p.c * h + i, Half(b, h, i - 1));
    } else if h > 0 {
      assert p.c * h == p.c * (h - 1) + p.c;
      HalvesFewer(drive, p.c * h);
      HalvesPass(p, l, b, drive, h - 1, p.c - 1);
      StepInside(p, l, drive, p.c * h, Half(b, h - 1, p.c - 1));
    }
  }

  lemma HalvesFewer(drive: nat -> Drive, n: nat)
    requires n > 0 && NoPulse(drive, 1, 1 + n)
    ensures NoPulse(drive, 1, n) && !drive(n).dv
  {
  }

  lemma StepInside(p: Params, l: Loop, drive: nat -> Drive, n: nat, q: SpiPhase)
    requires p.Valid() && Inv(p, LoopRun(p, l, drive, n), q) && !drive(n).dv
    ensures Inv(p, LoopRun(p, l, drive, n + 1), NextPhase(p.c, q, false, drive(n).byte))
    ensures |LoopRun(p, l, drive, n + 1).sent| == |LoopRun(p, l, drive, n).sent|
  {
    hide SpiClock, NextPhase, Inv, Read;
    LoopAdvances(p, LoopRun(p, l, drive, n), q, drive(n));
  }

  /** One data-valid pulse: 16 * CLKS_PER_HALF_BIT + 2 clocks later the engine is ready again, the
      clock pin has changed 16 times and is back at CPOL, and the byte received is the byte sent. */
  lemma OneByte(p: Params, l: Loop, q: SpiPhase, drive: nat -> Drive)
    requires p.Valid() && Inv(p, l, q) && Free(q) && drive(0).dv
    requires NoPulse(drive, 1, 16 * p.c + 2)
    ensures var r := LoopRun(p, l, drive, 16 * p.c + 2);
      && Inv(p, r, Done(drive(0).byte)) && r.s.e.ready
      && r.s.r.byte == drive(0).byte && r.s.pin == p.Cpol()
      && r.edges == l.edges + 16
  {
    hide LoopClock, NextPhase, Inv, NoPulse;
    var b := drive(0).byte;
    assert LoopRun(p, l, drive, 0) == l;
    FirstClock(p, l, q, drive);
    HalvesFewer(drive, 16 * p.c + 1);
    assert p.c * 16 == 16 * p.c;
    HalvesPass(p, l, b, drive, 16, 0);
    StepInside(p, l, drive, 16 * p.c + 1, Half(b, 16, 0));
    LastHalf(p.c, b, drive(16 * p.c + 1).byte);
    EndFacts(p, LoopRun(p, l, drive, 16 * p.c + 2), b);
    CountEdges(p, l, q);
    CountEdges(p, LoopRun(p, l, drive, 16 * p.c + 2), Done(b));
  }

  lemma LastHalf(c: nat, b: Byte, byte: Byte)
    ensures NextPhase(c, Half(b, 16, 0), false, byte) == Done(b)
  {
  }

  lemma CountEdges(p: Params, l: Loop, q: SpiPhase)
    requires Inv(p, l, q) && Free(q)
    ensures l.edges == 16 * |l.sent|
  {
  }

  lemma FirstClock(p: Params, l: Loop, q: SpiPhase, drive: nat -> Drive)
    requires p.Valid() && Inv(p, l, q) && Free(q) && drive(0).dv
    ensures var r := LoopRun(p, l, drive, 1);
      Inv(p, r, Half(drive(0).byte, 0, 0)) && |r.sent| == |l.sent| + 1
  {
    hide SpiClock, SpiAt, Read;
    LoopAdvances(p, l, q, drive(0));
    assert LoopRun(p, l, drive, 0) == l;
  }

  lemma EndFacts(p: Params, l: Loop, b: Byte)
    requires Inv(p, l, Done(b))
    ensures l.s.e.ready && l.s.r.byte == b && l.s.pin == p.Cpol()
  {
    AllBits(l.s.r.byte, b);
  }
}
