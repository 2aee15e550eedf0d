/** The SPI byte engine, for all four modes and every CLKS_PER_HALF_BIT: five clocked processes
    around one edge counter. */
module SPIProtocol {
  import opened Bits

  /** SPI_MODE and CLKS_PER_HALF_BIT. */
  datatype Params = Params(mode: nat, c: nat) {
    predicate Valid() { mode < 4 && c >= 1 }
    predicate Cpol() { mode == 2 || mode == 3 }
    predicate Cpha() { mode == 1 || mode == 3 }
  }

  /** The registers, grouped by the process that writes them. */
  datatype EdgeRegs = EdgeRegs(ready: bool, edges: nat, leading: bool, trailing: bool, clk: bool, count: nat)
  datatype ByteRegs = ByteRegs(byte: Byte, dv: bool)
  datatype MosiRegs = MosiRegs(mosi: bool, bit: nat)
  datatype MisoRegs = MisoRegs(byte: Byte, dv: bool, bit: nat)

  datatype Spi = Spi(e: EdgeRegs, t: ByteRegs, o: MosiRegs, r: MisoRegs, pin: bool)   // pin: o_SPI_Clk

  function Bit8(x: Byte, k: nat): bool { Bit(x, k) == 1 }

  function SetBit8(x: Byte, k: nat, v: bool): Byte {
    if k < 8 then SetBitByte(x, k, v); SetBit(x, k, if v then 1 else 0) else x
  }

  lemma SetBitByte(x: Byte, k: nat, v: bool)
    requires k < 8
    ensures SetBit(x, k, if v then 1 else 0) < 0x100
  {
    assert Pow2(8) == 0x100;
    SetBitFits(x, k, if v then 1 else 0, 8);
  }

  function Decrement3(x: nat): nat { (x - 1) % 8 }

  /** The five processes, each from the registers as the edge finds them. */
  function GenerateClock(p: Params, e: EdgeRegs, dv: bool): EdgeRegs {
    var n := e.(leading := false, trailing := false);
    if dv then n.(ready := false, edges := 16)
    else if e.edges > 0 then
      var b := n.(ready := false);
      if e.count == 2 * p.c - 1 then b.(edges := e.edges - 1, trailing := true, count := 0, clk := !e.clk)
      else if e.count == p.c - 1 then b.(edges := e.edges - 1, leading := true, count := e.count + 1, clk := !e.clk)
      else b.(count := e.count + 1)
    else n.(ready := true)
  }

  function RegisterByte(t: ByteRegs, dv: bool, byte: Byte): ByteRegs {
    ByteRegs(if dv then byte else t.byte, dv)
  }

  function DriveMosi(p: Params, o: MosiRegs, e: EdgeRegs, t: ByteRegs): MosiRegs {
    if e.ready then o.(bit := 7)
    else if t.dv && !p.Cpha() then MosiRegs(Bit8(t.byte, 7), 6)
    else if (e.leading && p.Cpha()) || (e.trailing && !p.Cpha()) then
      MosiRegs(Bit8(t.byte, o.bit), Decrement3(o.bit))
    else o
  }

  function ReadMiso(p: Params, r: MisoRegs, e: EdgeRegs, miso: bool): MisoRegs {
    if e.ready then MisoRegs(r.byte, false, 7)
    else if (e.leading && !p.Cpha()) || (e.trailing && p.Cpha()) then
      MisoRegs(SetBit8(r.byte, r.bit, miso), r.bit == 0, Decrement3(r.bit))
    else r.(dv := false)
  }

  /** One rising edge with reset released. */
  function SpiClock(p: Params, s: Spi, dv: bool, byte: Byte, miso: bool): Spi {
    Spi(GenerateClock(p, s.e, dv),
        RegisterByte(s.t, dv, byte),
        DriveMosi(p, s.o, s.e, s.t),
        ReadMiso(p, s.r, s.e, miso),
        s.e.clk)
  }

  /** All registers while i_Rst_L is low. */
  function SpiReset(p: Params): Spi {
    Spi(EdgeRegs(false, 0, false, false, p.Cpol(), 0), ByteRegs(0, false), MosiRegs(false, 7),
        MisoRegs(0, false, 7), p.Cpol())
  }

  class SpiProtocol {
    const params: Params
    var txReady: bool
    var clkEdges: nat
    var leadingEdge: bool
    var trailingEdge: bool
    var spiClk: bool
    var clkCount: nat
    var txByte: Byte
    var txDv: bool
    var mosi: bool
    var txBitCount: nat
    var rxByte: Byte
    var rxDv: bool
    var rxBitCount: nat
    var spiClkOut: bool

    function Edges(): EdgeRegs
      reads this`txReady, this`clkEdges, this`leadingEdge, this`trailingEdge, this`spiClk, this`clkCount
    {
      EdgeRegs(txReady, clkEdges, leadingEdge, trailingEdge, spiClk, clkCount)
    }

    function Transmit(): ByteRegs
      reads this`txByte, this`txDv
    {
      ByteRegs(txByte, txDv)
    }

    function Mosi(): MosiRegs
      reads this`mosi, this`txBitCount
    {
      MosiRegs(mosi, txBitCount)
    }

    function Miso(): MisoRegs
      reads this`rxByte, this`rxDv, this`rxBitCount
    {
      MisoRegs(rxByte, rxDv, rxBitCount)
    }

    function View(): Spi
      reads this
    {
      Spi(Edges(), Transmit(), Mosi(), Miso(), spiClkOut)
    }

    /** Built in reset. */
    constructor (p: Params)
      ensures params == p && View() == SpiReset(p)
    {
      params := p;
      txReady, clkEdges, leadingEdge, trailingEdge, clkCount := false, 0, false, false, 0;
      spiClk, spiClkOut := p.Cpol(), p.Cpol();
      txByte, txDv, mosi, txBitCount := 0, false, false, 7;
      rxByte, rxDv, rxBitCount := 0, false, 7;
    }

    /** A rising edge: the processes run in an order in which each still reads the registers of
        the others as the edge found them. */
    method Clock(dv: bool, byte: Byte, miso: bool)
      modifies this
      ensures View() == SpiClock(params, old(View()), dv, byte, miso)
    {
      hide GenerateClock, DriveMosi, ReadMiso;
      spiClkOut := spiClk;
      ClockMiso(miso);
      ClockMosi();
      ClockByte(dv, byte);
      ClockEdges(dv);
    }

    method ClockEdges(dv: bool)
      modifies this`txReady, this`clkEdges, this`leadingEdge, this`trailingEdge, this`spiClk, this`clkCount
      ensures Edges() == GenerateClock(params, old(Edges()), dv)
    {
      leadingEdge, trailingEdge := false, false;
      if dv {
        txReady := false;
        clkEdges := 16;
      } else if clkEdges > 0 {
        txReady := false;
        if clkCount == params.c * 2 - 1 {
          clkEdges := clkEdges - 1;
          trailingEdge := true;
          clkCount := 0;
          spiClk := !spiClk;
        } else if clkCount == params.c - 1 {
          clkEdges := clkEdges - 1;
          leadingEdge := true;
          clkCount := clkCount + 1;
          spiClk := !spiClk;
        } else {
          clkCount := clkCount + 1;
        }
      } else {
        txReady := true;
      }
    }

    method ClockByte(dv: bool, byte: Byte)
      modifies this`txByte, this`txDv
      ensures Transmit() == RegisterByte(old(Transmit()), dv, byte)
    {
      txDv := dv;
      if dv {
        txByte := byte;
      }
    }

    method ClockMosi()
      modifies this`mosi, this`txBitCount
      ensures Mosi() == DriveMosi(params, old(Mosi()), Edges(), Transmit())
    {
      if txReady {
        txBitCount := 7;
      } else if txDv && !params.Cpha() {
        mosi := Bit8(txByte, 7);
        txBitCount := 6;
      } else if (leadingEdge && params.Cpha()) || (trailingEdge && !params.Cpha()) {
        mosi := Bit8(txByte, txBitCount);
        txBitCount := Decrement3(txBitCount);
      }
    }

    method ClockMiso(miso: bool)
      modifies this`rxByte, this`rxDv, this`rxBitCount
      ensures Miso() == ReadMiso(params, old(Miso()), Edges(), miso)
    {
      rxDv := false;
      if txReady {
        rxBitCount := 7;
      } else if (leadingEdge && !params.Cpha()) || (trailingEdge && params.Cpha()) {
        rxByte := SetBit8(rxByte, rxBitCount, miso);
        if rxBitCount == 0 {
          rxDv := true;
        }
        rxBitCount := Decrement3(rxBitCount);
      }
    }
  }

  // ---------------------------------------------------------------
  // One byte
  // ---------------------------------------------------------------

  /** Where a transfer stands: out of reset; idle; clock `i` of half period `h` of byte `b`
      (h = 16 only for the clock after the last edge); the first clock of ready after it. */
  datatype SpiPhase = Starting | Ready | Half(b: Byte, h: nat, i: nat) | Done(b: Byte)

  predicate ValidPhase(c: nat, p: SpiPhase) {
    p.Half? ==> p.h <= 16 && p.i < c && (p.h == 16 ==> p.i == 0)
  }

  /** A data-valid pulse starts the next byte; otherwise the phase runs on by itself. */
  function NextPhase(c: nat, p: SpiPhase, dv: bool, byte: Byte): SpiPhase {
    if p.Half? then
      if p.h == 16 then Done(p.b) else if p.i + 1 < c then Half(p.b, p.h, p.i + 1) else Half(p.b, p.h + 1, 0)
    else if dv then Half(byte, 0, 0) else Ready
  }

  /** The clock before clock i of half period h, in half periods of c clocks. */
  lemma OneBefore(c: nat, h: nat, i: nat)
    requires i < c && (i > 0 || h > 0)
    ensures if i > 0 then c * h + (i - 1) + 1 == c * h + i else c * (h - 1) + (c - 1) + 1 == c * h + i
  {
    if i == 0 {
      assert c * h == c * (h - 1) + c;
    }
  }

  lemma HalfOfClock(k: nat, c: nat)
    requires c >= 1 && k <= 16 * c
    ensures c * (k / c) + k % c == k && k / c <= 16 && (k / c == 16 ==> k % c == 0)
  {
    var h: nat, i: nat := k / c, k % c;
    assert c * h + i == k;
    if h > 16 {
      MulMonotone(17, h, c);
    }
  }

  /** Bits put on MOSI by then. */
  function BitsOut(cpha: bool, h: nat, i: nat): nat {
    if cpha then (if i == 0 then h / 2 else (h + 1) / 2)
    else (if i == 0 && h % 2 == 0 then h / 2 else h / 2 + 1)
  }

  /** Bits taken from MISO by then. */
  function BitsIn(cpha: bool, h: nat, i: nat): nat {
    if cpha then (if i == 0 && h % 2 == 0 && h > 0 then h / 2 - 1 else h / 2)
    else (if i == 0 then h / 2 else (h + 1) / 2)
  }

  /** The top `n` bits agree. */
  predicate TopBits(x: Byte, b: Byte, n: nat) {
    forall k: nat :: 8 - n <= k < 8 ==> Bit(x, k) == Bit(b, k)
  }

  /** o_SPI_Clk follows the internal clock one clock later. */
  function PinHalf(h: nat, i: nat): nat {
    if i == 0 && h > 0 then h - 1 else h
  }

  /** The clock of a transfer at which o_RX_DV is high; in modes 1 and 3 it is `Done`. */
  predicate DvAt(p: Params, q: SpiPhase) {
    if p.Cpha() then q.Done?
    else q.Half? && (if p.c == 1 then q.h == 16 else q.h == 15 && q.i == 1)
  }

  predicate Resting(p: Params, s: Spi) {
    && s.e.edges == 0 && !s.e.leading && !s.e.trailing && s.e.clk == p.Cpol() && s.e.count == 0
    && s.pin == p.Cpol() && !s.t.dv
  }

  predicate EdgesAt(p: Params, e: EdgeRegs, h: nat, i: nat) {
    && !e.ready && e.edges == 16 - h
    && e.count == (if h % 2 == 1 then p.c else 0) + i
    && e.clk == (p.Cpol() != (h % 2 == 1))
    && e.leading == (i == 0 && h % 2 == 1)
    && e.trailing == (i == 0 && h % 2 == 0 && h > 0)
  }

  predicate MosiAt(o: MosiRegs, b: Byte, n: nat) {
    o.bit == (7 - n) % 8 && (n > 0 ==> o.mosi == Bit8(b, (8 - n) % 8))
  }

  predicate MisoAt(r: MisoRegs, b: Byte, n: nat) {
    r.bit == (7 - n) % 8 && TopBits(r.byte, b, n)
  }

  /** The registers in each phase. */
  predicate SpiAt(p: Params, s: Spi, q: SpiPhase) {
    && ValidPhase(p.c, q) && s.r.dv == DvAt(p, q)
    && match q
       case Starting => Resting(p, s) && !s.e.ready && s.o.bit == 7 && s.r.bit == 7
       case Ready => Resting(p, s) && s.e.ready
       case Done(b) => Resting(p, s) && s.e.ready && TopBits(s.r.byte, b, 8)
       case Half(b, h, i) =>
         && EdgesAt(p, s.e, h, i)
         && s.pin == (p.Cpol() != (PinHalf(h, i) % 2 == 1))
         && s.t == ByteRegs(b, h == 0 && i == 0)
         && MosiAt(s.o, b, BitsOut(p.Cpha(), h, i))
         && MisoAt(s.r, b, BitsIn(p.Cpha(), h, i))
  }

  lemma AllBits(x: Byte, b: Byte)
    requires TopBits(x, b, 8)
    ensures x == b
  {
    forall k: nat ensures Bit(x, k) == Bit(b, k) {
      if k >= 8 {
        HighBit(x, k);
        HighBit(b, k);
      }
    }
    BitsDetermine(x, b);
  }

  lemma HighBit(x: Byte, k: nat)
    requires k >= 8
    ensures Bit(x, k) == 0
  {
    assert Pow2(8) == 0x100;
    BitBeyond(x, 8, k);
  }

  lemma {:induction false} BitBeyond(x: nat, n: nat, k: nat)
    requires x < Pow2(n) && k >= n
    ensures Bit(x, k) == 0
  {
    if n == 0 {
      ZeroBit(k);
    } else {
      BitBeyond(x / 2, n - 1, k - 1);
    }
  }

  lemma TakesBit(x: Byte, b: Byte, n: nat)
    requires n < 8 && TopBits(x, b, n)
    ensures TopBits(SetBit8(x, 7 - n, Bit8(b, 7 - n)), b, n + 1)
  {
    hide Bit, SetBit;
    forall k: nat | 7 - n <= k < 8 ensures Bit(SetBit8(x, 7 - n, Bit8(b, 7 - n)), k) == Bit(b, k) {
      BitOfSetBit(x, 7 - n, Bit(b, 7 - n), k);
    }
  }

  lemma EdgesAdvance(p: Params, e: EdgeRegs, h: nat, i: nat)
    requires p.Valid() && EdgesAt(p, e, h, i) && i < p.c && h < 16
    ensures var n := GenerateClock(p, e, false);
      if i + 1 < p.c then EdgesAt(p, n, h, i + 1) else EdgesAt(p, n, h + 1, 0)
  {
  }

  /** One more bit has gone out a clock after each edge that shifts, and one more has come in a
      clock after each edge that samples. */
  lemma BitCounts(c: nat, b: Byte, h: nat, i: nat, cpha: bool)
    requires ValidPhase(c, Half(b, h, i)) && h < 16
    ensures var q := NextPhase(c, Half(b, h, i), false, 0);
      var leading, trailing := i == 0 && h % 2 == 1, i == 0 && h % 2 == 0 && h > 0;
      && BitsOut(cpha, q.h, q.i) == BitsOut(cpha, h, i)
           + (if (h == 0 && i == 0 && !cpha) || (leading && cpha) || (trailing && !cpha) then 1 else 0)
      && BitsIn(cpha, q.h, q.i) == BitsIn(cpha, h, i)
           + (if (leading && !cpha) || (trailing && cpha) then 1 else 0)
      && BitsOut(cpha, q.h, q.i) <= 8 && BitsIn(cpha, q.h, q.i) <= 8
  {
  }

  lemma MosiAdvances(p: Params, s: Spi, b: Byte, h: nat, i: nat)
    requires p.Valid() && ValidPhase(p.c, Half(b, h, i)) && h < 16
    requires EdgesAt(p, s.e, h, i) && s.t == ByteRegs(b, h == 0 && i == 0) && MosiAt(s.o, b, BitsOut(p.Cpha(), h, i))
    ensures var n := DriveMosi(p, s.o, s.e, s.t);
      var q := NextPhase(p.c, Half(b, h, i), false, 0);
      MosiAt(n, b, BitsOut(p.Cpha(), q.h, q.i))
  {
    hide Bit8, TopBits, BitsOut, BitsIn;
    BitCounts(p.c, b, h, i, p.Cpha());
    FirstOut(p.Cpha());
  }

  lemma FirstOut(cpha: bool)
    ensures BitsOut(cpha, 0, 0) == 0
  {
  }

  /** With MISO tied to MOSI, every bit is read back while MOSI still shows it. */
  lemma MisoAdvances(p: Params, s: Spi, b: Byte, h: nat, i: nat)
    requires p.Valid() && SpiAt(p, s, Half(b, h, i)) && h < 16
    ensures var n := ReadMiso(p, s.r, s.e, s.o.mosi);
      var q := NextPhase(p.c, Half(b, h, i), false, 0);
      MisoAt(n, b, BitsIn(p.Cpha(), q.h, q.i))
  {
    hide Bit8, TopBits, SetBit8, BitsOut, BitsIn, GenerateClock;
    BitCounts(p.c, b, h, i, p.Cpha());
    SampleWhileStable(p.Cpha(), h, i);
    var g := BitsIn(p.Cpha(), h, i);
    if g < 8 {
      TakesBit(s.r.byte, b, g);
    }
  }

  /** At a sampling edge the bit on MOSI is the next one to read. */
  lemma SampleWhileStable(cpha: bool, h: nat, i: nat)
    requires h <= 16
    ensures i == 0 && ((h % 2 == 1 && !cpha) || (h % 2 == 0 && h > 0 && cpha)) ==>
              BitsOut(cpha, h, i) == BitsIn(cpha, h, i) + 1 && BitsIn(cpha, h, i) < 8
  {
  }

  /** o_RX_DV comes with the eighth bit. */
  lemma MisoDv(p: Params, s: Spi, b: Byte, h: nat, i: nat)
    requires p.Valid() && SpiAt(p, s, Half(b, h, i))
    ensures ReadMiso(p, s.r, s.e, s.o.mosi).dv == DvAt(p, NextPhase(p.c, Half(b, h, i), false, 0))
  {
    hide Bit8, TopBits, SetBit8, BitsOut, GenerateClock, Decrement3;
  }

  /** In modes 1 and 3 the eighth bit is read at the clock that makes the engine ready again. */
  lemma MisoEnds(p: Params, s: Spi, b: Byte)
    requires p.Valid() && SpiAt(p, s, Half(b, 16, 0))
    ensures TopBits(ReadMiso(p, s.r, s.e, s.o.mosi).byte, b, 8)
  {
    hide Bit8, TopBits, SetBit8;
    if p.Cpha() {
      TakesBit(s.r.byte, b, 7);
    }
  }

  predicate Free(q: SpiPhase) {
    !q.Half?
  }

  lemma HalfAdvances(p: Params, s: Spi, q: SpiPhase, byte: Byte)
    requires p.Valid() && SpiAt(p, s, q) && q.Half?
    ensures SpiAt(p, SpiClock(p, s, false, byte, s.o.mosi), NextPhase(p.c, q, false, byte))
  {
    hide Bit8, TopBits, DriveMosi, ReadMiso, BitsIn, BitsOut;
    MisoDv(p, s, q.b, q.h, q.i);
    if q.h == 16 {
      MisoEnds(p, s, q.b);
    } else {
      hide GenerateClock;
      MisoAdvances(p, s, q.b, q.h, q.i);
      EdgesAdvance(p, s.e, q.h, q.i);
      MosiAdvances(p, s, q.b, q.h, q.i);
    }
  }

  lemma FreeAdvances(p: Params, s: Spi, q: SpiPhase, dv: bool, byte: Byte)
    requires p.Valid() && SpiAt(p, s, q) && Free(q)
    ensures SpiAt(p, SpiClock(p, s, dv, byte, s.o.mosi), NextPhase(p.c, q, dv, byte))
  {
    hide Bit8, SetBit8;
  }

  /** Looped back, every clock takes the engine to its next phase, in every mode and at every clock
      rate, if data-valid is pulsed only while no byte is under way. */
  lemma SpiAdvances(p: Params, s: Spi, q: SpiPhase, dv: bool, byte: Byte)
    requires p.Valid() && SpiAt(p, s, q) && (dv ==> Free(q))
    ensures SpiAt(p, SpiClock(p, s, dv, byte, s.o.mosi), NextPhase(p.c, q, dv, byte))
  {
    hide SpiAt, SpiClock, NextPhase;
    if Free(q) {
      FreeAdvances(p, s, q, dv, byte);
    } else {
      HalfAdvances(p, s, q, byte);
    }
  }
}
