/** The SPI master: the byte engine under a chip-select state machine that counts a burst. */
module SPIMaster {
  import opened Bits
  import opened SPIProtocol

  datatype SelectState = IDLE | TRANSFER | CS_INACTIVE

  /** The smallest w with 2^w >= n. */
  function Clog2(n: nat): (w: nat)
    ensures n <= Pow2(w)
    ensures n >= 2 ==> w > 0 && Pow2(w - 1) < n
    ensures n < 2 ==> w == 0
  {
    if n <= 1 then 0 else 1 + Clog2((n + 1) / 2)
  }

  /** SPI_MODE, CLKS_PER_HALF_BIT, MAX_BYTES_PER_CS and CS_INACTIVE_CLKS. */
  datatype Config = Config(spi: Params, maxBytes: nat, inactiveClks: nat) {
    predicate Valid() { spi.Valid() && maxBytes >= 1 }

    /** The range of i_TX_Count, r_TX_Count and o_RX_Count. */
    function CountRange(): (n: nat)
      ensures n > maxBytes
    {
      Pow2(Clog2(maxBytes + 1))
    }

    /** The range of r_CS_Inactive_Count: [$clog2(N)-1:0], which is the two bits [-1:0] for N of
        0 and 1. */
    function InactiveRange(): (n: nat)
      ensures n > 0
    {
      if inactiveClks < 2 then 4 else Pow2(Clog2(inactiveClks))
    }

    /** What loading CS_INACTIVE_CLKS leaves in the counter. */
    function InactiveLoad(): nat { inactiveClks % InactiveRange() }
  }

  /** The counters are as wide as their parameters need and no wider. */
  lemma Ranges(g: Config) returns (w: nat, v: nat)
    requires g.Valid()
    ensures g.CountRange() == Pow2(w) && Pow2(w) > g.maxBytes && (w > 0 ==> Pow2(w - 1) <= g.maxBytes)
    ensures g.InactiveRange() == Pow2(v) && (g.inactiveClks < 2 ==> v == 2)
    ensures g.inactiveClks >= 2 ==> v > 0 && Pow2(v - 1) < g.inactiveClks <= Pow2(v)
  {
    w, v := Clog2(g.maxBytes + 1), if g.inactiveClks < 2 then 2 else Clog2(g.inactiveClks);
    assert Pow2(2) == 4;
  }

  datatype Select = Select(sm: SelectState, csN: bool, txCount: nat, inactive: nat, rxCount: nat)

  datatype Master = Master(cs: Select, spi: Spi)

  function SelectClock(g: Config, c: Select, ready: bool, rxDv: bool, dv: bool, count: nat): Select
    requires g.Valid()
  {
    var n := c.(rxCount := if c.csN then 0 else if rxDv then (c.rxCount + 1) % g.CountRange() else c.rxCount);
    match c.sm
    case IDLE =>
      if c.csN && dv then n.(txCount := (count - 1) % g.CountRange(), csN := false, sm := TRANSFER) else n
    case TRANSFER =>
      if !ready then n
      else if c.txCount > 0 then (if dv then n.(txCount := c.txCount - 1) else n)
      else n.(csN := true, inactive := g.InactiveLoad(), sm := CS_INACTIVE)
    case CS_INACTIVE =>
      if c.inactive > 0 then n.(inactive := c.inactive - 1) else n.(sm := IDLE)
  }

  function MasterClock(g: Config, m: Master, dv: bool, byte: Byte, count: nat, miso: bool): Master
    requires g.Valid()
  {
    Master(SelectClock(g, m.cs, m.spi.e.ready, m.spi.r.dv, dv, count), SpiClock(g.spi, m.spi, dv, byte, miso))
  }

  /** o_TX_Ready in a clock without a data-valid pulse. */
  predicate TxReady(m: Master) {
    m.cs.sm == IDLE || (m.cs.sm == TRANSFER && m.spi.e.ready && m.cs.txCount > 0)
  }

  function MasterReset(g: Config): Master {
    Master(Select(IDLE, true, 0, g.InactiveLoad(), 0), SpiReset(g.spi))
  }

  /** The chip-select state machine and the receive counter, with the engine they drive. */
  class SpiMaster {
    const config: Config
    const protocol: SpiProtocol
    var smCs: SelectState
    var csN: bool
    var txCount: nat
    var csInactiveCount: nat
    var rxCount: nat

    function Chip(): Select
      reads this`smCs, this`csN, this`txCount, this`csInactiveCount, this`rxCount
    {
      Select(smCs, csN, txCount, csInactiveCount, rxCount)
    }

    function View(): Master
      reads this, protocol
    {
      Master(Chip(), protocol.View())
    }

    /** Built in reset, with the receive counter cleared by the first clock of it. */
    constructor (g: Config, p: SpiProtocol)
      requires g.Valid() && p.params == g.spi && p.View() == SpiReset(g.spi)
      ensures config == g && protocol == p && View() == MasterReset(g)
    {
      config, protocol := g, p;
      smCs, csN, txCount, csInactiveCount, rxCount := IDLE, true, 0, g.InactiveLoad(), 0;
    }

    /** The receive counter and the state machine, on the engine's outputs before the edge. */
    method ClockSelect(masterReady: bool, masterRxDv: bool, dv: bool, count: nat)
      requires config.Valid()
      modifies this`smCs, this`csN, this`txCount, this`csInactiveCount, this`rxCount
      ensures Chip() == SelectClock(config, old(Chip()), masterReady, masterRxDv, dv, count)
    {
      if csN {
        rxCount := 0;
      } else if masterRxDv {
        rxCount := (rxCount + 1) % config.CountRange();
      }
      match smCs {
        case IDLE =>
          if csN && dv {
            txCount := (count - 1) % config.CountRange();
            csN := false;
            smCs := TRANSFER;
          }
        case TRANSFER =>
          if masterReady {
            if txCount > 0 {
              if dv {
                txCount := txCount - 1;
              }
            } else {
              csN := true;
              csInactiveCount := config.InactiveLoad();
              smCs := CS_INACTIVE;
            }
          }
        case CS_INACTIVE =>
          if csInactiveCount > 0 {
            csInactiveCount := csInactiveCount - 1;
          } else {
            smCs := IDLE;
          }
      }
    }

    method Clock(dv: bool, byte: Byte, count: nat, miso: bool)
      requires config.Valid() && protocol.params == config.spi
      modifies this, protocol
      ensures View() == MasterClock(config, old(View()), dv, byte, count, miso)
    {
      hide SpiClock, SelectClock;
      var masterReady, rxDv := protocol.txReady, protocol.rxDv;
      protocol.Clock(dv, byte, miso);
      ClockSelect(masterReady, rxDv, dv, count);
    }
  }
}
