/** Baud timing shared by the UART transmitter and receiver: a 17-bit accumulator whose upper
    bits are the ticks. */
module UartTiming {
  import opened Bits

  const BAUD := 115200
  const SOURCE_FREQ := 25000000
  const ACCUMULATOR_WIDTH := 16

  // ((BAUD << (ACCUMULATOR_WIDTH - 4)) + (SOURCE_FREQ >> 5)) / (SOURCE_FREQ >> 4)
  const COUNT_INC := 302

  lemma CountIncComputed()
    ensures COUNT_INC == (BAUD * Pow2(ACCUMULATOR_WIDTH - 4) + SOURCE_FREQ / Pow2(5)) / (SOURCE_FREQ / Pow2(4))
  {
    assert Pow2(5) == 32;
    assert Pow2(12) == 128 * Pow2(5);
  }

  /** baud_counter after one clock. */
  function Advance(counter: nat): nat {
    (counter + COUNT_INC) % 0x2_0000
  }

  predicate Tick(counter: nat) { counter / 0x1_0000 % 2 == 1 }        // baud_counter[16]
  predicate HalfTick(counter: nat) { counter / 0x8000 % 2 == 1 }      // baud_counter[15]
  predicate QuarterTick(counter: nat) { counter / 0x4000 % 2 == 1 }   // baud_counter[14]

  // Clocks from one reset of the counter to the clock that acts on its tick
  const BIT := 219
  const HALF := 110
  const QUARTER := 56

  lemma TickThresholds(c: nat)
    requires c < 0x1_8000
    ensures Tick(c) <==> c >= 0x1_0000
    ensures c < 0x1_0000 ==> (HalfTick(c) <==> c >= 0x8000)
    ensures c < 0x8000 ==> (QuarterTick(c) <==> c >= 0x4000)
  {
  }

  /** Cleared at one clock and left to run, the counter shows its first full, half and quarter
      tick to exactly the BIT-th, HALF-th and QUARTER-th clock after it. */
  lemma FirstTicks(i: nat)
    requires i < BIT
    ensures Tick(i * COUNT_INC) <==> i == BIT - 1
    ensures i < HALF ==> (HalfTick(i * COUNT_INC) <==> i == HALF - 1)
    ensures i < QUARTER ==> (QuarterTick(i * COUNT_INC) <==> i == QUARTER - 1)
    ensures Advance(i * COUNT_INC) == (i + 1) * COUNT_INC
  {
    hide Tick, HalfTick, QuarterTick;
    TickThresholds(i * 302);
  }
}
