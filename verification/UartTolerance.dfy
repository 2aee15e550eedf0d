/** Exactly which bit periods the receiver tolerates. */
module UartTolerance {
  import opened Bits
  import opened UartTiming
  import opened UARTRx

  /** An 8N1 frame for `b` with a bit period of `p` clocks, between stretches of idle line. */
  function Frame(b: Byte, p: nat): LineAt
    requires p > 0
  {
    n => n < 0 || n >= 9 * p || (n >= p && Bit(b, n / p - 1) == 1)
  }

  /** From waiting, the first byte reported is `b`, and it is reported. */
  ghost predicate Decodes(r: Rx, b: Byte, p: nat)
    requires p > 0
  {
    exists n: nat :: FirstReport(r, Frame(b, p), n) && RxRun(r, Frame(b, p), 0, n).byte == b
  }

  predicate Tolerated(p: nat) {
    207 <= p <= 232
  }

  lemma SampleSlot(p: nat, k: nat)
    requires Tolerated(p) && k < 8
    ensures p <= SampleClock(k) < 9 * p && SampleClock(k) / p == k + 1
  {
    MulMonotone(207, p, k + 1);
    MulMonotone(p, 232, k + 1);
    assert SampleClock(k) >= 232 * (k + 1);
    assert SampleClock(k) < 207 * (k + 2);
    MulMonotone(207, p, k + 2);
    assert p * (k + 2) == p * (k + 1) + p;
    DivideUnique(SampleClock(k), p, k + 1, SampleClock(k) - p * (k + 1));
  }

  lemma FrameSamples(b: Byte, p: nat)
    requires Tolerated(p)
    ensures FrameStart(Frame(b, p)) && SamplesAre(Frame(b, p), b, 8) && Frame(b, p)(FRAME - 2)
  {
    hide Bit, SampleClock;
    forall k: nat | k < 8 ensures Frame(b, p)(SampleClock(k)) == (Bit(b, k) == 1) {
      SampleSlot(p, k);
    }
    assert SampleClock(8) == 2081 by { SampleEight(); }
  }

  lemma SampleEight()
    ensures SampleClock(8) == 2081 && SampleClock(7) == 1862
  {
  }

  lemma TolerableDecodes(r: Rx, b: Byte, p: nat)
    requires RxWaiting(r) && Tolerated(p)
    ensures Decodes(r, b, p)
  {
    hide Collected, SamplesAre, FrameStart, RxClock, RxRun;
    FrameSamples(b, p);
    ReportsOnTime(r, Frame(b, p));
    ReportsSamples(r, Frame(b, p), FRAME + 1);
    CollectsByte(Frame(b, p), b);
  }

  /** Too fast: the eighth sample falls into the stop bit, so a byte with a clear top bit is
      misread.  Too slow: it falls short of bit 7, so 0x80 is. */
  lemma Misread(p: nat) returns (b: Byte)
    requires p > 0 && !Tolerated(p)
    ensures FrameStart(Frame(b, p)) && Collected(Frame(b, p), 8) != b
  {
    hide Collected, FrameStart;
    SampleEight();
    b := if p < 207 then 0 else 0x80;
    assert FrameStart(Frame(b, p)) by { Starts(b, p); }
    TopSample(Frame(b, p));
    if p > 232 {
      var c := SampleClock(7);
      MulMonotone(233, p, 8);
      SmallQuotient(c, p, 8);
      if c >= p {
        LowBits(7, c / p - 1);
        assert Pow2(7) == 0x80;
      }
    }
  }

  lemma Starts(b: Byte, p: nat)
    requires p > 0
    ensures FrameStart(Frame(b, p))
  {
  }

  lemma SmallQuotient(c: nat, p: nat, k: nat)
    requires p > 0 && c < p * k
    ensures c / p < k
  {
    if c / p >= k {
      MulMonotone(k, c / p, p);
    }
  }

  lemma {:induction false} LowBits(n: nat, k: nat)
    requires k < n
    ensures Bit(Pow2(n), k) == 0
  {
    Digit(Pow2(n - 1), 0);
    if k == 0 {
    } else {
      LowBits(n - 1, k - 1);
    }
  }

  lemma IntolerableFails(r: Rx, p: nat)
    requires RxWaiting(r) && p > 0 && !Tolerated(p)
    ensures exists b: Byte :: !Decodes(r, b, p)
  {
    hide Collected, FrameStart, RxClock, RxRun;
    var b := Misread(p);
    forall n: nat | FirstReport(r, Frame(b, p), n) ensures RxRun(r, Frame(b, p), 0, n).byte != b {
      ReportsSamples(r, Frame(b, p), n);
    }
    assert !Decodes(r, b, p);
  }

  /** The receiver decodes every byte sent with a constant bit period of p clocks if and only if
      p is between 207 and 232. */
  lemma BaudTolerance(r: Rx, p: nat)
    requires RxWaiting(r) && p > 0
    ensures (forall b: Byte :: Decodes(r, b, p)) <==> 207 <= p <= 232
  {
    hide Decodes, RxWaiting;
    if Tolerated(p) {
      forall b: Byte ensures Decodes(r, b, p) {
        TolerableDecodes(r, b, p);
      }
    } else {
      IntolerableFails(r, p);
    }
  }
}
