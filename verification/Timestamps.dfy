/**
 The constant-rate timestamps of `_rtp_forwarder.py`: frame n is stamped n ticks of a
 whole number of 1/90000 seconds. Rates are positive reals.
 */
module Timestamps {

  /** Python's `round`: to the nearest integer, ties to the even one. */
  function RoundHalfEven(x: real): int {
    var below := x.Floor;
    var rest := x - below as real;
    if rest < 0.5 then below
    else if rest > 0.5 then below + 1
    else if below % 2 == 0 then below else below + 1
  }

  function Abs(x: real): real {
    if x < 0.0 then -x else x
  }

  /** `SETTS_TICK`. */
  function Tick(frameRate: real): int
    requires frameRate > 0.0
  {
    RoundHalfEven(90000.0 / frameRate)
  }

  /** When frame n is presented, in seconds. */
  function Stamp(frameRate: real, n: nat): real
    requires frameRate > 0.0
  {
    (n * Tick(frameRate)) as real / 90000.0
  }

  /** How far the media clock stands when `rate` frames a second have been delivered for `seconds`. */
  function MediaClock(frameRate: real, rate: real, seconds: real): real
    requires frameRate > 0.0
  {
    rate * seconds * (Tick(frameRate) as real / 90000.0)
  }

  /** The tick is the nearest whole number of 1/90000 seconds, and the even one of two that are equally near. */
  lemma TickIsNearest(frameRate: real)
    requires frameRate > 0.0
    ensures var off := Abs(Tick(frameRate) as real - 90000.0 / frameRate);
            off <= 0.5 && (off == 0.5 ==> Tick(frameRate) % 2 == 0)
  {
  }

  lemma MulAbs(a: real, x: real, bound: real)
    requires a >= 0.0 && Abs(x) <= bound
    ensures Abs(a * x) <= a * bound
  {
    assert a * (bound - x) >= 0.0 && a * (bound + x) >= 0.0;
  }

  /** One frame's step is within half a tick of the true frame time. */
  lemma StepIsClose(frameRate: real)
    requires frameRate > 0.0
    ensures Abs(Tick(frameRate) as real / 90000.0 - 1.0 / frameRate) <= 1.0 / 180000.0
  {
    TickIsNearest(frameRate);
    var d := Tick(frameRate) as real - 90000.0 / frameRate;
    assert 90000.0 / frameRate == 90000.0 * (1.0 / frameRate);
    assert Tick(frameRate) as real / 90000.0 - 1.0 / frameRate == d / 90000.0;
  }

  /** Frame n is stamped within n / 180000 seconds of its nominal time n / frameRate. */
  lemma StampIsClose(frameRate: real, n: nat)
    requires frameRate > 0.0
    ensures Abs(Stamp(frameRate, n) - n as real / frameRate) <= n as real / 180000.0
  {
    StepIsClose(frameRate);
    var step := Tick(frameRate) as real / 90000.0 - 1.0 / frameRate;
    MulAbs(n as real, step, 1.0 / 180000.0);
    assert (n * Tick(frameRate)) as real == n as real * Tick(frameRate) as real;
    assert n as real / frameRate == n as real * (1.0 / frameRate);
    assert Stamp(frameRate, n) - n as real / frameRate == n as real * step;
  }

  /** Timestamps strictly increase exactly for rates below 180000. */
  lemma StampsIncreaseIff(frameRate: real)
    requires frameRate > 0.0
    ensures (forall n: nat :: Stamp(frameRate, n) < Stamp(frameRate, n + 1)) <==> frameRate < 180000.0
  {
    var x := 90000.0 / frameRate;
    assert x * frameRate == 90000.0;
    assert x > 0.5 <==> frameRate < 180000.0;
    assert Tick(frameRate) >= 1 <==> x > 0.5;
    if frameRate < 180000.0 {
      forall n: nat ensures Stamp(frameRate, n) < Stamp(frameRate, n + 1) {
        assert (n + 1) * Tick(frameRate) == n * Tick(frameRate) + Tick(frameRate);
      }
    } else {
      assert !(Stamp(frameRate, 0) < Stamp(frameRate, 0 + 1));
    }
  }

  /**
   The drift against real time: when the camera delivers `rate` frames a second, the media clock is
   off after some seconds by at most the relative error of the rate, plus the rounding of the tick.
   */
  lemma DriftIsBounded(frameRate: real, rate: real, seconds: real)
    requires frameRate > 0.0 && rate > 0.0 && seconds >= 0.0
    ensures Abs(MediaClock(frameRate, rate, seconds) - seconds)
         <= seconds * Abs(rate / frameRate - 1.0) + rate * seconds / 180000.0
  {
    StepIsClose(frameRate);
    var step := Tick(frameRate) as real / 90000.0 - 1.0 / frameRate;
    var frames := rate * seconds;
    MulAbs(frames, step, 1.0 / 180000.0);
    assert frames * (1.0 / frameRate) == seconds * (rate / frameRate) by {
      assert rate / frameRate == rate * (1.0 / frameRate);
    }
    var off := rate / frameRate - 1.0;
    MulAbs(seconds, off, Abs(off));
    assert MediaClock(frameRate, rate, seconds) - seconds == frames * step + seconds * off;
  }
}
