/** The current compensator, over the reals: a second-order filter with limited output, reset while disabled. */
module Compensator {
  import FreqResponse

  datatype Coeffs = Coeffs(b0: real, b1: real, b2: real, a1: real, a2: real)

  /** The last two inputs and outputs. */
  datatype Hist = Hist(in1: real, in2: real, out1: real, out2: real)

  const ZERO := Hist(0.0, 0.0, 0.0, 0.0)

  /** The coefficients the motor is configured with. */
  const MOTOR := Coeffs(163.85044, 49.155133, -114.69531, -1.4, 0.4)

  function Feed(c: Coeffs, h: Hist, x: real): real {
    c.b0 * x + c.b1 * h.in1 + c.b2 * h.in2
  }

  function Raw(c: Coeffs, h: Hist, x: real): real {
    Feed(c, h, x) - c.a1 * h.out1 - c.a2 * h.out2
  }

  function Clamp(x: real, lo: real, hi: real): real {
    var y := if x > lo then x else lo;
    if y < hi then y else hi
  }

  function Push(h: Hist, x: real, y: real): Hist {
    Hist(x, h.in1, y, h.out1)
  }

  /** One limited update; the new output is `out1`. */
  function Next(c: Coeffs, h: Hist, x: real, lo: real, hi: real): Hist {
    Push(h, x, Clamp(Raw(c, h, x), lo, hi))
  }

  function Final(c: Coeffs, h: Hist, xs: seq<real>, lo: real, hi: real): Hist {
    if xs == [] then h else Next(c, Final(c, h, xs[..|xs| - 1], lo, hi), xs[|xs| - 1], lo, hi)
  }

  /** The output after the last of `xs`. */
  function Output(c: Coeffs, h: Hist, xs: seq<real>, lo: real, hi: real): real {
    Final(c, h, xs, lo, hi).out1
  }

  // Without limits.

  function LinearFinal(c: Coeffs, h: Hist, xs: seq<real>): Hist {
    if xs == [] then h
    else
      var g := LinearFinal(c, h, xs[..|xs| - 1]);
      Push(g, xs[|xs| - 1], Raw(c, g, xs[|xs| - 1]))
  }

  /** No output of the unlimited filter leaves the limits. */
  ghost predicate Unsaturated(c: Coeffs, h: Hist, xs: seq<real>, lo: real, hi: real) {
    forall n :: 0 < n <= |xs| ==> lo <= LinearFinal(c, h, xs[..n]).out1 <= hi
  }

  lemma {:induction false} LimitedIsLinear(c: Coeffs, h: Hist, xs: seq<real>, lo: real, hi: real)
    requires lo <= hi && Unsaturated(c, h, xs, lo, hi)
    ensures Final(c, h, xs, lo, hi) == LinearFinal(c, h, xs)
    decreases xs
  {
    hide Raw;
    if xs != [] {
      var n := |xs| - 1;
      assert forall m :: 0 < m <= n ==> xs[..n][..m] == xs[..m];
      LimitedIsLinear(c, h, xs[..n], lo, hi);
      assert xs[..n + 1] == xs;
    }
  }

  /** The limits show at no moment of a run exactly when the unlimited filter never leaves them. */
  lemma {:induction false} LimitedIsLinearIff(c: Coeffs, h: Hist, xs: seq<real>, lo: real, hi: real)
    requires lo <= hi
    ensures (forall n :: 0 < n <= |xs| ==> Final(c, h, xs[..n], lo, hi) == LinearFinal(c, h, xs[..n]))
       <==> Unsaturated(c, h, xs, lo, hi)
  {
    hide Raw;
    if Unsaturated(c, h, xs, lo, hi) {
      forall n | 0 < n <= |xs|
        ensures Final(c, h, xs[..n], lo, hi) == LinearFinal(c, h, xs[..n])
      {
        assert forall m :: 0 < m <= n ==> xs[..n][..m] == xs[..m];
        LimitedIsLinear(c, h, xs[..n], lo, hi);
      }
    } else {
      var n :| 0 < n <= |xs| && !(lo <= LinearFinal(c, h, xs[..n]).out1 <= hi);
      OutputWithin(c, h, xs[..n], lo, hi);
    }
  }

  /** Every output lies within the limits. */
  lemma OutputWithin(c: Coeffs, h: Hist, xs: seq<real>, lo: real, hi: real)
    requires lo <= hi && xs != []
    ensures lo <= Output(c, h, xs, lo, hi) <= hi
  {
  }

  // Superposition.

  /** k * x + y, for numbers, input sequences and states. */
  function Mix(k: real, x: real, y: real): real {
    k * x + y
  }

  function MixSeq(k: real, xs: seq<real>, ys: seq<real>): (r: seq<real>)
    requires |xs| == |ys|
    ensures |r| == |xs|
  {
    seq(|xs|, i requires 0 <= i < |xs| => Mix(k, xs[i], ys[i]))
  }

  function MixHist(k: real, h: Hist, g: Hist): Hist {
    Hist(Mix(k, h.in1, g.in1), Mix(k, h.in2, g.in2), Mix(k, h.out1, g.out1), Mix(k, h.out2, g.out2))
  }

  lemma RawMixes(c: Coeffs, k: real, h: Hist, g: Hist, x: real, y: real)
    ensures Raw(c, MixHist(k, h, g), Mix(k, x, y)) == Mix(k, Raw(c, h, x), Raw(c, g, y))
  {
  }

  lemma {:induction false} LinearMixes(c: Coeffs, k: real, h: Hist, g: Hist, xs: seq<real>, ys: seq<real>)
    requires |xs| == |ys|
    ensures LinearFinal(c, MixHist(k, h, g), MixSeq(k, xs, ys))
         == MixHist(k, LinearFinal(c, h, xs), LinearFinal(c, g, ys))
    decreases xs
  {
    hide Raw, Mix;
    if xs != [] {
      var n := |xs| - 1;
      LinearMixes(c, k, h, g, xs[..n], ys[..n]);
      assert MixSeq(k, xs, ys)[..n] == MixSeq(k, xs[..n], ys[..n]);
      RawMixes(c, k, LinearFinal(c, h, xs[..n]), LinearFinal(c, g, ys[..n]), xs[n], ys[n]);
    }
  }

  /** Superposition of the limited filter itself, on runs of any length that stay within the limits. */
  lemma {:induction false} Superposition(c: Coeffs, k: real, h: Hist, g: Hist,
                                         xs: seq<real>, ys: seq<real>, lo: real, hi: real)
    requires lo <= hi && |xs| == |ys|
    requires Unsaturated(c, h, xs, lo, hi) && Unsaturated(c, g, ys, lo, hi)
    requires Unsaturated(c, MixHist(k, h, g), MixSeq(k, xs, ys), lo, hi)
    ensures Output(c, MixHist(k, h, g), MixSeq(k, xs, ys), lo, hi)
         == k * Output(c, h, xs, lo, hi) + Output(c, g, ys, lo, hi)
  {
    hide Raw, LinearFinal, Final, Unsaturated, MixSeq;
    LimitedIsLinear(c, h, xs, lo, hi);
    LimitedIsLinear(c, g, ys, lo, hi);
    LimitedIsLinear(c, MixHist(k, h, g), MixSeq(k, xs, ys), lo, hi);
    LinearMixes(c, k, h, g, xs, ys);
  }

  // Saturation.

  /** The filter's difference equation: each output in terms of the last three inputs and the last two outputs. */
  lemma DifferenceEquation(c: Coeffs, h: Hist, xs: seq<real>, x: real, lo: real, hi: real)
    requires |xs| >= 2
    ensures var n := |xs|;
            var y1, y2 := Output(c, h, xs, lo, hi), Output(c, h, xs[..n - 1], lo, hi);
            var raw := c.b0 * x + c.b1 * xs[n - 1] + c.b2 * xs[n - 2] - c.a1 * y1 - c.a2 * y2;
            Output(c, h, xs + [x], lo, hi) == if raw >= hi || lo >= hi then hi else if raw <= lo then lo else raw
  {
    HistoryIs(c, h, xs, lo, hi);
    assert (xs + [x])[..|xs|] == xs;
    assert Final(c, h, xs + [x], lo, hi) == Next(c, Final(c, h, xs, lo, hi), x, lo, hi);
    hide Final;
  }

  /** The history holds the last two inputs and outputs. */
  lemma HistoryIs(c: Coeffs, h: Hist, xs: seq<real>, lo: real, hi: real)
    requires |xs| >= 2
    ensures var n := |xs|;
            Final(c, h, xs, lo, hi)
              == Hist(xs[n - 1], xs[n - 2], Output(c, h, xs, lo, hi), Output(c, h, xs[..n - 1], lo, hi))
  {
    hide Raw, Clamp;
  }

  /**
   No wind-up. With the configured coefficients, once the output has sat at a limit for two updates, the next one
   leaves the limit exactly when the inputs alone, weighted, point the other way, however long it was there.
   */
  lemma NoWindUp(h: Hist, xs: seq<real>, x: real, lo: real, hi: real)
    requires lo < hi && |xs| >= 2
    ensures var n := |xs|;
            var feed := MOTOR.b0 * x + MOTOR.b1 * xs[n - 1] + MOTOR.b2 * xs[n - 2];
            var y1, y2 := Output(MOTOR, h, xs, lo, hi), Output(MOTOR, h, xs[..n - 1], lo, hi);
            var y := Output(MOTOR, h, xs + [x], lo, hi);
            && (y1 == hi && y2 == hi ==> (y < hi <==> feed < 0.0))
            && (y1 == lo && y2 == lo ==> (y > lo <==> feed > 0.0))
  {
  }

  // The motor.

  /** One PWM interrupt: whether the motor is enabled, and the current error. */
  datatype Callback = Callback(enabled: bool, error: real)

  function MotorHist(c: Coeffs, cbs: seq<Callback>, max: real): Hist {
    if cbs == [] then ZERO
    else
      var cb := cbs[|cbs| - 1];
      if cb.enabled then Next(c, MotorHist(c, cbs[..|cbs| - 1], max), cb.error, -max, max) else ZERO
  }

  /** The errors since the motor was last disabled. */
  function Since(cbs: seq<Callback>): seq<real> {
    if cbs == [] || !cbs[|cbs| - 1].enabled then []
    else Since(cbs[..|cbs| - 1]) + [cbs[|cbs| - 1].error]
  }

  /**
   Over every run of callbacks an enabled one outputs what a fresh filter would after only the errors since the
   motor was last disabled, and the output stays within the duty limit.
   */
  lemma {:induction false} FreshSinceDisabled(c: Coeffs, cbs: seq<Callback>, max: real)
    requires max >= 0.0
    ensures MotorHist(c, cbs, max) == Final(c, ZERO, Since(cbs), -max, max)
    ensures cbs != [] && cbs[|cbs| - 1].enabled ==>
              && MotorHist(c, cbs, max).out1 == Output(c, ZERO, Since(cbs), -max, max)
              && -max <= MotorHist(c, cbs, max).out1 <= max
    decreases cbs
  {
    hide Raw;
    if cbs != [] {
      var n := |cbs| - 1;
      FreshSinceDisabled(c, cbs[..n], max);
      if cbs[n].enabled {
        assert Since(cbs)[..|Since(cbs)| - 1] == Since(cbs[..n]);
      }
    }
  }

  class Biquad {
    var c: Coeffs
    var in1: real
    var in2: real
    var out1: real
    var out2: real

    ghost function State(): Hist
      reads this
    {
      Hist(in1, in2, out1, out2)
    }

    constructor (coeffs: Coeffs)
      ensures c == coeffs && State() == ZERO
    {
      c := coeffs;
      in1, in2, out1, out2 := 0.0, 0.0, 0.0, 0.0;
    }

    method Reset()
      modifies this
      ensures c == old(c) && State() == ZERO
    {
      in1, in2, out1, out2 := 0.0, 0.0, 0.0, 0.0;
    }

    method UpdateLim(input: real, lo: real, hi: real) returns (out: real)
      modifies this
      ensures c == old(c) && State() == Next(c, old(State()), input, lo, hi) && out == out1
    {
      var raw := c.b0 * input + c.b1 * in1 + c.b2 * in2 - c.a1 * out1 - c.a2 * out2;
      assert raw == Raw(c, State(), input);
      hide Raw;
      var top := if raw > lo then raw else lo;
      out := if top < hi then top else hi;
      in2 := in1;
      in1 := input;
      out2 := out1;
      out1 := out;
    }
  }

  class MotorLoop {
    const meter: FreqResponse.Measurement
    const compensator: Biquad
    const maxDuty: real
    var enabled: bool
    var iTarget: real
    var iA: real
    var duty: real

    constructor (meter: FreqResponse.Measurement, max: real)
      ensures this.meter == meter && fresh(compensator) && maxDuty == max && !enabled
      ensures compensator.c == MOTOR && compensator.State() == ZERO
    {
      this.meter := meter;
      compensator := new Biquad(MOTOR);
      maxDuty := max;
      enabled, iTarget, iA, duty := false, 0.0, 0.0, 0.0;
    }

    /** The interrupt: while enabled the measurement may add its excitation to the error before it is filtered. */
    method MotorControlCb(i: real) returns (error: real)
      requires compensator.c == MOTOR
      modifies this, meter, compensator
      ensures iA == i && enabled == old(enabled) && iTarget == old(iTarget) && compensator.c == MOTOR
      ensures enabled ==>
                && compensator.State() == Next(MOTOR, old(compensator.State()), error, -maxDuty, maxDuty)
                && duty == compensator.State().out1
                && meter.State() == FreqResponse.Update(meter.p, old(meter.State()), iTarget - i, iTarget - i)
                && error == (if old(meter.remaining) == 0 then iTarget - i
                             else FreqResponse.Excitation(meter.p, meter.theta, iTarget - i))
      ensures !enabled ==> compensator.State() == ZERO && duty == 0.0 && meter.State() == old(meter.State())
    {
      error := iTarget - i;
      if enabled {
        error := meter.UpdateWithOffset(error, error);
        hide Next;
        duty := compensator.UpdateLim(error, -maxDuty, maxDuty);
      } else {
        duty := 0.0;
        compensator.Reset();
      }
      iA := i;
    }
  }
}
