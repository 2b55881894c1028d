/**
 The frequency-response measurement: a background thread configures and reports, the PWM interrupt accumulates
 samples, and `samples_remaining` is all that keeps them apart. Arithmetic is over the reals; sine, cosine and the
 ratio between neighbouring frequencies are parameters.
 */
module FreqResponse {

  const TAU: real := 2.0 * 3.14159265358979323846

  /** The settings that stay fixed during a measurement. `hasEmit`: a handler for results is installed. */
  datatype Params = Params(fs: real, fMin: real, fMax: real, ratio: real, magnitude: real, wavelengths: int,
                           sin: real -> real, cos: real -> real, hasEmit: bool)

  /** Sensible settings: every frequency of the sweep gets at least one sample. */
  ghost predicate ValidParams(p: Params) {
    && 0.0 < p.fMin <= p.fMax && p.fs > 0.0
    && forall f :: p.fMin <= f <= p.fMax ==> SampleCount(p, f) >= 1
  }

  /** The conversion of C from a floating-point number to an integer. */
  function Truncate(x: real): int {
    if x < 0.0 then -(-x).Floor else x.Floor
  }

  function SampleCount(p: Params, f: real): int
    requires f != 0.0
  {
    Truncate(p.fs / f * p.wavelengths as real)
  }

  function Increment(p: Params, f: real): real
    requires f != 0.0 && p.fs != 0.0
  {
    TAU / (p.fs / f)
  }

  /** The record shared by the thread and the interrupt. */
  datatype Shared = Shared(f: real, theta: real, inc: real, norm: real, remaining: int, sums: Sums)

  /** The four running sums. */
  datatype Sums = Sums(sin: real, cos: real, sinExc: real, cosExc: real)

  datatype Report = Report(freq: real, re: real, im: real, excRe: real, excIm: real)

  // The interrupt.

  function Advance(theta: real, inc: real): real {
    if theta + inc > TAU then theta + inc - TAU else theta + inc
  }

  function Excitation(p: Params, theta: real, offset: real): real {
    offset + p.sin(theta) * p.magnitude
  }

  function Accumulate(p: Params, s: Sums, theta: real, sample: real, offset: real): Sums {
    Plus(s, p.sin(theta), p.cos(theta), sample, Excitation(p, theta, offset))
  }

  function Plus(s: Sums, sinTheta: real, cosTheta: real, sample: real, excitation: real): Sums {
    Sums(s.sin + Times(sinTheta, sample), s.cos + Times(cosTheta, sample),
         s.sinExc + Times(sinTheta, excitation), s.cosExc + Times(cosTheta, excitation))
  }

  function Times(x: real, y: real): real {
    x * y
  }

  /** One interrupt: without samples pending it changes nothing. */
  function Update(p: Params, s: Shared, sample: real, offset: real): Shared {
    if s.remaining == 0 then s
    else
      var theta := Advance(s.theta, s.inc);
      s.(theta := theta, sums := Accumulate(p, s.sums, theta, sample, offset), remaining := s.remaining - 1)
  }

  // The thread, one access at a time.

  /** Where the thread stands in `FreqResponse_Poll`; the next action is named. */
  datatype Pc =
    | TestRemaining | TestFrequency
    | ReadFreq | ReadRe | ReadIm | ReadExcRe | ReadExcIm | CallEmit
    | ScaleFreq | ClampFreq | SetIncrement | ClearTheta
    | ClearSin | ClearCos | ClearSinExc | ClearCosExc
    | SetNorm | Publish

  /** The shared record, the thread's position, and its locals. */
  datatype Sys = Sys(sh: Shared, pc: Pc, report: Report, count: int)

  /** What is observable of a run. */
  datatype Entry = Configured(f: real, n: int) | Sampled(sample: real, offset: real) | Emitted(report: Report)

  /** One step of the thread. */
  function Tick(p: Params, s: Sys): Sys
    requires p.fs != 0.0
  {
    var sh := s.sh;
    match s.pc
    case TestRemaining => if sh.remaining != 0 then s else s.(pc := TestFrequency)
    case TestFrequency => s.(pc := if sh.f >= p.fMin && p.hasEmit then ReadFreq else ScaleFreq)
    case ReadFreq => s.(report := s.report.(freq := sh.f), pc := ReadRe)
    case ReadRe => s.(report := s.report.(re := sh.sums.sin * sh.norm), pc := ReadIm)
    case ReadIm => s.(report := s.report.(im := sh.sums.cos * sh.norm), pc := ReadExcRe)
    case ReadExcRe => s.(report := s.report.(excRe := sh.sums.sinExc * sh.norm), pc := ReadExcIm)
    case ReadExcIm => s.(report := s.report.(excIm := sh.sums.cosExc * sh.norm), pc := CallEmit)
    case CallEmit => s.(pc := ScaleFreq)
    case ScaleFreq => s.(sh := sh.(f := Times(sh.f, p.ratio)), pc := ClampFreq)
    case ClampFreq => s.(sh := sh.(f := if sh.f < p.fMin || sh.f > p.fMax then p.fMin else sh.f), pc := SetIncrement)
    case SetIncrement => s.(sh := sh.(inc := if sh.f == 0.0 then 0.0 else Increment(p, sh.f)), pc := ClearTheta)
    case ClearTheta => s.(sh := sh.(theta := 0.0), pc := ClearSin)
    case ClearSin => s.(sh := sh.(sums := sh.sums.(sin := 0.0)), pc := ClearCos)
    case ClearCos => s.(sh := sh.(sums := sh.sums.(cos := 0.0)), pc := ClearSinExc)
    case ClearSinExc => s.(sh := sh.(sums := sh.sums.(sinExc := 0.0)), pc := ClearCosExc)
    case ClearCosExc => s.(sh := sh.(sums := sh.sums.(cosExc := 0.0)), pc := SetNorm)
    case SetNorm =>
      var n := if sh.f == 0.0 then 0 else SampleCount(p, sh.f);
      s.(count := n, sh := sh.(norm := if n == 0 then 0.0 else 2.0 / n as real), pc := Publish)
    case Publish => s.(sh := sh.(remaining := s.count), pc := TestRemaining)
  }

  /** What a step of the thread adds to the history. */
  function TickLog(s: Sys): seq<Entry> {
    match s.pc
    case CallEmit => [Emitted(s.report)]
    case Publish => [Configured(s.sh.f, s.count)]
    case _ => []
  }

  // Runs: the interrupt may come between any two accesses of the thread.

  datatype Action = Thread | Interrupt(sample: real, offset: real)

  function Act(p: Params, s: Sys, a: Action): Sys
    requires p.fs != 0.0
  {
    match a
    case Thread => Tick(p, s)
    case Interrupt(x, o) => s.(sh := Update(p, s.sh, x, o))
  }

  function ActLog(s: Sys, a: Action): seq<Entry> {
    match a
    case Thread => TickLog(s)
    case Interrupt(x, o) => if s.sh.remaining == 0 then [] else [Sampled(x, o)]
  }

  function RunSys(p: Params, s: Sys, acts: seq<Action>): Sys
    requires p.fs != 0.0
    decreases acts
  {
    if acts == [] then s else RunSys(p, Act(p, s, acts[0]), acts[1..])
  }

  function History(p: Params, s: Sys, acts: seq<Action>): seq<Entry>
    requires p.fs != 0.0
    decreases acts
  {
    if acts == [] then [] else ActLog(s, acts[0]) + History(p, Act(p, s, acts[0]), acts[1..])
  }

  // The reference: what a measurement at one frequency should amount to.

  type Samples = seq<(real, real)>

  /** The phase after `k` samples. */
  function Theta(inc: real, k: nat): real {
    if k == 0 then 0.0 else Advance(Theta(inc, k - 1), inc)
  }

  function SumsOf(p: Params, inc: real, xs: Samples): Sums {
    if xs == [] then Sums(0.0, 0.0, 0.0, 0.0)
    else
      var k := |xs| - 1;
      Accumulate(p, SumsOf(p, inc, xs[..k]), Theta(inc, k + 1), xs[k].0, xs[k].1)
  }

  /** The correlation of a signal with a wave sampled at the phases of the measurement. */
  function Correlation(wave: real -> real, inc: real, ys: seq<real>): real {
    if ys == [] then 0.0
    else
      var k := |ys| - 1;
      Correlation(wave, inc, ys[..k]) + wave(Theta(inc, k + 1)) * ys[k]
  }

  function Inputs(xs: Samples): (r: seq<real>)
    ensures |r| == |xs|
  {
    seq(|xs|, i requires 0 <= i < |xs| => xs[i].0)
  }

  /** What was fed to the loop: the offsets with the sine of the given magnitude added. */
  function Excited(p: Params, inc: real, xs: Samples): (r: seq<real>)
    ensures |r| == |xs|
  {
    seq(|xs|, i requires 0 <= i < |xs| => xs[i].1 + p.sin(Theta(inc, i + 1)) * p.magnitude)
  }

  /** The report on the samples `xs` taken at frequency `f`: four correlations, normalised by their number. */
  function Expected(p: Params, f: real, xs: Samples): Report
    requires f != 0.0 && p.fs != 0.0 && |xs| > 0
  {
    var inc, c := Increment(p, f), 2.0 / |xs| as real;
    Report(f, Correlation(p.sin, inc, Inputs(xs)) * c, Correlation(p.cos, inc, Inputs(xs)) * c,
           Correlation(p.sin, inc, Excited(p, inc, xs)) * c, Correlation(p.cos, inc, Excited(p, inc, xs)) * c)
  }

  /** The running sums are the four correlations. */
  lemma {:induction false} SumsAreCorrelations(p: Params, inc: real, xs: Samples)
    ensures SumsOf(p, inc, xs)
         == Sums(Correlation(p.sin, inc, Inputs(xs)), Correlation(p.cos, inc, Inputs(xs)),
                 Correlation(p.sin, inc, Excited(p, inc, xs)), Correlation(p.cos, inc, Excited(p, inc, xs)))
    decreases xs
  {
    hide Theta, Times;
    if xs != [] {
      var k := |xs| - 1;
      SumsAreCorrelations(p, inc, xs[..k]);
      assert Inputs(xs)[..k] == Inputs(xs[..k]);
      assert Excited(p, inc, xs)[..k] == Excited(p, inc, xs[..k]);
      assert Excited(p, inc, xs)[k] == Excitation(p, Theta(inc, k + 1), xs[k].1);
      hide Excitation, Correlation;
      CorrelationLast(p.sin, inc, Inputs(xs));
      CorrelationLast(p.cos, inc, Inputs(xs));
      CorrelationLast(p.sin, inc, Excited(p, inc, xs));
      CorrelationLast(p.cos, inc, Excited(p, inc, xs));
    }
  }

  lemma CorrelationLast(wave: real -> real, inc: real, ys: seq<real>)
    requires ys != []
    ensures var k := |ys| - 1;
            Correlation(wave, inc, ys) == Correlation(wave, inc, ys[..k]) + Times(wave(Theta(inc, k + 1)), ys[k])
  {
  }

  // What the report says about the signal.

  /** The pointwise sum a * ys + b * zs. */
  function Combined(a: real, ys: seq<real>, b: real, zs: seq<real>): (r: seq<real>)
    requires |ys| == |zs|
    ensures |r| == |ys|
  {
    seq(|ys|, i requires 0 <= i < |ys| => Weighted(a, ys[i], b, zs[i]))
  }

  function Weighted(a: real, y: real, b: real, z: real): real {
    a * y + b * z
  }

  /** A wave at the phases of `n` samples. */
  function AtSamples(wave: real -> real, inc: real, n: nat): (r: seq<real>)
    ensures |r| == n
  {
    seq(n, i requires 0 <= i < n => wave(Theta(inc, i + 1)))
  }

  /** Correlating is linear in the signal. */
  lemma {:induction false} CorrelationIsLinear(wave: real -> real, inc: real,
                                               a: real, ys: seq<real>, b: real, zs: seq<real>)
    requires |ys| == |zs|
    ensures Correlation(wave, inc, Combined(a, ys, b, zs))
         == a * Correlation(wave, inc, ys) + b * Correlation(wave, inc, zs)
    decreases |ys|
  {
    hide Theta;
    if ys != [] {
      var k := |ys| - 1;
      CorrelationIsLinear(wave, inc, a, ys[..k], b, zs[..k]);
      CombinedPrefix(a, ys, b, zs, k);
      Distribute(wave(Theta(inc, k + 1)), a, ys[k], b, zs[k],
                 Correlation(wave, inc, ys[..k]), Correlation(wave, inc, zs[..k]));
    }
  }

  lemma CombinedPrefix(a: real, ys: seq<real>, b: real, zs: seq<real>, k: nat)
    requires |ys| == |zs| && k <= |ys|
    ensures Combined(a, ys, b, zs)[..k] == Combined(a, ys[..k], b, zs[..k])
  {
    hide Weighted;
  }

  lemma Distribute(w: real, a: real, y: real, b: real, z: real, c: real, d: real)
    ensures a * c + b * d + w * (a * y + b * z) == a * (c + w * y) + b * (d + w * z)
  {
  }

  /** Over `n` samples sine and cosine have mean square one half and do not correlate, as over whole wavelengths. */
  predicate Orthogonal(p: Params, inc: real, n: nat) {
    && Correlation(p.sin, inc, AtSamples(p.sin, inc, n)) == n as real / 2.0
    && Correlation(p.cos, inc, AtSamples(p.cos, inc, n)) == n as real / 2.0
    && Correlation(p.sin, inc, AtSamples(p.cos, inc, n)) == 0.0
    && Correlation(p.cos, inc, AtSamples(p.sin, inc, n)) == 0.0
  }

  /**
   What the measurement is for. A response of amplitude `a` in phase and `b` in quadrature is reported as just that,
   at its frequency; and if nothing but the excitation was fed in, its magnitude is reported, in phase.
   */
  lemma RecoversResponse(p: Params, f: real, xs: Samples, a: real, b: real)
    requires f != 0.0 && p.fs != 0.0 && |xs| > 0 && Orthogonal(p, Increment(p, f), |xs|)
    requires var inc, n := Increment(p, f), |xs|;
             Inputs(xs) == Combined(a, AtSamples(p.sin, inc, n), b, AtSamples(p.cos, inc, n))
    ensures var r := Expected(p, f, xs);
            && r.freq == f && r.re == a && r.im == b
            && ((forall i :: 0 <= i < |xs| ==> xs[i].1 == 0.0) ==> r.excRe == p.magnitude && r.excIm == 0.0)
  {
    hide Increment, Orthogonal, Correlation, Combined, AtSamples, Excited, Inputs;
    var inc, n := Increment(p, f), |xs|;
    PureSignal(p, inc, n, a, b);
    if forall i :: 0 <= i < n ==> xs[i].1 == 0.0 {
      ExcitedAlone(p, inc, xs);
      PureSignal(p, inc, n, p.magnitude, 0.0);
    }
  }

  lemma PureSignal(p: Params, inc: real, n: nat, a: real, b: real)
    requires n > 0 && Orthogonal(p, inc, n)
    ensures var ys := Combined(a, AtSamples(p.sin, inc, n), b, AtSamples(p.cos, inc, n));
            && Correlation(p.sin, inc, ys) * (2.0 / n as real) == a
            && Correlation(p.cos, inc, ys) * (2.0 / n as real) == b
  {
    hide Correlation, Combined, AtSamples;
    var s, c := AtSamples(p.sin, inc, n), AtSamples(p.cos, inc, n);
    CorrelationIsLinear(p.sin, inc, a, s, b, c);
    CorrelationIsLinear(p.cos, inc, a, s, b, c);
    HalfScaled(a, n as real);
    HalfScaled(b, n as real);
  }

  lemma ExcitedAlone(p: Params, inc: real, xs: Samples)
    requires forall i :: 0 <= i < |xs| ==> xs[i].1 == 0.0
    ensures Excited(p, inc, xs)
         == Combined(p.magnitude, AtSamples(p.sin, inc, |xs|), 0.0, AtSamples(p.cos, inc, |xs|))
  {
    hide Theta;
    var s, c := AtSamples(p.sin, inc, |xs|), AtSamples(p.cos, inc, |xs|);
    var e, m := Excited(p, inc, xs), Combined(p.magnitude, s, 0.0, c);
    forall i | 0 <= i < |xs| ensures e[i] == m[i] {
      assert m[i] == Weighted(p.magnitude, s[i], 0.0, c[i]);
      assert xs[i].1 == 0.0;
    }
  }

  lemma HalfScaled(a: real, n: real)
    requires n > 0.0
    ensures a * (n / 2.0) * (2.0 / n) == a
  {
  }

  /** The frequency after `f`: the next one of the sweep, or its first again. */
  function NextFreq(p: Params, f: real): (r: real)
    ensures 0.0 < p.fMin <= p.fMax ==> p.fMin <= r <= p.fMax
  {
    var next := Times(f, p.ratio);
    if next < p.fMin || next > p.fMax then p.fMin else next
  }

  /** How far a history has come; `f` is the frequency set last. */
  datatype Phase = Fresh(f: real) | Sampling(f: real, n: int, xs: Samples) | Reported(f: real)

  /** Histories that keep to the protocol: configure, take exactly `n` samples, report on exactly those, and again. */
  ghost function Follow(p: Params, ph: Phase, e: Entry): (r: (Phase, bool))
    requires ValidParams(p)
  {
    match e
    case Configured(f, n) =>
      (Sampling(f, n, []),
       && f == NextFreq(p, ph.f) && n == SampleCount(p, f)
       && (ph.Sampling? ==> |ph.xs| == ph.n && !p.hasEmit))
    case Sampled(x, o) =>
      if ph.Sampling? then (ph.(xs := ph.xs + [(x, o)]), |ph.xs| < ph.n) else (ph, false)
    case Emitted(r) =>
      (Reported(ph.f),
       p.hasEmit && ph.Sampling? && |ph.xs| == ph.n > 0 && ph.f != 0.0 && r == Expected(p, ph.f, ph.xs))
  }

  /** The history `log` keeps to the protocol from phase `ph` on. */
  ghost predicate Keeps(p: Params, ph: Phase, log: seq<Entry>)
    requires ValidParams(p)
    decreases log
  {
    log == [] || (Follow(p, ph, log[0]).1 && Keeps(p, Follow(p, ph, log[0]).0, log[1..]))
  }

  ghost function After(p: Params, ph: Phase, log: seq<Entry>): Phase
    requires ValidParams(p)
    decreases log
  {
    if log == [] then ph else After(p, Follow(p, ph, log[0]).0, log[1..])
  }

  // The invariant.

  function Rank(pc: Pc): nat {
    match pc
    case TestRemaining => 0 case TestFrequency => 1
    case ReadFreq => 2 case ReadRe => 3 case ReadIm => 4 case ReadExcRe => 5 case ReadExcIm => 6 case CallEmit => 7
    case ScaleFreq => 8 case ClampFreq => 9 case SetIncrement => 10 case ClearTheta => 11
    case ClearSin => 12 case ClearCos => 13 case ClearSinExc => 14 case ClearCosExc => 15
    case SetNorm => 16 case Publish => 17
  }

  /** The shared record is that of a measurement in phase `ph`. */
  ghost predicate Measuring(p: Params, sh: Shared, ph: Phase)
    requires ValidParams(p)
  {
    && ph.Sampling? && p.fMin <= ph.f <= p.fMax && ph.n == SampleCount(p, ph.f)
    && sh.f == ph.f && sh.inc == Increment(p, ph.f) && sh.norm == 2.0 / ph.n as real
    && |ph.xs| + sh.remaining == ph.n && sh.remaining >= 0
    && sh.theta == Theta(sh.inc, |ph.xs|) && sh.sums == SumsOf(p, sh.inc, ph.xs)
  }

  /** Nothing measured is still to be reported. */
  ghost predicate Settled(p: Params, ph: Phase) {
    ph.Sampling? ==> |ph.xs| == ph.n && !p.hasEmit
  }

  /** The part of the report already read agrees with the sums. */
  ghost predicate ReportSoFar(s: Sys) {
    var k := Rank(s.pc);
    && (3 <= k <= 7 ==> s.report.freq == s.sh.f)
    && (4 <= k <= 7 ==> s.report.re == s.sh.sums.sin * s.sh.norm)
    && (5 <= k <= 7 ==> s.report.im == s.sh.sums.cos * s.sh.norm)
    && (6 <= k <= 7 ==> s.report.excRe == s.sh.sums.sinExc * s.sh.norm)
    && (k == 7 ==> s.report.excIm == s.sh.sums.cosExc * s.sh.norm)
  }

  /** The part of the next configuration already stored is as it should be. */
  ghost predicate ConfigSoFar(p: Params, s: Sys)
    requires ValidParams(p)
  {
    var k := Rank(s.pc);
    && (k >= 10 ==> p.fMin <= s.sh.f <= p.fMax)
    && (k >= 11 ==> s.sh.inc == Increment(p, s.sh.f))
    && (k >= 12 ==> s.sh.theta == 0.0)
    && (k >= 13 ==> s.sh.sums.sin == 0.0)
    && (k >= 14 ==> s.sh.sums.cos == 0.0)
    && (k >= 15 ==> s.sh.sums.sinExc == 0.0)
    && (k >= 16 ==> s.sh.sums.cosExc == 0.0)
    && (k >= 17 ==> s.count == SampleCount(p, s.sh.f) && s.sh.norm == 2.0 / s.count as real)
  }

  /** Until it is cleared, the phase is that of the last measurement. */
  ghost predicate LeftOver(p: Params, s: Sys) {
    8 <= Rank(s.pc) <= 11 && p.fMax <= p.fs ==> 0.0 < s.sh.theta <= TAU
  }

  /** The frequency: the last one set, on its way to the next. */
  ghost predicate FrequencySoFar(p: Params, s: Sys, ph: Phase) {
    var k := Rank(s.pc);
    && (!ph.Fresh? ==> p.fMin <= ph.f <= p.fMax)
    && (k <= 8 ==> s.sh.f == ph.f)
    && (k == 9 ==> s.sh.f == Times(ph.f, p.ratio))
    && (k >= 10 ==> s.sh.f == NextFreq(p, ph.f))
  }

  ghost predicate Inv(p: Params, s: Sys, ph: Phase)
    requires ValidParams(p)
  {
    var k := Rank(s.pc);
    && (k >= 1 ==> s.sh.remaining == 0)
    && (k <= 1 ==> (if ph.Fresh? then s.sh.remaining == 0 && s.sh.f < p.fMin else Measuring(p, s.sh, ph)))
    && (2 <= k <= 7 ==> p.hasEmit && Measuring(p, s.sh, ph) && ReportSoFar(s))
    && (k >= 8 ==> Settled(p, ph) && ConfigSoFar(p, s))
    && (!ph.Fresh? ==> LeftOver(p, s))
    && FrequencySoFar(p, s, ph)
  }

  lemma InterruptKeeps(p: Params, s: Sys, ph: Phase, x: real, o: real)
    requires ValidParams(p) && Inv(p, s, ph)
    ensures s.sh.remaining == 0 ==> Inv(p, Act(p, s, Interrupt(x, o)), ph)
    ensures s.sh.remaining != 0 ==> Follow(p, ph, Sampled(x, o)).1
                                    && Inv(p, Act(p, s, Interrupt(x, o)), Follow(p, ph, Sampled(x, o)).0)
  {
  }

  lemma MeasuredPhase(p: Params, sh: Shared, ph: Phase)
    requires ValidParams(p) && Measuring(p, sh, ph) && |ph.xs| > 0 && p.fMax <= p.fs
    ensures 0.0 < sh.theta <= TAU
  {
    IncrementIff(p, ph.f);
    PhaseInTurn(sh.inc, |ph.xs|);
  }

  /** Up to reporting: whatever is read while no samples are pending is the finished measurement. */
  lemma ReportKeeps(p: Params, s: Sys, ph: Phase)
    requires ValidParams(p) && Inv(p, s, ph) && Rank(s.pc) < 8
    ensures s.pc != CallEmit ==> Inv(p, Tick(p, s), ph)
    ensures s.pc == CallEmit ==> Follow(p, ph, Emitted(s.report)).1
                                 && Inv(p, Tick(p, s), Follow(p, ph, Emitted(s.report)).0)
  {
    hide SumsOf, Theta, Increment, SampleCount, Correlation, Inputs, Excited;
    if !ph.Fresh? && s.sh.remaining == 0 && p.fMax <= p.fs {
      MeasuredPhase(p, s.sh, ph);
    }
    if s.pc == CallEmit {
      SumsAreCorrelations(p, s.sh.inc, ph.xs);
    }
  }

  /** From there on: the next measurement is configured before its sample count is published. */
  lemma ConfigureKeeps(p: Params, s: Sys, ph: Phase)
    requires ValidParams(p) && Inv(p, s, ph) && Rank(s.pc) >= 10
    ensures s.pc != Publish ==> Inv(p, Tick(p, s), ph)
    ensures s.pc == Publish ==> Follow(p, ph, Configured(s.sh.f, s.count)).1
                                && Inv(p, Tick(p, s), Follow(p, ph, Configured(s.sh.f, s.count)).0)
  {
    hide Increment, SampleCount, NextFreq;
  }

  lemma ChooseKeeps(p: Params, s: Sys, ph: Phase)
    requires ValidParams(p) && Inv(p, s, ph) && 8 <= Rank(s.pc) < 10
    ensures Inv(p, Tick(p, s), ph)
  {
    hide Increment, SampleCount, Times;
  }

  lemma {:induction false} ActKeeps(p: Params, s: Sys, ph: Phase, a: Action)
    requires ValidParams(p) && Inv(p, s, ph)
    ensures Keeps(p, ph, ActLog(s, a)) && Inv(p, Act(p, s, a), After(p, ph, ActLog(s, a)))
  {
    match a {
      case Interrupt(x, o) => InterruptKeeps(p, s, ph, x, o);
      case Thread => 
        if Rank(s.pc) < 8 {
          ReportKeeps(p, s, ph);
        } else if Rank(s.pc) < 10 {
          ChooseKeeps(p, s, ph);
        } else {
          ConfigureKeeps(p, s, ph);
        }
    }
    hide Inv, Follow, Act;
    var log := ActLog(s, a);
    if log != [] {
      assert log[1..] == [];
    }
  }

  lemma {:induction false} KeepsAppend(p: Params, ph: Phase, a: seq<Entry>, b: seq<Entry>)
    requires ValidParams(p) && Keeps(p, ph, a) && Keeps(p, After(p, ph, a), b)
    ensures Keeps(p, ph, a + b) && After(p, ph, a + b) == After(p, After(p, ph, a), b)
    decreases a
  {
    hide Follow;
    if a == [] {
      assert a + b == b;
    } else {
      assert (a + b)[1..] == a[1..] + b;
      KeepsAppend(p, Follow(p, ph, a[0]).0, a[1..], b);
    }
  }

  lemma {:induction false} RunKeeps(p: Params, s: Sys, ph: Phase, acts: seq<Action>)
    requires ValidParams(p) && Inv(p, s, ph)
    ensures Keeps(p, ph, History(p, s, acts))
    ensures Inv(p, RunSys(p, s, acts), After(p, ph, History(p, s, acts)))
    decreases acts
  {
    hide Inv, Act, ActLog, Follow;
    if acts != [] {
      ActKeeps(p, s, ph, acts[0]);
      var ph1 := After(p, ph, ActLog(s, acts[0]));
      RunKeeps(p, Act(p, s, acts[0]), ph1, acts[1..]);
      KeepsAppend(p, ph, ActLog(s, acts[0]), History(p, Act(p, s, acts[0]), acts[1..]));
    }
  }

  /** Before the first measurement: the thread is outside, no samples are pending, and no frequency is set. */
  predicate Initial(p: Params, s: Sys) {
    s.pc == TestRemaining && s.sh.remaining == 0 && s.sh.f < p.fMin
  }

  /**
   The main theorem on the measurement. In every interleaving of the thread's accesses with interrupts, each
   report is made from exactly the `n` samples taken since its own configuration, with none lost, counted twice
   or taken at another frequency; and outside those the interrupt changes nothing.
   */
  lemma {:induction false} ReportsAreExact(p: Params, s: Sys, acts: seq<Action>, j: nat) returns (n: nat, xs: Samples)
    requires ValidParams(p) && Initial(p, s)
    requires j < |History(p, s, acts)| && History(p, s, acts)[j].Emitted?
    ensures var log := History(p, s, acts);
            && 0 < n < j && |xs| == n && log[j - n - 1].Configured? && log[j - n - 1].n == n
            && (forall i :: 0 <= i < n ==> log[j - n + i] == Sampled(xs[i].0, xs[i].1))
            && p.fMin <= log[j - n - 1].f <= p.fMax && n == SampleCount(p, log[j - n - 1].f)
            && log[j].report == Expected(p, log[j - n - 1].f, xs)
  {
    var log := History(p, s, acts);
    InitialInv(p, s);
    RunKeeps(p, s, Fresh(s.sh.f), acts);
    KeepsAt(p, Fresh(s.sh.f), log, j);
    var ph := After(p, Fresh(s.sh.f), log[..j]);
    n, xs := ph.n, ph.xs;
    SamplesBefore(p, Fresh(s.sh.f), log[..j]);
  }

  /**
   In every run, from the first configuration on and wherever the thread stands: the frequency is within the sweep,
   but for the moment between scaling it and clamping it; and up to the next configuration the phase is exactly that of
   the `k` samples taken, within one turn if the sweep does not exceed the sampling frequency.
   */
  lemma {:induction false} SweepStaysInRange(p: Params, s: Sys, acts: seq<Action>) returns (k: nat)
    requires ValidParams(p) && Initial(p, s)
    ensures var r := RunSys(p, s, acts);
            History(p, s, acts) != [] ==>
              && (r.pc != ClampFreq ==> p.fMin <= r.sh.f <= p.fMax)
              && (Rank(r.pc) <= 7 ==>
                    && r.sh.inc == Increment(p, r.sh.f) && k + r.sh.remaining == SampleCount(p, r.sh.f)
                    && r.sh.remaining >= 0
                    && r.sh.theta == Multiple(k, r.sh.inc) - Multiple(Turns(r.sh.inc, k), TAU)
                    && (p.fMax <= p.fs && k > 0 ==> 0.0 < r.sh.theta <= TAU))
              && (8 <= Rank(r.pc) <= 11 && p.fMax <= p.fs ==> 0.0 < r.sh.theta <= TAU)
              && (Rank(r.pc) >= 12 ==> r.sh.theta == 0.0)
  {
    hide Theta, Turns, Multiple, SumsOf, Increment, SampleCount, RunSys, History, After;
    InitialInv(p, s);
    RunKeeps(p, s, Fresh(s.sh.f), acts);
    var r, log := RunSys(p, s, acts), History(p, s, acts);
    var ph := After(p, Fresh(s.sh.f), log);
    k := 0;
    if log != [] {
      NotFresh(p, Fresh(s.sh.f), log);
      if Rank(r.pc) <= 7 {
        k := |ph.xs|;
        PhaseIsExact(r.sh.inc, k);
        if k > 0 && p.fMax <= p.fs {
          MeasuredPhase(p, r.sh, ph);
        }
      }
    }
  }

  lemma InitialInv(p: Params, s: Sys)
    requires ValidParams(p) && Initial(p, s)
    ensures Inv(p, s, Fresh(s.sh.f))
  {
    hide NextFreq;
  }

  lemma {:induction false} NotFresh(p: Params, ph: Phase, log: seq<Entry>)
    requires ValidParams(p) && Keeps(p, ph, log) && log != []
    ensures !After(p, ph, log).Fresh?
    decreases log
  {
    if log[1..] != [] {
      NotFresh(p, Follow(p, ph, log[0]).0, log[1..]);
    }
  }

  /** A history that keeps to the protocol does so at each of its entries. */
  lemma {:induction false} KeepsAt(p: Params, ph: Phase, log: seq<Entry>, j: nat)
    requires ValidParams(p) && Keeps(p, ph, log) && j < |log|
    ensures Keeps(p, ph, log[..j]) && Follow(p, After(p, ph, log[..j]), log[j]).1
    decreases j
  {
    hide Follow;
    if j > 0 {
      KeepsAt(p, Follow(p, ph, log[0]).0, log[1..], j - 1);
      assert log[..j][1..] == log[1..][..j - 1];
    }
  }

  /** While sampling, the history ends with the configuration and the samples taken since. */
  lemma {:induction false} SamplesBefore(p: Params, ph0: Phase, log: seq<Entry>)
    requires ValidParams(p) && ph0.Fresh? && Keeps(p, ph0, log) && After(p, ph0, log).Sampling?
    ensures var ph, l := After(p, ph0, log), |log|;
            && |ph.xs| < l && log[l - |ph.xs| - 1] == Configured(ph.f, ph.n)
            && (forall i :: 0 <= i < |ph.xs| ==> log[l - |ph.xs| + i] == Sampled(ph.xs[i].0, ph.xs[i].1))
            && p.fMin <= ph.f <= p.fMax && ph.n == SampleCount(p, ph.f)
    decreases |log|
  {
    var l := |log| - 1;
    assert |log| > 0;
    KeepsAt(p, ph0, log, l);
    AfterLast(p, ph0, log);
    var before := After(p, ph0, log[..l]);
    if log[l].Sampled? {
      SamplesBefore(p, ph0, log[..l]);
    }
  }

  lemma {:induction false} AfterLast(p: Params, ph: Phase, log: seq<Entry>)
    requires ValidParams(p) && log != []
    ensures After(p, ph, log) == Follow(p, After(p, ph, log[..|log| - 1]), log[|log| - 1]).0
    decreases log
  {
    hide Follow;
    var l := |log| - 1;
    if l > 0 {
      AfterLast(p, Follow(p, ph, log[0]).0, log[1..]);
      assert log[..l][1..] == log[1..][..l - 1];
    }
  }

  // The sweep.

  /** The frequencies configured in a history. */
  function Frequencies(log: seq<Entry>): seq<real> {
    if log == [] then []
    else (if log[0].Configured? then [log[0].f] else []) + Frequencies(log[1..])
  }

  /** The frequencies of a sweep upwards: each is the ratio times the one before. */
  function Tone(p: Params, i: nat): real {
    if i == 0 then p.fMin else Tone(p, i - 1) * p.ratio
  }

  /** The sweep has `m` frequencies. */
  predicate SweepLength(p: Params, m: nat) {
    m > 0 && Tone(p, m - 1) <= p.fMax < Tone(p, m)
  }

  lemma {:induction false} ToneGrows(p: Params, i: nat, j: nat)
    requires p.ratio > 1.0 && p.fMin > 0.0 && i <= j
    ensures 0.0 < Tone(p, i) <= Tone(p, j)
    decreases j
  {
    if j > 0 {
      ToneGrows(p, if i < j then i else i - 1, j - 1);
    }
  }

  lemma NextTone(p: Params, m: nat, i: nat)
    requires p.ratio > 1.0 && 0.0 < p.fMin <= p.fMax && SweepLength(p, m) && i < m
    ensures NextFreq(p, Tone(p, i)) == Tone(p, if i + 1 < m then i + 1 else 0)
  {
    ToneGrows(p, 0, i + 1);
    ToneGrows(p, i + 1, if i + 1 < m then m - 1 else m);
  }

  lemma {:induction false} TonesInTurn(p: Params, ph: Phase, log: seq<Entry>, m: nat, i: nat)
    requires ValidParams(p) && p.ratio > 1.0 && SweepLength(p, m) && Keeps(p, ph, log)
    requires i < m && NextFreq(p, ph.f) == Tone(p, i)
    ensures forall j :: 0 <= j < |Frequencies(log)| ==> Frequencies(log)[j] == Tone(p, Cyclic(i, j, m))
    decreases log
  {
    hide Follow, NextFreq, Tone, SweepLength, Cyclic;
    if log != [] {
      var ph1 := Follow(p, ph, log[0]).0;
      FollowFrequency(p, ph, log[0]);
      if log[0].Configured? {
        NextTone(p, m, i);
        var i1 := if i + 1 < m then i + 1 else 0;
        TonesInTurn(p, ph1, log[1..], m, i1);
        forall j | 0 < j < |Frequencies(log)| ensures Frequencies(log)[j] == Tone(p, Cyclic(i, j, m)) {
          assert Frequencies(log)[j] == Frequencies(log[1..])[j - 1];
          Around(i, j, m);
        }
        StartOfTurn(i, m);
      } else {
        TonesInTurn(p, ph1, log[1..], m, i);
      }
    }
  }

  lemma FollowFrequency(p: Params, ph: Phase, e: Entry)
    requires ValidParams(p) && Follow(p, ph, e).1
    ensures Follow(p, ph, e).0.f == if e.Configured? then NextFreq(p, ph.f) else ph.f
    ensures e.Configured? ==> e.f == NextFreq(p, ph.f)
  {
    hide NextFreq, SampleCount, Expected;
  }

  function Cyclic(i: nat, j: nat, m: nat): nat
    requires m > 0
  {
    (i + j) % m
  }

  lemma StartOfTurn(i: nat, m: nat)
    requires i < m
    ensures Cyclic(i, 0, m) == i
  {
  }

  lemma Around(i: nat, j: nat, m: nat)
    requires i < m && j > 0
    ensures Cyclic(i, j, m) == Cyclic(if i + 1 < m then i + 1 else 0, j - 1, m)
  {
    if i + 1 == m {
      var x: nat := j - 1;
      Remainder(i + j, m, x / m + 1, x % m);
    }
  }

  lemma Remainder(a: nat, m: nat, q: nat, r: nat)
    requires a == m * q + r && r < m
    ensures a % m == r
  {
    NoMultiple(m, q - a / m, a % m - r);
  }

  lemma NoMultiple(m: nat, d: int, x: int)
    requires m * d == x < m && 0 < x + m
    ensures x == 0
  {
  }

  /** In every run the frequencies measured go through the geometric sweep from its start, over and over. */
  lemma {:induction false} SweepIsGeometric(p: Params, s: Sys, acts: seq<Action>, m: nat)
    requires ValidParams(p) && Initial(p, s) && p.ratio > 1.0 && SweepLength(p, m) && s.sh.f * p.ratio < p.fMin
    ensures var fs := Frequencies(History(p, s, acts));
            forall j :: 0 <= j < |fs| ==> fs[j] == Tone(p, j % m)
  {
    assert NextFreq(p, s.sh.f) == Tone(p, 0);
    hide Inv, Keeps, History, NextFreq, Tone, SweepLength;
    InitialInv(p, s);
    RunKeeps(p, s, Fresh(s.sh.f), acts);
    TonesInTurn(p, Fresh(s.sh.f), History(p, s, acts), m, 0);
  }

  // The phase.

  /** The whole turns taken off in `k` samples. */
  function Turns(inc: real, k: nat): nat {
    if k == 0 then 0
    else if Theta(inc, k - 1) + inc > TAU then Turns(inc, k - 1) + 1 else Turns(inc, k - 1)
  }

  function Multiple(k: nat, x: real): real {
    k as real * x
  }

  lemma NextMultiple(k: nat, x: real)
    ensures Multiple(0, x) == 0.0 && Multiple(k + 1, x) == Multiple(k, x) + x
  {
  }

  /** After `k` samples the phase is `k` increments less a whole number of turns. */
  lemma {:induction false} PhaseIsExact(inc: real, k: nat)
    ensures Theta(inc, k) == Multiple(k, inc) - Multiple(Turns(inc, k), TAU)
  {
    hide Multiple;
    if k == 0 {
      NextMultiple(0, inc);
      NextMultiple(0, TAU);
    } else {
      PhaseIsExact(inc, k - 1);
      NextMultiple(k - 1, inc);
      NextMultiple(Turns(inc, k - 1), TAU);
    }
  }

  lemma {:induction false} PhaseInTurn(inc: real, k: nat)
    requires 0.0 < inc <= TAU
    ensures k > 0 ==> 0.0 < Theta(inc, k) <= TAU
  {
    if k > 0 {
      PhaseInTurn(inc, k - 1);
    }
  }

  lemma {:induction false} PhaseDrifts(inc: real, k: nat)
    requires inc > TAU
    ensures Theta(inc, k) == Multiple(k, inc - TAU) && Theta(inc, k) >= 0.0
  {
    NextMultiple(0, inc - TAU);
    hide Multiple;
    if k > 0 {
      PhaseDrifts(inc, k - 1);
      NextMultiple(k - 1, inc - TAU);
    }
  }

  /** The phase stays within one turn for ever exactly when the increment is at most one turn. */
  lemma {:induction false} PhaseBoundedIff(inc: real)
    requires inc > 0.0
    ensures (forall k: nat :: k > 0 ==> 0.0 < Theta(inc, k) <= TAU) <==> inc <= TAU
  {
    if inc <= TAU {
      forall k: nat | k > 0 ensures 0.0 < Theta(inc, k) <= TAU {
        PhaseInTurn(inc, k);
      }
    } else {
      var d := inc - TAU;
      var k: nat := (TAU / d).Floor + 1;
      PhaseDrifts(inc, k);
      Quotient(TAU, d, k as real);
      assert Theta(inc, k) > TAU;
    }
  }

  /** That is, when the measured frequency does not exceed the sampling frequency. */
  lemma IncrementIff(p: Params, f: real)
    requires p.fs > 0.0 && f > 0.0
    ensures Increment(p, f) > 0.0 && Increment(p, f) * p.fs == TAU * f
    ensures Increment(p, f) <= TAU <==> f <= p.fs
  {
    Quotient(p.fs, f, 1.0);
    Quotient(TAU, p.fs / f, TAU);
  }

  /** The samples of one frequency span its wavelengths, less what is missing to a whole sample. */
  lemma WholeWavelengths(p: Params, f: real)
    requires p.fs > 0.0 && f > 0.0
    ensures var n, inc := SampleCount(p, f), Increment(p, f);
            if p.wavelengths >= 0 then n as real * inc <= p.wavelengths as real * TAU < (n + 1) as real * inc
            else (n - 1) as real * inc < p.wavelengths as real * TAU <= n as real * inc
  {
    var q, w := p.fs / f, p.wavelengths as real;
    assert w >= 0.0 <==> q * w >= 0.0;
  }

  lemma Quotient(a: real, b: real, x: real)
    requires a > 0.0 && b > 0.0
    ensures a / b > 0.0
    ensures x > a / b <==> x * b > a
    ensures a / b <= a <==> b >= 1.0
  {
  }

  // The code, run without interruption.

  /** The rest of a poll that has found no samples pending. */
  function PollRun(p: Params, s: Sys): Sys
    requires p.fs != 0.0 && s.pc != TestRemaining
    decreases 18 - Rank(s.pc)
  {
    var s1 := Tick(p, s);
    if s.pc == Publish then s1 else PollRun(p, s1)
  }

  class Measurement {
    const p: Params
    var f: real
    var theta: real
    var inc: real
    var norm: real
    var remaining: int
    var sinSum: real
    var cosSum: real
    var sinExcSum: real
    var cosExcSum: real
    var emitted: seq<Report>

    ghost function State(): Shared
      reads this
    {
      Shared(f, theta, inc, norm, remaining, Sums(sinSum, cosSum, sinExcSum, cosExcSum))
    }

    constructor (p: Params)
      ensures this.p == p
      ensures Initial(p, Sys(State(), TestRemaining, Report(0.0, 0.0, 0.0, 0.0, 0.0), 0)) == (0.0 < p.fMin)
      ensures emitted == []
    {
      this.p := p;
      f, theta, inc, norm, remaining := 0.0, 0.0, 0.0, 0.0, 0;
      sinSum, cosSum, sinExcSum, cosExcSum := 0.0, 0.0, 0.0, 0.0;
      emitted := [];
    }

    /** The interrupt's share: it returns the excited input while measuring and its input otherwise. */
    method UpdateWithOffset(sample: real, offset: real) returns (r: real)
      modifies this
      ensures State() == Update(p, old(State()), sample, offset) && emitted == old(emitted)
      ensures r == if old(remaining) == 0 then sample else Excitation(p, theta, offset)
    {
      if remaining != 0 {
        theta := theta + inc;
        if theta > TAU {
          theta := theta - TAU;
        }
        var sinTheta, cosTheta := p.sin(theta), p.cos(theta);
        var excitation := offset + sinTheta * p.magnitude;
        assert excitation == Excitation(p, theta, offset);
        hide Plus, Excitation;
        AddSample(sinTheta, cosTheta, sample, excitation);
        remaining := remaining - 1;
        r := excitation;
      } else {
        r := sample;
      }
    }

    method AddSample(sinTheta: real, cosTheta: real, sample: real, excitation: real)
      modifies this`sinSum, this`cosSum, this`sinExcSum, this`cosExcSum
      ensures State().sums == Plus(old(State()).sums, sinTheta, cosTheta, sample, excitation)
    {
      sinSum := sinSum + sinTheta * sample;
      cosSum := cosSum + cosTheta * sample;
      sinExcSum := sinExcSum + sinTheta * excitation;
      cosExcSum := cosExcSum + cosTheta * excitation;
    }

    /** Reports the finished measurement, if there is one and somebody to tell. */
    method EmitCurrent()
      modifies this`emitted
      ensures emitted == old(emitted) + if f >= p.fMin && p.hasEmit then [ReportNow(State())] else []
    {
      if f >= p.fMin {
        if p.hasEmit {
          var result := Report(f, sinSum * norm, cosSum * norm, sinExcSum * norm, cosExcSum * norm);
          assert result == ReportNow(State());
          emitted := emitted + [result];
        }
      }
    }

    /** Sets up the next frequency; the sample count comes last. */
    method ConfigureNext()
      requires ValidParams(p)
      modifies this
      ensures State() == Configuration(p, NextFreq(p, old(f))) && emitted == old(emitted)
    {
      f := f * p.ratio;
      if f < p.fMin || f > p.fMax {
        f := p.fMin;
      }
      assert f == NextFreq(p, old(f));
      hide Increment, SampleCount, NextFreq;
      SetUp();
    }

    method SetUp()
      requires ValidParams(p) && p.fMin <= f <= p.fMax
      modifies this
      ensures f == old(f) && State() == Configuration(p, f) && emitted == old(emitted)
    {
      hide Increment, SampleCount;
      inc := Increment(p, f);
      theta := 0.0;
      sinSum := 0.0;
      cosSum := 0.0;
      sinExcSum := 0.0;
      cosExcSum := 0.0;
      var n := SampleCount(p, f);
      norm := 2.0 / n as real;
      remaining := n;
    }

    /** The thread's share: it does what the steps of `Tick` do one after the other. */
    method Poll()
      requires ValidParams(p)
      modifies this
      ensures old(remaining) != 0 ==> State() == old(State()) && emitted == old(emitted)
      ensures old(remaining) == 0 ==>
                var s := PollRun(p, Sys(old(State()), TestFrequency, Report(0.0, 0.0, 0.0, 0.0, 0.0), 0));
                && State() == s.sh
                && emitted == old(emitted) + if old(f) >= p.fMin && p.hasEmit then [s.report] else []
    {
      if remaining == 0 {
        hide PollRun, Configuration, NextFreq, ReportNow;
        PollIs(p, State());
        EmitCurrent();
        ConfigureNext();
      }
    }
  }

  function ReportNow(sh: Shared): Report {
    Report(sh.f, sh.sums.sin * sh.norm, sh.sums.cos * sh.norm, sh.sums.sinExc * sh.norm, sh.sums.cosExc * sh.norm)
  }

  /** The shared record at the start of a measurement at frequency `f`. */
  ghost function Configuration(p: Params, f: real): Shared
    requires ValidParams(p) && p.fMin <= f <= p.fMax
  {
    var n := SampleCount(p, f);
    Shared(f, 0.0, Increment(p, f), 2.0 / n as real, n, Sums(0.0, 0.0, 0.0, 0.0))
  }

  /** An uninterrupted poll in one go. */
  lemma PollIs(p: Params, sh: Shared)
    requires ValidParams(p)
    ensures var s := PollRun(p, Sys(sh, TestFrequency, Report(0.0, 0.0, 0.0, 0.0, 0.0), 0));
            && s.sh == Configuration(p, NextFreq(p, sh.f)) && s.pc == TestRemaining
            && (sh.f >= p.fMin && p.hasEmit ==> s.report == ReportNow(sh))
  {
    hide PollRun, Configuration, NextFreq, ReportNow;
    var s := Sys(sh, TestFrequency, Report(0.0, 0.0, 0.0, 0.0, 0.0), 0);
    PollReport(p, s);
    PollConfigure(p, if sh.f >= p.fMin && p.hasEmit then Sys(sh, ScaleFreq, ReportNow(sh), 0) else s.(pc := ScaleFreq));
  }

  /** An uninterrupted poll is one of the runs. */
  lemma {:induction false} PollIsARun(p: Params, s: Sys) returns (acts: seq<Action>)
    requires p.fs != 0.0 && s.pc != TestRemaining
    ensures RunSys(p, s, acts) == PollRun(p, s) && forall a | a in acts :: a.Thread?
    decreases 18 - Rank(s.pc)
  {
    var s1 := Tick(p, s);
    var rest: seq<Action> := [];
    if s.pc != Publish {
      rest := PollIsARun(p, s1);
    }
    hide Tick;
    acts := [Thread] + rest;
    assert acts[1..] == rest;
    assert Act(p, s, acts[0]) == s1;
  }

  lemma PollStep(p: Params, s: Sys, s': Sys)
    requires p.fs != 0.0 && s.pc != TestRemaining && s.pc != Publish && Tick(p, s) == s'
    ensures s'.pc != TestRemaining && PollRun(p, s) == PollRun(p, s')
  {
  }

  lemma PollReport(p: Params, s: Sys)
    requires p.fs != 0.0 && s.pc == TestFrequency
    ensures PollRun(p, s)
         == PollRun(p, if s.sh.f >= p.fMin && p.hasEmit then Sys(s.sh, ScaleFreq, ReportNow(s.sh), s.count)
                       else s.(pc := ScaleFreq))
  {
    hide PollRun;
    var s1 := Tick(p, s);
    PollStep(p, s, s1);
    if s1.pc == ReadFreq {
      var s2 := Tick(p, s1);
      PollStep(p, s1, s2);
      var s3 := Tick(p, s2);
      PollStep(p, s2, s3);
      var s4 := Tick(p, s3);
      PollStep(p, s3, s4);
      var s5 := Tick(p, s4);
      PollStep(p, s4, s5);
      var s6 := Tick(p, s5);
      PollStep(p, s5, s6);
      PollStep(p, s6, Tick(p, s6));
      assert Tick(p, s6) == Sys(s.sh, ScaleFreq, ReportNow(s.sh), s.count);
    }
  }

  lemma PollConfigure(p: Params, s: Sys)
    requires ValidParams(p) && s.pc == ScaleFreq
    ensures var f := NextFreq(p, s.sh.f);
            PollRun(p, s) == Sys(Configuration(p, f), TestRemaining, s.report, SampleCount(p, f))
  {
    hide PollRun, Increment, SampleCount, NextFreq;
    PollFreq(p, s);
    var f := NextFreq(p, s.sh.f);
    var s2 := s.(sh := s.sh.(f := f), pc := SetIncrement);
    var s3 := s2.(sh := s2.sh.(inc := Increment(p, f)), pc := ClearTheta);
    PollStep(p, s2, s3);
    var s4 := s3.(sh := s3.sh.(theta := 0.0), pc := ClearSin);
    PollStep(p, s3, s4);
    PollClear(p, s4);
    var s8 := s4.(sh := s4.sh.(sums := Sums(0.0, 0.0, 0.0, 0.0)), pc := SetNorm);
    var n := SampleCount(p, f);
    var s9 := s8.(count := n, sh := s8.sh.(norm := 2.0 / n as real), pc := Publish);
    PollStep(p, s8, s9);
    PollEnd(p, s9);
  }

  lemma PollFreq(p: Params, s: Sys)
    requires p.fs != 0.0 && s.pc == ScaleFreq
    ensures PollRun(p, s) == PollRun(p, s.(sh := s.sh.(f := NextFreq(p, s.sh.f)), pc := SetIncrement))
  {
    hide PollRun;
    var s1 := s.(sh := s.sh.(f := s.sh.f * p.ratio), pc := ClampFreq);
    PollStep(p, s, s1);
    PollStep(p, s1, s.(sh := s.sh.(f := NextFreq(p, s.sh.f)), pc := SetIncrement));
  }

  lemma PollClear(p: Params, s: Sys)
    requires p.fs != 0.0 && s.pc == ClearSin
    ensures PollRun(p, s) == PollRun(p, s.(sh := s.sh.(sums := Sums(0.0, 0.0, 0.0, 0.0)), pc := SetNorm))
  {
    hide PollRun;
    var s1 := Tick(p, s);
    PollStep(p, s, s1);
    var s2 := Tick(p, s1);
    PollStep(p, s1, s2);
    var s3 := Tick(p, s2);
    PollStep(p, s2, s3);
    PollStep(p, s3, Tick(p, s3));
  }

  lemma PollEnd(p: Params, s: Sys)
    requires p.fs != 0.0 && s.pc == Publish
    ensures PollRun(p, s) == s.(sh := s.sh.(remaining := s.count), pc := TestRemaining)
  {
  }
}
