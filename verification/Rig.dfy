/** The measurement rig: chirps framed through a delay line, the windows they come
    back in, and the distribution of the delays found in them. */
module MeasurementRig {
  import opened Bits
  import opened Signals
  import opened Roots
  import opened Correlators
  import opened Detection
  import opened DelayLines
  import opened Statistics

  datatype Config = Config(rate: int, frame: int, chirp: int, trials: int, period: int, threshold: real)

  datatype ConfigError = BadRate | BadFrame | BadChirp | BadTrials | PeriodNotWhole | PeriodTooShort

  datatype Validity = Runnable | Refused(reason: ConfigError)

  /** Why a configuration cannot be run. The divisibility test comes after the frame
      is known to be positive. */
  function Validate(c: Config): (v: Validity)
    ensures v.Runnable? <==>
      c.rate > 0 && c.frame > 0 && c.chirp > 0 && c.trials > 0 && c.chirp < c.period && c.period % c.frame == 0
    ensures v.Refused? ==>
      match v.reason
      case BadRate => c.rate <= 0
      case BadFrame => c.frame <= 0 < c.rate
      case BadChirp => c.chirp <= 0 < c.rate && c.frame > 0
      case BadTrials => c.trials <= 0 < c.rate && c.frame > 0 && c.chirp > 0
      case PeriodNotWhole => c.frame > 0 && c.period % c.frame != 0 && c.rate > 0 && c.chirp > 0 && c.trials > 0
      case PeriodTooShort => c.frame > 0 && c.period % c.frame == 0 && c.period <= c.chirp && c.rate > 0 && c.trials > 0
  {
    if c.rate <= 0 then Refused(BadRate)
    else if c.frame <= 0 then Refused(BadFrame)
    else if c.chirp <= 0 then Refused(BadChirp)
    else if c.trials <= 0 then Refused(BadTrials)
    else if c.period % c.frame != 0 then Refused(PeriodNotWhole)
    else if c.period <= c.chirp then Refused(PeriodTooShort)
    else Runnable
  }

  datatype Pass = Pass(attempted: int, sampleCount: int, misses: int, weakest: real,
                       p50: Figure, p95: Figure, p99: Figure, least: Figure, greatest: Figure,
                       delays: seq<real>)

  /** One trial as the correlator answered it. */
  datatype Trial = Trial(offset: int, score: real)

  /** n copies of s. */
  function Repeat(s: seq<real>, n: nat): (r: seq<real>)
    ensures |r| == n * |s|
  {
    if n == 0 then [] else Repeat(s, n - 1) + s
  }

  /** The samples that come back during trial k, when h had entered the line before. */
  ghost function Window(line: Line, chirp: seq<real>, period: nat, h: seq<real>, k: nat): (w: seq<real>)
    requires line.resample > 0
    ensures |w| == period
  {
    var before := h + Repeat(Pad(chirp, period), k);
    line.EchoFrom(before + Pad(chirp, period), |before|)
  }

  /** Each trial is the correlator's answer on its own window. */
  ghost predicate Answered(
    sqrt: real -> real, line: Line, chirp: seq<real>, period: nat, h: seq<real>, trials: seq<Trial>)
    requires line.resample > 0 && period > 0
  {
    forall k {:trigger trials[k]} :: 0 <= k < |trials| ==>
      Answer(sqrt, chirp, period, Window(line, chirp, period, h, k), trials[k].offset, trials[k].score)
  }

  /** The trials that reach the threshold, in order. */
  function Accepted(trials: seq<Trial>, threshold: real): seq<Trial> {
    if |trials| == 0 then []
    else
      var init := Accepted(trials[..|trials| - 1], threshold);
      var t := trials[|trials| - 1];
      if t.score < threshold then init else init + [t]
  }

  /** A trial is accepted exactly if its score is at least the threshold, in order. */
  lemma {:induction false} AcceptedOf(a: seq<Trial>, b: seq<Trial>, t: Trial, threshold: real)
    ensures Accepted(a + b, threshold) == Accepted(a, threshold) + Accepted(b, threshold)
    ensures Accepted([t], threshold) == if t.score >= threshold then [t] else []
    decreases |b|
  {
    assert [t][..0] == [];
    if |b| == 0 {
      assert a + b == a;
    } else {
      assert (a + b)[..|a + b| - 1] == a + b[..|b| - 1];
      AcceptedOf(a, b[..|b| - 1], t, threshold);
    }
  }

  function Millis(t: Trial, rate: int): real
    requires rate > 0
  {
    t.offset as real / rate as real * 1000.0
  }

  function DelaysOf(accepted: seq<Trial>, rate: int): (d: seq<real>)
    requires rate > 0
    ensures |d| == |accepted| && forall i :: 0 <= i < |d| ==>
      d[i] == Millis(accepted[i], rate) && d[i] == accepted[i].offset as real / rate as real * 1000.0
  {
    seq(|accepted|, i requires 0 <= i < |accepted| => Millis(accepted[i], rate))
  }

  /** Whether w is the lowest score among the accepted trials. */
  ghost predicate Weakest(accepted: seq<Trial>, w: real) {
    if |accepted| == 0 then w == 0.0
    else (forall t :: t in accepted ==> w <= t.score) && exists t :: t in accepted && w == t.score
  }

  /** What a pass reports about its trials. */
  ghost predicate Summary(pass: Pass, cfg: Config, trials: seq<Trial>)
    requires cfg.rate > 0
  {
    var accepted := Accepted(trials, cfg.threshold);
    && pass.attempted == cfg.trials == |trials|
    && pass.sampleCount == |accepted| && pass.sampleCount + pass.misses == |trials|
    && pass.delays == DelaysOf(accepted, cfg.rate)
    && Weakest(accepted, pass.weakest)
    && (if |accepted| == 0 then
          pass.p50 == NaN && pass.p95 == NaN && pass.p99 == NaN && pass.least == NaN && pass.greatest == NaN
        else
          exists s :: Figures(pass, s))
  }

  ghost predicate Figures(pass: Pass, s: seq<real>) {
    && |s| > 0 && Sorted(s) && multiset(s) == multiset(pass.delays)
    && RankedAt(s, 50.0, pass.p50) && RankedAt(s, 95.0, pass.p95) && RankedAt(s, 99.0, pass.p99)
    && pass.least == Number(s[0]) && pass.greatest == Number(s[|s| - 1])
  }

  /** What the figures of a pass mean for the delays it lists. */
  ghost predicate FiguresMean(pass: Pass) {
    var d := pass.delays;
    && pass.p50.Number? && pass.p95.Number? && pass.p99.Number? && pass.least.Number? && pass.greatest.Number?
    && LeastWith(d, 50.0, pass.p50.value) && LeastWith(d, 95.0, pass.p95.value) && LeastWith(d, 99.0, pass.p99.value)
    && pass.least.value in d && pass.greatest.value in d
    && (forall x :: x in d ==> pass.least.value <= x <= pass.greatest.value)
    && pass.least.value <= pass.p50.value <= pass.p95.value <= pass.p99.value <= pass.greatest.value
  }

  lemma FiguresAre(pass: Pass, s: seq<real>)
    requires Figures(pass, s)
    ensures FiguresMean(pass)
  {
    hide Rank, NearestRank, LeastWith;
    var d := pass.delays;
    assert |multiset(s)| == |multiset(d)|;
    PercentileIsLeast(d, s, Rank(50.0, |s|));
    PercentileIsLeast(d, s, Rank(95.0, |s|));
    PercentileIsLeast(d, s, Rank(99.0, |s|));
    LeastShare(d, 50.0, pass.p50.value);
    LeastShare(d, 95.0, pass.p95.value);
    LeastShare(d, 99.0, pass.p99.value);
    RankMonotone(50.0, 95.0, |s|);
    RankMonotone(95.0, 99.0, |s|);
    assert s[0] in multiset(d) && s[|s| - 1] in multiset(d);
    forall x | x in d ensures s[0] <= x <= s[|s| - 1] { assert x in multiset(s); }
  }

  /** A pass with a sample reports the nearest-rank percentiles of the delays it
      lists, and its figures are in order. */
  lemma SummaryMeans(pass: Pass, cfg: Config, trials: seq<Trial>)
    requires cfg.rate > 0 && Summary(pass, cfg, trials) && pass.sampleCount > 0
    ensures FiguresMean(pass)
  {
    hide Figures, FiguresMean;
    var s :| Figures(pass, s);
    hide *;
    FiguresAre(pass, s);
  }

  // Framing.

  function FrameStart(f: nat, frame: nat): nat { f * frame }

  lemma FrameNext(f: nat, frame: nat, count: nat)
    requires f < count
    ensures FrameStart(f + 1, frame) == FrameStart(f, frame) + frame <= FrameStart(count, frame)
  {
    ProductGap(f, count, frame);
  }

  lemma FrameZero(frame: nat)
    ensures FrameStart(0, frame) == 0
  {}

  lemma FrameCount(period: nat, frame: nat)
    requires frame > 0 && period % frame == 0
    ensures FrameStart(period / frame, frame) == period
  {}

  method FillFrame(input: array<real>, chirp: seq<real>, base: nat, ghost period: nat)
    requires base + input.Length <= period
    modifies input
    ensures input[..] == Pad(chirp, period)[base..base + input.Length]
  {
    var i := 0;
    while i < input.Length
      invariant 0 <= i <= input.Length
      invariant forall j :: 0 <= j < i ==> input[j] == Pad(chirp, period)[base + j]
    {
      var k := base + i;
      if k < |chirp| {
        input[i] := chirp[k];
      } else {
        input[i] := 0.0;
      }
      i := i + 1;
    }
  }

  method CopyInto(window: array<real>, base: nat, out: array<real>)
    requires base + out.Length <= window.Length && window != out
    modifies window
    ensures window[..] == old(window[..base]) + out[..] + old(window[base + out.Length..])
  {
    var i := 0;
    while i < out.Length
      invariant 0 <= i <= out.Length
      invariant forall j :: 0 <= j < window.Length ==>
        window[j] == if base <= j < base + i then out[j - base] else old(window[j])
    {
      window[base + i] := out[i];
      i := i + 1;
    }
  }

  /** Drives one trial: the chirp and the silence after it, frame by frame. */
  method RunTrial(sys: DelayLine, chirp: seq<real>, input: array<real>, out: array<real>, window: array<real>)
    requires sys.Valid()
    requires input.Length > 0 && out.Length == input.Length && window.Length % input.Length == 0
    requires input != out && input != window && out != window
    requires sys.ring != input && sys.ring != out && sys.ring != window
    modifies sys, sys.ring, input, out, window
    ensures sys.Valid()
    ensures var cell := Pad(chirp, window.Length);
      sys.hist == old(sys.hist) + cell
      && |old(sys.hist)| <= |sys.hist| && sys.line.resample > 0
      && window[..] == sys.line.EchoFrom(sys.hist, |old(sys.hist)|)
  {
    SpecStart(sys.line, sys.hist);
    hide *;
    var frame, period := input.Length, window.Length;
    var framesPerTrial := period / frame;
    ghost var h, cell := sys.hist, Pad(chirp, period);
    FrameCount(period, frame);
    FrameZero(frame);
    var f := 0;
    assert h + cell[..0] == h;
    while f < framesPerTrial
      invariant 0 <= f <= framesPerTrial && FrameStart(f, frame) <= period
      invariant sys.Valid() && sys.line.resample > 0
      invariant sys.hist == h + cell[..FrameStart(f, frame)]
      invariant window[..FrameStart(f, frame)] == sys.line.EchoFrom(sys.hist, |h|)
    {
      FrameNext(f, frame, framesPerTrial);
      var base := f * frame;
      assert base == FrameStart(f, frame) by { FrameStartIs(f, frame); }
      FillFrame(input, chirp, base, period);
      ghost var g, done := sys.hist, window[..base];
      sys.Exchange(input, out);
      assert cell[..base + frame] == cell[..base] + cell[base..base + frame];
      assert out[..] == sys.line.EchoFrom(sys.hist, |g|);
      CopyInto(window, base, out);
      assert window[..base + frame] == done + out[..];
      JoinEcho(sys.line, h, g, sys.hist);
      f := f + 1;
    }
    assert window[..period] == window[..];
    assert cell[..period] == cell;
  }

  lemma FrameStartIs(f: nat, frame: nat)
    ensures FrameStart(f, frame) == f * frame
  {}

  lemma JoinEcho(line: Line, h: seq<real>, g: seq<real>, all: seq<real>)
    requires line.resample > 0 && h <= g <= all
    ensures line.EchoFrom(g, |h|) + line.EchoFrom(all, |g|) == line.EchoFrom(all, |h|)
  {
    assert forall t :: 0 <= t < |g| ==> line.Echo(g, t) == line.Echo(all, t);
  }

  /** The answer does not depend on how long the transform is, once the window fits. */
  lemma AnswerSize(sqrt: real -> real, ref: seq<real>, m: nat, n: nat, w: seq<real>, offset: int, score: real)
    requires 0 < |w| <= m && |w| <= n
    requires Answer(sqrt, ref, m, w, offset, score)
    ensures Answer(sqrt, ref, n, w, offset, score)
  {
    forall p | Scored(sqrt, ref, w, p)
      ensures Score(sqrt, ref, m, w, p) == Score(sqrt, ref, n, w, p)
    {
      LagIsDot(ref, m, w, p);
      LagIsDot(ref, n, w, p);
    }
    hide Score, Divisor;
  }

  /** Drives the line through the configured trials and reports the distribution.
      `chirp` is the reference sweep, of the configured length. */
  method Measure(sys: DelayLine, cfg: Config, chirp: seq<real>, sqrt: real -> real)
    returns (valid: Validity, pass: Pass, ghost trials: seq<Trial>)
    requires sys.Valid() && IsSqrt(sqrt)
    requires |chirp| == if cfg.chirp > 0 then cfg.chirp else 0
    modifies sys, sys.ring
    ensures sys.Valid() && valid == Validate(cfg)
    ensures valid.Refused? ==> trials == [] && sys.hist == old(sys.hist)
    ensures valid.Runnable? ==>
      && sys.line.resample > 0
      && Answered(sqrt, sys.line, chirp, cfg.period, old(sys.hist), trials)
      && sys.hist == old(sys.hist) + Repeat(Pad(chirp, cfg.period), cfg.trials)
      && Summary(pass, cfg, trials)
  {
    hide *;
    valid, trials := Validate(cfg), [];
    pass := Pass(0, 0, 0, 0.0, NaN, NaN, NaN, NaN, NaN, []);
    if valid.Refused? {
      return;
    }
    ghost var h, cell := sys.hist, Pad(chirp, cfg.period);
    var corr := new Correlator(sqrt, chirp, cfg.period);
    var input := new real[cfg.frame](_ => 0.0);
    var out := new real[cfg.frame](_ => 0.0);
    var window := new real[cfg.period](_ => 0.0);
    var misses, weakest, delays := 0, 0.0, [];
    var t := 0;
    MeasureStart(sys, sqrt, cfg, chirp);
    assert h + Repeat(cell, 0) == h;
    while t < cfg.trials
      invariant 0 <= t <= cfg.trials && |trials| == t
      invariant fresh(input) && fresh(out) && fresh(window)
      invariant sys.Valid() && sys.line.resample > 0 && sys.hist == h + Repeat(cell, t)
      invariant Answered(sqrt, sys.line, chirp, cfg.period, h, trials)
      invariant Progress(cfg, trials, misses, weakest, delays)
    {
      RunTrial(sys, chirp, input, out, window);
      RepeatStep(h, cell, t);
      ShortIsInside(sqrt, chirp, corr.size, window[..]);
      var offset, score := corr.Find(window[..]);
      ghost var trial := Trial(offset, score);
      WindowIs(sys.line, chirp, cfg.period, h, t, window[..]);
      AnswerSize(sqrt, chirp, corr.size, cfg.period, window[..], offset, score);
      AnsweredStep(sqrt, sys.line, chirp, cfg.period, h, trials, trial);
      ProgressStep(cfg, trials, misses, weakest, delays, trial);
      if score < cfg.threshold {
        misses := misses + 1;
      } else {
        if |delays| == 0 || score < weakest {
          weakest := score;
        }
        delays := delays + [offset as real / cfg.rate as real * 1000.0];
      }
      trials := trials + [trial];
      t := t + 1;
    }
    pass := Summarise(cfg, trials, misses, weakest, delays);
  }

  lemma MeasureStart(sys: DelayLine, sqrt: real -> real, cfg: Config, chirp: seq<real>)
    requires sys.Valid() && cfg.rate > 0 && cfg.period > 0
    ensures sys.line.resample > 0 && Answered(sqrt, sys.line, chirp, cfg.period, sys.hist, [])
    ensures Progress(cfg, [], 0, 0.0, [])
  {}

  lemma RepeatStep(h: seq<real>, cell: seq<real>, t: nat)
    ensures h + Repeat(cell, t) + cell == h + Repeat(cell, t + 1)
  {}

  /** What a pass has gathered after some trials. */
  ghost predicate Progress(cfg: Config, trials: seq<Trial>, misses: int, weakest: real, delays: seq<real>)
    requires cfg.rate > 0
  {
    && delays == DelaysOf(Accepted(trials, cfg.threshold), cfg.rate)
    && misses == |trials| - |delays|
    && Weakest(Accepted(trials, cfg.threshold), weakest)
  }

  lemma ProgressStep(cfg: Config, trials: seq<Trial>, misses: int, weakest: real, delays: seq<real>, t: Trial)
    requires cfg.rate > 0 && Progress(cfg, trials, misses, weakest, delays)
    ensures t.score < cfg.threshold ==> Progress(cfg, trials + [t], misses + 1, weakest, delays)
    ensures t.score >= cfg.threshold ==>
      Progress(cfg, trials + [t], misses, if |delays| == 0 || t.score < weakest then t.score else weakest,
               delays + [t.offset as real / cfg.rate as real * 1000.0])
  {
    hide Weakest;
    var a := Accepted(trials, cfg.threshold);
    assert (trials + [t])[..|trials|] == trials;
    WeakestStep(a, t, weakest);
    if t.score >= cfg.threshold {
      assert DelaysOf(a + [t], cfg.rate) == DelaysOf(a, cfg.rate) + [Millis(t, cfg.rate)];
    }
  }

  lemma AnsweredStep(sqrt: real -> real, line: Line, chirp: seq<real>, period: nat, h: seq<real>,
                     trials: seq<Trial>, t: Trial)
    requires line.resample > 0 && period > 0
    requires Answered(sqrt, line, chirp, period, h, trials)
    requires Answer(sqrt, chirp, period, Window(line, chirp, period, h, |trials|), t.offset, t.score)
    ensures Answered(sqrt, line, chirp, period, h, trials + [t])
  {
    hide Answer, Window;
  }

  lemma WindowIs(line: Line, chirp: seq<real>, period: nat, h: seq<real>, k: nat, w: seq<real>)
    requires line.resample > 0 && |Pad(chirp, period)| == period
    requires var before := h + Repeat(Pad(chirp, period), k);
      w == line.EchoFrom(before + Pad(chirp, period), |before|)
    ensures w == Window(line, chirp, period, h, k)
  {}

  lemma WeakestStep(accepted: seq<Trial>, t: Trial, w: real)
    requires Weakest(accepted, w)
    ensures Weakest(accepted + [t], if |accepted| == 0 || t.score < w then t.score else w)
  {
    assert t in accepted + [t];
    if |accepted| > 0 {
      var u :| u in accepted && w == u.score;
      assert u in accepted + [t];
    }
  }

  /** The end of a pass: the percentiles, and the extremes their sorting leaves. */
  method Summarise(cfg: Config, ghost trials: seq<Trial>, misses: int, weakest: real, found: seq<real>)
    returns (pass: Pass)
    requires cfg.rate > 0 && |trials| == cfg.trials
    requires Progress(cfg, trials, misses, weakest, found)
    ensures Summary(pass, cfg, trials)
  {
    hide *;
    if |found| == 0 {
      pass := Pass(cfg.trials, 0, misses, 0.0, NaN, NaN, NaN, NaN, NaN, found);
      SummaryOfNone(pass, cfg, trials, weakest);
      return;
    }
    var delays := new real[|found|](i requires 0 <= i < |found| => found[i]);
    assert delays[..] == found;
    var p50 := Percentile(delays, 50.0);
    ghost var s := delays[..];
    var p95 := Percentile(delays, 95.0);
    assert delays[..] == s;
    var p99 := Percentile(delays, 99.0);
    assert delays[..] == s;
    pass := Pass(cfg.trials, |found|, misses, weakest, p50, p95, p99,
                 Number(delays[0]), Number(delays[|found| - 1]), found);
    SummaryOfSome(pass, cfg, trials, s);
  }

  lemma SummaryOfNone(pass: Pass, cfg: Config, trials: seq<Trial>, weakest: real)
    requires cfg.rate > 0 && |trials| == cfg.trials && Progress(cfg, trials, pass.misses, weakest, [])
    requires pass == Pass(cfg.trials, 0, pass.misses, 0.0, NaN, NaN, NaN, NaN, NaN, [])
    ensures Summary(pass, cfg, trials)
  {}

  lemma SummaryOfSome(pass: Pass, cfg: Config, trials: seq<Trial>, s: seq<real>)
    requires cfg.rate > 0 && pass.attempted == |trials| == cfg.trials
    requires pass.sampleCount == |pass.delays| > 0
    requires Progress(cfg, trials, pass.misses, pass.weakest, pass.delays)
    requires |s| > 0 && Sorted(s) && multiset(s) == multiset(pass.delays)
    requires RankedAt(s, 50.0, pass.p50) && RankedAt(s, 95.0, pass.p95) && RankedAt(s, 99.0, pass.p99)
    requires pass.least == Number(s[0]) && pass.greatest == Number(s[|s| - 1])
    ensures Summary(pass, cfg, trials)
  {
    hide RankedAt, Weakest, Accepted;
    assert Figures(pass, s);
  }

  // Exactness.

  /** The delay drawn for block k. */
  function TrialDelay(line: Line, k: nat): (d: nat)
    ensures line.Valid() ==> d <= line.base + line.jitter
  {
    if line.jitter > 0 then line.base + line.draws(k) else line.base
  }

  /** Every sample of trial k takes the delay of block k. */
  lemma DelayInTrial(line: Line, cell: seq<real>, k: nat, i: nat)
    requires line.resample == |cell| > i
    ensures line.Delay(|Repeat(cell, k)| + i) == TrialDelay(line, k)
  {
    DivModUnique(|Repeat(cell, k)| + i, |cell|, k, i);
  }

  /** What a line carrying one delay through the current block lets out of it. */
  lemma EchoOfTrial(line: Line, chirp: seq<real>, period: nat, k: nat, i: nat)
    requires line.Valid() && line.resample == period && i < period
    requires TrialDelay(line, k) + |chirp| <= period
    ensures var cell, d := Pad(chirp, period), TrialDelay(line, k);
      line.Echo(Repeat(cell, k + 1), |Repeat(cell, k)| + i)
      == if d <= i < d + |chirp| then chirp[i - d] else 0.0
  {
    hide Quot;
    var cell, d := Pad(chirp, period), TrialDelay(line, k);
    var h, t := Repeat(cell, k + 1), |Repeat(cell, k)| + i;
    DelayInTrial(line, cell, k, i);
    RepeatTail(cell, k);
    if i >= d {
      assert h[t - d] == cell[i - d];
    } else if k > 0 {
      RepeatTail(cell, k - 1);
      assert h[t - d] == cell[period + i - d];
    } else {
      assert Repeat(cell, 0) == [];
    }
  }

  lemma RepeatTail(cell: seq<real>, k: nat)
    ensures Repeat(cell, k + 1) == Repeat(cell, k) + cell
  {}

  /** A fresh line redrawing once per period returns trial k as one copy of the chirp at
      the delay of block k, where that is no longer than the silence after the chirp. */
  lemma WindowIsDelayed(line: Line, chirp: seq<real>, period: nat, k: nat)
    requires line.Valid() && line.resample == period
    requires TrialDelay(line, k) + |chirp| <= period
    ensures Window(line, chirp, period, [], k) == Delayed(chirp, TrialDelay(line, k), period)
  {
    hide Quot, TrialDelay, Repeat;
    var cell := Pad(chirp, period);
    RepeatTail(cell, k);
    assert [] + Repeat(cell, k) == Repeat(cell, k);
    forall i | 0 <= i < period
      ensures Window(line, chirp, period, [], k)[i] == Delayed(chirp, TrialDelay(line, k), period)[i]
    {
      EchoOfTrial(line, chirp, period, k, i);
    }
  }

  /** With one delay per trial, a trial answers with the delay of its block if and only if
      that leaves room for the chirp, and then with score one; a slower trial is measured
      as something else. */
  lemma TrialExactly(sqrt: real -> real, line: Line, cfg: Config, chirp: seq<real>, trials: seq<Trial>, k: nat)
    requires IsSqrt(sqrt) && line.Valid() && Validate(cfg).Runnable?
    requires |chirp| == cfg.chirp && Energy(chirp) > 0.0 && k < |trials|
    requires line.resample == cfg.period && Answered(sqrt, line, chirp, cfg.period, [], trials)
    ensures trials[k].offset == TrialDelay(line, k) <==> TrialDelay(line, k) <= cfg.period - cfg.chirp
    ensures TrialDelay(line, k) <= cfg.period - cfg.chirp ==> trials[k].score == 1.0
  {
    var w, d, t := Window(line, chirp, cfg.period, [], k), TrialDelay(line, k), trials[k];
    assert Answer(sqrt, chirp, cfg.period, w, t.offset, t.score);
    hide IsSqrt, Answer, Window, Energy, Answered, TrialDelay;
    if d <= cfg.period - cfg.chirp {
      WindowIsDelayed(line, chirp, cfg.period, k);
      DelayedIsFound(sqrt, chirp, cfg.period, d, cfg.period, t.offset, t.score);
    } else {
      AnswerRange(sqrt, chirp, cfg.period, w, t.offset, t.score);
    }
  }

  /** Every trial's delay leaves room for the chirp. */
  ghost predicate Roomy(line: Line, cfg: Config) {
    forall k: nat :: k < cfg.trials ==> TrialDelay(line, k) <= cfg.period - cfg.chirp
  }

  /** The rig is exact: with no noise, one delay per trial period, room for each delay
      drawn after the chirp, a chirp that is not silent and a threshold of at most one,
      no trial is missed and trial k reports the delay its block was given. */
  lemma RigIsExact(sqrt: real -> real, line: Line, cfg: Config, chirp: seq<real>, trials: seq<Trial>, pass: Pass)
    requires IsSqrt(sqrt) && line.Valid() && Validate(cfg).Runnable?
    requires |chirp| == cfg.chirp && Energy(chirp) > 0.0 && cfg.threshold <= 1.0
    requires line.resample == cfg.period && Roomy(line, cfg)
    requires Answered(sqrt, line, chirp, cfg.period, [], trials) && Summary(pass, cfg, trials)
    ensures pass.misses == 0 && pass.sampleCount == cfg.trials && pass.weakest == 1.0
    ensures forall k: nat :: k < cfg.trials ==>
      trials[k] == Trial(TrialDelay(line, k), 1.0)
    ensures |pass.delays| == cfg.trials && forall k: nat :: k < cfg.trials ==>
      pass.delays[k] == TrialDelay(line, k) as real / cfg.rate as real * 1000.0
  {
    SummarySize(pass, cfg, trials);
    assert Roomy(line, cfg);
    hide IsSqrt, Line.Valid, Energy, Answered, Summary, TrialDelay;
    forall k: nat | k < |trials| ensures trials[k] == Trial(TrialDelay(line, k), 1.0) {
      TrialExactly(sqrt, line, cfg, chirp, trials, k);
    }
    SummaryOfPerfect(cfg, trials, pass);
  }

  lemma SummarySize(pass: Pass, cfg: Config, trials: seq<Trial>)
    requires cfg.rate > 0 && Summary(pass, cfg, trials)
    ensures |trials| == cfg.trials
  {
    hide Figures;
  }

  /** Driving a fresh line: no trial is missed and each reports the delay drawn for it. */
  method MeasureFresh(base: nat, jitter: nat, draws: nat -> nat, cfg: Config, chirp: seq<real>, sqrt: real -> real)
    returns (pass: Pass)
    requires IsSqrt(sqrt) && Validate(cfg).Runnable? && forall i :: draws(i) <= jitter
    requires |chirp| == cfg.chirp && Energy(chirp) > 0.0 && cfg.threshold <= 1.0
    requires forall k: nat :: k < cfg.trials ==> base + (if jitter > 0 then draws(k) else 0) <= cfg.period - cfg.chirp
    ensures pass.misses == 0 && pass.sampleCount == cfg.trials && pass.weakest == 1.0
    ensures |pass.delays| == cfg.trials && forall k: nat :: k < cfg.trials ==>
      pass.delays[k] == (base + if jitter > 0 then draws(k) else 0) as real / cfg.rate as real * 1000.0
  {
    var line := Line(base, jitter, cfg.period, draws);
    assert forall k: nat :: TrialDelay(line, k) == base + if jitter > 0 then draws(k) else 0;
    assert Roomy(line, cfg);
    hide IsSqrt, Energy, Answered, Summary, TrialDelay, Roomy;
    var sys := new DelayLine(base, jitter, cfg.period, cfg.frame, draws);
    var valid, measured, trials := Measure(sys, cfg, chirp, sqrt);
    RigIsExact(sqrt, sys.line, cfg, chirp, trials, measured);
    return measured;
  }

  // The largest measurable delay.

  lemma SteadyWindow(line: Line, chirp: seq<real>, period: nat, k: nat)
    requires line.Valid() && line.jitter == 0 && period > 0
    ensures Window(line.(resample := period), chirp, period, [], k) == Window(line, chirp, period, [], k)
  {
    hide Repeat;
    var steady, w := line.(resample := period), Window(line, chirp, period, [], k);
    assert forall t: nat :: steady.Delay(t) == line.Delay(t);
    assert forall i :: 0 <= i < period ==> Window(steady, chirp, period, [], k)[i] == w[i];
  }

  lemma SteadyTrial(sqrt: real -> real, line: Line, cfg: Config, chirp: seq<real>, trials: seq<Trial>, k: nat)
    requires IsSqrt(sqrt) && line.Valid() && line.jitter == 0 && Validate(cfg).Runnable?
    requires |chirp| == cfg.chirp && Energy(chirp) > 0.0 && k < |trials|
    requires Answered(sqrt, line, chirp, cfg.period, [], trials)
    ensures trials[k].offset == line.base <==> line.base <= cfg.period - cfg.chirp
  {
    hide IsSqrt, Answer, Window, Energy;
    var steady := line.(resample := cfg.period);
    forall i: nat ensures Window(steady, chirp, cfg.period, [], i) == Window(line, chirp, cfg.period, [], i) {
      SteadyWindow(line, chirp, cfg.period, i);
    }
    assert Answered(sqrt, steady, chirp, cfg.period, [], trials);
    TrialExactly(sqrt, steady, cfg, chirp, trials, k);
  }

  /** A line without jitter, redrawn however often, is measured as slow as it is in some
      trial, and then in every one, exactly where its delay leaves room for the chirp:
      a slower one is measured as something else. */
  lemma MeasurableExactly(sqrt: real -> real, line: Line, cfg: Config, chirp: seq<real>, trials: seq<Trial>)
    requires IsSqrt(sqrt) && line.Valid() && line.jitter == 0 && Validate(cfg).Runnable?
    requires |chirp| == cfg.chirp && Energy(chirp) > 0.0 && |trials| == cfg.trials
    requires Answered(sqrt, line, chirp, cfg.period, [], trials)
    ensures (forall t :: t in trials ==> t.offset == line.base) <==> line.base <= cfg.period - cfg.chirp
    ensures (exists t :: t in trials && t.offset == line.base) <==> line.base <= cfg.period - cfg.chirp
  {
    hide IsSqrt, Energy, Answered, Line.Valid;
    forall t | t in trials ensures t.offset == line.base <==> line.base <= cfg.period - cfg.chirp {
      var k :| 0 <= k < |trials| && trials[k] == t;
      SteadyTrial(sqrt, line, cfg, chirp, trials, k);
    }
    assert trials[0] in trials;
  }

  lemma SummaryOfPerfect(cfg: Config, trials: seq<Trial>, pass: Pass)
    requires cfg.rate > 0 && cfg.trials > 0 && cfg.threshold <= 1.0 && Summary(pass, cfg, trials)
    requires forall k: nat {:trigger trials[k]} :: k < |trials| ==> trials[k].score == 1.0
    ensures pass.misses == 0 && pass.sampleCount == cfg.trials == |trials| && pass.weakest == 1.0
    ensures |pass.delays| == cfg.trials
    ensures forall k: nat {:trigger pass.delays[k]} :: k < cfg.trials ==>
      pass.delays[k] == trials[k].offset as real / cfg.rate as real * 1000.0
  {
    hide Figures;
    AllAccepted(trials, cfg.threshold);
    assert trials[0] in trials;
  }

  lemma {:induction false} AllAccepted(trials: seq<Trial>, threshold: real)
    requires forall t :: t in trials ==> t.score >= threshold
    ensures Accepted(trials, threshold) == trials
  {
    if |trials| > 0 {
      var init := trials[..|trials| - 1];
      assert forall t :: t in init ==> t in trials;
      AllAccepted(init, threshold);
      assert trials[|trials| - 1] in trials;
      assert trials == init + [trials[|trials| - 1]];
    }
  }
}
