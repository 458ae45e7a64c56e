/** The recent-sample window of one key: values and specification functions. */
module SampleWindow {
  import opened Wrappers
  import opened RuntimeStats

  const WINDOW := 5
  const MILLISECOND := 1_000_000                // durations are in nanoseconds
  const PENALTY := 999 * 1_000_000_000          // timing recorded for a failed attempt
  const FRESHNESS := 5 * 60 * 1_000_000_000     // samples further apart than this do not share a window

  datatype Sample = Sample(header: int, full: int, success: bool)

  /** Failed attempts carry the fixed penalty; a successful one may lack a timing (negative). */
  function MakeSample(header: int, full: int, success: bool): Sample {
    if success then Sample(header, full, true) else Sample(PENALTY, PENALTY, false)
  }

  // ---------------------------------------------------------------- accumulated timings

  datatype Timings = Timings(successes: nat, headers: int, headerMs: real, fulls: int, fullMs: real)

  const NO_TIMINGS := Timings(0, 0, 0.0, 0, 0.0)

  function Milliseconds(d: int): real {
    d as real / MILLISECOND as real
  }

  function AddSample(t: Timings, s: Sample): Timings {
    Timings(
      t.successes + (if s.success then 1 else 0),
      t.headers + (if s.header >= 0 then 1 else 0),
      t.headerMs + (if s.header >= 0 then Milliseconds(s.header) else 0.0),
      t.fulls + (if s.full >= 0 then 1 else 0),
      t.fullMs + (if s.full >= 0 then Milliseconds(s.full) else 0.0))
  }

  /** Timings of all samples, or of the successful ones only. */
  function Accumulate(samples: seq<Sample>, successfulOnly: bool): Timings {
    if samples == [] then NO_TIMINGS
    else
      var t := Accumulate(samples[..|samples| - 1], successfulOnly);
      var s := samples[|samples| - 1];
      if successfulOnly && !s.success then t else AddSample(t, s)
  }

  function Join(a: Timings, b: Timings): Timings {
    Timings(a.successes + b.successes, a.headers + b.headers, a.headerMs + b.headerMs,
            a.fulls + b.fulls, a.fullMs + b.fullMs)
  }

  lemma {:induction false} AccumulateConcat(a: seq<Sample>, b: seq<Sample>, only: bool)
    ensures Accumulate(a + b, only) == Join(Accumulate(a, only), Accumulate(b, only))
  {
    hide Milliseconds, AddSample, Join;
    if b == [] {
      assert a + b == a;
      JoinLaws(Accumulate(a, only), NO_TIMINGS, Sample(0, 0, true));
    } else {
      AccumulateConcat(a, b[..|b| - 1], only);
      assert (a + b)[..|a + b| - 1] == a + b[..|b| - 1];
      JoinLaws(Accumulate(a, only), Accumulate(b[..|b| - 1], only), b[|b| - 1]);
    }
  }

  lemma {:induction false} JoinLaws(a: Timings, b: Timings, s: Sample)
    ensures Join(a, NO_TIMINGS) == a
    ensures Join(a, b) == Join(b, a)
    ensures AddSample(Join(a, b), s) == Join(a, AddSample(b, s))
  {
    hide Milliseconds;
  }

  /** The totals do not depend on where the ring starts. */
  lemma {:induction false} AccumulateRotate(a: seq<Sample>, b: seq<Sample>, only: bool)
    ensures Accumulate(a + b, only) == Accumulate(b + a, only)
  {
    hide Accumulate, Join, AddSample;
    AccumulateConcat(a, b, only);
    AccumulateConcat(b, a, only);
    JoinLaws(Accumulate(a, only), Accumulate(b, only), Sample(0, 0, true));
  }

  lemma {:induction false} AccumulateBounds(samples: seq<Sample>)
    ensures 0 <= Accumulate(samples, false).successes <= |samples|
    ensures Accumulate(samples, false).successes == 0 <==> forall i :: 0 <= i < |samples| ==> !samples[i].success
  {
    if samples != [] { AccumulateBounds(samples[..|samples| - 1]); }
  }

  function Mean(total: real, n: int): real {
    if n > 0 then total / n as real else total
  }

  /** The summary recomputed from a list of samples. */
  function Summary(samples: seq<Sample>): RecentStats {
    var t := Accumulate(samples, false);
    RecentStats(|samples|, t.successes, t.headers, Mean(t.headerMs, t.headers), t.fulls, Mean(t.fullMs, t.fulls))
  }

  // ---------------------------------------------------------------- costs

  datatype Costs = Costs(latency: real, success: real, adaptive: real)

  const ALL_FAILED := 1_000_000_000_000.0

  function RealMax(a: real, b: real): real { if a > b then a else b }

  function RealMin(a: real, b: real): real { if a < b then a else b }

  /** Timing that enters the costs: successful samples, else a trustworthy persisted mean, else one second. */
  function HeaderTiming(recent: RecentStats, samples: seq<Sample>): real {
    var t := Accumulate(samples, true);
    if samples != [] then (if t.headers > 0 then t.headerMs / t.headers as real else 1000.0)
    else if recent.requests == recent.successes && recent.headerSamples > 0 then recent.avgHeader
    else 1000.0
  }

  function FullTiming(recent: RecentStats, samples: seq<Sample>): real {
    var t := Accumulate(samples, true);
    if samples != [] then (if t.fulls > 0 then t.fullMs / t.fulls as real else HeaderTiming(recent, samples))
    else if recent.requests == recent.successes && recent.responseSamples > 0 then recent.avgResponse
    else HeaderTiming(recent, samples)
  }

  lemma {:induction false} SharePositive(s: nat, r: nat)
    ensures (s + 1) as real / (r + 2) as real > 0.0
  {
  }

  /** The three costs, from a summary and the two timings, with Laplace smoothing of the success share. */
  function CostsFrom(recent: RecentStats, headerTiming: real, fullTiming: real): Costs {
    if recent.requests > 0 && recent.successes == 0 then
      Costs(ALL_FAILED, ALL_FAILED, ALL_FAILED)
    else
      var p := (recent.successes + 1) as real / (recent.requests + 2) as real;
      SharePositive(recent.successes, recent.requests);
      var header := RealMax(1.0, RealMin(headerTiming, 3_600_000.0));
      var full := RealMax(header, RealMin(fullTiming, 3_600_000.0));
      Costs(header / p, 1.0 / (p * p), (0.7 * header + 0.3 * full) / (p * p))
  }

  /** The three costs recomputed from a summary and the samples behind it. */
  function CostsOf(recent: RecentStats, samples: seq<Sample>): Costs {
    CostsFrom(recent, HeaderTiming(recent, samples), FullTiming(recent, samples))
  }

  datatype Measure = LowestLatency | HighestSuccess | Adaptive

  function CostFor(costs: Costs, m: Measure): real {
    match m
    case LowestLatency => costs.latency
    case HighestSuccess => costs.success
    case Adaptive => costs.adaptive
  }

  lemma {:induction false} DivideByShare(x: real, p: real)
    requires x >= 0.0 && p >= 2.0 / 7.0
    ensures x / p <= x * 3.5
    ensures x / (p * p) <= x * 12.25
  {
    var a := x / p;
    assert a * p == x;
    assert a >= 0.0;
    assert a * (2.0 / 7.0) <= a * p;
    var b := a / p;
    assert b * p == a;
    assert b >= 0.0;
    assert b * (2.0 / 7.0) <= b * p;
    assert x / (p * p) == b;
  }

  lemma {:induction false} ShareAtLeast(s: int, r: int)
    requires 0 <= s <= r <= WINDOW && (r == 0 || s >= 1)
    ensures (s + 1) as real / (r + 2) as real >= 2.0 / 7.0
  {
    var n, d := (s + 1) as real, (r + 2) as real;
    assert 2.0 * d <= 7.0 * n;
    var q := n / d;
    assert q * d == n;
    if q < 2.0 / 7.0 { assert false; }
  }

  /** A fast failure is never a fast service: a window without a success costs strictly more, under every
      measure, than any window of at most five samples with a success, and than no samples at all. */
  lemma {:induction false} AllFailedCostsMost(failed: seq<Sample>, recent: RecentStats, samples: seq<Sample>, m: Measure)
    requires failed != [] && forall i :: 0 <= i < |failed| ==> !failed[i].success
    requires recent.successes <= recent.requests <= WINDOW
    requires recent.requests == 0 || recent.successes >= 1
    ensures CostFor(CostsOf(recent, samples), m) < CostFor(CostsOf(Summary(failed), failed), m)
  {
    AccumulateBounds(failed);
    hide Accumulate, HeaderTiming, FullTiming, Mean;
    var p := (recent.successes + 1) as real / (recent.requests + 2) as real;
    ShareAtLeast(recent.successes, recent.requests);
    var header := RealMax(1.0, RealMin(HeaderTiming(recent, samples), 3_600_000.0));
    var full := RealMax(header, RealMin(FullTiming(recent, samples), 3_600_000.0));
    DivideByShare(header, p);
    DivideByShare(1.0, p);
    DivideByShare(0.7 * header + 0.3 * full, p);
  }

  // ---------------------------------------------------------------- one key's statistics, as a value

  datatype Handle = Handle(
    stats: Stats, fastTotal: int, samples: seq<Sample>, lastSample: Option<int>, costs: Costs, generation: nat)

  ghost predicate Consistent(h: Handle) {
    && h.fastTotal == h.stats.c.total
    && |h.samples| <= WINDOW
    && (h.samples != [] ==> h.stats.recent == Summary(h.samples) && h.lastSample.Some?)
    && h.costs == CostsOf(h.stats.recent, h.samples)
  }

  function LastFive(xs: seq<Sample>): seq<Sample> {
    if |xs| <= WINDOW then xs else xs[|xs| - WINDOW..]
  }

  /** Record one finished attempt at time `now`. */
  function RecordSample(h: Handle, s: Sample, now: int): Handle {
    var kept := if h.lastSample.Some? && now - h.lastSample.value >= FRESHNESS then [] else h.samples;
    var samples := LastFive(kept + [s]);
    var recent := Summary(samples);
    h.(samples := samples, lastSample := Some(now), stats := h.stats.(recent := recent), costs := CostsOf(recent, samples))
  }

  /** Count one attempt; an obsolete result leaves the diagnostics alone. */
  function Count(h: Handle, t: Tally, reason: string, preserveLast: bool): Handle {
    var c := Plus(h.stats.c, Unit(t));
    var st := if preserveLast || t == Interrupted then h.stats.(c := c)
              else h.stats.(c := c,
                            lastStatus := if t == Success then 200 else t.status,
                            lastError := if t == Success then "" else NormalizeError(reason));
    h.(stats := st, fastTotal := c.total)
  }

  function ClearLastError(h: Handle): Handle {
    h.(stats := h.stats.(lastError := ""))
  }

  function Reset(h: Handle): Handle {
    Handle(NO_STATS, 0, [], None, CostsOf(NO_RECENT, []), h.generation + 1)
  }

  /** A handle created from persisted statistics; only a larger total brings its diagnostics along. */
  function FromBaseline(b: Stats): Handle {
    var c := Counters(Max(0, b.c.total), Max(0, b.c.success), Max(0, b.c.unauthorized),
                      Max(0, b.c.forbidden), Max(0, b.c.rateLimit), Max(0, b.c.other));
    var st := Stats(b.recent, c,
                    if b.c.total > 0 then b.lastStatus else 0,
                    if b.c.total > 0 then NormalizeError(b.lastError) else "");
    Handle(st, c.total, [], None, CostsOf(b.recent, []), 0)
  }

  // ---------------------------------------------------------------- every run of one handle

  datatype Event =
    | Finished(sample: Sample, at: int, tally: Tally, reason: string, stale: bool)
    | Cleared
    | ResetAll

  /** One event: a stale attempt is counted but never enters the window. */
  function Step(h: Handle, e: Event): Handle {
    match e
    case Finished(s, at, t, reason, stale) =>
      Count(if stale || t == Interrupted then h else RecordSample(h, s, at), t, reason, stale)
    case Cleared => ClearLastError(h)
    case ResetAll => Reset(h)
  }

  function After(h: Handle, es: seq<Event>): Handle {
    if es == [] then h else Step(After(h, es[..|es| - 1]), es[|es| - 1])
  }

  predicate Timed(e: Event) {
    e.Finished? && !e.stale && e.tally != Interrupted
  }

  datatype Dated = Dated(sample: Sample, at: int)

  /** The plain list the window stands for: the timed attempts since the last reset and since the last
      time two of them were at least five minutes apart.  Defined on the history alone. */
  ghost function Since(es: seq<Event>): seq<Dated> {
    if es == [] then []
    else
      var e, before := es[|es| - 1], Since(es[..|es| - 1]);
      if e.ResetAll? then []
      else if !Timed(e) then before
      else if before != [] && e.at - before[|before| - 1].at >= FRESHNESS then [Dated(e.sample, e.at)]
      else before + [Dated(e.sample, e.at)]
  }

  ghost function SamplesOf(ds: seq<Dated>): (r: seq<Sample>)
    ensures |r| == |ds|
  {
    seq(|ds|, i requires 0 <= i < |ds| => ds[i].sample)
  }

  /** Dropping old samples early or late makes no difference to the last five. */
  lemma {:induction false} LastFiveOfLastFive(xs: seq<Sample>, s: Sample)
    ensures LastFive(LastFive(xs) + [s]) == LastFive(xs + [s])
  {
  }

  lemma {:induction false} RecordRefines(h: Handle, before: seq<Dated>, e: Dated)
    requires h.samples == LastFive(SamplesOf(before))
    requires h.lastSample == if before == [] then None else Some(before[|before| - 1].at)
    ensures var kept := if before != [] && e.at - before[|before| - 1].at >= FRESHNESS then [] else before;
            RecordSample(h, e.sample, e.at).samples == LastFive(SamplesOf(kept + [e]))
  {
    hide Summary, CostsOf;
    var kept := if before != [] && e.at - before[|before| - 1].at >= FRESHNESS then [] else before;
    assert SamplesOf(kept + [e]) == SamplesOf(kept) + [e.sample];
    LastFiveOfLastFive(SamplesOf(kept), e.sample);
  }

  /** The ring refines the list: after any history the window holds exactly the last five attempts of `Since`,
      in order, and the last sample time is that of the newest one. */
  lemma {:induction false} WindowRefinesHistory(baseline: Stats, es: seq<Event>)
    ensures var h := After(FromBaseline(baseline), es);
            && h.samples == LastFive(SamplesOf(Since(es)))
            && h.lastSample == if Since(es) == [] then None else Some(Since(es)[|Since(es)| - 1].at)
  {
    hide Summary, CostsOf, NormalizeError, Unit;
    if es != [] {
      var init, e := es[..|es| - 1], es[|es| - 1];
      WindowRefinesHistory(baseline, init);
      if Timed(e) {
        RecordRefines(After(FromBaseline(baseline), init), Since(init), Dated(e.sample, e.at));
      }
    }
  }

  /** After any history the summary and all three cached costs equal the ones recomputed from the window,
      and the lock-free total equals the locked one. */
  lemma {:induction false} CachesAreCurrent(baseline: Stats, es: seq<Event>)
    ensures Consistent(After(FromBaseline(baseline), es))
  {
    hide Summary, CostsOf, NormalizeError, Unit;
    if es != [] { CachesAreCurrent(baseline, es[..|es| - 1]); }
  }
}
