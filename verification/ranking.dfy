/** What the strategies rank by, in terms of the samples, counters and loads of the keys themselves. */
module Ranking {
  import opened Wrappers
  import opened RuntimeStats
  import opened SampleWindow
  import opened KeyRecords
  import opened PoolModel

  // ---------------------------------------------------------------- times of one key

  /** Header times of the successful samples that have one, in milliseconds. */
  ghost function Headers(samples: seq<Sample>): seq<real> {
    if samples == [] then []
    else
      var s := samples[|samples| - 1];
      Headers(samples[..|samples| - 1]) + if s.success && s.header >= 0 then [s.header as real / 1_000_000.0] else []
  }

  /** The same of whole responses. */
  ghost function Fulls(samples: seq<Sample>): seq<real> {
    if samples == [] then []
    else
      var s := samples[|samples| - 1];
      Fulls(samples[..|samples| - 1]) + if s.success && s.full >= 0 then [s.full as real / 1_000_000.0] else []
  }

  ghost function Total(xs: seq<real>): real {
    if xs == [] then 0.0 else Total(xs[..|xs| - 1]) + xs[|xs| - 1]
  }

  ghost function Average(xs: seq<real>): real
    requires xs != []
  {
    Total(xs) / |xs| as real
  }

  ghost function Successes(samples: seq<Sample>): nat {
    if samples == [] then 0 else Successes(samples[..|samples| - 1]) + if samples[|samples| - 1].success then 1 else 0
  }

  /** The header time a key is judged by: of its successful samples, else of a stored summary without a failure, else a second. */
  ghost function HeaderTime(h: Handle): real {
    if h.samples != [] then (if Headers(h.samples) != [] then Average(Headers(h.samples)) else 1000.0)
    else if h.stats.recent.requests == h.stats.recent.successes && h.stats.recent.headerSamples > 0 then h.stats.recent.avgHeader
    else 1000.0
  }

  ghost function FullTime(h: Handle): real {
    if h.samples != [] then (if Fulls(h.samples) != [] then Average(Fulls(h.samples)) else HeaderTime(h))
    else if h.stats.recent.requests == h.stats.recent.successes && h.stats.recent.responseSamples > 0 then h.stats.recent.avgResponse
    else HeaderTime(h)
  }

  /** Between a millisecond and an hour. */
  ghost function Header(h: Handle): real {
    if HeaderTime(h) < 1.0 then 1.0 else if HeaderTime(h) > 3_600_000.0 then 3_600_000.0 else HeaderTime(h)
  }

  /** No shorter than the header time. */
  ghost function Full(h: Handle): real {
    var t := if FullTime(h) > 3_600_000.0 then 3_600_000.0 else FullTime(h);
    if t < Header(h) then Header(h) else t
  }

  lemma {:induction false} TotalAppend(xs: seq<real>, x: real)
    ensures Total(xs + [x]) == Total(xs) + x
  {
    assert (xs + [x])[..|xs|] == xs;
  }

  lemma {:induction false} AccumulatesSuccesses(samples: seq<Sample>)
    ensures var t := Accumulate(samples, true);
            && t.headers == |Headers(samples)| && t.headerMs == Total(Headers(samples))
            && t.fulls == |Fulls(samples)| && t.fullMs == Total(Fulls(samples))
  {
    if samples != [] {
      var s, init := samples[|samples| - 1], samples[..|samples| - 1];
      AccumulatesSuccesses(init);
      assert Headers(init) + [] == Headers(init) && Fulls(init) + [] == Fulls(init);
      TotalAppend(Headers(init), s.header as real / 1_000_000.0);
      TotalAppend(Fulls(init), s.full as real / 1_000_000.0);
    }
  }

  lemma {:induction false} TimesAgree(h: Handle)
    ensures HeaderTiming(h.stats.recent, h.samples) == HeaderTime(h)
    ensures FullTiming(h.stats.recent, h.samples) == FullTime(h)
  {
    AccumulatesSuccesses(h.samples);
    hide Accumulate, Headers, Fulls, Total;
  }

  lemma {:induction false} CountsSuccesses(samples: seq<Sample>)
    ensures Accumulate(samples, false).successes == Successes(samples)
  {
    if samples != [] { CountsSuccesses(samples[..|samples| - 1]); }
  }

  /** While a window is kept, its summary counts the samples and the successes in it. */
  lemma {:induction false} SummaryCounts(h: Handle)
    requires Consistent(h) && h.samples != []
    ensures h.stats.recent.requests == |h.samples| && h.stats.recent.successes == Successes(h.samples)
  {
    hide CostsOf, Accumulate;
    CountsSuccesses(h.samples);
  }

  /** The window, or the stored summary, holds attempts and no success. */
  ghost predicate AllFailed(h: Handle) { h.stats.recent.requests > 0 && h.stats.recent.successes == 0 }

  /** All header times that were recorded, failures with their penalty. */
  ghost function Recorded(samples: seq<Sample>): seq<real> {
    if samples == [] then []
    else
      var s := samples[|samples| - 1];
      Recorded(samples[..|samples| - 1]) + if s.header >= 0 then [s.header as real / 1_000_000.0] else []
  }

  ghost function RecordedFulls(samples: seq<Sample>): seq<real> {
    if samples == [] then []
    else
      var s := samples[|samples| - 1];
      RecordedFulls(samples[..|samples| - 1]) + if s.full >= 0 then [s.full as real / 1_000_000.0] else []
  }

  lemma {:induction false} AccumulatesAll(samples: seq<Sample>)
    ensures var t := Accumulate(samples, false);
            && t.headers == |Recorded(samples)| && t.headerMs == Total(Recorded(samples))
            && t.fulls == |RecordedFulls(samples)| && t.fullMs == Total(RecordedFulls(samples))
  {
    if samples != [] {
      var s, init := samples[|samples| - 1], samples[..|samples| - 1];
      AccumulatesAll(init);
      assert Recorded(init) + [] == Recorded(init) && RecordedFulls(init) + [] == RecordedFulls(init);
      TotalAppend(Recorded(init), s.header as real / 1_000_000.0);
      TotalAppend(RecordedFulls(init), s.full as real / 1_000_000.0);
    }
  }

  /** What the displayed summary of a window says: its samples and successes are counted, its times are averages. */
  lemma {:induction false} SummaryAverages(samples: seq<Sample>)
    ensures var r := Summary(samples);
            && r.requests == |samples| && r.successes == Successes(samples)
            && r.headerSamples == |Recorded(samples)| && r.responseSamples == |RecordedFulls(samples)|
            && (Recorded(samples) != [] ==> r.avgHeader == Average(Recorded(samples)))
            && (RecordedFulls(samples) != [] ==> r.avgResponse == Average(RecordedFulls(samples)))
  {
    AccumulatesAll(samples);
    CountsSuccesses(samples);
    hide Accumulate, Recorded, RecordedFulls, Total;
  }

  /** The first attempt after a gap or reset: a success is judged by its own time, a failure fails the window and shows as
      999 seconds. */
  lemma {:induction false} FirstSampleDecides(h: Handle, header: int, full: int, success: bool, now: int)
    requires h.samples == []
    ensures var h' := RecordSample(h, MakeSample(header, full, success), now);
            && (success && header >= 0 ==> HeaderTime(h') == header as real / 1_000_000.0)
            && (success && full >= 0 ==> FullTime(h') == full as real / 1_000_000.0)
            && (AllFailed(h') <==> !success)
            && (!success ==> h'.stats.recent.avgHeader == 999_000.0 && h'.stats.recent.avgResponse == 999_000.0)
  {
    var s := MakeSample(header, full, success);
    RecordsOne(h, s, now);
    OneTiming(s);
    OneAverage(s);
    SummaryAverages([s]);
    hide Headers, Fulls, Recorded, RecordedFulls, Average, Summary, CostsOf, RecordSample;
  }

  lemma {:induction false} RecordsOne(h: Handle, s: Sample, now: int)
    requires h.samples == []
    ensures var h' := RecordSample(h, s, now); h'.samples == [s] && h'.stats.recent == Summary([s])
  {
    hide Summary, CostsOf;
    assert h.samples + [s] == [s];
    var none: seq<Sample> := [];
    assert none + [s] == [s];
  }

  lemma {:induction false} OneTiming(s: Sample)
    ensures Headers([s]) == if s.success && s.header >= 0 then [s.header as real / 1_000_000.0] else []
    ensures Fulls([s]) == if s.success && s.full >= 0 then [s.full as real / 1_000_000.0] else []
    ensures Recorded([s]) == if s.header >= 0 then [s.header as real / 1_000_000.0] else []
    ensures RecordedFulls([s]) == if s.full >= 0 then [s.full as real / 1_000_000.0] else []
    ensures Successes([s]) == if s.success then 1 else 0
  {
    assert [s][..0] == [];
  }

  lemma {:induction false} OneAverage(s: Sample)
    ensures Average([s.header as real / 1_000_000.0]) == s.header as real / 1_000_000.0
    ensures Average([s.full as real / 1_000_000.0]) == s.full as real / 1_000_000.0
  {
    TotalAppend([], s.header as real / 1_000_000.0);
    TotalAppend([], s.full as real / 1_000_000.0);
    var none: seq<real> := [];
    assert none + [s.header as real / 1_000_000.0] == [s.header as real / 1_000_000.0];
    assert none + [s.full as real / 1_000_000.0] == [s.full as real / 1_000_000.0];
  }

  /** A handle made from stored statistics has their counters and is judged by their averages if no attempt had failed; a
      reset one is as new, under the next generation. */
  lemma {:induction false} BaselineSeeds(b: Stats, h: Handle)
    requires Leq(NO_COUNTS, b.c) && NormalError(b.lastError)
    ensures var n := FromBaseline(b);
            && n.stats.c == b.c && n.stats.recent == b.recent && n.samples == [] && n.fastTotal == b.c.total && n.generation == 0
            && (b.c.total > 0 ==> n.stats.lastStatus == b.lastStatus && n.stats.lastError == b.lastError)
            && (b.recent.requests == b.recent.successes && b.recent.headerSamples > 0 ==> HeaderTime(n) == b.recent.avgHeader)
            && Consistent(n)
    ensures Reset(h) == FromBaseline(NO_STATS).(generation := h.generation + 1)
  {
    NormalizeErrorIdempotent(b.lastError);
    NormalizeErrorIdempotent("");
    hide CostsOf, NormalizeError, NormalError;
    assert NormalizeError("") == "" by { EmptyIsNormal(); }
  }

  lemma {:induction false} EmptyIsNormal()
    ensures NormalizeError("") == "" && NormalError("")
  {
  }

  // ---------------------------------------------------------------- the price of an unloaded key

  /** Attempts per success, each side smoothed. */
  ghost function Tries(h: Handle): real { (h.stats.recent.requests + 2) as real / (h.stats.recent.successes + 1) as real }

  ghost function Price(h: Handle, m: Measure): real {
    if AllFailed(h) then 1_000_000_000_000.0
    else match m
      case LowestLatency => Header(h) * Tries(h)
      case HighestSuccess => Squared(Tries(h))
      case Adaptive => (0.7 * Header(h) + 0.3 * Full(h)) * Squared(Tries(h))
  }

  ghost function Times(a: real, b: real): (r: real)
    ensures a > 0.0 && b > 0.0 ==> r > 0.0
  {
    a * b
  }

  ghost function Squared(x: real): real { Times(x, x) }

  lemma {:induction false} Reciprocal(p: real, q: real, x: real)
    requires p > 0.0 && p * q == 1.0
    ensures x / p == x * q && x / (p * p) == x * (q * q)
  {
    var a := x / p;
    assert a * p == x;
    assert a == a * (p * q) == (a * p) * q;
    var b := x / (p * p);
    assert b * (p * p) == x;
    assert (p * p) * (q * q) == (p * q) * (p * q) == 1.0;
    assert b == b * ((p * p) * (q * q)) == (b * (p * p)) * (q * q);
  }

  lemma {:induction false} ShareTimesTries(s: nat, r: nat)
    ensures var p, q := (s + 1) as real / (r + 2) as real, (r + 2) as real / (s + 1) as real; p > 0.0 && p * q == 1.0 && q > 0.0
  {
    var a, b := (s + 1) as real, (r + 2) as real;
    var p, q := a / b, b / a;
    assert a >= 1.0 && b >= 1.0;
    assert p * b == a && q * a == b;
    assert (p * q) * a == p * (q * a) == p * b == a;
    CancelFactor(p * q, a);
  }

  lemma {:induction false} CancelFactor(x: real, a: real)
    requires a > 0.0 && x * a == a
    ensures x == 1.0
  {
    assert (x - 1.0) * a == 0.0;
  }

  /** The costs in terms of attempts per success instead of the success share. */
  lemma {:induction false} CostsByTries(recent: RecentStats, headerTiming: real, fullTiming: real)
    requires recent.requests == 0 || recent.successes > 0
    ensures var q := (recent.requests + 2) as real / (recent.successes + 1) as real;
            var header := RealMax(1.0, RealMin(headerTiming, 3_600_000.0));
            var full := RealMax(header, RealMin(fullTiming, 3_600_000.0));
            var c := CostsFrom(recent, headerTiming, fullTiming);
            && c.latency == header * q && c.success == Squared(q) && c.adaptive == (0.7 * header + 0.3 * full) * Squared(q)
            && c.latency > 0.0 && c.success > 0.0 && c.adaptive > 0.0
  {
    hide *;
    var s, r := recent.successes, recent.requests;
    var p, q := (s + 1) as real / (r + 2) as real, (r + 2) as real / (s + 1) as real;
    var header := RealMax(1.0, RealMin(headerTiming, 3_600_000.0));
    var full := RealMax(header, RealMin(fullTiming, 3_600_000.0));
    AtLeast(1.0, RealMin(headerTiming, 3_600_000.0));
    AtLeast(header, RealMin(fullTiming, 3_600_000.0));
    CostsFromParts(recent, headerTiming, fullTiming);
    ShareTimesTries(s, r);
    InverseShare(p, q, header, 0.7 * header + 0.3 * full);
  }

  lemma {:induction false} AtLeast(a: real, b: real)
    ensures RealMax(a, b) >= a
  {
  }

  lemma {:induction false} CostsFromParts(recent: RecentStats, headerTiming: real, fullTiming: real)
    requires recent.requests == 0 || recent.successes > 0
    ensures var p := (recent.successes + 1) as real / (recent.requests + 2) as real;
            var header := RealMax(1.0, RealMin(headerTiming, 3_600_000.0));
            var full := RealMax(header, RealMin(fullTiming, 3_600_000.0));
            p != 0.0 && p * p != 0.0
            && CostsFrom(recent, headerTiming, fullTiming) == Costs(header / p, 1.0 / (p * p), (0.7 * header + 0.3 * full) / (p * p))
  {
    SharePositive(recent.successes, recent.requests);
    hide RealMax, RealMin;
    PositiveProduct((recent.successes + 1) as real / (recent.requests + 2) as real, (recent.successes + 1) as real / (recent.requests + 2) as real);
  }

  lemma {:induction false} InverseShare(p: real, q: real, x: real, y: real)
    requires p > 0.0 && q > 0.0 && p * q == 1.0 && x >= 1.0 && y >= 1.0
    ensures p * p != 0.0
    ensures x / p == x * q && 1.0 / (p * p) == Squared(q) && y / (p * p) == y * Squared(q)
    ensures x / p > 0.0 && 1.0 / (p * p) > 0.0 && y / (p * p) > 0.0
  {
    PositiveProduct(p, p);
    Reciprocal(p, q, x);
    Reciprocal(p, q, 1.0);
    Reciprocal(p, q, y);
    PositiveProduct(x, q);
    PositiveProduct(q, q);
    PositiveProduct(y, q * q);
  }

  lemma {:induction false} ClampedTimes(h: Handle)
    ensures Header(h) == RealMax(1.0, RealMin(HeaderTime(h), 3_600_000.0))
    ensures Full(h) == RealMax(Header(h), RealMin(FullTime(h), 3_600_000.0))
  {
    hide HeaderTime, FullTime;
  }

  lemma {:induction false} CachedCosts(h: Handle)
    requires Consistent(h)
    ensures h.costs == CostsFrom(h.stats.recent, HeaderTime(h), FullTime(h))
    ensures AllFailed(h) ==> h.costs == Costs(1_000_000_000_000.0, 1_000_000_000_000.0, 1_000_000_000_000.0)
    ensures !AllFailed(h) ==> h.stats.recent.requests == 0 || h.stats.recent.successes > 0
  {
    TimesAgree(h);
    hide HeaderTime, FullTime, HeaderTiming, FullTiming, Summary, RealMax, RealMin;
  }

  lemma {:induction false} PriceMeans(h: Handle)
    ensures AllFailed(h) ==> forall m :: Price(h, m) == 1_000_000_000_000.0
    ensures !AllFailed(h) ==>
      && Price(h, LowestLatency) == Header(h) * Tries(h) && Price(h, HighestSuccess) == Squared(Tries(h))
      && Price(h, Adaptive) == (0.7 * Header(h) + 0.3 * Full(h)) * Squared(Tries(h))
    ensures Tries(h) == (h.stats.recent.requests + 2) as real / (h.stats.recent.successes + 1) as real
  {
    hide Header, Full, Squared;
  }

  lemma {:induction false} CostForMeans(c: Costs)
    ensures CostFor(c, LowestLatency) == c.latency && CostFor(c, HighestSuccess) == c.success && CostFor(c, Adaptive) == c.adaptive
  {
  }

  /** The cached costs are these prices. */
  lemma {:induction false} CostIsPrice(h: Handle, m: Measure)
    requires Consistent(h)
    ensures CostFor(h.costs, m) == Price(h, m) && Price(h, m) > 0.0
  {
    hide *;
    CachedCosts(h);
    ClampedTimes(h);
    PriceMeans(h);
    CostForMeans(h.costs);
    if !AllFailed(h) { CostsByTries(h.stats.recent, HeaderTime(h), FullTime(h)); }
    match m { case LowestLatency => case HighestSuccess => case Adaptive => }
  }

  lemma {:induction false} PositiveProduct(a: real, b: real)
    requires a > 0.0 && b > 0.0
    ensures a * b > 0.0
  {
  }

  // ---------------------------------------------------------------- fading and load

  /** Measurements last five minutes and then fade for another five: how far they have, up to all the way. */
  ghost function Age(s: KeySnap, now: int): (a: int)
    ensures 0 <= a <= FRESHNESS
  {
    var x := s.r.explore;
    if x.generation != s.h.generation || now < x.sampleExpires then 0 else Min(FRESHNESS, now - x.sampleExpires)
  }

  /** What a key costs of which nothing is known any more. */
  ghost function Unknown(m: Measure): real {
    match m case LowestLatency => 2000.0 case HighestSuccess => 4.0 case Adaptive => 4000.0
  }

  /** The price on its way to the unknown, in parts of the five minutes, and once more for each request in flight. */
  ghost function Weight(s: KeySnap, m: Measure, now: int): real {
    var a := Age(s, now);
    Blend(Price(s.h, m), Unknown(m), a as real, FRESHNESS as real) * (s.r.inflight + 1) as real
  }

  /** `f` times what lies `t` of `f` on the way from `x` to `n`. */
  ghost function Blend(x: real, n: real, t: real, f: real): real { x * (f - t) + n * t }

  lemma {:induction false} Fade(base: real, n: real, age: real, f: real)
    requires f > 0.0
    ensures (base + (n - base) * (age / f)) * f == Blend(base, n, age, f)
  {
    var w := age / f;
    assert w * f == age;
    assert ((n - base) * w) * f == (n - base) * (w * f);
  }

  lemma {:induction false} Regroup(x: real, f: real, load: real)
    ensures (x * load) * f == (x * f) * load
  {
  }

  lemma {:induction false} CostIsWeight(s: KeySnap, m: Measure, now: int)
    requires Consistent(s.h)
    ensures Cost(Synced(s, now), m, now) * FRESHNESS as real == Weight(s, m, now)
  {
    hide *;
    CostIsPrice(s.h, m);
    CostParts(s, m, now);
    WeightParts(s, m, now);
    FadedIs(Price(s.h, m), Unknown(m), s, now);
    Regroup(Faded(Price(s.h, m), Unknown(m), Synced(s, now).r.explore, now), FRESHNESS as real, (s.r.inflight + 1) as real);
  }

  lemma {:induction false} CostParts(s: KeySnap, m: Measure, now: int)
    ensures Cost(Synced(s, now), m, now) ==
            Faded(CostFor(s.h.costs, m), Unknown(m), Synced(s, now).r.explore, now) * (s.r.inflight + 1) as real
  {
    hide CostFor;
  }

  lemma {:induction false} WeightParts(s: KeySnap, m: Measure, now: int)
    ensures Weight(s, m, now) == Blend(Price(s.h, m), Unknown(m), Age(s, now) as real, FRESHNESS as real) * (s.r.inflight + 1) as real
  {
    hide Price, Age, Blend;
  }

  ghost function Faded(base: real, n: real, x: Explore, now: int): real {
    if now < x.sampleExpires then base
    else if now - x.sampleExpires >= FRESHNESS then n
    else base + (n - base) * ((now - x.sampleExpires) as real / FRESHNESS as real)
  }

  lemma {:induction false} FadedIs(base: real, n: real, s: KeySnap, now: int)
    ensures Faded(base, n, Synced(s, now).r.explore, now) * FRESHNESS as real
            == Blend(base, n, Age(s, now) as real, FRESHNESS as real)
  {
    var x, f := Synced(s, now).r.explore, FRESHNESS as real;
    if x.sampleExpires <= now < x.sampleExpires + FRESHNESS { Fade(base, n, (now - x.sampleExpires) as real, f); }
  }

  // ---------------------------------------------------------------- what a pick promises

  /** The first of two pairs that differs decides. */
  predicate Before(a: int, b: int, a': int, b': int) { a < a' || (a == a' && b < b') }

  /** The picked key `i` is the better one of it and `j`; keys that are equally good are taken in turn. */
  ghost predicate Preferred(v: PoolView, q: Request, i: nat, j: nat)
    requires i < |v.ks| && j < |v.ks| && v.rr < |v.ks|
  {
    var a, b := v.ks[i], v.ks[j];
    var nearer := Distance(|v.ks|, v.rr, i) < Distance(|v.ks|, v.rr, j);
    match v.strategy
    case RoundRobin => nearer
    case Random => true
    case LeastUsed =>
      Before(a.r.inflight, a.h.stats.c.total, b.r.inflight, b.h.stats.c.total)
      || (a.r.inflight == b.r.inflight && a.h.stats.c.total == b.h.stats.c.total && nearer)
    case LeastRequests =>
      Before(a.h.stats.c.total + a.r.inflight, a.r.inflight, b.h.stats.c.total + b.r.inflight, b.r.inflight)
      || (a.r.inflight == b.r.inflight && a.h.stats.c.total == b.h.stats.c.total && nearer)
    case Performance(m) =>
      Weight(a, m, q.now) < Weight(b, m, q.now) || (Weight(a, m, q.now) == Weight(b, m, q.now) && nearer)
  }

  /** Idle, past its backoff, and hardly sampled, failing or unmeasured for five minutes; all of it forgotten by a reset. */
  predicate WorthProbing(s: KeySnap, now: int) {
    var x := s.r.explore;
    s.r.inflight == 0
    && (x.generation == s.h.generation ==>
          now >= x.nextExplore && (x.liveSamples < 2 || x.failedSamples > 0 || now >= x.sampleExpires))
  }

  ghost function LastTried(s: KeySnap): int {
    if s.r.explore.generation == s.h.generation then s.r.explore.lastAttempt else NEVER
  }

  /** Every tenth performance pick at most, and when some key is worth it. */
  ghost predicate ProbeDue(v: PoolView, q: Request) {
    v.strategy.Performance? && v.credit >= 9 && exists j: nat :: Eligible(v.ks, q, j) && WorthProbing(v.ks[j], q.now)
  }

  /** The promise of a pick: a probe goes to the key tried longest ago of those worth it, any other pick to the best key. */
  ghost predicate BestPick(v: PoolView, q: Request, i: nat) {
    && WellFormed(v) && Eligible(v.ks, q, i)
    && if ProbeDue(v, q) then
         && WorthProbing(v.ks[i], q.now)
         && forall j: nat :: Eligible(v.ks, q, j) && WorthProbing(v.ks[j], q.now) ==> LastTried(v.ks[i]) <= LastTried(v.ks[j])
       else forall j: nat :: Eligible(v.ks, q, j) && j != i ==> Preferred(v, q, i, j)
  }

  lemma {:induction false} ProbesAgree(v: PoolView, q: Request, j: nat)
    requires j < |v.ks| && q.now >= NEVER
    ensures ProbeReady(v.ks[j], q.now) <==> WorthProbing(v.ks[j], q.now)
    ensures LastAttempt(v, q, j) == LastTried(v.ks[j])
  {
  }

  lemma {:induction false} ProbingAgrees(v: PoolView, q: Request)
    requires q.now >= NEVER
    ensures Probing(v, q) <==> ProbeDue(v, q)
  {
    hide ProbeReady, WorthProbing, Available;
    forall j: nat | j < |v.ks| ensures ProbeReady(v.ks[j], q.now) <==> WorthProbing(v.ks[j], q.now) { ProbesAgree(v, q, j); }
    assert forall j: nat :: Probable(v, q, j) <==> Eligible(v.ks, q, j) && WorthProbing(v.ks[j], q.now);
  }

  lemma {:induction false} Rescale(x: real, y: real, f: real)
    requires f > 0.0
    ensures x < y <==> x * f < y * f
    ensures x == y <==> x * f == y * f
  {
    if x < y { assert (y - x) * f > 0.0; } else if x > y { assert (x - y) * f > 0.0; }
  }

  lemma {:induction false} RankIsPreference(v: PoolView, q: Request, i: nat, j: nat)
    requires i < |v.ks| && j < |v.ks| && v.rr < |v.ks| && Consistent(v.ks[i].h) && Consistent(v.ks[j].h)
    requires RankLess(RankOf(v, q, i), RankOf(v, q, j))
    ensures Preferred(v, q, i, j)
  {
    match v.strategy {
      case Performance(m) =>
        CostIsWeight(v.ks[i], m, q.now);
        CostIsWeight(v.ks[j], m, q.now);
        hide Cost, Weight, Consistent, Synced;
        Rescale(Cost(Synced(v.ks[i], q.now), m, q.now), Cost(Synced(v.ks[j], q.now), m, q.now), FRESHNESS as real);
      case _ =>
        hide Cost, Weight, CostsOf, Summary;
    }
  }

  /** Every acquire keeps the promise. */
  lemma {:induction false} AcquireIsBest(v: PoolView, q: Request, i: nat, v': PoolView)
    requires AcquireStep(v, q, i, v') && q.now >= NEVER && forall k :: 0 <= k < |v.ks| ==> Consistent(v.ks[k].h)
    ensures BestPick(v, q, i)
  {
    ProbingAgrees(v, q);
    hide Available, Consistent, RankOf, RankLess, Preferred, ProbeReady, WorthProbing, LastAttempt, LastTried, Probing, ProbeDue, AfterPick;
    forall j: nat | j < |v.ks|
      ensures ProbeReady(v.ks[j], q.now) <==> WorthProbing(v.ks[j], q.now)
      ensures LastAttempt(v, q, j) == LastTried(v.ks[j])
    {
      ProbesAgree(v, q, j);
    }
    if !ProbeDue(v, q) {
      forall j: nat | Eligible(v.ks, q, j) && j != i ensures Preferred(v, q, i, j) {
        if v.strategy.Random? { RandomPrefers(v, q, i, j); } else { RankIsPreference(v, q, i, j); }
      }
    }
  }

  lemma {:induction false} RandomPrefers(v: PoolView, q: Request, i: nat, j: nat)
    requires i < |v.ks| && j < |v.ks| && v.rr < |v.ks| && v.strategy.Random?
    ensures Preferred(v, q, i, j)
  {
  }

  // ---------------------------------------------------------------- what that means for two keys

  /** Neither is stale, nor has its window failed altogether, and both carry the same load. */
  ghost predicate Comparable(v: PoolView, q: Request, i: nat, j: nat, m: Measure) {
    && BestPick(v, q, i) && !ProbeDue(v, q) && v.strategy == Performance(m) && Eligible(v.ks, q, j)
    && Age(v.ks[i], q.now) == 0 && Age(v.ks[j], q.now) == 0 && v.ks[i].r.inflight == v.ks[j].r.inflight
  }

  lemma {:induction false} CancelLoad(x: real, y: real, f: real, load: real)
    requires f > 0.0 && load > 0.0 && (x * f) * load <= (y * f) * load
    ensures x <= y
  {
    Rescale(y * f, x * f, load);
    Rescale(y, x, f);
  }

  lemma {:induction false} CheaperIsPicked(v: PoolView, q: Request, i: nat, j: nat, m: Measure)
    requires Comparable(v, q, i, j, m)
    ensures i < |v.ks| && j < |v.ks| && Price(v.ks[i].h, m) <= Price(v.ks[j].h, m)
  {
    hide Price, Age, Available, WorthProbing, ProbeDue, Weight;
    if i != j {
      assert Preferred(v, q, i, j);
      WeightParts(v.ks[i], m, q.now);
      WeightParts(v.ks[j], m, q.now);
      var x, y, f, load := Price(v.ks[i].h, m), Price(v.ks[j].h, m), FRESHNESS as real, (v.ks[i].r.inflight + 1) as real;
      NothingFaded(x, f, Unknown(m));
      NothingFaded(y, f, Unknown(m));
      hide Blend;
      CancelLoad(x, y, f, load);
    }
  }

  lemma {:induction false} NothingFaded(x: real, f: real, n: real)
    ensures Blend(x, n, 0.0, f) == x * f
  {
  }

  predicate SameRecord(a: Handle, b: Handle) {
    a.stats.recent.requests == b.stats.recent.requests && a.stats.recent.successes == b.stats.recent.successes
  }

  lemma {:induction false} SameTries(a: Handle, b: Handle)
    requires SameRecord(a, b)
    ensures Tries(a) == Tries(b)
  {
  }

  lemma {:induction false} CheaperIsFaster(a: Handle, b: Handle)
    requires !AllFailed(a) && !AllFailed(b) && Price(a, LowestLatency) <= Price(b, LowestLatency)
    ensures Header(a) * Tries(a) <= Header(b) * Tries(b)
    ensures SameRecord(a, b) ==> Header(a) <= Header(b)
  {
    hide *;
    PriceMeans(a);
    PriceMeans(b);
    TriesPositive(a);
    if SameRecord(a, b) { SameTries(a, b); Rescale(Header(b), Header(a), Tries(a)); }
  }

  lemma {:induction false} CheaperIsShorter(a: Handle, b: Handle)
    requires !AllFailed(a) && !AllFailed(b) && SameRecord(a, b) && Price(a, Adaptive) <= Price(b, Adaptive)
    ensures 0.7 * Header(a) + 0.3 * Full(a) <= 0.7 * Header(b) + 0.3 * Full(b)
  {
    hide *;
    SameTries(a, b);
    PriceMeans(a);
    PriceMeans(b);
    TriesPositive(a);
    Squares(Tries(a), Tries(b));
    Rescale(0.7 * Header(b) + 0.3 * Full(b), 0.7 * Header(a) + 0.3 * Full(a), Squared(Tries(a)));
  }

  /** Lowest latency: the picked key has the shorter time for its share of successes, and of two keys with equal records
      the shorter header time. */
  lemma {:induction false} FasterIsPicked(v: PoolView, q: Request, i: nat, j: nat)
    requires Comparable(v, q, i, j, LowestLatency) && !AllFailed(v.ks[i].h) && !AllFailed(v.ks[j].h)
    ensures Header(v.ks[i].h) * Tries(v.ks[i].h) <= Header(v.ks[j].h) * Tries(v.ks[j].h)
    ensures SameRecord(v.ks[i].h, v.ks[j].h) ==> Header(v.ks[i].h) <= Header(v.ks[j].h)
  {
    hide *;
    CheaperIsPicked(v, q, i, j, LowestLatency);
    CheaperIsFaster(v.ks[i].h, v.ks[j].h);
  }

  lemma {:induction false} TriesPositive(h: Handle)
    ensures Tries(h) > 0.0
  {
    ShareTimesTries(h.stats.recent.successes, h.stats.recent.requests);
  }

  lemma {:induction false} Squares(x: real, y: real)
    requires x > 0.0 && y > 0.0
    ensures Squared(x) > 0.0 && (x > y ==> Squared(x) > Squared(y))
  {
    assert Times(x, x) > 0.0;
    if x > y { LargerSquare(x, y); }
  }

  lemma {:induction false} LargerSquare(x: real, y: real)
    requires x > y > 0.0
    ensures Squared(x) > Squared(y)
  {
    hide Times;
    TimesLess(y, x, x);
    TimesLess(y, x, y);
    TimesCommute(x, y);
  }

  lemma {:induction false} TimesLess(x: real, y: real, f: real)
    requires x < y && f > 0.0
    ensures Times(x, f) < Times(y, f)
  {
    Rescale(x, y, f);
  }

  lemma {:induction false} TimesCommute(x: real, y: real)
    ensures Times(x, y) == Times(y, x)
  {
  }

  lemma {:induction false} CrossTries(s: nat, r: nat, s': nat, r': nat)
    requires (r + 2) as real / (s + 1) as real <= (r' + 2) as real / (s' + 1) as real
    ensures (s + 1) * (r' + 2) >= (s' + 1) * (r + 2)
  {
    var a, b, c, d := (r + 2) as real, (s + 1) as real, (r' + 2) as real, (s' + 1) as real;
    var x, y := a / b, c / d;
    assert x * b == a && y * d == c && b >= 1.0 && d >= 1.0;
    assert x * b <= y * b;
    assert a * d <= (y * b) * d == (y * d) * b == c * b;
    assert a * d == ((r + 2) * (s' + 1)) as real && c * b == ((r' + 2) * (s + 1)) as real;
  }

  /** Highest success: the picked key's smoothed share of successes is no smaller. */
  lemma {:induction false} MoreSuccessfulIsPicked(v: PoolView, q: Request, i: nat, j: nat)
    requires Comparable(v, q, i, j, HighestSuccess) && !AllFailed(v.ks[i].h) && !AllFailed(v.ks[j].h)
    ensures var a, b := v.ks[i].h.stats.recent, v.ks[j].h.stats.recent;
            (a.successes + 1) * (b.requests + 2) >= (b.successes + 1) * (a.requests + 2)
  {
    CheaperIsPicked(v, q, i, j, HighestSuccess);
    hide *;
    var a, b := v.ks[i].h, v.ks[j].h;
    PriceMeans(a);
    PriceMeans(b);
    TriesPositive(a);
    TriesPositive(b);
    Squares(Tries(a), Tries(b));
    CrossTries(a.stats.recent.successes, a.stats.recent.requests, b.stats.recent.successes, b.stats.recent.requests);
  }

  /** Adaptive: of two keys with equal records the one with the shorter blend of header and response time is picked. */
  lemma {:induction false} ShorterBlendIsPicked(v: PoolView, q: Request, i: nat, j: nat)
    requires Comparable(v, q, i, j, Adaptive) && !AllFailed(v.ks[i].h) && !AllFailed(v.ks[j].h)
    requires SameRecord(v.ks[i].h, v.ks[j].h)
    ensures 0.7 * Header(v.ks[i].h) + 0.3 * Full(v.ks[i].h) <= 0.7 * Header(v.ks[j].h) + 0.3 * Full(v.ks[j].h)
  {
    hide *;
    CheaperIsPicked(v, q, i, j, Adaptive);
    CheaperIsShorter(v.ks[i].h, v.ks[j].h);
  }

  /** Of two keys that are worth the same the less loaded is picked, and of those equally loaded the next in turn; once
      nothing has been measured for ten minutes, all keys are worth the same whatever their past. */
  lemma {:induction false} LessLoadedIsPicked(v: PoolView, q: Request, i: nat, j: nat, m: Measure)
    requires BestPick(v, q, i) && !ProbeDue(v, q) && v.strategy == Performance(m) && Eligible(v.ks, q, j) && i != j
    requires Consistent(v.ks[i].h) && Consistent(v.ks[j].h)
    requires Age(v.ks[i], q.now) == Age(v.ks[j], q.now)
    requires Age(v.ks[i], q.now) == FRESHNESS || Price(v.ks[i].h, m) == Price(v.ks[j].h, m)
    ensures v.ks[i].r.inflight <= v.ks[j].r.inflight
    ensures v.ks[i].r.inflight == v.ks[j].r.inflight ==> Distance(|v.ks|, v.rr, i) < Distance(|v.ks|, v.rr, j)
  {
    assert Preferred(v, q, i, j);
    hide Price, Age, Consistent, BestPick, ProbeDue, Weight;
    SameWorth(v.ks[i], v.ks[j], m, q.now);
  }

  lemma {:induction false} SameWorth(a: KeySnap, b: KeySnap, m: Measure, now: int)
    requires Consistent(a.h) && Consistent(b.h) && Age(a, now) == Age(b, now)
    requires Age(a, now) == FRESHNESS || Price(a.h, m) == Price(b.h, m)
    ensures Weight(a, m, now) < Weight(b, m, now) <==> a.r.inflight < b.r.inflight
    ensures Weight(a, m, now) == Weight(b, m, now) <==> a.r.inflight == b.r.inflight
  {
    hide *;
    UnknownPositive(m);
    CostIsPrice(a.h, m);
    WeightParts(a, m, now);
    WeightParts(b, m, now);
    WorthOrder(Price(a.h, m), Price(b.h, m), Unknown(m), Age(a, now) as real, FRESHNESS as real,
               (a.r.inflight + 1) as real, (b.r.inflight + 1) as real);
  }

  lemma {:induction false} WorthOrder(x: real, y: real, n: real, t: real, f: real, k: real, l: real)
    requires x > 0.0 && n > 0.0 && 0.0 <= t <= f && f > 0.0 && (t == f || x == y)
    ensures Blend(x, n, t, f) * k < Blend(y, n, t, f) * l <==> k < l
    ensures Blend(x, n, t, f) * k == Blend(y, n, t, f) * l <==> k == l
  {
    SumPositive(x, f - t, n, t);
    if t == f { NothingLeft(x, f); NothingLeft(y, f); }
    var u := Blend(x, n, t, f);
    assert u > 0.0 && Blend(y, n, t, f) == u;
    hide Blend;
    Rescale(k, l, u);
  }

  lemma {:induction false} UnknownPositive(m: Measure)
    ensures Unknown(m) > 0.0 && FRESHNESS as real > 0.0
  {
  }

  lemma {:induction false} NothingLeft(x: real, f: real)
    ensures x * (f - f) == 0.0
  {
  }

  lemma {:induction false} SumPositive(x: real, a: real, y: real, b: real)
    requires x > 0.0 && y > 0.0 && a >= 0.0 && b >= 0.0 && a + b > 0.0
    ensures x * a + y * b > 0.0
  {
    if a > 0.0 { PositiveProduct(x, a); } else { PositiveProduct(y, b); }
  }

  /** A key whose window holds no success is picked over an equally loaded one only if that has none either. */
  lemma {:induction false} FailingKeyIsLast(v: PoolView, q: Request, i: nat, j: nat, m: Measure)
    requires Comparable(v, q, i, j, m) && AllFailed(v.ks[i].h) && v.ks[j].h.stats.recent.successes <= v.ks[j].h.stats.recent.requests <= 5
    ensures AllFailed(v.ks[j].h)
  {
    hide *;
    CheaperIsPicked(v, q, i, j, m);
    PriceMeans(v.ks[i].h);
    if !AllFailed(v.ks[j].h) { WorkingKeyIsCheap(v.ks[j].h, m); }
  }

  lemma {:induction false} HasSuccess(h: Handle)
    requires !AllFailed(h)
    ensures h.stats.recent.requests == 0 || h.stats.recent.successes > 0
  {
  }

  lemma {:induction false} TimesInRange(h: Handle)
    ensures 1.0 <= Header(h) <= Full(h) <= 3_600_000.0
  {
    hide HeaderTime, FullTime;
  }

  lemma {:induction false} WorkingKeyIsCheap(h: Handle, m: Measure)
    requires !AllFailed(h) && h.stats.recent.successes <= h.stats.recent.requests <= 5
    ensures Price(h, m) < 1_000_000_000_000.0
  {
    hide *;
    HasSuccess(h);
    FewTries(h.stats.recent.successes, h.stats.recent.requests);
    TimesInRange(h);
    PriceMeans(h);
    TriesPositive(h);
    Bounded(Tries(h), Header(h));
    Bounded(Tries(h), 0.7 * Header(h) + 0.3 * Full(h));
    match m { case LowestLatency => case HighestSuccess => case Adaptive => }
  }

  lemma {:induction false} FewTries(s: nat, r: nat)
    requires s <= r <= 5 && (r == 0 || s > 0)
    ensures (r + 2) as real / (s + 1) as real <= 3.5
  {
    var a, b := (r + 2) as real, (s + 1) as real;
    var x := a / b;
    assert x * b == a && b >= 1.0 && a <= 3.5 * b;
    Rescale(3.5, x, b);
  }

  lemma {:induction false} Bounded(t: real, x: real)
    requires 0.0 < t <= 3.5 && 0.0 <= x <= 3_600_000.0
    ensures Squared(t) <= 12.25 && x * t <= 12_600_000.0 && x * Squared(t) <= 44_100_000.0
  {
    assert t * t <= 3.5 * t;
    assert x * t <= 3_600_000.0 * t;
    assert x * (t * t) <= 3_600_000.0 * (t * t);
  }

  // ---------------------------------------------------------------- what a pick leaves behind

  /** The picked key has one more request in flight and was tried now; nothing else about any key changes, except that a
      history from before a reset may be forgotten. The cursor moves past the pick unless that was random, and the credit for
      probes is spent or grows. */
  ghost predicate TakesSlot(v: PoolView, q: Request, i: nat, v': PoolView)
    requires i < |v.ks|
  {
    && |v'.ks| == |v.ks| && v'.strategy == v.strategy
    && v'.rr == (if v.strategy.Random? then v.rr else if i + 1 == |v.ks| then 0 else i + 1)
    && v'.credit == (if !v.strategy.Performance? then v.credit else if ProbeDue(v, q) then 0 else if v.credit < 10 then v.credit + 1 else v.credit)
    && forall k :: 0 <= k < |v.ks| ==> SlotTaken(v.ks[k], v'.ks[k], k == i, q.now)
  }

  lemma {:induction false} AcquireTakesSlot(v: PoolView, q: Request, i: nat, v': PoolView)
    requires AcquireStep(v, q, i, v') && q.now >= NEVER
    ensures TakesSlot(v, q, i, v')
  {
    CursorMoves(v, q, i, v');
    CreditMoves(v, q, i, v');
    forall k | 0 <= k < |v.ks| ensures SlotTaken(v.ks[k], v'.ks[k], k == i, q.now) { PickedSlot(v, q, i, k); }
    hide Probing, ProbeDue, Least, Oldest, Available, AfterPick, SlotTaken;
  }

  lemma {:induction false} CursorMoves(v: PoolView, q: Request, i: nat, v': PoolView)
    requires AcquireStep(v, q, i, v')
    ensures i < |v.ks| && v'.rr == if v.strategy.Random? then v.rr else if i + 1 == |v.ks| then 0 else i + 1
    ensures |v'.ks| == |v.ks| && v'.strategy == v.strategy && v'.ks == AfterPick(v, q, i)
  {
    hide Probing, Least, Oldest, Available, AfterPick;
    if i + 1 < |v.ks| { SmallModulus(i + 1, |v.ks|); }
  }

  lemma {:induction false} CreditMoves(v: PoolView, q: Request, i: nat, v': PoolView)
    requires AcquireStep(v, q, i, v') && q.now >= NEVER
    ensures v'.credit ==
      if !v.strategy.Performance? then v.credit else if ProbeDue(v, q) then 0 else if v.credit < 10 then v.credit + 1 else v.credit
  {
    ProbingAgrees(v, q);
    hide Probing, ProbeDue, Least, Oldest, Available, AfterPick;
  }

  ghost predicate SlotTaken(a: KeySnap, b: KeySnap, picked: bool, now: int) {
    && b.h == a.h && b.r == a.r.(inflight := a.r.inflight + if picked then 1 else 0, explore := b.r.explore)
    && (picked ==> b.r.explore.lastAttempt == now)
    && (!picked && a.r.explore.generation == a.h.generation ==> b.r.explore == a.r.explore)
  }

  lemma {:induction false} PickedSlot(v: PoolView, q: Request, i: nat, k: nat)
    requires i < |v.ks| && k < |v.ks|
    ensures SlotTaken(v.ks[k], AfterPick(v, q, i)[k], k == i, q.now)
  {
    hide Available;
  }
}
