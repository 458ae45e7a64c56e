/** The live statistics of one key: counters, the five-slot sample ring and the cached costs, updated in place. */
module StatsHandle {
  import opened Wrappers
  import opened RuntimeStats
  import opened SampleWindow
  import W = SampleWindow

  /** The ring's samples, oldest first. */
  function Ordered(ring: seq<Sample>, next: nat, count: nat): seq<Sample>
    requires |ring| == WINDOW && next < WINDOW && count <= WINDOW
  {
    if count < WINDOW then ring[..count] else ring[next..] + ring[..next]
  }

  /** Writing the next slot appends while the ring fills up... */
  lemma {:induction false} WriteOpenSlot(ring: seq<Sample>, count: nat, s: Sample)
    requires |ring| == WINDOW && count < WINDOW
    ensures Ordered(ring[count := s], (count + 1) % WINDOW, count + 1) == Ordered(ring, count, count) + [s]
  {
    var r := ring[count := s];
    assert r[..count + 1] == ring[..count] + [s];
    if count + 1 == WINDOW { assert r[0..] + r[..0] == r[..count + 1]; }
  }

  /** A full ring, read from the slot that is written next. */
  lemma {:induction false} FullRing(ring: seq<Sample>, a: seq<Sample>, b: seq<Sample>)
    requires ring == a + b && |ring| == WINDOW && |a| < WINDOW
    ensures Ordered(ring, |a|, WINDOW) == b + a
  {
    assert ring[|a|..] == b && ring[..|a|] == a;
  }

  lemma {:induction false} SplitRing(ring: seq<Sample>, next: nat, s: Sample)
    requires next < |ring|
    ensures ring == ring[..next] + ([ring[next]] + ring[next + 1..])
    ensures ring[next := s] == ring[..next] + ([s] + ring[next + 1..])
  {
  }

  lemma {:induction false} AfterWrite(r: seq<Sample>, a: seq<Sample>, s: Sample, b: seq<Sample>)
    requires r == a + ([s] + b) && |r| == WINDOW
    ensures Ordered(r, (|a| + 1) % WINDOW, WINDOW) == (b + a) + [s]
  {
    hide Ordered;
    assert r == (a + [s]) + b && b + (a + [s]) == (b + a) + [s];
    if b == [] {
      assert r == [] + (a + [s]) && (a + [s]) + [] == a + [s];
      FullRing(r, [], a + [s]);
    } else {
      FullRing(r, a + [s], b);
    }
  }

  /** ...and replaces the oldest sample once it is full. */
  lemma {:induction false} WriteFullSlot(ring: seq<Sample>, next: nat, s: Sample)
    requires |ring| == WINDOW && next < WINDOW
    ensures Ordered(ring[next := s], (next + 1) % WINDOW, WINDOW) == Ordered(ring, next, WINDOW)[1..] + [s]
  {
    hide Ordered;
    var a, x, b := ring[..next], ring[next], ring[next + 1..];
    SplitRing(ring, next, s);
    AfterWrite(ring[next := s], a, s, b);
    FullRing(ring, a, [x] + b);
    DropFirst(x, b, a);
  }

  lemma {:induction false} DropFirst(x: Sample, b: seq<Sample>, a: seq<Sample>)
    ensures ([x] + b + a)[1..] == b + a
  {
  }

  lemma {:induction false} WriteSlot(ring: seq<Sample>, next: nat, count: nat, s: Sample)
    requires |ring| == WINDOW && next < WINDOW && count <= WINDOW && (count < WINDOW ==> next == count)
    ensures Ordered(ring[next := s], (next + 1) % WINDOW, Min(count + 1, WINDOW)) == LastFive(Ordered(ring, next, count) + [s])
  {
    OrderedLength(ring, next, count);
    if count < WINDOW { WriteOpenSlot(ring, count, s); } else { WriteFullSlot(ring, next, s); }
    hide Ordered;
    var o := Ordered(ring, next, count);
    if count == WINDOW { assert (o + [s])[1..] == o[1..] + [s]; }
  }

  /** The accumulated timings do not depend on the slot order. */
  lemma {:induction false} SlotOrderIrrelevant(ring: seq<Sample>, next: nat, count: nat, only: bool)
    requires |ring| == WINDOW && next < WINDOW && count <= WINDOW
    ensures Accumulate(ring[..count], only) == Accumulate(Ordered(ring, next, count), only)
  {
    if count == WINDOW {
      AccumulateRotate(ring[..next], ring[next..], only);
      assert ring[..count] == ring[..next] + ring[next..];
    }
  }

  lemma {:induction false} OrderedLength(ring: seq<Sample>, next: nat, count: nat)
    requires |ring| == WINDOW && next < WINDOW && count <= WINDOW
    ensures |Ordered(ring, next, count)| == count
  {
  }

  class RuntimeStatsHandle {
    var stats: Stats
    var totalRequests: int
    const window: array<Sample>
    var nextSample: nat
    var sampleCount: nat
    var lastSample: Option<int>
    var costs: Costs
    var generation: nat

    predicate Shaped()
      reads this
    {
      && window.Length == WINDOW && nextSample < WINDOW && sampleCount <= WINDOW
      && (sampleCount < WINDOW ==> nextSample == sampleCount)
    }

    /** The value this object stands for. */
    function View(): (v: Handle)
      reads this, window
      ensures v.stats == stats
    {
      Handle(stats, totalRequests, if Shaped() then Ordered(window[..], nextSample, sampleCount) else [],
             lastSample, costs, generation)
    }

    ghost predicate Valid()
      reads this, window
    {
      Shaped() && Consistent(View())
    }

    constructor (initial: Stats)
      ensures Valid() && fresh(window)
      ensures View() == FromBaseline(initial)
    {
      var c := FromBaseline(initial);
      stats, totalRequests, costs, generation := c.stats, c.fastTotal, c.costs, 0;
      nextSample, sampleCount, lastSample := 0, 0, None;
      window := new Sample[WINDOW](i => Sample(0, 0, false));
    }

    /** Timings of the filled slots, in slot order. */
    method ScanWindow(only: bool) returns (t: Timings)
      requires Shaped()
      ensures t == Accumulate(Ordered(window[..], nextSample, sampleCount), only)
    {
      t := NO_TIMINGS;
      for k := 0 to sampleCount
        invariant t == Accumulate(window[..k], only)
      {
        assert window[..k + 1][..k] == window[..k];
        if !(only && !window[k].success) { t := AddSample(t, window[k]); }
      }
      SlotOrderIrrelevant(window[..], nextSample, sampleCount, only);
      assert window[..][..sampleCount] == window[..sampleCount];
    }

    /** The two timings that enter the costs. */
    method CostTimings() returns (header: real, full: real)
      requires Shaped()
      ensures header == HeaderTiming(stats.recent, View().samples)
      ensures full == FullTiming(stats.recent, View().samples)
    {
      header, full := 1000.0, 1000.0;
      var t := ScanWindow(true);
      hide Accumulate;
      if sampleCount > 0 {
        if t.headers > 0 { header := t.headerMs / t.headers as real; }
        full := header;
        if t.fulls > 0 { full := t.fullMs / t.fulls as real; }
      } else if stats.recent.requests == stats.recent.successes {
        if stats.recent.headerSamples > 0 { header := stats.recent.avgHeader; }
        full := header;
        if stats.recent.responseSamples > 0 { full := stats.recent.avgResponse; }
      }
    }

    /** Recompute the cached costs from the current summary and window. */
    method UpdateCosts()
      requires Shaped()
      modifies this`costs
      ensures Shaped() && costs == CostsOf(stats.recent, View().samples)
    {
      hide CostsFrom, HeaderTiming, FullTiming;
      var header, full := CostTimings();
      costs := CostsFrom(stats.recent, header, full);
    }

    /** Write one sample into the ring, after forgetting a window that is five minutes old. */
    method Store(s: Sample, now: int)
      requires Shaped()
      modifies this`sampleCount, this`nextSample, this`lastSample, window
      ensures Shaped() && lastSample == Some(now)
      ensures View().samples == W.RecordSample(old(View()), s, now).samples
    {
      hide Summary, CostsOf, LastFive, Ordered;
      OrderedLength(window[..], 0, 0);
      if lastSample.Some? && now - lastSample.value >= FRESHNESS {
        sampleCount, nextSample := 0, 0;
      }
      WriteSlot(window[..], nextSample, sampleCount, s);
      ghost var ring := window[..];
      lastSample := Some(now);
      window[nextSample] := s;
      assert window[..] == ring[nextSample := s];
      nextSample := (nextSample + 1) % WINDOW;
      if sampleCount < WINDOW { sampleCount := sampleCount + 1; }
    }

    /** Record one finished attempt in the ring; returns the statistics generation it belongs to. */
    method RecordSample(header: int, full: int, success: bool, now: int) returns (g: nat)
      requires Valid()
      modifies this, window
      ensures Valid() && g == generation
      ensures View() == W.RecordSample(old(View()), MakeSample(header, full, success), now)
    {
      hide Accumulate, CostsOf, LastFive, MakeSample, Ordered;
      var s := MakeSample(header, full, success);
      RecordKeepsConsistent(View(), s, now);
      Store(s, now);
      var t := ScanWindow(false);
      stats := stats.(recent := RecentStats(sampleCount, t.successes, t.headers, Mean(t.headerMs, t.headers),
                                            t.fulls, Mean(t.fullMs, t.fulls)));
      OrderedLength(window[..], nextSample, sampleCount);
      UpdateCosts();
      g := generation;
    }

    /** Count one attempt; `preserveLast` marks a result of an obsolete version. */
    method Count(t: Tally, reason: string, preserveLast: bool)
      requires Valid()
      modifies this`stats, this`totalRequests
      ensures Valid() && View() == W.Count(old(View()), t, reason, preserveLast)
    {
      hide CostsOf, Summary, NormalizeError;
      stats := stats.(c := Plus(stats.c, Unit(t)));
      if !preserveLast && t != Interrupted {
        stats := stats.(lastStatus := if t == Success then 200 else t.status,
                        lastError := if t == Success then "" else NormalizeError(reason));
      }
      totalRequests := stats.c.total;
    }

    method ClearLastError()
      requires Valid()
      modifies this`stats
      ensures Valid() && View() == W.ClearLastError(old(View()))
    {
      hide CostsOf, Summary;
      stats := stats.(lastError := "");
    }

    /** Zero everything and start a new generation. */
    method Zero()
      requires Valid()
      modifies this
      ensures Valid() && View() == Reset(old(View()))
    {
      stats, totalRequests := NO_STATS, 0;
      nextSample, sampleCount, lastSample := 0, 0, None;
      UpdateCosts();
      generation := generation + 1;
    }
  }

  /** What counting an attempt does: one more in the counter of its kind, the totals agree, and status and error are those
      of the attempt unless it was interrupted or obsolete. */
  lemma {:induction false} CountTells(h: Handle, t: Tally, reason: string, preserveLast: bool)
    ensures var h' := W.Count(h, t, reason, preserveLast);
            && Tells(h'.stats.c, h.stats.c, [t]) && h'.fastTotal == h.stats.c.total + 1
            && h'.samples == h.samples && h'.stats.recent == h.stats.recent && h'.costs == h.costs && h'.generation == h.generation
            && if preserveLast || t == Interrupted then
                 h'.stats.lastStatus == h.stats.lastStatus && h'.stats.lastError == h.stats.lastError
               else
                 && h'.stats.lastStatus == (if t == Success then 200 else t.status)
                 && NormalError(h'.stats.lastError) && (t == Success ==> h'.stats.lastError == "")
                 && (t.Failure? && NormalError(reason) ==> h'.stats.lastError == reason)
  {
    var one := [t];
    assert one[..0] == [] && Settled(h.stats.c, one[..0]) == h.stats.c;
    assert Settled(h.stats.c, one) == Plus(h.stats.c, Unit(t));
    CountersTell(h.stats.c, one);
    NormalizeErrorIdempotent(reason);
    hide NormalizeError, Occurrences, CountOther, Settled, Unit;
  }

  lemma {:induction false} RecordKeepsConsistent(h: Handle, s: Sample, now: int)
    requires Consistent(h)
    ensures Consistent(W.RecordSample(h, s, now))
  {
    hide CostsOf, Summary;
  }

  /** Bulk reset: all handles or none, decided by one persistence result while every handle is held.
      Listing a handle twice resets it once. */
  method ResetRuntimeStats(handles: seq<RuntimeStatsHandle>, persisted: bool) returns (ok: bool)
    requires forall k :: 0 <= k < |handles| ==> handles[k].Valid()
    requires forall j, k :: 0 <= j < k < |handles| && handles[j] != handles[k] ==> handles[j].window != handles[k].window
    modifies set k | 0 <= k < |handles| :: handles[k]
    ensures ok == persisted
    ensures forall k :: 0 <= k < |handles| ==>
      handles[k].Valid() && handles[k].View() == if persisted then Reset(old(handles[k].View())) else old(handles[k].View())
  {
    hide Consistent, Ordered, Reset, RuntimeStatsHandle.View, RuntimeStatsHandle.Valid;
    if !persisted { return false; }
    var seen: set<RuntimeStatsHandle> := {};
    for k := 0 to |handles|
      invariant forall j :: 0 <= j < k ==> handles[j] in seen
      invariant forall j :: 0 <= j < |handles| ==>
        handles[j].Valid() && handles[j].View() == if handles[j] in seen then Reset(old(handles[j].View())) else old(handles[j].View())
    {
      if handles[k] !in seen {
        handles[k].Zero();
        seen := seen + {handles[k]};
      }
    }
    ok := true;
  }
}
