/** The scan loops of the seven picking strategies, over the value of a locked pool. */
module Pickers {
  import opened Wrappers
  import opened RuntimeStats
  import opened SampleWindow
  import opened KeyRecords
  import opened PoolModel

  /** The remainder form of the cyclic distance. */
  lemma {:induction false} ModDistance(n: nat, rr: nat, i: nat)
    requires i < n && rr < n
    ensures (i - rr + n) % n == Distance(n, rr, i)
  {
    if i >= rr {
      SmallModulus(i - rr, n);
      assert (i - rr + n) % n == (i - rr) % n;
    } else {
      SmallModulus(i - rr + n, n);
    }
  }

  /** Every allowed key index, in scan order: the allow-list, or all keys starting at `start`. */
  function ScanOrder(v: PoolView, q: Request, start: nat): (scan: seq<int>)
    requires v.ks != []
  {
    if q.allowed.Some? then q.allowed.value else seq(|v.ks|, o => (start + o) % |v.ks|)
  }

  lemma {:induction false} ScanOrderCovers(v: PoolView, q: Request, start: nat)
    requires v.ks != [] && start < |v.ks|
    ensures Covers(v, q, ScanOrder(v, q, start))
  {
    var scan := ScanOrder(v, q, start);
    if q.allowed.None? {
      forall j | 0 <= j < |v.ks| ensures j in scan {
        var o := Distance(|v.ks|, start, j);
        CyclicIndex(|v.ks|, start, o);
        if (start + o) % |v.ks| != j { DistanceInjective(|v.ks|, start, (start + o) % |v.ks|, j); }
        assert scan[o] == j;
      }
    }
  }

  /** At least one allowed key is usable. */
  method AnyEligible(ks: seq<KeySnap>, q: Request) returns (ok: bool)
    ensures ok <==> exists i: nat :: Eligible(ks, q, i)
  {
    hide Available;
    if q.allowed.Some? {
      var allowed := q.allowed.value;
      for k := 0 to |allowed|
        invariant forall j :: 0 <= j < k ==> !Usable(ks, q, allowed[j])
      {
        if Usable(ks, q, allowed[k]) {
          assert Eligible(ks, q, allowed[k]);
          return true;
        }
      }
      return false;
    }
    for i := 0 to |ks|
      invariant forall j: nat :: j < i ==> !Usable(ks, q, j)
    {
      if Usable(ks, q, i) {
        assert Eligible(ks, q, i);
        return true;
      }
    }
    ok := false;
  }

  /** First usable key at or after the cursor. */
  method FindCyclic(v: PoolView, q: Request) returns (pick: int, ok: bool)
    requires WellFormed(v) && v.strategy == RoundRobin && q.allowed == None && v.ks != []
    ensures PicksLeast(v, q, pick, ok)
  {
    hide Usable, PicksLeast;
    for try := 0 to |v.ks|
      invariant NoneBefore(v, q, try)
    {
      hide NoneBefore;
      var candidate := (v.rr + try) % |v.ks|;
      CyclicStep(v, q, try);
      if Usable(v.ks, q, candidate) { return candidate, true; }
    }
    CyclicDone(v, q, 0);
    return 0, false;
  }

  /** The allowed usable key nearest to the cursor. */
  method FindNearest(v: PoolView, q: Request, allowed: seq<int>) returns (pick: int, ok: bool)
    requires WellFormed(v) && v.strategy == RoundRobin && q.allowed == Some(allowed) && v.ks != []
    ensures PicksLeast(v, q, pick, ok)
  {
    assert Covers(v, q, allowed);
    hide Available, ScanState, PicksLeast, RankOf, RankLess, Covers;
    ScanStart(v, q);
    pick := -1;
    var n, bestDistance := |v.ks|, |v.ks| + 1;
    for k := 0 to |allowed|
      invariant -1 <= pick < n && ScanState(v, q, allowed[..k], pick)
      invariant bestDistance == if pick == -1 then n + 1 else Distance(n, v.rr, pick)
    {
      var candidate := allowed[k];
      assert allowed[..k + 1] == allowed[..k] + [candidate];
      ScanStep(v, q, allowed[..k], pick, candidate);
      if Usable(v.ks, q, candidate) {
        ModDistance(n, v.rr, candidate);
        if pick != -1 { RoundRobinRank(v, q, candidate, pick); }
        var distance := (candidate - v.rr + n) % n;
        if distance < bestDistance { pick, bestDistance := candidate, distance; }
      }
    }
    assert allowed[..|allowed|] == allowed;
    ScanDone(v, q, allowed, pick);
    ok := pick >= 0;
  }

  method FindRoundRobin(v: PoolView, q: Request) returns (pick: int, ok: bool)
    requires WellFormed(v) && v.strategy == RoundRobin
    ensures PicksLeast(v, q, pick, ok)
  {
    hide PicksLeast;
    if |v.ks| == 0 || (q.allowed.Some? && q.allowed.value == []) {
      NothingAllowed(v, q, 0);
      return 0, false;
    }
    if q.allowed.None? {
      pick, ok := FindCyclic(v, q);
    } else {
      pick, ok := FindNearest(v, q, q.allowed.value);
    }
  }

  /** The load score of a key, with its remainder distance. */
  function LoadScore(v: PoolView, i: nat): Rank
    requires i < |v.ks| && v.rr < |v.ks| && v.strategy in {LeastUsed, LeastRequests}
  {
    var inflight, total := v.ks[i].r.inflight, v.ks[i].h.fastTotal;
    var distance := (i - v.rr + |v.ks|) % |v.ks|;
    if v.strategy == LeastUsed then Rank(0.0, inflight, total, distance)
    else Rank(0.0, total + inflight, inflight, distance)
  }

  lemma {:induction false} LoadScoreIsRank(v: PoolView, q: Request, i: nat)
    requires i < |v.ks| && v.rr < |v.ks| && v.strategy in {LeastUsed, LeastRequests}
    ensures LoadScore(v, i) == RankOf(v, q, i)
  {
    ModDistance(|v.ks|, v.rr, i);
  }

  /** Least loaded usable key, nearest to the cursor among equals. */
  method FindByScore(v: PoolView, q: Request) returns (pick: int, ok: bool)
    requires WellFormed(v) && v.strategy in {LeastUsed, LeastRequests}
    ensures PicksLeast(v, q, pick, ok)
  {
    if |v.ks| == 0 {
      NothingAllowed(v, q, 0);
      return 0, false;
    }
    var scan := ScanOrder(v, q, v.rr);
    ScanOrderCovers(v, q, v.rr);
    hide Available, ScanState, PicksLeast, RankOf, RankLess, LoadScore, Covers, ScanOrder;
    ScanStart(v, q);
    pick := -1;
    for k := 0 to |scan|
      invariant -1 <= pick < |v.ks| && ScanState(v, q, scan[..k], pick)
    {
      var candidate := scan[k];
      assert scan[..k + 1] == scan[..k] + [candidate];
      ScanStep(v, q, scan[..k], pick, candidate);
      if Usable(v.ks, q, candidate) {
        LoadScoreIsRank(v, q, candidate);
        if pick != -1 { LoadScoreIsRank(v, q, pick); }
        if pick == -1 || RankLess(LoadScore(v, candidate), LoadScore(v, pick)) { pick := candidate; }
      }
    }
    assert scan[..|scan|] == scan;
    ScanDone(v, q, scan, pick);
    ok := pick >= 0;
  }

  /** The usable keys among the first `k` of a scan, in scan order. */
  function UsableOf(ks: seq<KeySnap>, q: Request, scan: seq<int>, k: nat): seq<int>
    requires k <= |scan|
  {
    if k == 0 then []
    else UsableOf(ks, q, scan, k - 1) + if Usable(ks, q, scan[k - 1]) then [scan[k - 1]] else []
  }

  lemma {:induction false} UsableOfMembers(ks: seq<KeySnap>, q: Request, scan: seq<int>, k: nat, i: int)
    requires k <= |scan|
    ensures i in UsableOf(ks, q, scan, k) <==> Usable(ks, q, i) && i in scan[..k]
  {
    hide Usable;
    if k > 0 {
      UsableOfMembers(ks, q, scan, k - 1, i);
      assert scan[..k] == scan[..k - 1] + [scan[k - 1]];
    }
  }

  /** The draw indexes the usable allowed keys in scan order. */
  method FindRandom(v: PoolView, q: Request, draw: nat) returns (pick: int, ok: bool)
    requires WellFormed(v)
    ensures ok <==> exists i: nat :: Eligible(v.ks, q, i)
    ensures ok ==> Eligible(v.ks, q, pick)
    ensures ok ==> v.ks != []
                   && var scan := ScanOrder(v, q, 0);
                   var usable := UsableOf(v.ks, q, scan, |scan|);
                   usable != [] && pick == usable[draw % |usable|]
  {
    if |v.ks| == 0 { return 0, false; }
    var scan := ScanOrder(v, q, 0);
    ScanOrderCovers(v, q, 0);
    hide Available, ScanOrder, Usable;
    var scratch: seq<int> := [];
    for k := 0 to |scan|
      invariant scratch == UsableOf(v.ks, q, scan, k)
    {
      if Usable(v.ks, q, scan[k]) { scratch := scratch + [scan[k]]; }
    }
    DrawnIsEligible(v, q, scan, draw);
    if scratch == [] { return 0, false; }
    pick, ok := scratch[draw % |scratch|], true;
  }

  lemma {:induction false} DrawnIsEligible(v: PoolView, q: Request, scan: seq<int>, draw: nat)
    requires Covers(v, q, scan)
    ensures var usable := UsableOf(v.ks, q, scan, |scan|);
            && (usable != [] ==> Eligible(v.ks, q, usable[draw % |usable|]))
            && (usable == [] <==> forall i: nat :: !Eligible(v.ks, q, i))
  {
    hide Available;
    var usable := UsableOf(v.ks, q, scan, |scan|);
    assert scan[..|scan|] == scan;
    forall i: int ensures i in usable <==> Usable(v.ks, q, i) && i in scan { UsableOfMembers(v.ks, q, scan, |scan|, i); }
    if usable != [] {
      var d := usable[draw % |usable|];
      assert d in usable;
    }
  }

  /** Every usable allowed key is the answer of some draw below the number of them. */
  lemma {:induction false} EveryUsableKeyIsDrawn(v: PoolView, q: Request, i: nat)
    requires WellFormed(v) && Eligible(v.ks, q, i)
    ensures var scan := ScanOrder(v, q, 0);
            var usable := UsableOf(v.ks, q, scan, |scan|);
            exists draw :: 0 <= draw < |usable| && usable[draw % |usable|] == i
  {
    var scan := ScanOrder(v, q, 0);
    ScanOrderCovers(v, q, 0);
    var usable := UsableOf(v.ks, q, scan, |scan|);
    UsableOfMembers(v.ks, q, scan, |scan|, i);
    assert scan[..|scan|] == scan;
    hide Available, ScanOrder, Usable;
    var draw :| 0 <= draw < |usable| && usable[draw] == i;
    SmallModulus(draw, |usable|);
  }

  /** What a performance pick returns: the key, whether there is one, and the credit left. */
  ghost predicate PicksPerformance(v: PoolView, q: Request, pick: int, ok: bool, credit: nat) {
    && WellFormed(v)
    && (ok <==> exists i: nat :: Eligible(v.ks, q, i))
    && (ok ==>
         && Eligible(v.ks, q, pick)
         && (if Probing(v, q) then Oldest(v, q, pick) && credit == 0 else Least(v, q, pick) && credit == Charged(v.credit)))
    && (!ok ==> credit == v.credit)
  }

  lemma {:induction false} PerformanceDone(v: PoolView, q: Request, best: int, probe: int)
    requires WellFormed(v) && v.strategy.Performance? && -1 <= best < |v.ks| && -1 <= probe < |v.ks|
    requires PicksLeast(v, q, best, best != -1)
    requires Charged(v.credit) < EXPLORATION_INTERVAL ==> probe == -1
    requires Charged(v.credit) >= EXPLORATION_INTERVAL && probe == -1 ==> forall j: nat :: !Probable(v, q, j)
    requires probe != -1 ==> Oldest(v, q, probe) && Probable(v, q, probe)
    ensures best == -1 ==> PicksPerformance(v, q, 0, false, v.credit)
    ensures best != -1 && probe == -1 ==> PicksPerformance(v, q, best, true, Charged(v.credit))
    ensures best != -1 && probe != -1 ==> PicksPerformance(v, q, probe, true, 0)
  {
    hide RankOf, RankLess, ProbeReady, LastAttempt, Available;
  }

  /** One scan finds the cheapest key and, when the credit is full, the key most overdue for a probe. */
  method FindPerformance(v: PoolView, q: Request) returns (pick: int, ok: bool, credit: nat)
    requires WellFormed(v) && v.strategy.Performance?
    ensures PicksPerformance(v, q, pick, ok, credit)
  {
    if |v.ks| == 0 {
      NothingAllowed(v, q, 0);
      PerformanceDone(v, q, -1, -1);
      return 0, false, v.credit;
    }
    credit := v.credit;
    if credit < EXPLORATION_INTERVAL { credit := credit + 1; }
    var scan := ScanOrder(v, q, 0);
    ScanOrderCovers(v, q, 0);
    hide Available, ScanState, ProbeState, PicksLeast, RankOf, RankLess, Covers, ScanOrder, PicksPerformance, ProbeReady, LastAttempt, Oldest, Probable;
    ScanStart(v, q);
    ProbeStart(v, q);
    var best, probe := -1, -1;
    for k := 0 to |scan|
      invariant -1 <= best < |v.ks| && ScanState(v, q, scan[..k], best)
      invariant -1 <= probe < |v.ks|
      invariant if credit >= EXPLORATION_INTERVAL then ProbeState(v, q, scan[..k], probe) else probe == -1
    {
      var i := scan[k];
      assert scan[..k + 1] == scan[..k] + [i];
      ScanStep(v, q, scan[..k], best, i);
      if credit >= EXPLORATION_INTERVAL { ProbeStep(v, q, scan[..k], probe, i); }
      if Usable(v.ks, q, i) {
        if best == -1 || RankLess(RankOf(v, q, i), RankOf(v, q, best)) { best := i; }
        if credit >= EXPLORATION_INTERVAL && ProbeReady(v.ks[i], q.now) {
          if probe == -1 || LastAttempt(v, q, i) < LastAttempt(v, q, probe) { probe := i; }
        }
      }
    }
    assert scan[..|scan|] == scan;
    ScanDone(v, q, scan, best);
    if credit >= EXPLORATION_INTERVAL { ProbeDone(v, q, scan, probe); }
    PerformanceDone(v, q, best, probe);
    if best < 0 { return 0, false, v.credit; }
    if probe >= 0 { return probe, true, 0; }
    return best, true, credit;
  }

  /** Dispatch on the strategy; the answer is the index and the credit of one `AcquireStep`. */
  method Choose(v: PoolView, q: Request, draw: nat) returns (pick: nat, ok: bool, credit: nat)
    requires WellFormed(v)
    ensures ok <==> exists i: nat :: Eligible(v.ks, q, i)
    ensures ok ==> pick < |v.ks| && AcquireStep(v, q, pick, Outcome(v, q, pick, credit))
  {
    var p := 0;
    credit := v.credit;
    match v.strategy {
      case Random => p, ok := FindRandom(v, q, draw);
      case LeastUsed => p, ok := FindByScore(v, q);
      case LeastRequests => p, ok := FindByScore(v, q);
      case Performance(_) => p, ok, credit := FindPerformance(v, q);
      case RoundRobin => p, ok := FindRoundRobin(v, q);
    }
    hide Available, RankOf, RankLess, ProbeReady, LastAttempt, AfterPick;
    pick := if ok then p else 0;
  }

  /** The pool after a pick. */
  function Outcome(v: PoolView, q: Request, i: nat, credit: nat): PoolView
    requires i < |v.ks|
  {
    v.(ks := AfterPick(v, q, i), rr := if v.strategy.Random? then v.rr else (i + 1) % |v.ks|, credit := credit)
  }
}
