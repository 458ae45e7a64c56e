/** What the seven picking strategies promise, as relations on pool values. */
module PoolModel {
  import opened Wrappers
  import opened RuntimeStats
  import opened SampleWindow
  import opened KeyRecords

  datatype Strategy = RoundRobin | Random | LeastUsed | LeastRequests | Performance(measure: Measure)

  /** One key as a pick sees it: its state and its statistics. */
  datatype KeySnap = KeySnap(r: KeyRecord, h: Handle)

  datatype PoolView = PoolView(strategy: Strategy, ks: seq<KeySnap>, rr: nat, credit: nat)

  /** One request to the pool.  `allowed` of None means every key; Some([]) means none. */
  datatype Request = Request(now: int, excluded: set<int>, allowed: Option<seq<int>>)

  ghost predicate WellFormed(v: PoolView) {
    v.rr < |v.ks| || v.rr == 0
  }

  // ---------------------------------------------------------------- eligibility

  /** In range, not excluded, not retired, active and not cooling. */
  predicate Usable(ks: seq<KeySnap>, q: Request, i: int) {
    0 <= i < |ks| && i !in q.excluded && Available(ks[i].r, q.now)
  }

  predicate Allowed(q: Request, i: int) {
    q.allowed.None? || i in q.allowed.value
  }

  predicate Eligible(ks: seq<KeySnap>, q: Request, i: int) {
    Usable(ks, q, i) && Allowed(q, i)
  }

  // ---------------------------------------------------------------- ranking

  /** A load score and, last, the cyclic distance from the cursor. */
  datatype Rank = Rank(cost: real, primary: int, secondary: int, distance: int)

  predicate RankLess(a: Rank, b: Rank) {
    if a.cost != b.cost then a.cost < b.cost
    else if a.primary != b.primary then a.primary < b.primary
    else if a.secondary != b.secondary then a.secondary < b.secondary
    else a.distance < b.distance
  }

  function Distance(n: nat, rr: nat, i: nat): nat
    requires i < n && rr < n
  {
    if i >= rr then i - rr else i - rr + n
  }

  /** The key after the scan brought its history up to the current statistics generation. */
  function Synced(s: KeySnap, tick: int): KeySnap {
    s.(r := s.r.(explore := Sync(s.r.explore, s.h.generation, tick)))
  }

  function Neutral(m: Measure): real {
    match m
    case LowestLatency => 2000.0
    case HighestSuccess => 4.0
    case Adaptive => 4000.0
  }

  /** Performance cost of a synced key: stale measurements fade to a neutral value, load multiplies. */
  function Cost(s: KeySnap, m: Measure, tick: int): real {
    var x := s.r.explore;
    var base := CostFor(s.h.costs, m);
    var age := tick - x.sampleExpires;
    var faded :=
      if !Expired(x, tick) then base
      else if age >= FRESHNESS then Neutral(m)
      else base + (Neutral(m) - base) * (age as real / FRESHNESS as real);
    faded * (s.r.inflight + 1) as real
  }

  function RankOf(v: PoolView, q: Request, i: nat): Rank
    requires i < |v.ks| && v.rr < |v.ks|
  {
    var s := v.ks[i];
    var d := Distance(|v.ks|, v.rr, i);
    match v.strategy
    case LeastUsed => Rank(0.0, s.r.inflight, s.h.fastTotal, d)
    case LeastRequests => Rank(0.0, s.h.fastTotal + s.r.inflight, s.r.inflight, d)
    case Performance(m) => Rank(Cost(Synced(s, q.now), m, q.now), 0, 0, d)
    case _ => Rank(0.0, 0, 0, d)
  }

  /** `i` is eligible and every other eligible key ranks strictly after it. */
  ghost predicate Least(v: PoolView, q: Request, i: nat)
    requires WellFormed(v)
  {
    && Eligible(v.ks, q, i)
    && forall j: nat :: Eligible(v.ks, q, j) && j != i ==> RankLess(RankOf(v, q, i), RankOf(v, q, j))
  }

  /** A pick that succeeds exactly when some key is eligible, and then returns the least ranked one. */
  ghost predicate PicksLeast(v: PoolView, q: Request, pick: int, ok: bool) {
    && WellFormed(v)
    && (ok <==> exists i: nat :: Eligible(v.ks, q, i))
    && (ok ==> 0 <= pick < |v.ks| && Least(v, q, pick))
  }

  // ---------------------------------------------------------------- exploration

  /** A probe may go to an idle key past its backoff that is due. */
  predicate ProbeReady(s: KeySnap, tick: int) {
    var x := Synced(s, tick).r.explore;
    s.r.inflight == 0 && tick >= x.nextExplore && Due(x, tick)
  }

  predicate Probable(v: PoolView, q: Request, i: int) {
    Eligible(v.ks, q, i) && ProbeReady(v.ks[i], q.now)
  }

  function LastAttempt(v: PoolView, q: Request, i: nat): int
    requires i < |v.ks|
  {
    Synced(v.ks[i], q.now).r.explore.lastAttempt
  }

  /** A probe candidate that no candidate was attempted before. */
  ghost predicate Oldest(v: PoolView, q: Request, i: nat) {
    && Probable(v, q, i)
    && forall j: nat :: Probable(v, q, j) ==> LastAttempt(v, q, i) <= LastAttempt(v, q, j)
  }

  function Charged(credit: nat): nat {
    if credit < EXPLORATION_INTERVAL then credit + 1 else credit
  }

  /** This pick is a probe: the credit is full and some key is worth probing. */
  ghost predicate Probing(v: PoolView, q: Request) {
    v.strategy.Performance? && Charged(v.credit) >= EXPLORATION_INTERVAL && exists j: nat :: Probable(v, q, j)
  }

  // ---------------------------------------------------------------- one acquire

  /** Keys after a scan: a performance scan synced every eligible key. */
  function Scanned(v: PoolView, q: Request): (ks: seq<KeySnap>)
    ensures |ks| == |v.ks|
  {
    seq(|v.ks|, k requires 0 <= k < |v.ks| =>
      if v.strategy.Performance? && Eligible(v.ks, q, k) then Synced(v.ks[k], q.now) else v.ks[k])
  }

  /** Keys after a pick of `i`: scanned, and the pick is charged. */
  function AfterPick(v: PoolView, q: Request, i: nat): (ks: seq<KeySnap>)
    requires i < |v.ks|
    ensures |ks| == |v.ks|
  {
    var ks := Scanned(v, q);
    ks[i := ks[i].(r := Acquired(ks[i].r, q.now))]
  }

  /** One successful acquire: from `v`, the request picked `i` and left `v'`. */
  ghost predicate AcquireStep(v: PoolView, q: Request, i: nat, v': PoolView) {
    && WellFormed(v)
    && Eligible(v.ks, q, i)
    && v'.strategy == v.strategy
    && v'.ks == AfterPick(v, q, i)
    && (v.strategy.Random? ==> v'.rr == v.rr)
    && (!v.strategy.Random? ==> v'.rr == (i + 1) % |v.ks|)
    && (if Probing(v, q) then Oldest(v, q, i)
        else !v.strategy.Random? ==> Least(v, q, i))
    && v'.credit == (if !v.strategy.Performance? then v.credit else if Probing(v, q) then 0 else Charged(v.credit))
  }

  // ---------------------------------------------------------------- scanning for the least rank

  /** Among the usable keys seen so far, `best` ranks strictly first; -1 when there is none. */
  ghost predicate ScanState(v: PoolView, q: Request, seen: seq<int>, best: int)
    requires WellFormed(v)
  {
    if best == -1 then forall j :: j in seen ==> !Usable(v.ks, q, j)
    else
      && best in seen && Usable(v.ks, q, best)
      && forall j :: j in seen && Usable(v.ks, q, j) && j != best ==> RankLess(RankOf(v, q, best), RankOf(v, q, j))
  }

  /** The winner after looking at one more key. */
  ghost function NextBest(v: PoolView, q: Request, best: int, c: int): int
    requires WellFormed(v) && -1 <= best < |v.ks|
  {
    if !Usable(v.ks, q, c) then best
    else if best == -1 || RankLess(RankOf(v, q, c), RankOf(v, q, best)) then c
    else best
  }

  lemma {:induction false} ScanStep(v: PoolView, q: Request, seen: seq<int>, best: int, c: int)
    requires WellFormed(v) && -1 <= best < |v.ks| && ScanState(v, q, seen, best)
    ensures -1 <= NextBest(v, q, best, c) < |v.ks| && ScanState(v, q, seen + [c], NextBest(v, q, best, c))
  {
    hide RankOf, Available;
    if best != -1 && c != best && Usable(v.ks, q, c) { RanksDiffer(v, q, c, best); }
  }

  lemma {:induction false} ScanStart(v: PoolView, q: Request)
    requires WellFormed(v)
    ensures ScanState(v, q, [], -1)
  {
  }

  /** Every key that the request allows is on the list, and no other key is. */
  ghost predicate Covers(v: PoolView, q: Request, scan: seq<int>) {
    forall j :: 0 <= j < |v.ks| ==> (j in scan <==> Allowed(q, j))
  }

  lemma {:induction false} ScanDone(v: PoolView, q: Request, scan: seq<int>, best: int)
    requires WellFormed(v) && Covers(v, q, scan) && -1 <= best < |v.ks| && ScanState(v, q, scan, best)
    ensures PicksLeast(v, q, best, best != -1)
  {
    hide RankOf, Available, RankLess;
    if best != -1 { assert Eligible(v.ks, q, best); }
  }

  /** No key nearer than `o` steps from the cursor is usable. */
  ghost predicate NoneBefore(v: PoolView, q: Request, o: nat)
    requires WellFormed(v)
  {
    forall j: nat :: j < |v.ks| && Distance(|v.ks|, v.rr, j) < o ==> !Usable(v.ks, q, j)
  }

  lemma {:induction false} SmallModulus(a: nat, n: nat)
    requires a < n
    ensures a % n == a
  {
  }

  lemma {:induction false} WrapOnce(a: nat, n: nat)
    requires 0 < n <= a < 2 * n
    ensures a % n == a - n
  {
    assert a / n == 1;
  }

  lemma {:induction false} CyclicIndex(n: nat, rr: nat, o: nat)
    requires rr < n && o < n
    ensures (rr + o) % n < n && Distance(n, rr, (rr + o) % n) == o
  {
    if rr + o < n {
      SmallModulus(rr + o, n);
    } else {
      SmallModulus(rr + o - n, n);
      WrapOnce(rr + o, n);
    }
  }

  lemma {:induction false} RoundRobinRank(v: PoolView, q: Request, i: nat, j: nat)
    requires v.strategy == RoundRobin && i < |v.ks| && j < |v.ks| && v.rr < |v.ks|
    ensures RankLess(RankOf(v, q, i), RankOf(v, q, j)) <==> Distance(|v.ks|, v.rr, i) < Distance(|v.ks|, v.rr, j)
  {
  }

  /** The key `o` steps after the cursor either wins or joins the unusable ones. */
  lemma {:induction false} CyclicStep(v: PoolView, q: Request, o: nat)
    requires WellFormed(v) && v.strategy == RoundRobin && q.allowed == None && o < |v.ks| && NoneBefore(v, q, o)
    ensures var c := (v.rr + o) % |v.ks|;
            && c < |v.ks|
            && (Usable(v.ks, q, c) ==> PicksLeast(v, q, c, true))
            && (!Usable(v.ks, q, c) ==> NoneBefore(v, q, o + 1))
  {
    CyclicIndex(|v.ks|, v.rr, o);
    var c := (v.rr + o) % |v.ks|;
    hide RankOf, RankLess, Available;
    if Usable(v.ks, q, c) {
      assert Eligible(v.ks, q, c);
      forall j: nat | Eligible(v.ks, q, j) && j != c ensures RankLess(RankOf(v, q, c), RankOf(v, q, j)) {
        DistanceInjective(|v.ks|, v.rr, c, j);
        RoundRobinRank(v, q, c, j);
      }
    } else {
      forall j: nat | j < |v.ks| && Distance(|v.ks|, v.rr, j) < o + 1 ensures !Usable(v.ks, q, j) {
        if j != c { DistanceInjective(|v.ks|, v.rr, c, j); }
      }
    }
  }

  lemma {:induction false} CyclicDone(v: PoolView, q: Request, pick: int)
    requires WellFormed(v) && NoneBefore(v, q, |v.ks|)
    ensures PicksLeast(v, q, pick, false)
  {
    hide RankOf, RankLess, Available;
    assert forall j: nat :: j < |v.ks| ==> Distance(|v.ks|, v.rr, j) < |v.ks|;
  }

  // ---------------------------------------------------------------- scanning for the oldest probe

  /** Among the probe candidates seen so far, `probe` was attempted longest ago; -1 when there is none. */
  ghost predicate ProbeState(v: PoolView, q: Request, seen: seq<int>, probe: int) {
    if probe == -1 then forall j :: j in seen ==> !(Usable(v.ks, q, j) && ProbeReady(v.ks[j], q.now))
    else
      && probe in seen && Usable(v.ks, q, probe) && ProbeReady(v.ks[probe], q.now)
      && forall j :: j in seen && Usable(v.ks, q, j) && ProbeReady(v.ks[j], q.now) ==>
           LastAttempt(v, q, probe) <= LastAttempt(v, q, j)
  }

  ghost function NextProbe(v: PoolView, q: Request, probe: int, c: int): int
    requires -1 <= probe < |v.ks|
  {
    if !(Usable(v.ks, q, c) && ProbeReady(v.ks[c], q.now)) then probe
    else if probe == -1 || LastAttempt(v, q, c) < LastAttempt(v, q, probe) then c
    else probe
  }

  lemma {:induction false} ProbeStep(v: PoolView, q: Request, seen: seq<int>, probe: int, c: int)
    requires -1 <= probe < |v.ks| && ProbeState(v, q, seen, probe)
    ensures -1 <= NextProbe(v, q, probe, c) < |v.ks| && ProbeState(v, q, seen + [c], NextProbe(v, q, probe, c))
  {
    hide ProbeReady, LastAttempt, Available;
  }

  lemma {:induction false} ProbeStart(v: PoolView, q: Request)
    ensures ProbeState(v, q, [], -1)
  {
  }

  lemma {:induction false} ProbeDone(v: PoolView, q: Request, scan: seq<int>, probe: int)
    requires Covers(v, q, scan) && -1 <= probe < |v.ks| && ProbeState(v, q, scan, probe)
    ensures probe != -1 ==> Oldest(v, q, probe) && Probable(v, q, probe)
    ensures probe == -1 ==> forall j: nat :: !Probable(v, q, j)
  {
    hide ProbeReady, LastAttempt, Available;
  }

  lemma {:induction false} NothingAllowed(v: PoolView, q: Request, pick: int)
    requires WellFormed(v) && (v.ks == [] || q.allowed == Some([]))
    ensures PicksLeast(v, q, pick, false)
  {
  }

  lemma {:induction false} DistanceInjective(n: nat, rr: nat, i: nat, j: nat)
    requires i < n && j < n && rr < n && i != j
    ensures Distance(n, rr, i) != Distance(n, rr, j)
  {
  }

  lemma {:induction false} RanksDiffer(v: PoolView, q: Request, i: nat, j: nat)
    requires i < |v.ks| && j < |v.ks| && v.rr < |v.ks| && i != j
    ensures RankLess(RankOf(v, q, i), RankOf(v, q, j)) <==> !RankLess(RankOf(v, q, j), RankOf(v, q, i))
  {
    DistanceInjective(|v.ks|, v.rr, i, j);
    hide Cost;
  }

  /** Except for random picks and probes, the winner is a function of the eligible set alone: two requests
      that allow the same keys, in whatever order, pick the same key. */
  lemma {:induction false} AllowListOrderIsIrrelevant(v: PoolView, q: Request, q2: Request, i: nat, i2: nat, v': PoolView, v2: PoolView)
    requires AcquireStep(v, q, i, v') && AcquireStep(v, q2, i2, v2)
    requires q.now == q2.now && forall j: nat :: Eligible(v.ks, q, j) <==> Eligible(v.ks, q2, j)
    requires !v.strategy.Random?
    ensures Probing(v, q) <==> Probing(v, q2)
    ensures !Probing(v, q) ==> i == i2
    ensures Probing(v, q) ==> LastAttempt(v, q, i) == LastAttempt(v, q, i2)
  {
    hide RankLess, ProbeReady, Synced, AfterPick, Available, Allowed, LastAttempt, RankOf;
    if !Probing(v, q) && i != i2 {
      assert Eligible(v.ks, q, i2) && Eligible(v.ks, q2, i);
      SameRanks(v, q, q2, i);
      SameRanks(v, q, q2, i2);
      RanksDiffer(v, q, i, i2);
    }
    assert forall j: nat :: Probable(v, q, j) <==> Probable(v, q2, j);
    if Probing(v, q) {
      assert Probable(v, q, i2) && Probable(v, q2, i);
      SameLast(v, q, q2, i);
      SameLast(v, q, q2, i2);
    }
  }

  lemma {:induction false} SameLast(v: PoolView, q: Request, q2: Request, i: nat)
    requires q.now == q2.now && i < |v.ks|
    ensures LastAttempt(v, q, i) == LastAttempt(v, q2, i)
  {
  }

  lemma {:induction false} SameRanks(v: PoolView, q: Request, q2: Request, i: nat)
    requires q.now == q2.now && i < |v.ks| && v.rr < |v.ks|
    ensures RankOf(v, q, i) == RankOf(v, q2, i)
  {
  }

  /** An allow-list naming every key is the same as no allow-list. */
  lemma {:induction false} FullAllowListIsNil(ks: seq<KeySnap>, q: Request, i: int)
    requires q.allowed.Some? && forall k :: 0 <= k < |ks| ==> k in q.allowed.value
    ensures Eligible(ks, q, i) <==> Eligible(ks, q.(allowed := None), i)
  {
  }
}
