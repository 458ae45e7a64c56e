/** What sequences of picks guarantee: nobody starves under round-robin or exploration, and probes are rationed.
    A run is a sequence of turns; between two turns the keys may change in any way the run allows. */
module Fairness {
  import opened Wrappers
  import opened SampleWindow
  import opened KeyRecords
  import opened PoolModel

  /** One successful pick: the pool before, the request, the picked index, the pool after. */
  datatype Turn = Turn(v: PoolView, q: Request, i: nat, v': PoolView)

  // ---------------------------------------------------------------- round-robin

  /** Consecutive round-robin picks of a pool with `n` keys.  Only the cursor carries over; the keys'
      health, the exclusions and the allow-lists may change arbitrarily between turns. */
  ghost predicate RoundRobinRun(ts: seq<Turn>, n: nat) {
    && (forall t :: 0 <= t < |ts| ==>
          ts[t].v.strategy == RoundRobin && |ts[t].v.ks| == n && AcquireStep(ts[t].v, ts[t].q, ts[t].i, ts[t].v'))
    && (forall t :: 0 < t < |ts| ==> ts[t].v.rr == ts[t - 1].v'.rr)
  }

  /** How far the cursor of turn `t` is from key `k`. */
  ghost function Gap(ts: seq<Turn>, n: nat, t: nat, k: nat): nat
    requires RoundRobinRun(ts, n) && t < |ts| && k < n
  {
    assert Eligible(ts[t].v.ks, ts[t].q, ts[t].i);
    Distance(n, ts[t].v.rr, k)
  }

  lemma {:induction false} CursorMoves(n: nat, rr: nat, c: nat, k: nat)
    requires rr < n && c < n && k < n
    ensures k == c ==> Distance(n, (c + 1) % n, k) == n - 1
    ensures k != c && Distance(n, rr, c) <= Distance(n, rr, k) ==>
            Distance(n, (c + 1) % n, k) == Distance(n, rr, k) - Distance(n, rr, c) - 1
  {
    assert c + 1 < n ==> (c + 1) % n == c + 1;
    assert c + 1 == n ==> (c + 1) % n == 0;
  }

  /** A turn picks the eligible key nearest to the cursor. */
  lemma {:induction false} NearestWins(ts: seq<Turn>, n: nat, t: nat, k: nat)
    requires RoundRobinRun(ts, n) && t < |ts|
    requires Eligible(ts[t].v.ks, ts[t].q, k)
    ensures ts[t].i < n && Gap(ts, n, t, ts[t].i) <= Gap(ts, n, t, k)
    ensures ts[t].i != k ==> Gap(ts, n, t, ts[t].i) < Gap(ts, n, t, k)
  {
    var turn := ts[t];
    assert AcquireStep(turn.v, turn.q, turn.i, turn.v');
    assert !Probing(turn.v, turn.q);
    hide AfterPick, Probing;
    if turn.i != k { assert RankLess(RankOf(turn.v, turn.q, turn.i), RankOf(turn.v, turn.q, k)); }
  }

  /** The turn after picking `c` sees the cursor just behind `c`. */
  lemma {:induction false} GapAfter(ts: seq<Turn>, n: nat, t: nat, k: nat)
    requires RoundRobinRun(ts, n) && t + 1 < |ts| && k < n
    ensures ts[t].i < n
    ensures k == ts[t].i ==> Gap(ts, n, t + 1, k) == n - 1
    ensures k != ts[t].i && Gap(ts, n, t, ts[t].i) <= Gap(ts, n, t, k) ==>
            Gap(ts, n, t + 1, k) == Gap(ts, n, t, k) - Gap(ts, n, t, ts[t].i) - 1
  {
    assert AcquireStep(ts[t].v, ts[t].q, ts[t].i, ts[t].v');
    assert ts[t + 1].v.rr == ts[t].v'.rr;
    hide AfterPick, Probing, Least, Oldest;
    CursorMoves(n, ts[t].v.rr, ts[t].i, k);
  }

  lemma {:induction false} ServedWithinGap(ts: seq<Turn>, n: nat, s: nat, k: nat) returns (t: nat)
    requires RoundRobinRun(ts, n) && s < |ts| && k < n
    requires forall u :: 0 <= u < |ts| ==> Eligible(ts[u].v.ks, ts[u].q, k)
    requires s + Gap(ts, n, s, k) < |ts|
    ensures s <= t < |ts| && ts[t].i == k
    decreases |ts| - s
  {
    hide *;
    NearestWins(ts, n, s, k);
    if ts[s].i == k { return s; }
    GapAfter(ts, n, s, k);
    t := ServedWithinGap(ts, n, s + 1, k);
  }

  /** No starvation: a key that is eligible in `n` consecutive requests is picked by one of them, whatever
      happens to the other keys meanwhile. */
  lemma {:induction false} RoundRobinServes(ts: seq<Turn>, n: nat, k: nat)
    requires RoundRobinRun(ts, n) && |ts| == n && k < n
    requires forall u :: 0 <= u < |ts| ==> Eligible(ts[u].v.ks, ts[u].q, k)
    ensures exists t :: 0 <= t < n && ts[t].i == k
  {
    var t := ServedWithinGap(ts, n, 0, k);
  }

  /** The same set of keys is eligible in every turn. */
  ghost predicate SteadySet(ts: seq<Turn>, a: set<nat>) {
    forall u, k: nat :: 0 <= u < |ts| ==> (Eligible(ts[u].v.ks, ts[u].q, k) <==> k in a)
  }

  /** Members the cursor reaches before `k`. */
  ghost function Ahead(ts: seq<Turn>, n: nat, t: nat, a: set<nat>, k: nat): set<nat>
    requires RoundRobinRun(ts, n) && t < |ts| && k < n && forall j :: j in a ==> j < n
  {
    set j | j in a && Gap(ts, n, t, j) < Gap(ts, n, t, k)
  }

  lemma {:induction false} MembersInRange(ts: seq<Turn>, n: nat, a: set<nat>)
    requires RoundRobinRun(ts, n) && SteadySet(ts, a) && ts != []
    ensures forall j :: j in a ==> j < n
  {
    forall j | j in a ensures j < n { assert Eligible(ts[0].v.ks, ts[0].q, j); }
  }

  /** While `k` waits, exactly the picked key leaves its queue; once picked, everyone else is ahead of it. */
  lemma {:induction false} AheadShrinks(ts: seq<Turn>, n: nat, t: nat, a: set<nat>, k: nat)
    requires RoundRobinRun(ts, n) && SteadySet(ts, a) && t + 1 < |ts| && k in a
    requires forall j :: j in a ==> j < n
    ensures ts[t].i in a
    ensures ts[t].i != k ==> ts[t].i in Ahead(ts, n, t, a, k)
                             && Ahead(ts, n, t + 1, a, k) == Ahead(ts, n, t, a, k) - {ts[t].i}
    ensures ts[t].i == k ==> Ahead(ts, n, t, a, k) == {} && Ahead(ts, n, t + 1, a, k) == a - {k}
  {
    var c := ts[t].i;
    assert AcquireStep(ts[t].v, ts[t].q, c, ts[t].v');
    assert Eligible(ts[t].v.ks, ts[t].q, c);
    hide AcquireStep, RoundRobinRun, Eligible, Gap;
    forall j | j in a
      ensures Gap(ts, n, t, c) <= Gap(ts, n, t, j) && (j != c ==> Gap(ts, n, t, c) < Gap(ts, n, t, j))
      ensures j == c ==> Gap(ts, n, t + 1, j) == n - 1
      ensures j != c ==> Gap(ts, n, t + 1, j) == Gap(ts, n, t, j) - Gap(ts, n, t, c) - 1 < n - 1
    {
      NearestWins(ts, n, t, j);
      GapAfter(ts, n, t, j);
      GapBelow(ts, n, t, j);
    }
  }

  lemma {:induction false} GapBelow(ts: seq<Turn>, n: nat, t: nat, k: nat)
    requires RoundRobinRun(ts, n) && t < |ts| && k < n
    ensures Gap(ts, n, t, k) < n
  {
  }

  /** With a steady set, the next pick of `k` at or after turn `s` comes exactly |Ahead| turns later. */
  lemma {:induction false} NextServed(ts: seq<Turn>, n: nat, s: nat, a: set<nat>, k: nat)
    requires RoundRobinRun(ts, n) && SteadySet(ts, a) && s < |ts| && k in a
    requires forall j :: j in a ==> j < n
    ensures forall u :: s <= u < |ts| && u < s + |Ahead(ts, n, s, a, k)| ==> ts[u].i != k
    ensures s + |Ahead(ts, n, s, a, k)| < |ts| ==> ts[s + |Ahead(ts, n, s, a, k)|].i == k
    decreases |ts| - s
  {
    hide RoundRobinRun, Ahead, SteadySet;
    if s + 1 < |ts| {
      AheadShrinks(ts, n, s, a, k);
      if ts[s].i != k { NextServed(ts, n, s + 1, a, k); }
    } else {
      LastTurn(ts, n, s, a, k);
    }
  }

  lemma {:induction false} LastTurn(ts: seq<Turn>, n: nat, t: nat, a: set<nat>, k: nat)
    requires RoundRobinRun(ts, n) && SteadySet(ts, a) && t < |ts| && k in a
    requires forall j :: j in a ==> j < n
    ensures ts[t].i == k <==> |Ahead(ts, n, t, a, k)| == 0
  {
    var c := ts[t].i;
    assert AcquireStep(ts[t].v, ts[t].q, c, ts[t].v');
    assert Eligible(ts[t].v.ks, ts[t].q, c) && Eligible(ts[t].v.ks, ts[t].q, k);
    hide AcquireStep, RoundRobinRun, Eligible, Gap;
    if c == k {
      forall j | j in a ensures Gap(ts, n, t, c) <= Gap(ts, n, t, j) {
        SteadyEligible(ts, a, t, j);
        NearestWins(ts, n, t, j);
      }
      assert Ahead(ts, n, t, a, k) == {};
    } else {
      NearestWins(ts, n, t, k);
      assert c in Ahead(ts, n, t, a, k);
    }
  }

  lemma {:induction false} SteadyEligible(ts: seq<Turn>, a: set<nat>, t: nat, j: nat)
    requires SteadySet(ts, a) && t < |ts| && j in a
    ensures Eligible(ts[t].v.ks, ts[t].q, j)
  {
  }

  /** Exact fairness: with a steady eligible set A, any |A| consecutive picks hit each member exactly once. */
  lemma {:induction false} EachMemberOnce(ts: seq<Turn>, n: nat, a: set<nat>, k: nat) returns (t: nat)
    requires RoundRobinRun(ts, n) && SteadySet(ts, a) && |ts| == |a| && k in a
    ensures t < |ts| && forall u :: 0 <= u < |ts| ==> (ts[u].i == k <==> u == t)
  {
    MembersInRange(ts, n, a);
    hide *;
    AheadBound(ts, n, 0, a, k);
    t := |Ahead(ts, n, 0, a, k)|;
    NextServed(ts, n, 0, a, k);
    if t + 1 < |ts| { ReturnsAfter(ts, n, t, a, k); }
  }

  /** Once picked, a member is not picked again for |A| - 1 turns. */
  lemma {:induction false} ReturnsAfter(ts: seq<Turn>, n: nat, t: nat, a: set<nat>, k: nat)
    requires RoundRobinRun(ts, n) && SteadySet(ts, a) && t + 1 < |ts| && k in a
    requires (forall j :: j in a ==> j < n) && ts[t].i == k
    ensures forall u :: t < u < |ts| && u < t + |a| ==> ts[u].i != k
  {
    hide *;
    AheadShrinks(ts, n, t, a, k);
    MinusOne(a, k);
    NextServed(ts, n, t + 1, a, k);
  }

  lemma {:induction false} MinusOne(a: set<nat>, k: nat)
    requires k in a
    ensures |a - {k}| == |a| - 1
  {
  }

  lemma {:induction false} AheadBound(ts: seq<Turn>, n: nat, t: nat, a: set<nat>, k: nat)
    requires RoundRobinRun(ts, n) && t < |ts| && k in a && forall j :: j in a ==> j < n
    ensures |Ahead(ts, n, t, a, k)| < |a|
  {
    hide RoundRobinRun, Gap;
    SubsetSize(Ahead(ts, n, t, a, k), a - {k});
  }

  // ---------------------------------------------------------------- exploration budget

  /** Consecutive performance picks that share one exploration credit.  The turns may belong to different
      generations of the pool, use different allow-lists and see arbitrarily changed keys. */
  ghost predicate CreditRun(ts: seq<Turn>) {
    && (forall t :: 0 <= t < |ts| ==> ts[t].v.strategy.Performance? && AcquireStep(ts[t].v, ts[t].q, ts[t].i, ts[t].v'))
    && (forall t :: 0 < t < |ts| ==> ts[t].v.credit == ts[t - 1].v'.credit)
  }

  lemma {:induction false} CreditGrowsByOne(ts: seq<Turn>, a: nat, b: nat)
    requires CreditRun(ts) && a < b < |ts| && Probing(ts[a].v, ts[a].q)
    ensures ts[b].v.credit <= b - a - 1
  {
    assert AcquireStep(ts[b - 1].v, ts[b - 1].q, ts[b - 1].i, ts[b - 1].v');
    assert ts[b].v.credit == ts[b - 1].v'.credit;
    hide Probing, AfterPick, Least, Oldest, Eligible, WellFormed;
    if b > a + 1 { CreditGrowsByOne(ts, a, b - 1); }
  }

  /** The credit never leaves 0..10 when it starts there, as it does in a new pool. */
  lemma {:induction false} CreditStaysInRange(ts: seq<Turn>, t: nat)
    requires CreditRun(ts) && t < |ts| && ts[0].v.credit <= EXPLORATION_INTERVAL
    ensures ts[t].v.credit <= EXPLORATION_INTERVAL && ts[t].v'.credit <= EXPLORATION_INTERVAL
  {
    assert AcquireStep(ts[t].v, ts[t].q, ts[t].i, ts[t].v');
    hide Probing, AfterPick, Least, Oldest, Eligible, WellFormed;
    if t > 0 { CreditStaysInRange(ts, t - 1); }
  }

  /** Probes are rationed: between two probes lie at least nine other picks, the credit stays within 0..10 over the whole
      run, and every probe spends it on an idle key past its backoff. */
  lemma {:induction false} ProbesAreRationed(ts: seq<Turn>, a: nat, b: nat)
    requires CreditRun(ts) && ts != [] && ts[0].v.credit <= EXPLORATION_INTERVAL
    requires a < b < |ts| && Probing(ts[a].v, ts[a].q) && Probing(ts[b].v, ts[b].q)
    ensures b - a - 1 >= 9
    ensures forall t :: 0 <= t < |ts| ==> ts[t].v.credit <= EXPLORATION_INTERVAL && ts[t].v'.credit <= EXPLORATION_INTERVAL
    ensures ts[b].v'.credit == 0 && ts[b].i < |ts[b].v.ks| && ProbeReady(ts[b].v.ks[ts[b].i], ts[b].q.now)
  {
    forall t | 0 <= t < |ts| ensures ts[t].v.credit <= EXPLORATION_INTERVAL && ts[t].v'.credit <= EXPLORATION_INTERVAL {
      CreditStaysInRange(ts, t);
    }
    CreditGrowsByOne(ts, a, b);
    assert AcquireStep(ts[b].v, ts[b].q, ts[b].i, ts[b].v');
    hide AfterPick, Least, ProbeReady;
  }

  // ---------------------------------------------------------------- exploration does not starve

  /** Consecutive performance picks of one pool with `n` keys: the clock strictly advances, statistics are not
      reset, and nothing but a pick moves a last-attempt time.  Everything else may change between turns. */
  ghost predicate ExploringRun(ts: seq<Turn>, n: nat) {
    && CreditRun(ts)
    && (forall t :: 0 <= t < |ts| ==> |ts[t].v.ks| == n)
    && (forall t :: 0 < t < |ts| ==> ts[t - 1].q.now < ts[t].q.now)
    && (forall t, j :: 0 < t < |ts| && 0 <= j < n ==>
          |ts[t - 1].v'.ks| == n && LastAttempt(ts[t].v, ts[t].q, j) == ts[t - 1].v'.ks[j].r.explore.lastAttempt)
    && (ts != [] ==> forall j :: 0 <= j < n ==> LastAttempt(ts[0].v, ts[0].q, j) < ts[0].q.now)
  }

  /** Statistics were not reset around turn `t`: every key already has its handle's generation. */
  ghost predicate NotReset(ts: seq<Turn>) {
    forall t, j :: 0 <= t < |ts| && 0 <= j < |ts[t].v.ks| ==>
      ts[t].v.ks[j].r.explore.generation == ts[t].v.ks[j].h.generation
  }

  ghost function Last(ts: seq<Turn>, n: nat, t: nat, j: nat): int
    requires ExploringRun(ts, n) && t < |ts| && j < n
  {
    LastAttempt(ts[t].v, ts[t].q, j)
  }

  lemma {:induction false} LastMoves(ts: seq<Turn>, n: nat, t: nat, j: nat)
    requires ExploringRun(ts, n) && NotReset(ts) && t + 1 < |ts| && j < n
    ensures Last(ts, n, t + 1, j) == if j == ts[t].i then ts[t].q.now else Last(ts, n, t, j)
  {
    assert AcquireStep(ts[t].v, ts[t].q, ts[t].i, ts[t].v');
    assert LastAttempt(ts[t + 1].v, ts[t + 1].q, j) == ts[t].v'.ks[j].r.explore.lastAttempt;
    assert ts[t].v.ks[j].r.explore.generation == ts[t].v.ks[j].h.generation;
    hide Probing, Least, Oldest, WellFormed, Eligible;
    assert ts[t].v'.ks == AfterPick(ts[t].v, ts[t].q, ts[t].i);
  }

  /** Keys other than `k` that were last attempted no later than `k`. */
  ghost function Older(ts: seq<Turn>, n: nat, t: nat, k: nat): set<nat>
    requires ExploringRun(ts, n) && t < |ts| && k < n
  {
    set j | 0 <= j < n && j != k && Last(ts, n, t, j) <= Last(ts, n, t, k)
  }

  /** Turns within which `k` must be picked: up to the next full credit, then ten for each older key. */
  ghost function Patience(ts: seq<Turn>, n: nat, t: nat, k: nat): nat
    requires ExploringRun(ts, n) && t < |ts| && k < n
  {
    Max(1, EXPLORATION_INTERVAL - ts[t].v.credit) + 10 * |Older(ts, n, t, k)|
  }

  /** A turn that does not pick `k` either fills the credit or probes a key that was older than `k`. */
  lemma {:induction false} PatienceShrinks(ts: seq<Turn>, n: nat, t: nat, k: nat)
    requires ExploringRun(ts, n) && NotReset(ts) && t + 1 < |ts| && k < n
    requires Probable(ts[t].v, ts[t].q, k)
    requires Last(ts, n, t, k) < ts[t].q.now && ts[t].i != k
    ensures Patience(ts, n, t + 1, k) <= Patience(ts, n, t, k) - 1
    ensures Last(ts, n, t + 1, k) < ts[t + 1].q.now
  {
    var c := ts[t].i;
    assert AcquireStep(ts[t].v, ts[t].q, c, ts[t].v');
    assert ts[t + 1].v.credit == ts[t].v'.credit;
    assert ts[t].q.now < ts[t + 1].q.now;
    var full := Charged(ts[t].v.credit) >= EXPLORATION_INTERVAL;
    assert full <==> Probing(ts[t].v, ts[t].q);
    assert full ==> Oldest(ts[t].v, ts[t].q, c);
    assert full ==> c < n && Last(ts, n, t, c) <= Last(ts, n, t, k);
    assert full ==> c in Older(ts, n, t, k);
    hide ExploringRun, AcquireStep, Probing, Oldest, Last, NotReset, Older;
    OlderShrinks(ts, n, t, k);
    SetMinus(Older(ts, n, t, k), c);
  }

  /** A pick of another key takes that key, and nothing else, out of the keys older than `k`. */
  lemma {:induction false} OlderShrinks(ts: seq<Turn>, n: nat, t: nat, k: nat)
    requires ExploringRun(ts, n) && NotReset(ts) && t + 1 < |ts| && k < n
    requires Last(ts, n, t, k) < ts[t].q.now && ts[t].i != k
    ensures Older(ts, n, t + 1, k) == Older(ts, n, t, k) - {ts[t].i}
    ensures Last(ts, n, t + 1, k) == Last(ts, n, t, k)
  {
    hide ExploringRun, Last, NotReset;
    LastMoves(ts, n, t, k);
    forall j: nat ensures j in Older(ts, n, t + 1, k) <==> j in Older(ts, n, t, k) - {ts[t].i} {
      if j < n { LastMoves(ts, n, t, j); }
    }
  }

  lemma {:induction false} SetMinus(a: set<nat>, c: nat)
    ensures |a - {c}| == if c in a then |a| - 1 else |a|
  {
    if c !in a { assert a - {c} == a; }
  }

  lemma {:induction false} ProbedWithin(ts: seq<Turn>, n: nat, s: nat, k: nat) returns (t: nat)
    requires ExploringRun(ts, n) && NotReset(ts) && s < |ts| && k < n
    requires forall u :: 0 <= u < |ts| ==> Probable(ts[u].v, ts[u].q, k)
    requires Last(ts, n, s, k) < ts[s].q.now
    requires s + Patience(ts, n, s, k) <= |ts|
    ensures s <= t < |ts| && ts[t].i == k
    decreases |ts| - s
  {
    hide ExploringRun, NotReset, Last;
    if ts[s].i == k { return s; }
    if s + 1 < |ts| {
      PatienceShrinks(ts, n, s, k);
      t := ProbedWithin(ts, n, s + 1, k);
    } else {
      ProbeTakesOlder(ts, n, s, k);
      assert false;
    }
  }

  /** A probing turn takes `k` or a key that was older than `k`. */
  lemma {:induction false} ProbeTakesOlder(ts: seq<Turn>, n: nat, t: nat, k: nat)
    requires ExploringRun(ts, n) && t < |ts| && k < n
    requires Probable(ts[t].v, ts[t].q, k) && Charged(ts[t].v.credit) >= EXPLORATION_INTERVAL
    ensures ts[t].i == k || ts[t].i in Older(ts, n, t, k)
  {
    assert AcquireStep(ts[t].v, ts[t].q, ts[t].i, ts[t].v');
    assert Probing(ts[t].v, ts[t].q);
    assert Oldest(ts[t].v, ts[t].q, ts[t].i);
    hide AfterPick, Least, ProbeReady, Synced;
  }

  /** No starvation: a key that stays eligible, idle, past its backoff and due in each of 10*n consecutive
      performance picks of a pool with n keys is picked by one of them. */
  lemma {:induction false} ExplorationServes(ts: seq<Turn>, n: nat, k: nat)
    requires ExploringRun(ts, n) && NotReset(ts) && k < n && |ts| == 10 * n
    requires forall u :: 0 <= u < |ts| ==> Probable(ts[u].v, ts[u].q, k)
    ensures exists t :: 0 <= t < |ts| && ts[t].i == k
  {
    SubsetSize(Older(ts, n, 0, k), Below(n) - {k});
    var t := ProbedWithin(ts, n, 0, k);
  }

  ghost function Below(n: nat): (r: set<nat>)
    ensures |r| == n && forall j: nat :: j in r <==> j < n
  {
    if n == 0 then {} else Below(n - 1) + {n - 1}
  }
}
