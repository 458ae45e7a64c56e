/** Statistics written behind the traffic as deltas against a baseline: every attempt is stored exactly once. */
module StatsPersister {
  import opened Wrappers
  import opened RuntimeStats
  import opened KeyRecords
  import opened FileStore

  type Snapshot = map<Id, Stats>

  // ---------------------------------------------------------------- deltas between two snapshots

  /** What is written for a key: its change since the baseline, or all of it without a usable baseline. */
  function DeltaFor(cur: Stats, prev: Option<Stats>): Stats {
    match prev
    case None => cur
    case Some(p) => (match DeltaSince(cur, p) case Some(d) => d case None => cur)
  }

  function Lookup(m: Snapshot, id: Id): Option<Stats> { if id in m then Some(m[id]) else None }

  ghost predicate Distinct(deltas: seq<(Id, Stats)>) {
    forall i, j :: 0 <= i < j < |deltas| ==> deltas[i].0 != deltas[j].0
  }

  /** The deltas of the keys in `done`: one per key that has something to write. */
  ghost predicate DeltasOf(deltas: seq<(Id, Stats)>, current: Snapshot, previous: Snapshot, done: set<Id>) {
    && Distinct(deltas)
    && (forall i :: 0 <= i < |deltas| ==>
          deltas[i].0 in current && deltas[i].0 in done && !IsZero(deltas[i].1)
          && deltas[i].1 == DeltaFor(current[deltas[i].0], Lookup(previous, deltas[i].0)))
    && (forall id :: id in current && id in done && !IsZero(DeltaFor(current[id], Lookup(previous, id))) ==>
          exists i :: 0 <= i < |deltas| && deltas[i].0 == id)
  }

  /** Keys of the previous baseline that are not in the new snapshot keep their baseline. */
  method BuildRuntimeStatsDeltas(current: Snapshot, previous: Snapshot) returns (deltas: seq<(Id, Stats)>, next: Snapshot)
    ensures DeltasOf(deltas, current, previous, current.Keys)
    ensures next == previous + current
  {
    hide DeltaSince, IsZero;
    deltas := [];
    var rest := current.Keys;
    while rest != {}
      invariant rest <= current.Keys && DeltasOf(deltas, current, previous, current.Keys - rest)
    {
      var id :| id in rest;
      var entry: Option<Stats>;
      if id !in previous {
        entry := if IsZero(current[id]) then None else Some(current[id]);
      } else {
        var delta := DeltaSince(current[id], previous[id]);
        if delta.None? {
          entry := if IsZero(current[id]) then None else Some(current[id]);
        } else {
          entry := if IsZero(delta.value) then None else delta;
        }
      }
      DeltaOne(deltas, current, previous, current.Keys - rest, id);
      assert current.Keys - (rest - {id}) == current.Keys - rest + {id};
      rest := rest - {id};
      if entry.Some? { deltas := deltas + [(id, entry.value)]; }
    }
    assert current.Keys - rest == current.Keys;
    next := current;
    var gone := previous.Keys;
    while gone != {}
      invariant gone <= previous.Keys && next == (previous - gone) + current
    {
      var id :| id in gone;
      gone := gone - {id};
      if id !in next { next := next[id := previous[id]]; }
    }
  }

  lemma {:induction false} DeltaOne(deltas: seq<(Id, Stats)>, current: Snapshot, previous: Snapshot, done: set<Id>, id: Id)
    requires DeltasOf(deltas, current, previous, done) && id in current && id !in done
    ensures var d := DeltaFor(current[id], Lookup(previous, id));
            DeltasOf(if IsZero(d) then deltas else deltas + [(id, d)], current, previous, done + {id})
  {
    hide DeltaFor, IsZero;
    var d := DeltaFor(current[id], Lookup(previous, id));
    var deltas' := if IsZero(d) then deltas else deltas + [(id, d)];
    forall k | k in current && k in done + {id} && !IsZero(DeltaFor(current[k], Lookup(previous, k)))
      ensures exists i :: 0 <= i < |deltas'| && deltas'[i].0 == k
    {
      if k == id { assert deltas'[|deltas|].0 == k; }
      else {
        var i :| 0 <= i < |deltas| && deltas[i].0 == k;
        assert deltas'[i].0 == k;
      }
    }
  }

  lemma {:induction false} DeltaAddsUp(d: Data, key: Id, delta: Stats, id: Id)
    requires id in d
    ensures DeltaApplied(d, key, delta).Keys == d.Keys
    ensures DeltaApplied(d, key, delta)[id].stats.c == if key == id then Plus(d[id].stats.c, delta.c) else d[id].stats.c
  {
    hide NormalizeError;
  }

  /** Writing the deltas adds to each stored key exactly its delta. */
  lemma {:induction false} DeltasAddUp(d: Data, deltas: seq<(Id, Stats)>, id: Id)
    requires Distinct(deltas) && id in d
    ensures DeltasApplied(d, deltas).Keys == d.Keys
    ensures forall i :: 0 <= i < |deltas| && deltas[i].0 == id ==>
              DeltasApplied(d, deltas)[id].stats.c == Plus(d[id].stats.c, deltas[i].1.c)
    ensures (forall i :: 0 <= i < |deltas| ==> deltas[i].0 != id) ==> DeltasApplied(d, deltas)[id].stats.c == d[id].stats.c
  {
    hide DeltaApplied, Plus;
    if deltas != [] {
      var n := |deltas| - 1;
      assert forall i, j :: 0 <= i < j < n ==> deltas[..n][i].0 != deltas[..n][j].0;
      DeltasAddUp(d, deltas[..n], id);
      assert forall i :: 0 <= i < n ==> deltas[..n][i] == deltas[i];
      DeltaAddsUp(DeltasApplied(d, deltas[..n]), deltas[n].0, deltas[n].1, id);
    }
  }

  // ---------------------------------------------------------------- the running system

  /** The persister's lock is free, held by a flush that has captured some keys, or by a reset that still has to drop baselines. */
  datatype Phase = Free | Capturing(captured: Snapshot) | Clearing(vendor: string)

  datatype System = System(live: Snapshot, stored: Data, last: Snapshot, phase: Phase)

  datatype Event =
    | Settle(id: Id, tally: Tally)
    | Refresh(id: Id)
    | AddKey(id: Id)
    | Join(id: Id)
    | StartFlush
    | Capture(id: Id)
    | Commit(written: bool)
    | Reset(vendor: string, written: bool)
    | ClearBaseline

  predicate Covers(vendor: string, id: Id) { vendor == "" || id.0 == vendor }

  ghost function Cleared(m: Snapshot, vendor: string): Snapshot { map id | id in m && !Covers(vendor, id) :: m[id] }

  ghost function Zeroed(m: Snapshot, vendor: string): Snapshot {
    map id | id in m :: if Covers(vendor, id) then NO_STATS else m[id]
  }

  /** The end of a flush: nothing to write, everything written in one save, or nothing written and the baseline kept. */
  ghost predicate Commits(s: System, t: System, written: bool, deltas: seq<(Id, Stats)>)
    requires s.phase.Capturing?
  {
    && DeltasOf(deltas, s.phase.captured, s.last, s.phase.captured.Keys)
    && t == if deltas == [] then s.(last := s.last + s.phase.captured, phase := Free)
            else if written then System(s.live, DeltasApplied(s.stored, deltas), s.last + s.phase.captured, Free)
            else s.(phase := Free)
  }

  /** One atomic step. Requests settle at any time; a key may be created, or join with a handle made from statistics
      that are already stored, when its vendor is configured later; a flush captures keys one by one and then writes once; a reset
      stores and zeroes under the statistics locks and drops the baselines afterwards. */
  ghost predicate Step(s: System, e: Event, t: System) {
    match e
    case Settle(id, tally) =>
      id in s.live && id in t.live && t.live[id].c == Plus(s.live[id].c, Unit(tally)) && t == s.(live := s.live[id := t.live[id]])
    case Refresh(id) =>
      id in s.live && id in t.live && t.live[id].c == s.live[id].c && t == s.(live := s.live[id := t.live[id]])
    case AddKey(id) =>
      id !in s.live && id !in s.stored && id !in s.last && (s.phase.Capturing? ==> id !in s.phase.captured)
      && t == s.(live := s.live[id := NO_STATS], stored := s.stored[id := NEW_RECORD])
    case Join(id) =>
      id !in s.live && id in s.stored && id !in s.last && (s.phase.Capturing? ==> id !in s.phase.captured)
      && id in t.live && t.live[id].c == s.stored[id].stats.c && t == s.(live := s.live[id := t.live[id]])
    case StartFlush => s.phase == Free && t == s.(phase := Capturing(map[]))
    case Capture(id) =>
      s.phase.Capturing? && id in s.live && id !in s.phase.captured
      && t == s.(phase := Capturing(s.phase.captured[id := s.live[id]]))
    case Commit(written) =>
      && s.phase.Capturing?
      && exists deltas :: Commits(s, t, written, deltas)
    case Reset(vendor, written) =>
      s.phase == Free
      && t == if written then
                System(Zeroed(s.live, vendor), StatsReset(s.stored, vendor), s.last, Clearing(vendor))
              else s
    case ClearBaseline => s.phase.Clearing? && t == s.(last := Cleared(s.last, s.phase.vendor), phase := Free)
  }

  ghost predicate Run(ss: seq<System>, es: seq<Event>) {
    |ss| == |es| + 1 && forall i :: 0 <= i < |es| ==> Step(ss[i], es[i], ss[i + 1])
  }

  /** The independent account: what a key's counters should be, from the trace alone. */
  ghost function Expected(start: Counters, es: seq<Event>, id: Id): Counters {
    if es == [] then start
    else
      var before := Expected(start, es[..|es| - 1], id);
      match es[|es| - 1]
      case Settle(k, tally) => if k == id then Plus(before, Unit(tally)) else before
      case Reset(vendor, written) => if written && Covers(vendor, id) then NO_COUNTS else before
      case _ => before
  }

  /** The counters already accounted for in the store: a baseline about to be dropped no longer counts. */
  ghost function Baseline(s: System, id: Id): Counters {
    if id !in s.last || (s.phase.Clearing? && Covers(s.phase.vendor, id)) then NO_COUNTS else s.last[id].c
  }

  ghost function Account(s: System, id: Id): Counters
    requires id in s.live && id in s.stored
  {
    Plus(s.stored[id].stats.c, Minus(s.live[id].c, Baseline(s, id)))
  }

  ghost predicate Monotone(s: System, id: Id) {
    && id in s.live && id in s.stored
    && Leq(NO_COUNTS, Baseline(s, id)) && Leq(Baseline(s, id), s.live[id].c)
    && (s.phase.Capturing? && id in s.phase.captured ==>
          Leq(Baseline(s, id), s.phase.captured[id].c) && Leq(s.phase.captured[id].c, s.live[id].c))
  }

  /** What one step does to the account of a key. */
  ghost function AccountAfter(before: Counters, e: Event, id: Id): Counters {
    match e
    case Settle(k, tally) => if k == id then Plus(before, Unit(tally)) else before
    case Reset(vendor, written) => if written && Covers(vendor, id) then NO_COUNTS else before
    case _ => before
  }

  /** The delta of a monotone key is the plain difference: the branch for counters that went backwards is not taken. */
  lemma {:induction false} DeltaIsDifference(s: System, id: Id)
    requires Monotone(s, id) && s.phase.Capturing? && id in s.phase.captured
    ensures id in s.last ==> DeltaSince(s.phase.captured[id], s.last[id]).Some?
    ensures DeltaFor(s.phase.captured[id], Lookup(s.last, id)).c == Minus(s.phase.captured[id].c, Baseline(s, id))
  {
  }

  lemma {:induction false} CommitMoves(s: System, t: System, written: bool, deltas: seq<(Id, Stats)>, id: Id)
    requires s.phase.Capturing? && id in s.stored && Commits(s, t, written, deltas)
    ensures id in t.stored && t.live == s.live && t.phase == Free
    ensures || (t.stored[id].stats.c == s.stored[id].stats.c && (id in t.last <==> id in s.last) && (id in s.last ==> t.last[id] == s.last[id]))
            || (id in s.phase.captured && id in t.last && t.last[id] == s.phase.captured[id]
                && t.stored[id].stats.c == Plus(s.stored[id].stats.c, DeltaFor(s.phase.captured[id], Lookup(s.last, id)).c))
  {
    hide DeltaFor, DeltasApplied;
    DeltasAddUp(s.stored, deltas, id);
  }

  lemma {:induction false} CommitKeepsAccount(s: System, t: System, written: bool, deltas: seq<(Id, Stats)>, id: Id)
    requires Monotone(s, id) && s.phase.Capturing? && Commits(s, t, written, deltas)
    ensures Monotone(t, id) && Account(t, id) == Account(s, id)
  {
    hide DeltaFor, Commits, DeltasOf;
    CommitMoves(s, t, written, deltas, id);
    if id in s.phase.captured { DeltaIsDifference(s, id); }
  }

  lemma {:induction false} ResetKeepsAccount(s: System, t: System, vendor: string, written: bool, id: Id)
    requires Monotone(s, id) && Step(s, Reset(vendor, written), t)
    ensures Monotone(t, id) && Account(t, id) == AccountAfter(Account(s, id), Reset(vendor, written), id)
  {
    hide Plus, DeltasOf;
    assert forall a, b :: a == b ==> Leq(a, b);
    assert Covers(vendor, id) && written ==> Plus(NO_COUNTS, Minus(NO_COUNTS, NO_COUNTS)) == NO_COUNTS by { PlusNothing(); }
  }

  lemma {:induction false} PlusNothing()
    ensures Plus(NO_COUNTS, Minus(NO_COUNTS, NO_COUNTS)) == NO_COUNTS
  {
  }

  lemma {:induction false} TrafficKeepsAccount(s: System, e: Event, t: System, id: Id)
    requires Monotone(s, id) && Step(s, e, t) && (e.Settle? || e.Refresh? || e.AddKey? || e.Join?)
    ensures Monotone(t, id) && Account(t, id) == AccountAfter(Account(s, id), e, id)
  {
    hide Covers;
  }

  lemma {:induction false} FlushKeepsAccount(s: System, e: Event, t: System, id: Id)
    requires Monotone(s, id) && Step(s, e, t) && (e.StartFlush? || e.Capture? || e.ClearBaseline?)
    ensures Monotone(t, id) && Account(t, id) == AccountAfter(Account(s, id), e, id)
  {
    hide Covers;
  }

  lemma {:induction false} CommittedDeltas(s: System, t: System, written: bool) returns (deltas: seq<(Id, Stats)>)
    requires Step(s, Commit(written), t)
    ensures s.phase.Capturing? && Commits(s, t, written, deltas)
  {
    deltas :| Commits(s, t, written, deltas);
  }

  lemma {:induction false} StepKeepsAccount(s: System, e: Event, t: System, id: Id)
    requires Monotone(s, id) && Step(s, e, t)
    ensures Monotone(t, id) && Account(t, id) == AccountAfter(Account(s, id), e, id)
  {
    hide Step, Monotone, Account;
    if e.Commit? {
      var deltas := CommittedDeltas(s, t, e.written);
      hide Commits;
      CommitKeepsAccount(s, t, e.written, deltas, id);
    } else if e.Reset? { ResetKeepsAccount(s, t, e.vendor, e.written, id); }
    else if e.Settle? || e.Refresh? || e.AddKey? || e.Join? { TrafficKeepsAccount(s, e, t, id); }
    else { FlushKeepsAccount(s, e, t, id); }
  }

  lemma {:induction false} RunKeepsAccount(ss: seq<System>, es: seq<Event>, id: Id)
    requires Run(ss, es) && Monotone(ss[0], id)
    ensures Monotone(ss[|es|], id) && Account(ss[|es|], id) == Expected(Account(ss[0], id), es, id)
    decreases |es|
  {
    hide Step, Monotone, Account;
    if es != [] {
      var n := |es| - 1;
      assert Run(ss[..n + 1], es[..n]) by {
        forall i | 0 <= i < n ensures Step(ss[..n + 1][i], es[..n][i], ss[..n + 1][i + 1]) { assert Step(ss[i], es[i], ss[i + 1]); }
      }
      RunKeepsAccount(ss[..n + 1], es[..n], id);
      assert Step(ss[n], es[n], ss[n + 1]);
      StepKeepsAccount(ss[n], es[n], ss[n + 1], id);
    }
  }

  // ---------------------------------------------------------------- conservation

  /** Statistics are conserved. For a key the persister knew at its start, after any run of settlements, failing and
      succeeding flushes and resets: what is stored plus what is live beyond the baseline is what the trace says. */
  lemma {:induction false} StatisticsAreConserved(ss: seq<System>, es: seq<Event>, id: Id)
    requires Run(ss, es) && ss[0].phase == Free
    requires id in ss[0].live && id in ss[0].stored && Lookup(ss[0].last, id) == Some(ss[0].live[id]) && Leq(NO_COUNTS, ss[0].live[id].c)
    ensures var s := ss[|es|];
            id in s.live && id in s.stored && Account(s, id) == Expected(ss[0].stored[id].stats.c, es, id)
    ensures ss[|es|].live[id].c == Baseline(ss[|es|], id) ==>
              ss[|es|].stored[id].stats.c == Expected(ss[0].stored[id].stats.c, es, id)
  {
    RunKeepsAccount(ss, es, id);
    hide Run, Expected;
  }

  /** The same for a key created while the persister runs. */
  lemma {:induction false} AddedKeyIsConserved(ss: seq<System>, es: seq<Event>, id: Id)
    requires Run(ss, es) && es != [] && es[0] == AddKey(id)
    ensures var s := ss[|es|]; id in s.live && id in s.stored && Account(s, id) == Expected(NO_COUNTS, es[1..], id)
  {
    hide Step, Expected, Monotone, Account;
    assert Step(ss[0], es[0], ss[1]);
    TailRun(ss, es);
    AddedAccount(ss[0], ss[1], id);
    hide Run;
    RunKeepsAccount(ss[1..], es[1..], id);
    MonotoneKnown(ss[|es|], id);
  }

  lemma {:induction false} TailRun(ss: seq<System>, es: seq<Event>)
    requires Run(ss, es) && es != []
    ensures Run(ss[1..], es[1..]) && ss[1..][|es| - 1] == ss[|es|]
  {
    hide Step;
    forall i | 0 <= i < |es| - 1 ensures Step(ss[1..][i], es[1..][i], ss[1..][i + 1]) { assert Step(ss[i + 1], es[i + 1], ss[i + 2]); }
  }

  lemma {:induction false} MonotoneKnown(s: System, id: Id)
    requires Monotone(s, id)
    ensures id in s.live && id in s.stored
  {
  }

  lemma {:induction false} AddedAccount(s: System, t: System, id: Id)
    requires Step(s, AddKey(id), t)
    ensures id in t.live && id in t.stored && Monotone(t, id) && Account(t, id) == NO_COUNTS
  {
  }

  /** In no run does a flush meet a counter that went backwards. */
  lemma {:induction false} NeverBackwards(ss: seq<System>, es: seq<Event>, id: Id)
    requires Run(ss, es) && Monotone(ss[0], id)
    requires ss[|es|].phase.Capturing? && id in ss[|es|].phase.captured && id in ss[|es|].last
    ensures DeltaSince(ss[|es|].phase.captured[id], ss[|es|].last[id]).Some?
  {
    RunKeepsAccount(ss, es, id);
    DeltaIsDifference(ss[|es|], id);
  }

  /** The attempts of a key since the last successful reset that covers it, and whether there was one. */
  ghost function Attempts(es: seq<Event>, id: Id): seq<Tally> {
    if es == [] then []
    else match es[|es| - 1]
      case Settle(k, tally) => if k == id then Attempts(es[..|es| - 1], id) + [tally] else Attempts(es[..|es| - 1], id)
      case Reset(vendor, written) => if written && Covers(vendor, id) then [] else Attempts(es[..|es| - 1], id)
      case _ => Attempts(es[..|es| - 1], id)
  }

  ghost predicate WasReset(es: seq<Event>, id: Id) {
    exists i :: 0 <= i < |es| && es[i].Reset? && es[i].written && Covers(es[i].vendor, id)
  }

  lemma {:induction false} WasResetStep(es: seq<Event>, id: Id)
    requires es != []
    ensures var n := |es| - 1;
            WasReset(es, id) <==> WasReset(es[..n], id) || (es[n].Reset? && es[n].written && Covers(es[n].vendor, id))
  {
    hide Covers;
    var n := |es| - 1;
    assert forall i :: 0 <= i < n ==> es[..n][i] == es[i];
    if WasReset(es[..n], id) {
      var i :| 0 <= i < n && es[..n][i].Reset? && es[..n][i].written && Covers(es[..n][i].vendor, id);
      assert es[i].Reset? && es[i].written && Covers(es[i].vendor, id);
    }
  }

  /** Each attempt is accounted exactly once: the account is the tally of the attempts since the last reset. */
  lemma {:induction false} ExpectedIsTally(start: Counters, es: seq<Event>, id: Id)
    ensures Expected(start, es, id) == Settled(if WasReset(es, id) then NO_COUNTS else start, Attempts(es, id))
  {
    hide Unit, Plus, Covers, WasReset;
    if es == [] {
      NeverReset(id);
    } else {
      var n := |es| - 1;
      ExpectedIsTally(start, es[..n], id);
      WasResetStep(es, id);
      var before := Attempts(es[..n], id);
      if es[n].Settle? { assert (before + [es[n].tally])[..|before|] == before; }
    }
  }

  /** What conservation means counter by counter: what is stored and not yet flushed of a key is, over what was stored at the
      start or over nothing after a reset, one for each of its attempts since, in the counter of its kind. */
  lemma {:induction false} ConservedByKind(ss: seq<System>, es: seq<Event>, id: Id)
    requires Run(ss, es) && ss[0].phase == Free
    requires id in ss[0].live && id in ss[0].stored && Lookup(ss[0].last, id) == Some(ss[0].live[id]) && Leq(NO_COUNTS, ss[0].live[id].c)
    ensures var s, start := ss[|es|], if WasReset(es, id) then NO_COUNTS else ss[0].stored[id].stats.c;
            && id in s.live && id in s.stored && Tells(Account(s, id), start, Attempts(es, id))
            && (s.live[id].c == Baseline(s, id) ==> Tells(s.stored[id].stats.c, start, Attempts(es, id)))
  {
    hide Step, Account, Baseline, Expected, Attempts, WasReset, Tells, Settled;
    StatisticsAreConserved(ss, es, id);
    ExpectedIsTally(ss[0].stored[id].stats.c, es, id);
    CountersTell(if WasReset(es, id) then NO_COUNTS else ss[0].stored[id].stats.c, Attempts(es, id));
  }

  lemma {:induction false} NeverReset(id: Id)
    ensures !WasReset([], id)
  {
  }

  /** A reset of one vendor touches nothing of the others, in the store, in memory or in the baseline. */
  lemma {:induction false} VendorResetLeavesOthers(s: System, t: System, u: System, vendor: string, id: Id)
    requires Step(s, Reset(vendor, true), t) && Step(t, ClearBaseline, u) && !Covers(vendor, id)
    ensures Lookup(u.live, id) == Lookup(s.live, id) && Lookup(u.last, id) == Lookup(s.last, id)
    ensures (id in u.stored <==> id in s.stored) && (id in s.stored ==> u.stored[id] == s.stored[id])
  {
  }

  lemma {:induction false} SettledFrom(start: Counters, ts: seq<Tally>)
    ensures Settled(start, ts) == Plus(start, Settled(NO_COUNTS, ts))
  {
    hide Unit;
    if ts != [] { SettledFrom(start, ts[..|ts| - 1]); }
  }

  lemma {:induction false} StartMatters(a: Counters, b: Counters, ts: seq<Tally>)
    ensures Settled(a, ts) == Settled(b, ts) <==> a == b
  {
    SettledFrom(a, ts);
    SettledFrom(b, ts);
    hide Settled;
  }

  lemma {:induction false} JoinedAccount(s: System, t: System, id: Id)
    requires Step(s, Join(id), t) && Leq(NO_COUNTS, s.stored[id].stats.c)
    ensures id in t.live && id in t.stored && t.stored[id].stats.c == s.stored[id].stats.c
    ensures Monotone(t, id) && Account(t, id) == Plus(s.stored[id].stats.c, s.stored[id].stats.c)
    ensures Account(t, id) == s.stored[id].stats.c <==> s.stored[id].stats.c == NO_COUNTS
  {
  }

  /** A key that joins with statistics already stored has no baseline, so they count as new. After every run the account
      is the expected one if and only if they were zero or a reset of the key has succeeded since. */
  lemma {:induction false} JoinedKeyIsConservedIff(ss: seq<System>, es: seq<Event>, id: Id)
    requires Run(ss, es) && es != [] && es[0] == Join(id) && id in ss[0].stored && Leq(NO_COUNTS, ss[0].stored[id].stats.c)
    ensures var start, s := ss[0].stored[id].stats.c, ss[|es|];
            && id in s.live && id in s.stored
            && Account(s, id) == Expected(Plus(start, start), es[1..], id)
            && (Account(s, id) == Expected(start, es[1..], id) <==> start == NO_COUNTS || WasReset(es[1..], id))
  {
    hide Step, Expected, Monotone, Account, WasReset, Attempts, Settled;
    assert Step(ss[0], es[0], ss[1]);
    TailRun(ss, es);
    JoinedAccount(ss[0], ss[1], id);
    hide Run;
    RunKeepsAccount(ss[1..], es[1..], id);
    MonotoneKnown(ss[|es|], id);
    var start := ss[0].stored[id].stats.c;
    ExpectedIsTally(start, es[1..], id);
    ExpectedIsTally(Plus(start, start), es[1..], id);
    StartMatters(Plus(start, start), start, Attempts(es[1..], id));
    PlusSelf(start);
  }

  lemma {:induction false} PlusSelf(c: Counters)
    ensures Plus(c, c) == c <==> c == NO_COUNTS
  {
  }

  /** The next successful flush stores the counters of such a key a second time. */
  lemma {:induction false} LateBaselineDoubles(s: System, t: System, deltas: seq<(Id, Stats)>, id: Id)
    requires s.phase.Capturing? && id in s.stored && id !in s.last && id in s.phase.captured
    requires s.phase.captured[id].c == s.stored[id].stats.c
    requires Commits(s, t, true, deltas)
    ensures id in t.stored && t.stored[id].stats.c == Plus(s.stored[id].stats.c, s.stored[id].stats.c)
  {
    hide DeltasApplied, Plus;
    DeltasAddUp(s.stored, deltas, id);
    PlusSelf(s.stored[id].stats.c);
  }
}
