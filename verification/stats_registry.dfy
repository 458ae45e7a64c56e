/** One statistics handle per vendor id and key, shared by router generations, and the persister that writes them out. */
module StatsRegistry {
  import opened Wrappers
  import opened RuntimeStats
  import opened FileStore
  import opened StatsHandle
  import opened StatsPersister
  import W = SampleWindow

  class Registry {
    var handles: map<Id, RuntimeStatsHandle>

    ghost predicate Valid()
      reads this, handles.Values, set id | id in handles :: handles[id].window
    {
      && (forall id :: id in handles ==> handles[id].Valid())
      && (forall a, b :: a in handles && b in handles && a != b ==> handles[a] != handles[b] && handles[a].window != handles[b].window)
    }

    constructor ()
      ensures Valid() && handles == map[]
    {
      handles := map[];
    }

    /** The handle of a key; a live one is returned as it is, whatever baseline the caller read. */
    method Handle(vendor: string, key: string, baseline: Stats) returns (h: RuntimeStatsHandle)
      requires Valid()
      modifies this
      ensures Valid() && h.Valid()
      ensures var id := (Trim(vendor), Trim(key));
              if id.0 == "" || id.1 == "" then handles == old(handles) && fresh(h) && h.View() == W.FromBaseline(baseline)
              else if id in old(handles) then handles == old(handles) && h == handles[id]
              else handles == old(handles)[id := h] && fresh(h) && h.View() == W.FromBaseline(baseline)
    {
      hide Trim, W.FromBaseline, W.Consistent, Ordered;
      var id := (Trim(vendor), Trim(key));
      if id.0 != "" && id.1 != "" && id in handles { return handles[id]; }
      h := new RuntimeStatsHandle(baseline);
      if id.0 != "" && id.1 != "" { handles := handles[id := h]; }
    }

    /** Bulk reset of one vendor, or of everything, including handles of keys no router publishes any more. */
    method Reset(vendor: string, persisted: bool) returns (ok: bool)
      requires Valid()
      modifies handles.Values
      ensures Valid() && ok == persisted
      ensures forall id :: id in handles ==>
        handles[id].View() == if persisted && Covers(vendor, id) then W.Reset(old(handles[id].View())) else old(handles[id].View())
      ensures forall id :: id in handles ==>
        handles[id].stats == if persisted && Covers(vendor, id) then NO_STATS else old(handles[id].stats)
    {
      hide W.Reset, W.Consistent, Ordered, RuntimeStatsHandle.View, RuntimeStatsHandle.Valid;
      var chosen: seq<RuntimeStatsHandle> := [];
      var rest := handles.Keys;
      while rest != {}
        invariant rest <= handles.Keys
        invariant forall id :: id in handles ==> (handles[id] in chosen <==> id !in rest && Covers(vendor, id))
        invariant forall k :: 0 <= k < |chosen| ==> exists id :: id in handles && handles[id] == chosen[k]
      {
        var id :| id in rest;
        rest := rest - {id};
        if Covers(vendor, id) { chosen := chosen + [handles[id]]; }
      }
      ok := ResetRuntimeStats(chosen, persisted);
      ResetClears();
    }
  }

  lemma {:induction false} ResetClears()
    ensures forall h :: W.Reset(h).stats == NO_STATS
  {
  }

  class Persister {
    const store: Store
    const registry: Registry
    var last: Snapshot
    var closed: bool

    /** What the handles hold now. */
    ghost function Live(): Snapshot
      reads registry, registry.handles.Values
    {
      map id | id in registry.handles :: registry.handles[id].stats
    }

    /** The abstract state between operations. */
    ghost function Idle(): System
      reads this, store, registry, registry.handles.Values
    {
      System(Live(), store.data, last, Free)
    }

    constructor (s: Store, r: Registry)
      ensures store == s && registry == r && !closed
      ensures Idle() == System(Live(), s.data, Live(), Free)
    {
      store, registry, closed := s, r, false;
      last := map id | id in r.handles :: r.handles[id].stats;
    }

    /** Statistics of the keys the published router uses. */
    method CaptureRuntimeStats(published: set<Id>) returns (current: Snapshot)
      ensures current == map id | id in registry.handles && id in published :: registry.handles[id].stats
    {
      current := map id | id in registry.handles && id in published :: registry.handles[id].stats;
    }

    /** One flush: the deltas are saved in one step, and the baseline moves on only if that succeeded. */
    method FlushLocked(published: set<Id>, written: bool) returns (ok: bool)
      modifies this`last, store
      ensures Live() == old(Live())
      ensures forall id :: Monotone(old(Idle()), id) ==>
        Monotone(Idle(), id) && Account(Idle(), id) == Account(old(Idle()), id)
      ensures ok ==> forall id :: id in published && id in registry.handles ==> Lookup(last, id) == Some(registry.handles[id].stats)
      ensures !ok ==> !written && last == old(last) && store.data == old(store.data)
    {
      hide Monotone, Account, DeltasOf, IsZero, DeltasApplied;
      ghost var before := Idle();
      var current := CaptureRuntimeStats(published);
      var deltas, next := BuildRuntimeStatsDeltas(current, last);
      ok := true;
      if deltas != [] {
        var r := store.ApplyRuntimeStatsDeltas(deltas, written);
        ok := r.Done?;
      }
      if ok { last := next; }
      FlushIsCommit(before, current, deltas, ok, Idle());
    }

    /** Store and memory are reset together or not at all; afterwards the covered keys count from zero. */
    method Reset(vendor: string, written: bool) returns (ok: bool, count: nat)
      requires registry.Valid()
      modifies this`last, store, registry.handles.Values
      ensures registry.Valid()
      ensures Live() == if ok then Zeroed(old(Live()), Trim(vendor)) else old(Live())
      ensures store.data == if ok then StatsReset(old(store.data), Trim(vendor)) else old(store.data)
      ensures last == if ok then Cleared(old(last), Trim(vendor)) else old(last)
      ensures !ok ==> closed || !written
    {
      hide Trim, W.Reset, StatsReset, Zeroed, Covers, RuntimeStatsHandle.View, RuntimeStatsHandle.Valid, Registry.Valid;
      if closed { return false, 0; }
      var v := Trim(vendor);
      TrimIdempotent(vendor);
      ghost var live := Live();
      var r := store.ResetRuntimeStats(v, written);
      ok := registry.Reset(v, r.Done?);
      AfterReset(live, Live(), v, ok);
      if !ok { return false, 0; }
      last := map id | id in last && !Covers(v, id) :: last[id];
      count := r.count;
    }
  }

  lemma {:induction false} AfterReset(live: Snapshot, live': Snapshot, vendor: string, ok: bool)
    requires live'.Keys == live.Keys
    requires forall id :: id in live ==> live'[id] == if ok && Covers(vendor, id) then NO_STATS else live[id]
    ensures live' == if ok then Zeroed(live, vendor) else live
  {
  }

  /** A flush seen from outside is a commit of what it captured, so it keeps every account. */
  lemma {:induction false} FlushIsCommit(before: System, current: Snapshot, deltas: seq<(Id, Stats)>, ok: bool, after: System)
    requires before.phase == Free && (forall id :: id in current ==> id in before.live && current[id] == before.live[id])
    requires DeltasOf(deltas, current, before.last, current.Keys)
    requires after == if !ok then before
                      else System(before.live, if deltas == [] then before.stored else DeltasApplied(before.stored, deltas),
                                  before.last + current, Free)
    requires deltas == [] ==> ok
    ensures forall id :: Monotone(before, id) ==> Monotone(after, id) && Account(after, id) == Account(before, id)
  {
    var s := before.(phase := Capturing(current));
    assert Commits(s, after, ok, deltas) by { hide DeltasOf, DeltasApplied; }
    forall id | Monotone(before, id) ensures Monotone(after, id) && Account(after, id) == Account(before, id) {
      assert Monotone(s, id) && Account(s, id) == Account(before, id) by { hide Plus, DeltasOf; }
      hide Monotone, Account, Commits;
      CommitKeepsAccount(s, after, ok, deltas, id);
    }
  }
}
