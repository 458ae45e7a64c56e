/** The key pool of one vendor: picking, settling and sharing live key state between router generations. */
module Pool {
  import opened Wrappers
  import opened RuntimeStats
  import opened SampleWindow
  import opened KeyRecords
  import opened PoolModel
  import opened Pickers
  import opened Ranking
  import opened StatsHandle

  /** Credit shared by overlapping generations of a pool. */
  class Exploration {
    var credit: nat

    constructor ()
      ensures credit == 0
    {
      credit := 0;
    }
  }

  /** A key's live state; retained keys are shared, not copied, between generations. */
  class KeyState {
    var st: KeyRecord
    const stats: RuntimeStatsHandle

    constructor (st: KeyRecord, stats: RuntimeStatsHandle)
      ensures this.st == st && this.stats == stats
    {
      this.st, this.stats := st, stats;
    }

    function Snap(): KeySnap
      reads this, stats, stats.window
    {
      KeySnap(st, stats.View())
    }
  }

  function Trimmed(c: KeyConfig): KeyConfig {
    c.(key := TrimRight(TrimLeft(c.key)), reason := TrimRight(TrimLeft(c.reason)), disabledBy := TrimRight(TrimLeft(c.disabledBy)))
  }

  /** The configured keys with their texts trimmed, blank keys dropped. */
  function NonBlank(configs: seq<(KeyConfig, RuntimeStatsHandle)>): seq<(KeyConfig, RuntimeStatsHandle)> {
    if configs == [] then []
    else
      var last := configs[|configs| - 1];
      var c := Trimmed(last.0);
      NonBlank(configs[..|configs| - 1]) + if c.key == "" then [] else [(c, last.1)]
  }

  /** The keys of a pool are the configured ones that are not blank, in their order, with trimmed texts and otherwise as
      configured. */
  lemma {:induction false} NonBlankKeeps(configs: seq<(KeyConfig, RuntimeStatsHandle)>) returns (from: seq<nat>)
    ensures |from| == |NonBlank(configs)| && (forall a, b :: 0 <= a < b < |from| ==> from[a] < from[b])
    ensures forall k :: 0 <= k < |from| ==> from[k] < |configs| && TrimmedFrom(NonBlank(configs)[k], configs[from[k]])
    ensures forall j: nat :: j < |configs| && j !in from ==> TrimRight(TrimLeft(configs[j].0.key)) == ""
  {
    hide TrimLeft, TrimRight, Trimmed, TrimmedFrom, NonBlank;
    from := [];
    assert configs[..0] == [];
    NonBlankStep(configs, 0);
    if configs != [] {
      var n := |configs| - 1;
      var prev, c := configs[..n], configs[n];
      var before := NonBlankKeeps(prev);
      TrimmedKeeps(c);
      NonBlankStep(configs, n);
      assert configs[..n + 1] == configs;
      assert forall k :: 0 <= k < |before| ==> prev[before[k]] == configs[before[k]];
      assert forall j :: 0 <= j < n ==> prev[j] == configs[j];
      if Trimmed(c.0).key == "" {
        from := before;
        assert NonBlank(configs) == NonBlank(prev);
      } else {
        from := before + [n];
        assert NonBlank(configs) == NonBlank(prev) + [(Trimmed(c.0), c.1)];
        assert forall j :: j in before ==> j in from;
      }
    }
  }

  lemma {:induction false} TrimmedKeeps(c: (KeyConfig, RuntimeStatsHandle))
    ensures Trimmed(c.0).key == TrimRight(TrimLeft(c.0.key))
    ensures Trimmed(c.0).key != "" ==> TrimmedFrom((Trimmed(c.0), c.1), c)
  {
    hide TrimLeft, TrimRight;
  }

  ghost predicate TrimmedFrom(k: (KeyConfig, RuntimeStatsHandle), c: (KeyConfig, RuntimeStatsHandle)) {
    && k.1 == c.1 && k.0.key == TrimRight(TrimLeft(c.0.key)) != "" && k.0.status == c.0.status && k.0.version == c.0.version
    && k.0.disabledAt == c.0.disabledAt && k.0.reason == TrimRight(TrimLeft(c.0.reason))
    && k.0.disabledBy == TrimRight(TrimLeft(c.0.disabledBy))
  }

  /** One distinct state object for each configured key, as a new pool creates it. */
  ghost predicate States(keys: seq<KeyState>, configs: seq<(KeyConfig, RuntimeStatsHandle)>, createdAt: int)
    reads keys
  {
    && |keys| == |configs|
    && (forall i, j :: 0 <= i < j < |keys| ==> keys[i] != keys[j])
    && (forall k :: 0 <= k < |keys| ==> keys[k].st == Created(configs[k].0, createdAt) && keys[k].stats == configs[k].1)
  }

  lemma {:induction false} NonBlankStep(configs: seq<(KeyConfig, RuntimeStatsHandle)>, n: nat)
    requires n <= |configs|
    ensures NonBlank(configs[..0]) == []
    ensures n < |configs| ==>
      NonBlank(configs[..n + 1]) ==
        NonBlank(configs[..n]) + if Trimmed(configs[n].0).key == "" then [] else [(Trimmed(configs[n].0), configs[n].1)]
  {
    hide Trimmed;
    if n < |configs| { assert configs[..n + 1][..n] == configs[..n]; }
  }

  method BuildStates(configs: seq<(KeyConfig, RuntimeStatsHandle)>, createdAt: int) returns (keys: seq<KeyState>)
    ensures States(keys, NonBlank(configs), createdAt)
    ensures forall k :: 0 <= k < |keys| ==> fresh(keys[k])
  {
    hide Created, NonBlank, Trimmed;
    keys := [];
    NonBlankStep(configs, 0);
    for n := 0 to |configs|
      invariant States(keys, NonBlank(configs[..n]), createdAt)
      invariant forall k :: 0 <= k < |keys| ==> fresh(keys[k])
    {
      NonBlankStep(configs, n);
      var config := Trimmed(configs[n].0);
      if config.key != "" {
        var state := new KeyState(Created(config, createdAt), configs[n].1);
        keys := keys + [state];
      }
    }
    assert configs[..|configs|] == configs;
  }

  function SnapsOf(keys: seq<KeyState>): (ks: seq<KeySnap>)
    reads keys, set k | k in keys :: k.stats, set k | k in keys :: k.stats.window
    ensures |ks| == |keys|
  {
    seq(|keys|, i requires 0 <= i < |keys| reads keys, set k | k in keys :: k.stats, set k | k in keys :: k.stats.window
      => keys[i].Snap())
  }

  function Records(keys: seq<KeyState>): (rs: seq<KeyRecord>)
    reads keys
    ensures |rs| == |keys| && forall i :: 0 <= i < |rs| ==> rs[i] == keys[i].st
  {
    seq(|keys|, i requires 0 <= i < |keys| reads keys => keys[i].st)
  }

  /** States with their own, well-kept statistics. */
  ghost predicate Separate(keys: seq<KeyState>)
    reads keys, set k | k in keys :: k.stats, set k | k in keys :: k.stats.window
  {
    && (forall i, j :: 0 <= i < j < |keys| ==>
          keys[i] != keys[j] && keys[i].stats != keys[j].stats && keys[i].stats.window != keys[j].stats.window)
    && (forall i :: 0 <= i < |keys| ==> keys[i].stats.Valid())
  }

  ghost predicate Disjoint(a: seq<KeyState>, b: seq<KeyState>) {
    forall i, j :: 0 <= i < |a| && 0 <= j < |b| ==> a[i] != b[j]
  }

  /** Keys of different names have different statistics handles: the registry keeps one per vendor and key. */
  ghost predicate OneHandlePerKey(a: seq<KeyState>, b: seq<KeyState>)
    reads a, b
  {
    forall i, j :: 0 <= i < |a| && 0 <= j < |b| && a[i].st.key != b[j].st.key ==>
      a[i].stats != b[j].stats && a[i].stats.window != b[j].stats.window
  }

  /** Two slots of a shared generation never meet in one state or one handle. */
  lemma {:induction false} SharedSlots(shared: seq<KeyState>, own: seq<KeyState>, prev: seq<KeyState>, incoming: seq<KeyRecord>, was: seq<KeyRecord>)
    requires |own| == |incoming| && |prev| == |was| && Continues(shared, own, prev, incoming, was)
    requires Disjoint(own, prev) && DistinctKeys(incoming)
    requires forall i, j :: 0 <= i < j < |own| ==> own[i] != own[j] && own[i].stats != own[j].stats && own[i].stats.window != own[j].stats.window
    requires forall i, j :: 0 <= i < j < |prev| ==> prev[i] != prev[j] && prev[i].stats != prev[j].stats && prev[i].stats.window != prev[j].stats.window
    requires forall i, j :: 0 <= i < |own| && 0 <= j < |prev| && incoming[i].key != was[j].key ==>
      own[i].stats != prev[j].stats && own[i].stats.window != prev[j].stats.window
    ensures |shared| == |own|
    ensures forall i, j :: 0 <= i < j < |shared| ==>
      shared[i] != shared[j] && shared[i].stats != shared[j].stats && shared[i].stats.window != shared[j].stats.window
    ensures forall i :: 0 <= i < |shared| ==>
      (exists j :: 0 <= j < |prev| && shared[i] == prev[j])
      || (shared[i] == own[i] && forall j :: 0 <= j < |prev| ==> own[i].stats != prev[j].stats && own[i].stats.window != prev[j].stats.window)
  {
    forall i | 0 <= i < |shared|
      ensures (exists j :: 0 <= j < |prev| && was[j].key == incoming[i].key && shared[i] == prev[j])
           || (shared[i] == own[i] && forall j :: 0 <= j < |prev| ==> was[j].key != incoming[i].key)
    {
      if HasKey(was, incoming[i].key) {
        var j :| 0 <= j < |was| && was[j].key == incoming[i].key;
        assert shared[i] == prev[j];
      } else {
        assert forall j :: 0 <= j < |prev| ==> was[j].key != incoming[i].key;
      }
    }
  }

  /** Slot by slot: the live state of the same name, or the slot's own new state. */
  ghost predicate Continues(shared: seq<KeyState>, own: seq<KeyState>, prev: seq<KeyState>, incoming: seq<KeyRecord>, was: seq<KeyRecord>)
    requires |own| == |incoming| && |prev| == |was|
  {
    && |shared| == |own|
    && (forall i, j :: 0 <= i < |shared| && 0 <= j < |prev| && was[j].key == incoming[i].key ==> shared[i] == prev[j])
    && (forall i :: 0 <= i < |shared| && !HasKey(was, incoming[i].key) ==> shared[i] == own[i])
  }

  /** A newer record that enables a key clears its last error. */
  function OverriddenStats(h: Handle, state: KeyRecord, incoming: KeyRecord): Handle {
    if incoming.version > state.version && incoming.status == Active then ClearLastError(h) else h
  }

  function MergedStats(h: Handle, state: KeyRecord, incoming: seq<KeyRecord>): Handle {
    if incoming == [] then h
    else
      var init, last := incoming[..|incoming| - 1], incoming[|incoming| - 1];
      var before := MergedStats(h, state, init);
      if last.key == state.key then OverriddenStats(before, Merged(state, init), last) else before
  }

  /** What the statistics of a live key keep when a reloaded record of its name arrives: everything, except that a newer
      record which enables the key clears its last error. */
  ghost predicate StatsTakeOver(h: Handle, h': Handle, before: KeyRecord, record: KeyRecord) {
    && h'.stats.c == h.stats.c && h'.stats.recent == h.stats.recent && h'.stats.lastStatus == h.stats.lastStatus
    && h'.fastTotal == h.fastTotal && h'.samples == h.samples && h'.lastSample == h.lastSample && h'.costs == h.costs
    && h'.generation == h.generation
    && h'.stats.lastError == if record.version > before.version && record.status == Active then "" else h.stats.lastError
  }

  lemma {:induction false} MergedStatsTakeOver(h: Handle, state: KeyRecord, incoming: seq<KeyRecord>, i: nat)
    requires DistinctKeys(incoming) && i < |incoming| && incoming[i].key == state.key
    ensures StatsTakeOver(h, MergedStats(h, state, incoming), state, incoming[i])
  {
    var n := |incoming| - 1;
    var init := incoming[..n];
    if i == n {
      assert !HasKey(init, state.key);
      MergedKeeps(state, init);
      NothingMerged(h, state, init);
    } else {
      assert incoming[n].key != state.key;
      MergedStatsTakeOver(h, state, init, i);
    }
  }

  lemma {:induction false} NothingMerged(h: Handle, state: KeyRecord, incoming: seq<KeyRecord>)
    requires !HasKey(incoming, state.key)
    ensures MergedStats(h, state, incoming) == h
  {
    if incoming != [] {
      assert !HasKey(incoming[..|incoming| - 1], state.key);
      NothingMerged(h, state, incoming[..|incoming| - 1]);
    }
  }

  lemma {:induction false} SharedTakesOver(was: KeyRecord, h: Handle, incoming: seq<KeyRecord>, i: nat)
    requires DistinctKeys(incoming) && i < |incoming| && incoming[i].key == was.key
    ensures TakesOver(was, AfterShare(was, incoming), incoming[i]) && StatsTakeOver(h, MergedStats(h, was, incoming), was, incoming[i])
  {
    hide Merged, MergedStats, TakesOver, StatsTakeOver, DistinctKeys;
    MergedTakesOver(was, incoming, i);
    MergedStatsTakeOver(h, was, incoming, i);
  }

  lemma {:induction false} OverriddenTakesOver(h: Handle, state: KeyRecord, incoming: KeyRecord)
    ensures StatsTakeOver(h, OverriddenStats(h, state, incoming), state, incoming)
  {
  }

  /** Only a newer persisted version may override live health. */
  method Override(state: KeyState, incoming: KeyRecord)
    requires state.stats.Valid()
    modifies state, state.stats
    ensures state.st == Shared(old(state.st), incoming) && TakesOver(old(state.st), state.st, incoming)
    ensures state.stats.Valid()
    ensures StatsTakeOver(old(state.stats.View()), state.stats.View(), old(state.st), incoming)
    ensures state.stats.View() == OverriddenStats(old(state.stats.View()), old(state.st), incoming)
  {
    OverriddenTakesOver(state.stats.View(), state.st, incoming);
    hide SampleWindow.ClearLastError, RuntimeStatsHandle.Valid, StatsTakeOver;
    if incoming.version > state.st.version {
      state.st := Shared(state.st, incoming);
      if state.st.status == Active { state.stats.ClearLastError(); }
    }
  }

  /** The states of one generation after merging the first records of the next. */
  ghost predicate MergedSoFar(prev: seq<KeyState>, was: seq<KeyRecord>, wasStats: seq<Handle>, incoming: seq<KeyRecord>)
    requires |prev| == |was| == |wasStats|
    reads prev, set k | k in prev :: k.stats, set k | k in prev :: k.stats.window
  {
    forall j :: 0 <= j < |prev| ==>
      && prev[j].st == Merged(was[j], incoming)
      && prev[j].stats.Valid()
      && prev[j].stats.View() == MergedStats(wasStats[j], was[j], incoming)
  }

  lemma {:induction false} MergeOneMore(state: KeyRecord, h: Handle, incoming: seq<KeyRecord>, i: nat)
    requires i < |incoming|
    ensures Merged(state, incoming[..i + 1]) ==
      if incoming[i].key == state.key then Shared(Merged(state, incoming[..i]), incoming[i]) else Merged(state, incoming[..i])
    ensures MergedStats(h, state, incoming[..i + 1]) ==
      if incoming[i].key == state.key
      then OverriddenStats(MergedStats(h, state, incoming[..i]), Merged(state, incoming[..i]), incoming[i])
      else MergedStats(h, state, incoming[..i])
  {
    assert incoming[..i + 1][..i] == incoming[..i];
    hide Shared, OverriddenStats;
  }

  /** One turn of the hand-over loop: record `i` goes to the state of its name, if there is one. */
  method MergeOne(prev: seq<KeyState>, ghost was: seq<KeyRecord>, ghost wasStats: seq<Handle>, ghost incoming: seq<KeyRecord>,
                  i: nat, record: KeyRecord, j: int)
    requires |prev| == |was| == |wasStats| && Separate(prev) && DistinctKeys(was)
    requires i < |incoming| && incoming[i] == record
    requires MergedSoFar(prev, was, wasStats, incoming[..i])
    requires -1 <= j < |prev| && (j >= 0 ==> was[j].key == record.key)
    requires j == -1 ==> !HasKey(was, record.key)
    modifies prev, set k | k in prev :: k.stats
    ensures MergedSoFar(prev, was, wasStats, incoming[..i + 1])
  {
    hide RuntimeStatsHandle.Valid, RuntimeStatsHandle.View, Merged, MergedStats, Shared, OverriddenStats;
    ghost var before := incoming[..i];
    assert forall k :: 0 <= k < |prev| ==> (was[k].key == record.key <==> k == j);
    forall k | 0 <= k < |prev|
      ensures Merged(was[k], incoming[..i + 1]) == if k == j then Shared(Merged(was[k], before), record) else Merged(was[k], before)
      ensures MergedStats(wasStats[k], was[k], incoming[..i + 1]) ==
        if k == j then OverriddenStats(MergedStats(wasStats[k], was[k], before), Merged(was[k], before), record)
        else MergedStats(wasStats[k], was[k], before)
    {
      MergeOneMore(was[k], wasStats[k], incoming, i);
    }
    if j >= 0 { Override(prev[j], record); }
  }

  /** Position of each key name. */
  method IndexByKey(prev: seq<KeyState>) returns (index: map<string, nat>)
    requires DistinctKeys(Records(prev))
    ensures forall name :: name in index <==> HasKey(Records(prev), name)
    ensures forall name :: name in index ==> index[name] < |prev| && prev[index[name]].st.key == name
  {
    index := map[];
    for j := 0 to |prev|
      invariant forall name :: name in index ==> index[name] < j && prev[index[name]].st.key == name
      invariant forall k :: 0 <= k < j ==> prev[k].st.key in index
    {
      index := index[prev[j].st.key := j];
    }
    forall name | name in index ensures HasKey(Records(prev), name) {
      assert Records(prev)[index[name]].key == name;
    }
  }

  /** Names still waiting in the index after `i` records: those that none of them named. */
  ghost predicate Unclaimed(index: map<string, nat>, was: seq<KeyRecord>, incoming: seq<KeyRecord>) {
    && (forall name :: name in index ==> index[name] < |was| && was[index[name]].key == name)
    && (forall name :: HasKey(was, name) ==> (name in index <==> !HasKey(incoming, name)))
  }

  lemma {:induction false} Claim(index: map<string, nat>, was: seq<KeyRecord>, incoming: seq<KeyRecord>, i: nat)
    requires i < |incoming| && DistinctKeys(incoming) && Unclaimed(index, was, incoming[..i])
    ensures incoming[i].key in index <==> HasKey(was, incoming[i].key)
    ensures Unclaimed(index - {incoming[i].key}, was, incoming[..i + 1])
  {
    var name := incoming[i].key;
    assert !HasKey(incoming[..i], name);
    forall n ensures HasKey(incoming[..i + 1], n) <==> HasKey(incoming[..i], n) || n == name {
      if HasKey(incoming[..i], n) {
        var k :| 0 <= k < i && incoming[..i][k].key == n;
        assert incoming[..i + 1][k].key == n;
      }
      assert incoming[..i + 1][i].key == name;
      if HasKey(incoming[..i + 1], n) && n != name {
        var k :| 0 <= k < i + 1 && incoming[..i + 1][k].key == n;
        assert incoming[..i][k].key == n;
      }
    }
    hide HasKey;
    forall n | n in index ensures HasKey(was, n) { NameIsKnown(was, index[n]); }
  }

  lemma {:induction false} NameIsKnown(was: seq<KeyRecord>, j: nat)
    requires j < |was|
    ensures HasKey(was, was[j].key)
  {
  }

  /** The hand-over, with the states it yields shown to be well separated. */
  method HandOver(own: seq<KeyState>, prev: seq<KeyState>) returns (shared: seq<KeyState>)
    requires Separate(own) && Separate(prev) && Disjoint(own, prev) && OneHandlePerKey(own, prev)
    requires DistinctKeys(Records(own)) && DistinctKeys(Records(prev))
    modifies prev, set k | k in prev :: k.stats
    ensures |shared| == |own| && Separate(shared)
    ensures Continues(shared, own, prev, old(Records(own)), old(Records(prev)))
    ensures forall j :: 0 <= j < |prev| ==> prev[j].st == AfterShare(old(prev[j].st), old(Records(own)))
    ensures forall j :: 0 <= j < |prev| ==>
      prev[j].stats.Valid() && prev[j].stats.View() == MergedStats(old(prev[j].stats.View()), old(prev[j].st), old(Records(own)))
  {
    hide RuntimeStatsHandle.Valid, RuntimeStatsHandle.View, MergedStats, DistinctKeys, HasKey, Continues, AfterShare;
    ghost var incoming, was := Records(own), Records(prev);
    shared := ShareStates(own, prev);
    SharedSlots(shared, own, prev, incoming, was);
    forall i | 0 <= i < |shared| ensures shared[i].stats.Valid() {
      if j :| 0 <= j < |prev| && shared[i] == prev[j] {
      } else {
        assert shared[i] == own[i] && old(own[i].stats.Valid());
        assert own[i].stats !in set k | k in prev :: k.stats;
      }
    }
  }

  method RetireUnclaimed(prev: seq<KeyState>, index: map<string, nat>)
    requires forall i, j :: 0 <= i < j < |prev| ==> prev[i] != prev[j]
    modifies prev
    ensures forall j :: 0 <= j < |prev| ==>
      prev[j].st == if old(prev[j].st).key in index then old(prev[j].st).(retired := true) else old(prev[j].st)
  {
    for j := 0 to |prev|
      invariant forall k :: 0 <= k < |prev| ==>
        prev[k].st == if k < j && old(prev[k].st).key in index then old(prev[k].st).(retired := true) else old(prev[k].st)
    {
      if prev[j].st.key in index { prev[j].st := prev[j].st.(retired := true); }
    }
  }

  /** The first loop of the hand-over: merge every record by name and pick the state for its slot. */
  method MergeAll(keys: seq<KeyState>, prev: seq<KeyState>, incoming: seq<KeyRecord>, ghost was: seq<KeyRecord>,
                  ghost wasStats: seq<Handle>, names: map<string, nat>) returns (shared: seq<KeyState>, index: map<string, nat>)
    requires |keys| == |incoming| && |prev| == |was| == |wasStats|
    requires Separate(prev) && DistinctKeys(incoming) && DistinctKeys(was)
    requires MergedSoFar(prev, was, wasStats, []) && Unclaimed(names, was, [])
    modifies prev, set k | k in prev :: k.stats
    ensures MergedSoFar(prev, was, wasStats, incoming) && Unclaimed(index, was, incoming)
    ensures Continues(shared, keys, prev, incoming, was)
  {
    hide MergedSoFar, RuntimeStatsHandle.Valid, HasKey;
    index := names;
    shared := [];
    assert incoming[..0] == [];
    for i := 0 to |incoming|
      invariant Separate(prev)
      invariant MergedSoFar(prev, was, wasStats, incoming[..i])
      invariant Unclaimed(index, was, incoming[..i])
      invariant Continues(shared, keys[..i], prev, incoming[..i], was)
    {
      var name := incoming[i].key;
      var j := if name in index then index[name] else -1;
      Claim(index, was, incoming, i);
      assert j >= 0 ==> was[j].key == name;
      MergeOne(prev, was, wasStats, incoming, i, incoming[i], j);
      KeepSeparate(prev, was, wasStats, incoming[..i + 1]);
      ContinueOne(shared, keys, prev, incoming, was, i, j);
      shared := shared + [if j >= 0 then prev[j] else keys[i]];
      index := index - {name};
    }
    assert incoming[..|incoming|] == incoming && keys[..|incoming|] == keys;
  }

  lemma {:induction false} KeepSeparate(prev: seq<KeyState>, was: seq<KeyRecord>, wasStats: seq<Handle>, incoming: seq<KeyRecord>)
    requires |prev| == |was| == |wasStats| && MergedSoFar(prev, was, wasStats, incoming)
    requires forall i, j :: 0 <= i < j < |prev| ==>
      prev[i] != prev[j] && prev[i].stats != prev[j].stats && prev[i].stats.window != prev[j].stats.window
    ensures Separate(prev)
  {
    hide RuntimeStatsHandle.Valid, RuntimeStatsHandle.View;
  }

  lemma {:induction false} ContinueOne(shared: seq<KeyState>, keys: seq<KeyState>, prev: seq<KeyState>,
                                       incoming: seq<KeyRecord>, was: seq<KeyRecord>, i: nat, j: int)
    requires |keys| == |incoming| && |prev| == |was| && i < |keys| && DistinctKeys(was)
    requires Continues(shared, keys[..i], prev, incoming[..i], was)
    requires -1 <= j < |prev| && (j >= 0 ==> was[j].key == incoming[i].key) && (j == -1 ==> !HasKey(was, incoming[i].key))
    ensures Continues(shared + [if j >= 0 then prev[j] else keys[i]], keys[..i + 1], prev, incoming[..i + 1], was)
  {
    var next := shared + [if j >= 0 then prev[j] else keys[i]];
    if j >= 0 { NameIsKnown(was, j); }
    forall k, m | 0 <= k < |next| && 0 <= m < |prev| && was[m].key == incoming[..i + 1][k].key ensures next[k] == prev[m] {
      if k < i { assert incoming[..i][k] == incoming[k]; }
    }
    forall k | 0 <= k < |next| && !HasKey(was, incoming[..i + 1][k].key) ensures next[k] == keys[..i + 1][k] {
      if k < i { assert incoming[..i][k] == incoming[k] && keys[..i][k] == keys[k]; }
    }
  }

  function HandleViews(prev: seq<KeyState>): (hs: seq<Handle>)
    reads prev, set k | k in prev :: k.stats, set k | k in prev :: k.stats.window
    ensures |hs| == |prev| && forall j :: 0 <= j < |hs| ==> hs[j] == prev[j].stats.View()
  {
    seq(|prev|, j requires 0 <= j < |prev| reads prev, set k | k in prev :: k.stats, set k | k in prev :: k.stats.window
      => prev[j].stats.View())
  }

  /** Merge by name, then retire what no record named. */
  method ShareStates(keys: seq<KeyState>, prev: seq<KeyState>) returns (shared: seq<KeyState>)
    requires Separate(prev) && Disjoint(keys, prev) && DistinctKeys(Records(keys)) && DistinctKeys(Records(prev))
    modifies prev, set k | k in prev :: k.stats
    ensures Continues(shared, keys, prev, old(Records(keys)), old(Records(prev)))
    ensures forall j :: 0 <= j < |prev| ==> prev[j].st == AfterShare(old(prev[j].st), old(Records(keys)))
    ensures forall j :: 0 <= j < |prev| ==>
      prev[j].stats.Valid() && prev[j].stats.View() == MergedStats(old(prev[j].stats.View()), old(prev[j].st), old(Records(keys)))
  {
    var incoming := Records(keys);
    ghost var was, wasStats := Records(prev), HandleViews(prev);
    hide RuntimeStatsHandle.Valid, RuntimeStatsHandle.View, HasKey, Continues, Separate, DistinctKeys, Disjoint, Merged, MergedStats;
    StartMerge(was, wasStats);
    var index := IndexByKey(prev);
    NothingClaimed(index, was);
    SeparateHolds(prev);
    shared, index := MergeAll(keys, prev, incoming, was, wasStats, index);
    assert forall j :: 0 <= j < |prev| ==> prev[j].st == Merged(was[j], incoming);
    RetireUnclaimed(prev, index);
    forall j | 0 <= j < |prev| ensures prev[j].st == AfterShare(was[j], incoming) {
      MergedKeeps(was[j], incoming);
      NameIsKnown(was, j);
    }
  }

  lemma {:induction false} SeparateHolds(prev: seq<KeyState>)
    requires Separate(prev)
    ensures forall j :: 0 <= j < |prev| ==> prev[j].stats.Valid()
    ensures forall i, j :: 0 <= i < j < |prev| ==> prev[i] != prev[j]
  {
  }

  lemma {:induction false} NothingClaimed(index: map<string, nat>, was: seq<KeyRecord>)
    requires forall name :: name in index <==> HasKey(was, name)
    requires forall name :: name in index ==> index[name] < |was| && was[index[name]].key == name
    ensures Unclaimed(index, was, [])
  {
  }

  lemma {:induction false} StartMerge(was: seq<KeyRecord>, wasStats: seq<Handle>)
    requires |was| == |wasStats|
    ensures forall j :: 0 <= j < |was| ==> Merged(was[j], []) == was[j] && MergedStats(wasStats[j], was[j], []) == wasStats[j]
  {
  }

  method WriteStates(keys: seq<KeyState>, ks: seq<KeySnap>)
    requires |ks| == |keys| && forall i, j :: 0 <= i < j < |keys| ==> keys[i] != keys[j]
    modifies keys
    ensures forall i :: 0 <= i < |keys| ==> keys[i].st == ks[i].r
  {
    for i := 0 to |keys|
      invariant forall j :: 0 <= j < i ==> keys[j].st == ks[j].r
    {
      keys[i].st := ks[i].r;
    }
  }

  /** The same, with the statistics of the keys as they are. */
  method WriteSnaps(keys: seq<KeyState>, ks: seq<KeySnap>)
    requires Separate(keys) && SameStats(SnapsOf(keys), ks)
    modifies keys
    ensures Separate(keys) && SnapsOf(keys) == ks
  {
    hide RuntimeStatsHandle.Valid, RuntimeStatsHandle.View, RuntimeStatsHandle.Shaped;
    WriteStates(keys, ks);
    assert forall i :: 0 <= i < |keys| ==> SnapsOf(keys)[i] == ks[i];
  }

  /** The critical section of one settlement. */
  method SettleKey(state: KeyState, version: int, res: AttemptResult, now: int, later: int) returns (persist: bool)
    requires state.stats.Valid()
    modifies state, state.stats, state.stats.window
    ensures state.stats.Valid()
    ensures (state.st, persist) == Settle(old(state.st), version, res, old(state.stats.View()).generation, now, later)
    ensures state.stats.View() == SettleStats(old(state.stats.View()), Current(old(state.st), version), res, now)
  {
    hide Judged, Note, RuntimeStatsHandle.Valid, SampleWindow.Count, MakeSample, Ordered, Summary, CostsOf, LastFive;
    var stats := state.stats;
    state.st := Released(state.st);
    var current := Current(state.st, version);
    if res.action == AttemptInterrupted {
      stats.Count(Interrupted, res.reason, !current);
      return false;
    }
    if res.action == AttemptUnknown { return false; }
    if current {
      var generation := stats.RecordSample(res.header, res.full, res.action == AttemptSuccess, now);
      state.st := state.st.(explore := Note(state.st.explore, generation, now, res.action == AttemptSuccess));
    }
    stats.Count(if res.action == AttemptSuccess then Success else Failure(res.status), res.reason, !current);
    if !current { return false; }
    var judged := Judged(state.st, res, later);
    state.st := judged.0;
    persist := judged.1;
  }

  /** The same for one of several separate keys: the others stay as they are. */
  method SettleOne(keys: seq<KeyState>, idx: nat, version: int, res: AttemptResult, now: int, later: int) returns (persist: bool)
    requires idx < |keys| && Separate(keys)
    modifies keys[idx], keys[idx].stats, keys[idx].stats.window
    ensures Separate(keys) && keys[idx].stats.Valid()
    ensures (keys[idx].st, persist) == Settle(old(keys[idx].st), version, res, old(keys[idx].stats.View()).generation, now, later)
    ensures HealthFollows(old(keys[idx].st), keys[idx].st, persist, version, res, later)
    ensures keys[idx].stats.View() == SettleStats(old(keys[idx].stats.View()), Current(old(keys[idx].st), version), res, now)
  {
    hide HealthFollows, Settle, SettleStats, Current, RuntimeStatsHandle.Valid, RuntimeStatsHandle.View, RuntimeStatsHandle.Shaped;
    SettleHealth(keys[idx].st, version, res, keys[idx].stats.View().generation, now, later);
    persist := SettleKey(keys[idx], version, res, now, later);
    forall i | 0 <= i < |keys| && i != idx ensures keys[i].stats.Valid() {
      assert keys[i].stats != keys[idx].stats && keys[i].stats.window != keys[idx].stats.window;
    }
  }

  class Pool {
    const strategy: Strategy
    var keys: seq<KeyState>
    var rrIdx: nat
    var exploration: Exploration

    /** Distinct states with well-kept statistics, a cursor in range, and at most ten credits. */
    ghost predicate Valid()
      reads this, exploration, keys, set k | k in keys :: k.stats, set k | k in keys :: k.stats.window
    {
      && Separate(keys)
      && (rrIdx < |keys| || rrIdx == 0) && exploration.credit <= EXPLORATION_INTERVAL
    }

    function View(): (v: PoolView)
      reads this, exploration, keys, set k | k in keys :: k.stats, set k | k in keys :: k.stats.window
      ensures |v.ks| == |keys| && v.strategy == strategy && v.rr == rrIdx && v.credit == exploration.credit
    {
      PoolView(strategy, SnapsOf(keys), rrIdx, exploration.credit)
    }

    /** A pool over the configured keys, blank ones skipped; nothing is in flight and the credit is empty. */
    constructor (strategy: Strategy, configs: seq<(KeyConfig, RuntimeStatsHandle)>, createdAt: int)
      requires forall i :: 0 <= i < |configs| ==> configs[i].1.Valid()
      requires forall i, j :: 0 <= i < j < |NonBlank(configs)| ==>
        NonBlank(configs)[i].1 != NonBlank(configs)[j].1 && NonBlank(configs)[i].1.window != NonBlank(configs)[j].1.window
      ensures Valid() && fresh(exploration) && rrIdx == 0 && exploration.credit == 0
      ensures this.strategy == strategy
      ensures States(keys, NonBlank(configs), createdAt)
      ensures forall k :: 0 <= k < |keys| ==> fresh(keys[k])
    {
      hide NonBlank, RuntimeStatsHandle.Valid, RuntimeStatsHandle.View;
      ghost var from := NonBlankKeeps(configs);
      hide TrimLeft, TrimRight;
      this.strategy := strategy;
      rrIdx := 0;
      exploration := new Exploration();
      var states := BuildStates(configs, createdAt);
      keys := states;
    }

    /** At least one allowed key is usable right now. */
    method HasAvailable(q: Request) returns (ok: bool)
      requires Valid()
      ensures ok <==> exists i: nat :: Eligible(View().ks, q, i)
    {
      var v := View();
      hide *;
      ok := AnyEligible(v.ks, q);
      assert View() == v;
    }

    /** Acquire a key: it fails exactly when no key is eligible, and otherwise makes one `AcquireStep`, to the best key by
        its samples, counters and load. */
    method AcquireVersioned(q: Request, draw: nat) returns (acquired: Option<(nat, string, int)>)
      requires Valid()
      modifies this`rrIdx, exploration, keys
      ensures Valid() && keys == old(keys)
      ensures acquired.Some? <==> exists i: nat :: Eligible(old(View()).ks, q, i)
      ensures acquired.None? ==> View() == old(View())
      ensures acquired.Some? ==>
        var (i, key, version) := acquired.value;
        && i < |old(View()).ks|
        && AcquireStep(old(View()), q, i, View())
        && key == old(View()).ks[i].r.key && version == old(View()).ks[i].r.version
        && (q.now >= NEVER ==> BestPick(old(View()), q, i) && TakesSlot(old(View()), q, i, View()))
    {
      WellKept();
      var v := View();
      hide *;
      var pick, ok, credit := Choose(v, q, draw);
      if !ok { return None; }
      var next := Outcome(v, q, pick, credit);
      OutcomeKeeps(v, q, pick, next);
      if q.now >= NEVER {
        AcquireIsBest(v, q, pick, next);
        AcquireTakesSlot(v, q, pick, next);
      }
      var version, key := v.ks[pick].r.version, v.ks[pick].r.key;
      WriteBack(next);
      acquired := Some((pick, key, version));
    }

    lemma {:induction false} WellKept()
      requires Valid()
      ensures WellFormed(View()) && forall k :: 0 <= k < |View().ks| ==> Consistent(View().ks[k].h)
    {
      hide Consistent;
    }

    /** Write a value with unchanged statistics back into the pool. */
    method WriteBack(next: PoolView)
      requires Valid() && WellFormed(next) && next.credit <= EXPLORATION_INTERVAL
      requires next.strategy == strategy && SameStats(View().ks, next.ks)
      modifies this`rrIdx, exploration, keys
      ensures Valid() && keys == old(keys) && View() == next
    {
      hide Separate, SnapsOf, SameStats, RuntimeStatsHandle.Valid, RuntimeStatsHandle.View, RuntimeStatsHandle.Shaped;
      WriteSnaps(keys, next.ks);
      exploration.credit := next.credit;
      rrIdx := next.rr;
    }

    /** Give a slot back without counting anything; an unknown index is ignored. */
    method Release(idx: int)
      requires Valid()
      modifies if 0 <= idx < |keys| then {keys[idx]} else {}
      ensures Valid() && (0 <= idx < |keys| ==> keys[idx].st == Released(old(keys[idx].st)))
    {
      if 0 <= idx < |keys| { keys[idx].st := Released(keys[idx].st); }
    }

    /** Settle one acquired attempt: sample, counters and health change together, for this key only.
        The result authorises persisting an automatic disable. */
    method CompleteAttempt(idx: int, version: int, res: AttemptResult, now: int, later: int) returns (persist: bool)
      requires Valid()
      modifies if 0 <= idx < |keys| then {keys[idx], keys[idx].stats, keys[idx].stats.window} else {}
      ensures Valid() && (!(0 <= idx < |keys|) ==> !persist)
      ensures 0 <= idx < |keys| ==>
        var before, h := old(keys[idx].st), old(keys[idx].stats.View());
        && (keys[idx].st, persist) == Settle(before, version, res, h.generation, now, later)
        && HealthFollows(before, keys[idx].st, persist, version, res, later)
        && keys[idx].stats.Valid() && keys[idx].stats.View() == SettleStats(h, Current(before, version), res, now)
    {
      if !(0 <= idx < |keys|) { return false; }
      hide Pool.View, HealthFollows, Settle, SettleStats, Current, Separate, RuntimeStatsHandle.Valid, RuntimeStatsHandle.View, RuntimeStatsHandle.Shaped;
      persist := SettleOne(keys, idx, version, res, now, later);
    }

    /** Commit-time hand-over to this unpublished pool: keys of the same name continue as the SAME state objects,
        merged by `Shared`; the exploration credit is shared; keys that are gone are retired. */
    method ShareRuntimeStateFrom(prev: Pool)
      requires Valid() && prev.Valid() && prev != this
      requires Disjoint(keys, prev.keys) && DistinctKeys(Records(keys)) && DistinctKeys(Records(prev.keys))
      requires OneHandlePerKey(keys, prev.keys)
      modifies this`keys, this`exploration, prev.keys, set k | k in prev.keys :: k.stats
      ensures Valid() && exploration == prev.exploration && prev.keys == old(prev.keys) && |keys| == |old(keys)|
      ensures Continues(keys, old(keys), prev.keys, old(Records(keys)), old(Records(prev.keys)))
      ensures forall j :: 0 <= j < |prev.keys| ==>
        prev.keys[j].st == AfterShare(old(prev.keys[j].st), old(Records(keys)))
      ensures forall j :: 0 <= j < |prev.keys| ==>
        prev.keys[j].stats.Valid() && prev.keys[j].stats.View() == MergedStats(old(prev.keys[j].stats.View()), old(prev.keys[j].st), old(Records(keys)))
      ensures forall i, j :: 0 <= i < |old(keys)| && 0 <= j < |prev.keys| && old(Records(keys))[i].key == old(Records(prev.keys))[j].key ==>
        && keys[i] == prev.keys[j]
        && TakesOver(old(Records(prev.keys))[j], prev.keys[j].st, old(Records(keys))[i])
        && StatsTakeOver(old(HandleViews(prev.keys))[j], prev.keys[j].stats.View(), old(Records(prev.keys))[j], old(Records(keys))[i])
    {
      hide RuntimeStatsHandle.Valid, RuntimeStatsHandle.View, Merged, MergedStats, DistinctKeys, HasKey, AfterShare, OneHandlePerKey, Disjoint, Separate,
           RuntimeStatsHandle.Shaped, TakesOver, StatsTakeOver;
      ghost var incoming, was, views := Records(keys), Records(prev.keys), HandleViews(prev.keys);
      var shared := HandOver(keys, prev.keys);
      forall i, j | 0 <= i < |incoming| && 0 <= j < |was| && incoming[i].key == was[j].key
        ensures shared[i] == prev.keys[j] && TakesOver(was[j], prev.keys[j].st, incoming[i])
        ensures StatsTakeOver(views[j], prev.keys[j].stats.View(), was[j], incoming[i])
      {
        SharedTakesOver(was[j], views[j], incoming, i);
      }
      exploration := prev.exploration;
      keys := shared;
    }

    /** Retire every key: the vendor left the published router. */
    method Retire()
      requires Valid()
      modifies keys
      ensures Valid() && keys == old(keys)
      ensures forall i :: 0 <= i < |keys| ==> keys[i].st == old(keys[i].st).(retired := true)
    {
      hide Pool.View, RuntimeStatsHandle.Valid, RuntimeStatsHandle.View;
      for i := 0 to |keys|
        invariant Valid()
        invariant forall j :: 0 <= j < |keys| ==>
          keys[j].st == if j < i then old(keys[j].st).(retired := true) else old(keys[j].st)
      {
        keys[i].st := keys[i].st.(retired := true);
      }
    }
  }

  ghost predicate SameStats(a: seq<KeySnap>, b: seq<KeySnap>) {
    |a| == |b| && forall i :: 0 <= i < |a| ==> a[i].h == b[i].h
  }

  lemma {:induction false} OutcomeKeeps(v: PoolView, q: Request, pick: nat, next: PoolView)
    requires pick < |v.ks| && AcquireStep(v, q, pick, next)
    ensures WellFormed(next) && next.strategy == v.strategy && SameStats(v.ks, next.ks)
    ensures v.credit <= EXPLORATION_INTERVAL ==> next.credit <= EXPLORATION_INTERVAL
  {
    hide Sync, Eligible, Oldest, Least, Probing;
  }
}
