/** The key file: records partitioned by vendor, published only after the file was replaced. */
module FileStore {
  import opened Wrappers
  import opened RuntimeStats
  import opened KeyRecords

  /** Vendor id and key name. */
  type Id = (string, string)

  datatype Record = Record(status: Status, reason: string, actor: string, version: int, stats: Stats)

  type Data = map<Id, Record>

  datatype StoreError = VendorRequired | KeyRequired | KeyNotFound | VersionMismatch | SaveFailed

  datatype Outcome = Done(count: nat) | Refused(error: StoreError)

  function NextVersion(v: int): int { Max(0, v) + 1 }

  /** Active records carry no disable diagnostics, and versions are not negative. */
  function NormalizeRecord(r: Record): Record {
    var v := Max(0, r.version);
    if r.status == Active then r.(version := v, reason := "", actor := "") else r.(version := v)
  }

  const NEW_RECORD := Record(Active, "", "", 1, NO_STATS)

  // ---------------------------------------------------------------- key lists

  function Trim(s: string): string { RuntimeStats.TrimRight(RuntimeStats.TrimLeft(s)) }

  lemma {:induction false} TrimIdempotent(s: string)
    ensures Trim(Trim(s)) == Trim(s)
  {
    RuntimeStats.TrimLeftStart(s);
    RuntimeStats.TrimRightEnds(RuntimeStats.TrimLeft(s));
  }

  ghost function KeySet(keys: seq<string>): set<string> {
    set k | 0 <= k < |keys| && Trim(keys[k]) != "" :: Trim(keys[k])
  }

  /** Trimmed, blanks dropped, each name once. */
  method NormalizeKeys(keys: seq<string>) returns (out: seq<string>)
    ensures (set k | k in out) == KeySet(keys)
    ensures forall i, j :: 0 <= i < j < |out| ==> out[i] != out[j]
  {
    hide Trim;
    out := [];
    var seen: set<string> := {};
    for n := 0 to |keys|
      invariant seen == set k | k in out
      invariant forall i, j :: 0 <= i < j < |out| ==> out[i] != out[j]
      invariant forall k :: 0 <= k < n && Trim(keys[k]) != "" ==> Trim(keys[k]) in seen
      invariant forall x :: x in seen ==> exists k :: 0 <= k < n && Trim(keys[k]) != "" && Trim(keys[k]) == x
    {
      var key := Trim(keys[n]);
      if key != "" && key !in seen {
        seen := seen + {key};
        out := out + [key];
      }
    }
  }

  // ---------------------------------------------------------------- what each operation makes of the data

  /** What a full key list makes of a key it names: a new version of its record, or a new record. */
  function Listed(d: Data, id: Id): Record {
    if id in d then NormalizeRecord(d[id].(version := NextVersion(d[id].version))) else NEW_RECORD
  }

  /** A full key list: listed keys are kept with a new version or created, unlisted ones survive only if disabled. */
  ghost function Replaced(d: Data, vendor: string, keys: set<string>): Data {
    map id | id in d.Keys + (set k | k in keys :: (vendor, k))
             && (id.0 != vendor || id.1 in keys || (id in d && d[id].status != Active)) ::
      if id.0 != vendor then d[id]
      else if id.1 in keys then Listed(d, id)
      else NormalizeRecord(d[id])
  }

  ghost function Appended(d: Data, vendor: string, keys: set<string>): Data {
    map id | id in d.Keys + (set k | k in keys :: (vendor, k)) :: if id in d then d[id] else NEW_RECORD
  }

  ghost function Deleted(d: Data, vendor: string, keys: set<string>): Data {
    d - (set k | k in keys :: (vendor, k))
  }

  ghost function VendorDeleted(d: Data, vendor: string): Data {
    map id | id in d && id.0 != vendor :: d[id]
  }

  function WithStatus(r: Record, status: Status, reason: string, actor: string): Record {
    NormalizeRecord(Record(status, if status == Active then "" else Trim(reason), if status == Active then "" else Trim(actor),
                           NextVersion(r.version), r.stats))
  }

  /** Why a status change is refused, if it is; `expected` of None skips the version check. */
  function StatusRefusal(d: Data, id: Id, expected: Option<int>): Option<StoreError> {
    if id !in d then Some(KeyNotFound)
    else if expected.Some? && d[id].version != expected.value then Some(VersionMismatch)
    else None
  }

  function StatusSet(d: Data, id: Id, expected: Option<int>, status: Status, reason: string, actor: string): Data {
    if StatusRefusal(d, id, expected).Some? then d else d[id := WithStatus(d[id], status, reason, actor)]
  }

  /** Statistics of the key in `id`, advanced by one delta when it is worth storing. */
  function DeltaApplied(d: Data, id: Id, delta: Stats): Data {
    if id !in d || IsZero(delta) then d else d[id := NormalizeRecord(d[id].(stats := ApplyDelta(d[id].stats, delta)))]
  }

  ghost function DeltasApplied(d: Data, deltas: seq<(Id, Stats)>): Data {
    if deltas == [] then d
    else DeltaApplied(DeltasApplied(d, deltas[..|deltas| - 1]), deltas[|deltas| - 1].0, deltas[|deltas| - 1].1)
  }

  /** Statistics of one vendor, or of all for an empty vendor id, cleared. */
  ghost function StatsReset(d: Data, vendor: string): Data {
    map id | id in d :: if vendor == "" || id.0 == vendor then d[id].(stats := NO_STATS) else d[id]
  }

  lemma {:induction false} ReplacedInParts(d: Data, v: string, names: set<string>, next: Data, kept: Data)
    requires forall id :: id in next <==> (id in d && id.0 != v) || (id.0 == v && id.1 in names)
    requires forall id :: id in next ==> next[id] == if id.0 != v then d[id] else Listed(d, id)
    requires kept == map id | id in d && id.0 == v && id.1 !in names && d[id].status != Active :: NormalizeRecord(d[id])
    ensures next + kept == Replaced(d, v, names)
  {
    hide Listed, NormalizeRecord;
  }

  class Store {
    var data: Data

    constructor (loaded: Data)
      ensures data == map id | id in loaded :: NormalizeRecord(loaded[id])
    {
      data := map id | id in loaded :: NormalizeRecord(loaded[id]);
    }

    /** Atomic publication: `written` says whether replacing the file succeeded. */
    method Save(next: Data, written: bool) returns (r: Outcome)
      modifies this
      ensures r == if written then Done(0) else Refused(SaveFailed)
      ensures data == if written then next else old(data)
    {
      if !written { return Refused(SaveFailed); }
      data := next;
      r := Done(0);
    }

    method Replace(vendor: string, keys: seq<string>, written: bool) returns (r: Outcome)
      modifies this
      ensures r == if Trim(vendor) == "" then Refused(VendorRequired) else if written then Done(0) else Refused(SaveFailed)
      ensures data == if r.Done? then Replaced(old(data), Trim(vendor), KeySet(keys)) else old(data)
    {
      hide Trim, KeySet, NormalizeRecord, Listed, Replaced;
      var v := Trim(vendor);
      if v == "" { return Refused(VendorRequired); }
      var ks := NormalizeKeys(keys);
      ghost var names := KeySet(keys);
      assert forall k :: k in ks <==> k in names;
      var next: Data := map id | id in data && id.0 != v :: data[id];
      for i := 0 to |ks|
        invariant data == old(data)
        invariant forall id :: id in next <==> (id in data && id.0 != v) || (id.0 == v && id.1 in ks[..i])
        invariant forall id :: id in next ==> next[id] == if id.0 != v then data[id] else Listed(data, id)
      {
        var id := (v, ks[i]);
        assert ks[..i + 1] == ks[..i] + [ks[i]];
        next := next[id := Listed(data, id)];
      }
      assert ks[..|ks|] == ks;
      var kept: Data := map id | id in data && id.0 == v && id.1 !in ks && data[id].status != Active :: NormalizeRecord(data[id]);
      ReplacedInParts(data, v, names, next, kept);
      r := Save(next + kept, written);
    }

    method Append(vendor: string, keys: seq<string>, written: bool) returns (r: Outcome)
      modifies this
      ensures Trim(vendor) == "" ==> r == Refused(VendorRequired)
      ensures data == if r.Done? then Appended(old(data), Trim(vendor), KeySet(keys)) else old(data)
      ensures r.Done? ==> r.count == |data| - |old(data)|
      ensures r == Refused(SaveFailed) ==> !written
    {
      hide Trim, KeySet;
      var v := Trim(vendor);
      if v == "" { return Refused(VendorRequired); }
      var ks := NormalizeKeys(keys);
      ghost var names := KeySet(keys);
      assert forall k :: k in ks <==> k in names;
      var next, added := data, 0;
      for i := 0 to |ks|
        invariant data == old(data)
        invariant forall id :: id in next <==> id in data || (id.0 == v && id.1 in ks[..i])
        invariant forall id :: id in next ==> next[id] == if id in data then data[id] else NEW_RECORD
        invariant |next| == |data| + added && (added == 0 ==> next == data)
      {
        var id := (v, ks[i]);
        assert ks[..i + 1] == ks[..i] + [ks[i]];
        if id !in next {
          next := next[id := NEW_RECORD];
          added := added + 1;
        }
      }
      assert ks[..|ks|] == ks;
      assert next == Appended(data, v, names);
      if added == 0 { return Done(0); }
      r := Save(next, written);
      if r.Done? { r := Done(added); }
    }

    method Delete(vendor: string, keys: seq<string>, written: bool) returns (r: Outcome)
      modifies this
      ensures Trim(vendor) == "" ==> r == Refused(VendorRequired)
      ensures data == if r.Done? then Deleted(old(data), Trim(vendor), KeySet(keys)) else old(data)
      ensures r.Done? ==> r.count == |old(data)| - |data|
      ensures r == Refused(SaveFailed) ==> !written
    {
      hide Trim, KeySet;
      var v := Trim(vendor);
      if v == "" { return Refused(VendorRequired); }
      var ks := NormalizeKeys(keys);
      ghost var names := KeySet(keys);
      assert forall k :: k in ks <==> k in names;
      var next := map id | id in data && !(id.0 == v && id.1 in ks) :: data[id];
      assert next == Deleted(data, v, names);
      var removed := |data| - |next|;
      if next == data { return Done(0); }
      MapShrinks(data, next);
      r := Save(next, written);
      if r.Done? { r := Done(removed); }
    }

    /** Conditional (`expected` given) or unconditional status change; a failed save consumes no version. */
    method SetStatus(vendor: string, key: string, expected: Option<int>, status: Status, reason: string, actor: string, written: bool)
      returns (r: Outcome)
      modifies this
      ensures Trim(vendor) == "" ==> r == Refused(VendorRequired)
      ensures Trim(vendor) != "" && Trim(key) == "" ==> r == Refused(KeyRequired)
      ensures Trim(vendor) != "" && Trim(key) != "" ==>
        r == match StatusRefusal(old(data), (Trim(vendor), Trim(key)), expected)
             case Some(e) => Refused(e)
             case None => if written then Done(0) else Refused(SaveFailed)
      ensures data == if r.Done? then StatusSet(old(data), (Trim(vendor), Trim(key)), expected, status, reason, actor) else old(data)
    {
      hide Trim;
      var id := (Trim(vendor), Trim(key));
      if id.0 == "" { return Refused(VendorRequired); }
      if id.1 == "" { return Refused(KeyRequired); }
      if id !in data { return Refused(KeyNotFound); }
      if expected.Some? && data[id].version != expected.value { return Refused(VersionMismatch); }
      r := Save(data[id := WithStatus(data[id], status, reason, actor)], written);
    }

    method DeleteVendor(vendor: string, written: bool) returns (r: Outcome)
      modifies this
      ensures Trim(vendor) == "" ==> r == Refused(VendorRequired)
      ensures data == if r.Done? then VendorDeleted(old(data), Trim(vendor)) else old(data)
    {
      hide Trim;
      var v := Trim(vendor);
      if v == "" { return Refused(VendorRequired); }
      r := Save(map id | id in data && id.0 != v :: data[id], written);
    }

    /** Deltas are applied in order to a copy, which is published once; unknown keys and empty deltas are skipped. */
    method ApplyRuntimeStatsDeltas(deltas: seq<(Id, Stats)>, written: bool) returns (r: Outcome)
      modifies this
      ensures data == if r.Done? then DeltasApplied(old(data), deltas) else old(data)
      ensures r.Refused? <==> !written && exists j :: 0 <= j < |deltas| && deltas[j].0 in old(data) && !IsZero(deltas[j].1)
      ensures r.Refused? ==> r.error == SaveFailed
    {
      hide ApplyDelta, IsZero, NormalizeRecord;
      var next, changed := data, false;
      for i := 0 to |deltas|
        invariant data == old(data) && next == DeltasApplied(data, deltas[..i])
        invariant !changed ==> next == data
        invariant changed <==> exists j :: 0 <= j < i && deltas[j].0 in data && !IsZero(deltas[j].1)
        invariant next.Keys == data.Keys
      {
        assert deltas[..i + 1][..i] == deltas[..i];
        if deltas[i].0 in next && !IsZero(deltas[i].1) {
          next := next[deltas[i].0 := NormalizeRecord(next[deltas[i].0].(stats := ApplyDelta(next[deltas[i].0].stats, deltas[i].1)))];
          changed := true;
        }
      }
      assert deltas[..|deltas|] == deltas;
      if !changed { return Done(0); }
      r := Save(next, written);
    }

    method ResetRuntimeStats(vendor: string, written: bool) returns (r: Outcome)
      modifies this
      ensures data == if r.Done? then StatsReset(old(data), Trim(vendor)) else old(data)
      ensures r.Done? ==> r.count == |set id | id in data && (Trim(vendor) == "" || id.0 == Trim(vendor))|
      ensures r.Refused? ==> !written
    {
      hide Trim;
      var v := Trim(vendor);
      var named := set id | id in data && (v == "" || id.0 == v);
      var next := map id | id in data :: if id in named then data[id].(stats := NO_STATS) else data[id];
      if named == {} {
        assert next == data;
        return Done(0);
      }
      assert named == set id | id in next && (v == "" || id.0 == v);
      r := Save(next, written);
      if r.Done? { r := Done(|named|); }
    }
  }

  lemma {:induction false} MapShrinks(d: Data, e: Data)
    requires forall id :: id in e ==> id in d && d[id] == e[id]
    ensures |e| <= |d|
  {
    assert e.Keys <= d.Keys;
    SubsetSize(e.Keys, d.Keys);
  }

  // ---------------------------------------------------------------- versions

  /** The operations of the store, as steps of its data; a failed save is no step. */
  datatype Op =
    | OpReplace(vendor: string, keys: set<string>)
    | OpAppend(vendor: string, keys: set<string>)
    | OpStatus(id: Id, expected: Option<int>, status: Status, reason: string, actor: string)
    | OpDeltas(deltas: seq<(Id, Stats)>)
    | OpStatsReset(vendor: string)
    | OpDelete(vendor: string, keys: set<string>)

  ghost function Perform(d: Data, op: Op): Data {
    match op
    case OpReplace(v, ks) => Replaced(d, v, ks)
    case OpAppend(v, ks) => Appended(d, v, ks)
    case OpStatus(id, e, s, r, a) => StatusSet(d, id, e, s, r, a)
    case OpDeltas(ds) => DeltasApplied(d, ds)
    case OpStatsReset(v) => StatsReset(d, v)
    case OpDelete(v, ks) => Deleted(d, v, ks)
  }

  /** This conditional update changes the record: it names the stored version. */
  ghost predicate Succeeds(d: Data, op: Op, id: Id, expected: int) {
    op.OpStatus? && op.id == id && op.expected == Some(expected) && StatusRefusal(d, id, op.expected).None?
  }

  ghost predicate History(ds: seq<Data>, ops: seq<Op>) {
    |ds| == |ops| + 1 && forall i :: 0 <= i < |ops| ==> ds[i + 1] == Perform(ds[i], ops[i])
  }

  lemma {:induction false} DeltasKeepVersion(d: Data, deltas: seq<(Id, Stats)>, id: Id)
    ensures id in DeltasApplied(d, deltas) <==> id in d
    ensures id in d && d[id].version >= 0 ==> DeltasApplied(d, deltas)[id].version == d[id].version
    ensures id in d ==> DeltasApplied(d, deltas)[id].version >= d[id].version
  {
    hide ApplyDelta, IsZero;
    if deltas != [] { DeltasKeepVersion(d, deltas[..|deltas| - 1], id); }
  }

  lemma {:induction false} VersionsGrow(d: Data, op: Op, id: Id)
    requires id in d && id in Perform(d, op)
    ensures Perform(d, op)[id].version >= d[id].version
    ensures forall e :: Succeeds(d, op, id, e) ==> d[id].version == e < Perform(d, op)[id].version
  {
    hide Trim, DeltasApplied;
    if op.OpDeltas? { DeltasKeepVersion(d, op.deltas, id); }
  }

  lemma {:induction false} VersionsGrowOverRun(ds: seq<Data>, ops: seq<Op>, id: Id, i: nat, j: nat)
    requires History(ds, ops) && i <= j < |ds|
    requires forall k :: i <= k <= j ==> id in ds[k]
    ensures ds[j][id].version >= ds[i][id].version
    decreases j
  {
    hide Perform;
    if i < j {
      assert ds[j] == Perform(ds[j - 1], ops[j - 1]);
      VersionsGrowOverRun(ds, ops, id, i, j - 1);
      VersionsGrow(ds[j - 1], ops[j - 1], id);
    }
  }

  /** Compare-and-set: while a key is not removed, at most one conditional update of a given expected version
      succeeds, whatever other operations run in between. */
  lemma {:induction false} AtMostOneSucceeds(ds: seq<Data>, ops: seq<Op>, id: Id, expected: int, i: nat, j: nat)
    requires History(ds, ops) && i < |ops| && j < |ops| && i != j
    requires forall k :: 0 <= k < |ds| ==> id in ds[k]
    requires Succeeds(ds[i], ops[i], id, expected)
    ensures !Succeeds(ds[j], ops[j], id, expected)
  {
    hide Perform, Succeeds;
    assert id in ds[i + 1] && id in ds[j + 1];
    VersionsGrow(ds[i], ops[i], id);
    VersionsGrow(ds[j], ops[j], id);
    if i < j { VersionsGrowOverRun(ds, ops, id, i + 1, j); } else { VersionsGrowOverRun(ds, ops, id, j + 1, i); }
  }

  /** What a new list leaves of a key it names: everything but the version, which moves on by one; a key it brings in is
      active, of version one and without statistics. Of the keys of the vendor it does not name the active ones are gone. */
  lemma {:induction false} ReplaceKeepsListed(d: Data, vendor: string, keys: set<string>, id: Id)
    requires id.0 == vendor && forall k :: k in d ==> d[k] == NormalizeRecord(d[k])
    ensures var e := Replaced(d, vendor, keys);
            && (id in e <==> id.1 in keys || (id in d && d[id].status != Active))
            && (id in e && id in d ==>
                  && e[id].stats == d[id].stats && e[id].status == d[id].status && e[id].reason == d[id].reason && e[id].actor == d[id].actor
                  && e[id].version == d[id].version + if id.1 in keys then 1 else 0)
            && (id in e && id !in d ==> e[id].status == Active && e[id].version == 1 && e[id].stats == NO_STATS)
  {
  }

  /** What a status change leaves of a record: the new status with its trimmed reason and actor, none for an active key, the
      next version and the old statistics. */
  lemma {:induction false} StatusSetMeans(d: Data, id: Id, expected: Option<int>, status: Status, reason: string, actor: string)
    requires id in d && d[id].version >= 0 && (expected.Some? ==> d[id].version == expected.value)
    ensures var e := StatusSet(d, id, expected, status, reason, actor);
            && e.Keys == d.Keys && (forall k :: k in d && k != id ==> e[k] == d[k])
            && e[id].status == status && e[id].version == d[id].version + 1 && e[id].stats == d[id].stats
            && (status == Active ==> e[id].reason == "" && e[id].actor == "")
            && (status != Active && Trim(reason) == reason && Trim(actor) == actor ==> e[id].reason == reason && e[id].actor == actor)
  {
    hide Trim;
  }

  /** Replacing the key list never loses a disabled key, and never enables one. */
  lemma {:induction false} ReplaceKeepsDisabled(d: Data, vendor: string, keys: set<string>, id: Id)
    requires id in d && d[id].status != Active
    ensures id in Replaced(d, vendor, keys) && Replaced(d, vendor, keys)[id].status == d[id].status
    ensures Replaced(d, vendor, keys)[id].reason == d[id].reason && Replaced(d, vendor, keys)[id].actor == d[id].actor
  {
  }
}
