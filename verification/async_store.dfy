/** The write-behind status store: fields and critical sections, each tied to the steps of the protocol. */
module AsyncStore {
  import opened Wrappers
  import opened KeyRecords
  import opened FileStore
  import opened StatusQueue
  import opened ReplaceProtocol

  datatype Reply = Ok | Error(reason: Failure)
  datatype Failure = NoVendor | NoKey | Closed | Storage(error: StoreError)

  /** Queued keys carry trimmed, non-empty names. */
  ghost predicate Named(p: Pending) {
    forall id :: id in p ==> id.0 == Trim(id.0) != "" && id.1 == Trim(id.1) != ""
  }

  ghost predicate IdsOk(p: Pending, nextID: nat) {
    && (forall id :: id in p ==> p[id].id <= nextID)
    && (forall a, b :: a in p && b in p && p[a].id == p[b].id ==> a == b)
  }

  /** Records with the updates of the keys in `done` laid over. */
  ghost function Overlaid(d: Data, p: Pending, done: set<Id>): Data {
    map id | id in d :: if id in p && id in done then Overlay(d[id], p[id]) else d[id]
  }

  lemma {:induction false} OverlayOne(d: Data, p: Pending, done: set<Id>, id: Id)
    requires id in p && id !in done
    ensures Overlaid(d, p, done + {id}) == if id in d then Overlaid(d, p, done)[id := Overlay(d[id], p[id])] else Overlaid(d, p, done)
    ensures id in d ==> id in Overlaid(d, p, done) && Overlaid(d, p, done)[id] == d[id]
  {
    hide Overlay;
  }

  lemma {:induction false} AllOverlaid(d: Data, p: Pending)
    ensures Overlaid(d, p, {}) == d && Overlaid(d, p, p.Keys) == Effective(d, p)
  {
    hide Overlay;
  }

  /** Selecting a vendor before or after overlaying makes no difference. */
  lemma {:induction false} VendorOverlaid(d: Data, p: Pending, vendor: string)
    requires Tidy(d, p)
    ensures Effective(VendorRecords(d, vendor), p) == VendorRecords(Effective(d, p), vendor)
  {
    hide Trim;
  }

  /** What reconciling leaves in the queue is an earlier update of another key or a carried one under a fresh id. */
  lemma {:induction false} ReconciledEntry(was: Pending, p: Pending, from: nat, n: nat, vendor: string, carried: Pending, current: Data, id: Id)
    requires Reconciled(was, p, from, n, vendor, carried, current) && id in p
    ensures (id in was && p[id] == was[id] && !Requeues(carried, current, id))
            || (id in carried && p[id].id > from && p[id].id <= n && Requeues(carried, current, id)
                && p[id] == carried[id].(id := p[id].id, expected := p[id].expected))
  {
    hide Reflected, NormalizeRecord;
  }

  lemma {:induction false} ReconciledDistinct(was: Pending, p: Pending, from: nat, n: nat, vendor: string, carried: Pending, current: Data, a: Id, b: Id)
    requires Reconciled(was, p, from, n, vendor, carried, current) && IdsOk(was, from)
    requires a in p && b in p && p[a].id == p[b].id
    ensures a == b && p[a].id <= n
  {
    DistinctRequeues(was, p, from, n, vendor, carried, current);
    hide Reconciled, Requeues;
    ReconciledEntry(was, p, from, n, vendor, carried, current, a);
    ReconciledEntry(was, p, from, n, vendor, carried, current, b);
  }

  lemma {:induction false} ReconciledIsValid(d: Data, was: Pending, p: Pending, from: nat, n: nat, vendor: string, carried: Pending, current: Data)
    requires Tidy(d, was) && IdsOk(was, from) && Named(was) && Tidy(map[], carried) && Named(carried)
    requires Reconciled(was, p, from, n, vendor, carried, current)
    ensures Tidy(d, p) && IdsOk(p, n) && Named(p)
  {
    hide Reconciled, Requeues, NormalizeRecord, Trim;
    forall a, b | a in p && b in p && p[a].id == p[b].id ensures a == b {
      ReconciledDistinct(was, p, from, n, vendor, carried, current, a, b);
    }
    forall id | id in p ensures p[id].id <= n && (if id in was && p[id] == was[id] then true else
                                                    id in carried && p[id].target == carried[id].target && p[id].reason == carried[id].reason
                                                    && p[id].actor == carried[id].actor)
    {
      ReconciledDistinct(was, p, from, n, vendor, carried, current, id, id);
      ReconciledEntry(was, p, from, n, vendor, carried, current, id);
    }
  }

  lemma {:induction false} DistinctRequeues(was: Pending, p: Pending, from: nat, n: nat, vendor: string, carried: Pending, current: Data)
    requires Reconciled(was, p, from, n, vendor, carried, current)
    ensures from <= n
    ensures forall a, b :: a in p && b in p && Requeues(carried, current, a) && Requeues(carried, current, b) && a != b ==> p[a].id != p[b].id
  {
    hide Requeues;
  }

  lemma {:induction false} TrimmedKeySet(keys: seq<string>)
    requires forall k :: k in keys ==> k == Trim(k) != ""
    ensures KeySet(keys) == set k | k in keys
  {
    hide Trim;
    assert forall i :: 0 <= i < |keys| ==> keys[i] in keys;
  }

  lemma {:induction false} CarriedTidy(d: Data, p: Pending, vendor: string, records: Data)
    requires Tidy(d, p) && Named(p)
    ensures var c := EffectivePending(p, vendor, records);
            Tidy(map[], c) && Named(c) && forall id :: id in c ==> id.0 == vendor
  {
    hide Trim, NormalizeRecord;
  }

  ghost predicate SameElsewhere<T>(m: map<Id, T>, m': map<Id, T>, vendor: string) {
    forall id: Id :: id.0 != vendor ==> (id in m <==> id in m') && (id in m ==> m[id] == m'[id])
  }

  lemma {:induction false} ReconciledElsewhere(was: Pending, p: Pending, from: nat, n: nat, vendor: string, carried: Pending, current: Data)
    requires Reconciled(was, p, from, n, vendor, carried, current) && forall id :: id in carried ==> id.0 == vendor
    ensures SameElsewhere(was, p, vendor)
  {
    hide Reflected;
  }

  lemma {:induction false} RewrittenTidy(d: Data, p: Pending, vendor: string, keys: set<string>)
    requires Tidy(d, p)
    ensures Tidy(Replaced(d, vendor, keys), p) && Tidy(Appended(d, vendor, keys), p)
    ensures SameElsewhere(d, Replaced(d, vendor, keys), vendor) && SameElsewhere(d, Appended(d, vendor, keys), vendor)
  {
    hide Trim;
  }

  lemma {:induction false} StatusSetTidy(d: Data, p: Pending, id: Id, status: Status, reason: string, actor: string)
    requires Tidy(d, p)
    ensures Tidy(StatusSet(d, id, None, status, reason, actor), p)
  {
    hide Trim;
  }

  ghost predicate AllSafe(q0: Queue, s: State, vendor: string) {
    forall k: Id :: k.0 == vendor && Protected(q0, k) ==> Inv(s, k)
  }

  lemma {:induction false} StepFor(q0: Queue, s: State, t: State, vendor: string, keys: set<string>)
    requires AllSafe(q0, s, vendor) && CallerStep(s, t, vendor, keys)
    ensures AllSafe(q0, t, vendor)
    ensures t.caller == Completed ==> forall k: Id :: k.0 == vendor && Protected(q0, k) ==> ReportedDisabled(t.queue, k)
  {
    forall k: Id | k.0 == vendor && Protected(q0, k) ensures Inv(t, k) && (t.caller == Completed ==> ReportedDisabled(t.queue, k)) {
      hide CallerStep, Protected;
      CallerKeepsInv(s, t, vendor, keys, k);
    }
  }

  lemma {:induction false} StartIsSafe(q0: Queue, vendor: string, keys: set<string>)
    ensures AllSafe(q0, State(q0, Listed(VendorRecords(q0.data, vendor))), vendor)
  {
    var s, t := State(q0, NotCalled), State(q0, Listed(VendorRecords(q0.data, vendor)));
    forall k: Id | k.0 == vendor && Protected(q0, k) ensures Inv(t, k) {
      CallerKeepsInv(s, t, vendor, keys, k);
    }
  }

  class AsyncStatusStore {
    const base: Store
    var pending: Pending
    var nextID: nat
    var closed: bool

    /** Records and queue are tidy, queued ids are no newer than the counter and tell updates apart. */
    ghost predicate Valid()
      reads this, base
    {
      && Tidy(base.data, pending)
      && IdsOk(pending, nextID) && Named(pending)
    }

    constructor (store: Store)
      requires Tidy(store.data, map[])
      ensures Valid() && base == store && pending == map[] && nextID == 0 && !closed
    {
      base := store;
      pending, nextID, closed := map[], 0, false;
    }

    /** Queues an update in place of any earlier one for the key, under the next id. */
    method SetStatusIfVersion(vendor: string, key: string, expected: int, status: Status, reason: string, actor: string)
      returns (r: Reply)
      requires Valid()
      modifies this
      ensures Valid() && closed == old(closed)
      ensures r == if Trim(vendor) == "" then Error(NoVendor) else if Trim(key) == "" then Error(NoKey)
                   else if closed then Error(Closed) else Ok
      ensures r == Ok ==>
        && nextID == old(nextID) + 1
        && pending == old(pending)[(Trim(vendor), Trim(key)) :=
             Update(nextID, (Trim(vendor), Trim(key)), expected, status, Trim(reason), Trim(actor))]
      ensures r != Ok ==> pending == old(pending) && nextID == old(nextID)
    {
      hide Trim;
      var id := (Trim(vendor), Trim(key));
      if id.0 == "" { return Error(NoVendor); }
      if id.1 == "" { return Error(NoKey); }
      if closed { return Error(Closed); }
      TrimIdempotent(vendor);
      TrimIdempotent(key);
      TrimIdempotent(reason);
      TrimIdempotent(actor);
      nextID := nextID + 1;
      pending := pending[id := Update(nextID, id, expected, status, Trim(reason), Trim(actor))];
      r := Ok;
    }

    method DeletePendingIfMatch(u: Update)
      requires Valid()
      modifies this`pending
      ensures Valid() && pending == Acknowledged(old(pending), u, Applied)
    {
      hide Trim;
      if u.target !in pending || pending[u.target].id != u.id { return; }
      pending := pending - {u.target};
    }

    method ClearKeyPending(vendor: string, key: string)
      requires Valid()
      modifies this`pending
      ensures Valid() && pending == old(pending) - {(Trim(vendor), Trim(key))}
    {
      hide Trim;
      pending := pending - {(Trim(vendor), Trim(key))};
    }

    method ClearVendorPending(vendor: string)
      requires Valid()
      modifies this`pending
      ensures Valid() && pending == map id | id in old(pending) && id.0 != Trim(vendor) :: old(pending)[id]
    {
      hide Trim;
      var v := Trim(vendor);
      pending := map id | id in pending && id.0 != v :: pending[id];
    }

    /** An administrator's change is written through and drops what was queued. After a call that nothing interrupts between
        the two readers see exactly it. */
    method SetStatus(vendor: string, key: string, status: Status, reason: string, actor: string) returns (r: Reply)
      requires Valid()
      modifies this`pending, base
      ensures Valid()
      ensures var id := (Trim(vendor), Trim(key));
              r == Ok ==>
                && id in old(base.data)
                && Effective(base.data, pending) ==
                   Effective(old(base.data), old(pending) - {id})[id := WithStatus(old(base.data)[id], status, reason, actor)]
      ensures r != Ok ==> pending == old(pending) && base.data == old(base.data)
    {
      hide Trim, IdsOk, Overlay, NormalizeRecord, WithStatus, Tidy;
      ghost var d, p := base.data, pending;
      var written: bool := *;
      var reply := base.SetStatus(vendor, key, None, status, reason, actor, written);
      if reply.Refused? { return Error(Storage(reply.error)); }
      StatusSetTidy(d, p, (Trim(vendor), Trim(key)), status, reason, actor);
      ClearKeyPending(vendor, key);
      r := Ok;
    }

    /** The second locked section of a read: the queue as it is now is laid over records fetched before. */
    method OverlayPending(records: Data) returns (out: Data)
      requires Valid()
      ensures out == Effective(records, pending)
    {
      hide Trim, NormalizeRecord, Overlay, Overlaid, Effective, Tidy, IdsOk;
      var queued := pending;
      AllOverlaid(records, queued);
      out := records;
      var rest := queued.Keys;
      assert queued.Keys - rest == {};
      while rest != {}
        invariant rest <= queued.Keys && out == Overlaid(records, queued, queued.Keys - rest)
      {
        var id :| id in rest;
        OverlayOne(records, queued, queued.Keys - rest, id);
        assert queued.Keys - (rest - {id}) == queued.Keys - rest + {id};
        if id in records { out := out[id := Overlay(out[id], queued[id])]; }
        rest := rest - {id};
      }
      assert queued.Keys - rest == queued.Keys;
    }

    /** The records of one vendor as readers see them, in a call that nothing interrupts between fetching and overlaying. */
    method List(vendor: string) returns (out: Data)
      requires Valid()
      ensures out == VendorRecords(Effective(base.data, pending), Trim(vendor))
    {
      hide Trim, NormalizeRecord, Overlay, Effective, Tidy, IdsOk;
      var records := StoredRecords(Trim(vendor));
      out := OverlayPending(records);
      VendorOverlaid(base.data, pending, Trim(vendor));
    }

    method EffectivePendingForVendor(vendor: string) returns (carried: Pending)
      requires Valid()
      ensures carried == EffectivePending(pending, vendor, VendorRecords(base.data, vendor))
    {
      hide NormalizeRecord, Trim;
      ghost var records := VendorRecords(base.data, vendor);
      carried := map[];
      var stored := base.data;
      var rest := pending.Keys;
      while rest != {}
        invariant rest <= pending.Keys
        invariant forall id :: id in carried <==>
          id in pending && id !in rest && id.0 == vendor && id in records && records[id].version <= pending[id].expected
        invariant forall id :: id in carried ==> carried[id] == pending[id]
        decreases |rest|
      {
        var id :| id in rest;
        rest := rest - {id};
        if id.0 == vendor && id in stored && NormalizeRecord(stored[id]).version <= pending[id].expected {
          carried := carried[id := pending[id]];
        }
      }
    }

    /** The locked section that ends a replacement: the vendor's queue is emptied and what must be written again is queued. */
    method Requeue(vendor: string, carried: Pending, current: Data)
      requires Valid() && Tidy(map[], carried) && Named(carried)
      requires forall id :: id in carried ==> id.0 == vendor
      modifies this`pending, this`nextID
      ensures Valid()
      ensures Reconciled(old(pending), pending, old(nextID), nextID, vendor, carried, current)
    {
      hide Trim, NormalizeRecord, Reconciled, IdsOk, Requeues, Reflected;
      ghost var was, from := pending, nextID;
      var queue, n := map id | id in pending && id.0 != vendor :: pending[id], nextID;
      ghost var done: Pending := map[];
      var rest := carried.Keys;
      NothingCarried(pending, nextID, vendor, current);
      while rest != {}
        invariant rest <= carried.Keys && done == carried - rest
        invariant Reconciled(was, queue, from, n, vendor, done, current)
      {
        var id :| id in rest;
        rest := rest - {id};
        assert done[id := carried[id]] == carried - rest;
        if id in current && !Reflected(current[id], carried[id]) {
          RequeueOne(was, queue, from, n, vendor, done, current, carried[id]);
          n := n + 1;
          queue := queue[id := carried[id].(id := n, expected := current[id].version)];
        } else {
          RequeueSkips(was, queue, from, n, vendor, done, current, carried[id]);
        }
        done := done[id := carried[id]];
      }
      assert done == carried;
      ReconciledIsValid(base.data, was, queue, from, n, vendor, carried, current);
      pending, nextID := queue, n;
    }

    ghost function AsQueue(): Queue
      reads this, base
    {
      Queue(base.data, pending, nextID, Flushing([]))
    }

    method MissingKeys(carried: Pending, current: Data) returns (missing: seq<string>)
      requires Named(carried) && forall a, b :: a in carried && b in carried ==> a.0 == b.0
      ensures KeySet(missing) == MissingDisabled(carried, current)
      ensures missing == [] <==> MissingDisabled(carried, current) == {}
    {
      hide Trim;
      missing := [];
      var rest := carried.Keys;
      while rest != {}
        invariant rest <= carried.Keys
        invariant forall k :: k in missing <==>
          exists id :: id in carried && id !in rest && id !in current && carried[id].status != Active && id.1 == k
        decreases |rest|
      {
        var id :| id in rest;
        rest := rest - {id};
        if carried[id].status != Active && id !in current { missing := missing + [id.1]; }
      }
      TrimmedKeySet(missing);
      assert MissingDisabled(carried, current) == set k | k in missing;
      if missing != [] { assert missing[0] in MissingDisabled(carried, current); }
    }

    /** The stages after the base store was rewritten. The ghost `start` is the state the replacement began in. */
    method ReconcilePendingAfterReplace(vendor: string, carried: Pending, ghost start: Queue, ghost names: set<string>) returns (r: Reply)
      requires Valid() && Trim(vendor) == vendor != "" && Tidy(map[], carried) && Named(carried)
      requires forall id :: id in carried ==> id.0 == vendor
      requires AllSafe(start, State(AsQueue(), Rewritten(carried)), vendor)
      modifies this`pending, this`nextID, base
      ensures Valid()
      ensures r == Ok ==> forall k: Id :: k.0 == vendor && Protected(start, k) ==> ReportedDisabled(AsQueue(), k)
      ensures r != Ok ==> pending == old(pending) && nextID == old(nextID)
      ensures SameElsewhere(old(pending), pending, vendor) && SameElsewhere(old(base.data), base.data, vendor)
    {
      hide Trim, KeySet, Tidy, IdsOk, Named, Inv, Protected, Reconciled, ReportedDisabled, VendorRecords, Replaced, Appended,
           EffectivePending, MissingDisabled, AllSafe;
      ghost var s, t := State(AsQueue(), Rewritten(carried)), State(AsQueue(), Rewritten(carried));
      var current := StoredRecords(vendor);
      s := State(AsQueue(), Relisted(carried, current, false));
      StepFor(start, t, s, vendor, names);
      var missing := MissingKeys(carried, current);
      if missing != [] {
        var written: bool := *;
        var reply := base.Append(vendor, missing, written);
        if reply.Refused? { return Error(Storage(reply.error)); }
        RewrittenTidy(s.queue.data, pending, vendor, KeySet(missing));
        t := State(AsQueue(), Restored(carried));
        StepFor(start, s, t, vendor, names);
        current := StoredRecords(vendor);
        s := State(AsQueue(), Relisted(carried, current, true));
        StepFor(start, t, s, vendor, names);
      }
      Requeue(vendor, carried, current);
      ReconciledElsewhere(s.queue.pending, pending, s.queue.nextID, nextID, vendor, carried, current);
      t := State(AsQueue(), Completed);
      StepFor(start, s, t, vendor, names);
      r := Ok;
    }

    /** The replacement with nothing in between: each stage is a step of the protocol, so no protected key is lost. */
    method Replace(vendor: string, keys: seq<string>) returns (r: Reply)
      requires Valid()
      modifies this`pending, this`nextID, base
      ensures Valid()
      ensures r == Ok ==> forall k: Id :: k.0 == Trim(vendor) && Protected(old(AsQueue()), k) ==> ReportedDisabled(AsQueue(), k)
      ensures r != Ok ==> pending == old(pending) && nextID == old(nextID)
      ensures SameElsewhere(old(pending), pending, Trim(vendor)) && SameElsewhere(old(base.data), base.data, Trim(vendor))
    {
      hide Trim, KeySet, Tidy, IdsOk, Named, Inv, Protected, ReportedDisabled, VendorRecords, Replaced,
           EffectivePending, MissingDisabled, AllSafe;
      var v := Trim(vendor);
      TrimIdempotent(vendor);
      ghost var names, q0 := KeySet(keys), AsQueue();
      ghost var listed := State(q0, Listed(VendorRecords(base.data, v)));
      StartIsSafe(q0, v, names);
      var carried := EffectivePendingForVendor(v);
      CarriedTidy(base.data, pending, v, VendorRecords(base.data, v));
      ghost var s := State(q0, Carried(carried));
      StepFor(q0, listed, s, v, names);
      var written: bool := *;
      var reply := base.Replace(v, keys, written);
      if reply.Refused? { return Error(Storage(reply.error)); }
      RewrittenTidy(q0.data, pending, v, names);
      ghost var t := State(AsQueue(), Rewritten(carried));
      StepFor(q0, s, t, v, names);
      r := ReconcilePendingAfterReplace(v, carried, q0, names);
    }

    method StoredRecords(vendor: string) returns (out: Data)
      ensures out == VendorRecords(base.data, vendor)
    {
      var stored := base.data;
      out := map id | id in stored && id.0 == vendor :: NormalizeRecord(stored[id]);
    }

    /** One flush by a worker that runs undisturbed; saving may fail at any update. Readers see what they saw, except that
        updates ahead of their record, which the store refuses, no longer show. */
    method FlushPending() returns (allSynced: bool)
      requires Valid()
      modifies this`pending, base
      ensures Valid() && NoneAhead(base.data, pending)
      ensures Effective(base.data, pending) == old(Effective(base.data, NotAhead(base.data, pending)))
      ensures allSynced <==> pending == map[]
      ensures forall id :: id in pending ==> id in old(pending) && pending[id] == old(pending)[id]
    {
      hide Trim, Effective, NormalizeRecord, Tidy, IdsOk, NoneAhead, NotAhead, StatusSet, StatusRefusal;
      ghost var shown := Effective(base.data, NotAhead(base.data, pending));
      var updates, rest := pending, pending.Keys;
      allSynced := true;
      FlushStarts(base.data, pending);
      while rest != {}
        invariant Flushed(base.data, updates, pending, rest, shown) && IdsOk(pending, nextID)
        invariant allSynced <==> rest == pending.Keys
        decreases |rest|
      {
        var id :| id in rest;
        var u := updates[id];
        var written: bool := *;
        ghost var before, queued := base.data, pending;
        assert pending[id] == u && u.target == id;
        var r := base.SetStatus(id.0, id.1, Some(u.expected), u.status, u.reason, u.actor, written);
        RefusalReasons(before, id, Some(u.expected));
        FlushStep(before, base.data, updates, pending, rest, shown, u, r);
        rest := rest - {id};
        if r.Done? || r.error == VersionMismatch || r.error == KeyNotFound {
          DeletePendingIfMatch(u);
          assert pending == queued - {id};
        } else {
          assert pending == queued && rest + {id} <= pending.Keys;
          allSynced := false;
        }
      }
      FlushEnds(base.data, updates, pending, shown);
    }
  }

  /** The queue without the updates that name a newer version than the stored one. */
  ghost function NotAhead(d: Data, p: Pending): Pending {
    map id | id in p && !(id in d && p[id].expected > d[id].version) :: p[id]
  }

  /** Part of a flush: what is left of the queue is unchanged and, where already tried, not ahead. */
  ghost predicate Flushed(d: Data, updates: Pending, p: Pending, rest: set<Id>, shown: Data) {
    && rest <= p.Keys <= updates.Keys && (forall id :: id in p ==> p[id] == updates[id])
    && Tidy(d, p) && (forall id :: id in p ==> p[id].target == id) && Effective(d, NotAhead(d, p)) == shown
    && (forall id :: id in p && id !in rest ==> id in NotAhead(d, p))
  }

  lemma {:induction false} FlushStarts(d: Data, p: Pending)
    requires Tidy(d, p)
    ensures Flushed(d, p, p, p.Keys, Effective(d, NotAhead(d, p)))
  {
    hide Trim, Effective;
  }

  lemma {:induction false} FlushEnds(d: Data, updates: Pending, p: Pending, shown: Data)
    requires Flushed(d, updates, p, {}, shown)
    ensures NoneAhead(d, p) && Effective(d, p) == shown
  {
    hide Trim, Effective, Tidy;
    assert NotAhead(d, p) == p;
  }

  /** One update of an undisturbed flush: the write does not show, and neither does removing it once answered. */
  lemma {:induction false} FlushStep(d: Data, d': Data, updates: Pending, p: Pending, rest: set<Id>, shown: Data, u: Update, r: Outcome)
    requires Flushed(d, updates, p, rest, shown) && u.target in rest && p[u.target] == u
    requires d' == if r.Done? then Written(d, u) else d
    requires r.Refused? && r.error == SaveFailed ==> !Declined(d, u)
    requires r.Done? ==> !Declined(d, u)
    requires r.Refused? && r.error != SaveFailed ==> Declined(d, u)
    ensures Tidy(d', p)
    ensures r.Refused? && r.error == SaveFailed ==> Flushed(d', updates, p, rest - {u.target}, shown)
    ensures r.Done? || r.error != SaveFailed ==> Flushed(d', updates, p - {u.target}, rest - {u.target}, shown)
  {
    assert Tidy(d', p) by { hide Trim, Effective, NotAhead; if r.Done? { WrittenIsNormal(d, u); } }
    hide Flushed, NotAhead, Written, Declined;
    if r.Done? { FlushWrites(d, updates, p, rest, shown, u); }
    else if r.error != SaveFailed { FlushDrops(d, updates, p, rest, shown, u); }
    else { FlushKeeps(d, updates, p, rest, shown, u); }
  }

  lemma {:induction false} FlushWrites(d: Data, updates: Pending, p: Pending, rest: set<Id>, shown: Data, u: Update)
    requires Flushed(d, updates, p, rest, shown) && u.target in rest && p[u.target] == u && !Declined(d, u)
    ensures Flushed(Written(d, u), updates, p - {u.target}, rest - {u.target}, shown)
  {
    hide Trim, Effective, Overlay;
    var id, d' := u.target, Written(d, u);
    var front := NotAhead(d, p);
    assert d' == d[id := d'[id]];
    WriteInvisibleIff(d, front, u);
    RemovalInvisibleIff(d', front, id);
    assert NotAhead(d', p - {id}) == front - {id};
  }

  lemma {:induction false} FlushDrops(d: Data, updates: Pending, p: Pending, rest: set<Id>, shown: Data, u: Update)
    requires Flushed(d, updates, p, rest, shown) && u.target in rest && p[u.target] == u && Declined(d, u)
    ensures Flushed(d, updates, p - {u.target}, rest - {u.target}, shown)
  {
    hide Trim, Effective, Overlay;
    var id, front := u.target, NotAhead(d, p);
    assert NotAhead(d, p - {id}) == front - {id};
    if id in front { RemovalInvisibleIff(d, front, id); } else { assert front - {id} == front; }
  }

  lemma {:induction false} FlushKeeps(d: Data, updates: Pending, p: Pending, rest: set<Id>, shown: Data, u: Update)
    requires Flushed(d, updates, p, rest, shown) && u.target in rest && p[u.target] == u && !Declined(d, u)
    ensures Flushed(d, updates, p, rest - {u.target}, shown)
  {
    hide Trim, Effective;
  }

  lemma {:induction false} RefusalReasons(d: Data, id: Id, expected: Option<int>)
    ensures StatusRefusal(d, id, expected) in {None, Some(KeyNotFound), Some(VersionMismatch)}
  {
  }
}
