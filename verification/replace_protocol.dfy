/** Replacing a vendor's key list while the flush worker and other callers run: each critical section is one step. */
module ReplaceProtocol {
  import opened Wrappers
  import opened KeyRecords
  import opened FileStore
  import opened StatusQueue

  /** How far the replacement has come. `carried` are the queued updates it took over, `current` the records it read last. */
  datatype Caller =
    | NotCalled
    | Listed(records: Data)
    | Carried(carried: Pending)
    | Rewritten(carried: Pending)
    | Relisted(carried: Pending, current: Data, retried: bool)
    | Restored(carried: Pending)
    | Completed
    | Failed

  datatype State = State(queue: Queue, caller: Caller)

  ghost function VendorRecords(d: Data, vendor: string): Data { map id | id in d && id.0 == vendor :: NormalizeRecord(d[id]) }

  /** The queued updates of the vendor that its stored records have not overtaken. */
  ghost function EffectivePending(p: Pending, vendor: string, records: Data): Pending {
    map id | id in p && id.0 == vendor && id in records && records[id].version <= p[id].expected :: p[id]
  }

  /** Keys of carried disables that the new list dropped. */
  ghost function MissingDisabled(carried: Pending, current: Data): set<string> {
    set id | id in carried && id !in current && carried[id].status != Active :: id.1
  }

  predicate Reflected(r: Record, u: Update) {
    r.status == u.status || (r.status != Active && u.status != Active)
  }

  /** An update need not be written again exactly when the store already agrees whether the key may be used. */
  lemma {:induction false} ReflectedMeans(r: Record, u: Update)
    ensures Reflected(r, u) <==> (r.status == Active <==> u.status == Active)
  {
  }

  ghost predicate Requeues(carried: Pending, current: Data, id: Id) {
    id in carried && id in current && !Reflected(current[id], carried[id])
  }

  /** The vendor's queue is emptied; a carried update that the stored record does not reflect is queued again,
      under a new id and against the record's present version. */
  ghost predicate Reconciled(p: Pending, p': Pending, nextID: nat, nextID': nat, vendor: string, carried: Pending, current: Data) {
    && nextID <= nextID'
    && (forall id :: id in p' <==> (id in p && id.0 != vendor) || Requeues(carried, current, id))
    && (forall id :: id in p' && !Requeues(carried, current, id) ==> p'[id] == p[id])
    && (forall id :: id in p' && Requeues(carried, current, id) ==>
          nextID < p'[id].id <= nextID' && p'[id] == carried[id].(id := p'[id].id, expected := current[id].version))
    && (forall a, b :: Requeues(carried, current, a) && Requeues(carried, current, b) && a != b ==> p'[a].id != p'[b].id)
  }

  lemma {:induction false} NothingCarried(p: Pending, nextID: nat, vendor: string, current: Data)
    ensures Reconciled(p, map id | id in p && id.0 != vendor :: p[id], nextID, nextID, vendor, map[], current)
  {
  }

  lemma {:induction false} RequeuesWith(carried: Pending, current: Data, u: Update)
    requires u.target !in carried
    ensures !Requeues(carried, current, u.target)
    ensures forall k :: Requeues(carried[u.target := u], current, k) <==>
      Requeues(carried, current, k) || (k == u.target && k in current && !Reflected(current[k], u))
  {
    hide Reflected;
  }

  lemma {:induction false} RequeueSkips(was: Pending, p: Pending, from: nat, n: nat, vendor: string, carried: Pending, current: Data, u: Update)
    requires Reconciled(was, p, from, n, vendor, carried, current) && u.target !in carried
    requires !(u.target in current && !Reflected(current[u.target], u))
    ensures Reconciled(was, p, from, n, vendor, carried[u.target := u], current)
  {
    RequeuesWith(carried, current, u);
    assert forall k :: Requeues(carried[u.target := u], current, k) <==> Requeues(carried, current, k);
    assert forall k :: Requeues(carried, current, k) ==> k in carried && k in current && carried[u.target := u][k] == carried[k];
    hide Requeues, Reflected, NormalizeRecord;
  }

  /** Requeueing one more carried update. */
  lemma {:induction false} RequeueOne(was: Pending, p: Pending, from: nat, n: nat, vendor: string, carried: Pending, current: Data, u: Update)
    requires Reconciled(was, p, from, n, vendor, carried, current) && u.target !in carried && u.target.0 == vendor
    requires u.target in current && !Reflected(current[u.target], u)
    ensures Reconciled(was, p[u.target := u.(id := n + 1, expected := current[u.target].version)], from, n + 1, vendor,
                       carried[u.target := u], current)
  {
    RequeuesWith(carried, current, u);
    assert forall k :: Requeues(carried, current, k) ==> k in carried && k in current && k in p && k != u.target && p[k].id <= n;
    hide Requeues, Reflected, NormalizeRecord;
  }

  /** One step of the replacement; storage may fail wherever it is used, which ends the call with an error. */
  ghost predicate CallerStep(s: State, t: State, vendor: string, keys: set<string>) {
    var d, p := s.queue.data, s.queue.pending;
    match s.caller
    case NotCalled => t.queue == s.queue && (t.caller == Listed(VendorRecords(d, vendor)) || t.caller == Failed)
    case Listed(records) => t.queue == s.queue && t.caller == Carried(EffectivePending(p, vendor, records))
    case Carried(c) =>
      t == s.(caller := Failed) || t == State(s.queue.(data := Replaced(d, vendor, keys)), Rewritten(c))
    case Rewritten(c) => t.queue == s.queue && (t.caller == Relisted(c, VendorRecords(d, vendor), false) || t.caller == Failed)
    case Relisted(c, current, retried) =>
      if !retried && MissingDisabled(c, current) != {} then
        t == s.(caller := Failed) || t == State(s.queue.(data := Appended(d, vendor, MissingDisabled(c, current))), Restored(c))
      else
        && Reconciled(p, t.queue.pending, s.queue.nextID, t.queue.nextID, vendor, c, current)
        && t == State(s.queue.(pending := t.queue.pending, nextID := t.queue.nextID), Completed)
    case Restored(c) => t.queue == s.queue && (t.caller == Relisted(c, VendorRecords(d, vendor), true) || t.caller == Failed)
    case Completed => false
    case Failed => false
  }

  /** Anything else that leaves key `k` alone: other keys come, go and change, statistics are stored, updates are queued. */
  ghost predicate ElsewhereStep(s: State, t: State, k: Id) {
    var d, d' := s.queue.data, t.queue.data;
    var p, p' := s.queue.pending, t.queue.pending;
    && t.caller == s.caller && t.queue.worker == s.queue.worker && s.queue.nextID <= t.queue.nextID
    && (k in d <==> k in d') && (k in d ==> d[k].status == d'[k].status && d[k].version == d'[k].version)
    && (k in p <==> k in p') && (k in p ==> p[k] == p'[k])
  }

  /** An automatic disable of `k` itself, queued against whatever version its attempt was acquired at. */
  ghost predicate DisableStep(s: State, t: State, k: Id) {
    && k in t.queue.pending
    && var u := t.queue.pending[k];
    && u.target == k && u.status != Active && u.id == s.queue.nextID + 1
    && t == s.(queue := s.queue.(pending := s.queue.pending[k := u], nextID := u.id))
  }

  ghost predicate Step(s: State, t: State, vendor: string, keys: set<string>, k: Id) {
    || (t.caller == s.caller && WorkerStep(s.queue, t.queue))
    || CallerStep(s, t, vendor, keys)
    || ElsewhereStep(s, t, k)
    || DisableStep(s, t, k)
  }

  ghost predicate Run(ss: seq<State>, vendor: string, keys: set<string>, k: Id) {
    |ss| > 0 && forall i :: 0 <= i < |ss| - 1 ==> Step(ss[i], ss[i + 1], vendor, keys, k)
  }

  /** Before the replacement takes its snapshot of the queue, and after its last step, the queue is what readers and the
      worker go by; in between the vendor's queue is about to be rebuilt. */
  predicate QueueCounts(c: Caller) { c.NotCalled? || c.Listed? || c.Completed? }

  /** A further disable of `k` that, where the queue counts, names the stored version or finds the key stored disabled. */
  ghost predicate TimelyStep(s: State, t: State, k: Id) {
    DisableStep(s, t, k) && QueueCounts(s.caller) ==>
      k in s.queue.data && (StoredDisabled(s.queue.data, k) || t.queue.pending[k].expected == s.queue.data[k].version)
  }

  ghost predicate Timely(ss: seq<State>, k: Id) {
    forall i :: 0 <= i < |ss| - 1 ==> TimelyStep(ss[i], ss[i + 1], k)
  }

  // ---------------------------------------------------------------- what protects a disabled key

  ghost predicate HoldsDisable(p: Pending, k: Id) { k in p && p[k].status != Active }

  /** Stored disabled, or active with a queued disable of exactly the stored version. */
  ghost predicate Secured(q: Queue, k: Id) {
    && k in q.data
    && (StoredDisabled(q.data, k) || (HoldsDisable(q.pending, k) && q.pending[k].expected == q.data[k].version))
  }

  ghost predicate HandOk(u: Update, q: Queue, k: Id) {
    u.target == k ==> u.status != Active && u.id <= q.nextID && (k in q.pending && q.pending[k].id == u.id ==> q.pending[k] == u)
  }

  ghost function Hand(w: Worker): seq<Update> { if w.Flushing? then w.todo else [w.update] + w.rest }

  /** Nothing queued or in the worker's hands would enable `k`, and ids tell updates of `k` apart. */
  ghost predicate NoEnable(q: Queue, k: Id) {
    && (k in q.pending ==> q.pending[k].target == k && q.pending[k].status != Active && q.pending[k].id <= q.nextID)
    && (forall u :: u in Hand(q.worker) ==> HandOk(u, q, k))
    && (k in q.data ==> q.data[k].version >= 0)
  }

  /** The worker is not about to drop the queued disable of a key that is still stored active. */
  ghost predicate VerdictOk(q: Queue, k: Id) {
    (q.worker.Answered? && q.worker.verdict != NotWritten && q.worker.update.target == k
     && k in q.pending && q.pending[k].id == q.worker.update.id) ==> StoredDisabled(q.data, k)
  }

  ghost predicate Protected(q: Queue, k: Id) { Secured(q, k) && NoEnable(q, k) && VerdictOk(q, k) }

  ghost predicate PhaseInv(s: State, k: Id) {
    var d := s.queue.data;
    match s.caller
    case NotCalled => Secured(s.queue, k) && VerdictOk(s.queue, k)
    case Completed => Secured(s.queue, k) && VerdictOk(s.queue, k)
    case Listed(records) =>
      Secured(s.queue, k) && VerdictOk(s.queue, k) && (!StoredDisabled(d, k) ==> k in records && records[k].version == d[k].version)
    case Carried(c) => k in d && (StoredDisabled(d, k) || HoldsDisable(c, k))
    case Rewritten(c) => StoredDisabled(d, k) || HoldsDisable(c, k)
    case Relisted(c, current, retried) =>
      StoredDisabled(d, k) || (HoldsDisable(c, k) && (k in d <==> k in current) && (retried ==> k in current)
                         && (k in d ==> current[k].status == Active && current[k].version == d[k].version))
    case Restored(c) => k in d && (StoredDisabled(d, k) || HoldsDisable(c, k))
    case Failed => true
  }

  /** A carried update of `k` is never an enable. */
  ghost predicate CarriesNoEnable(c: Caller, k: Id) {
    match c
    case Carried(p) => k in p ==> p[k].status != Active && p[k].target == k
    case Rewritten(p) => k in p ==> p[k].status != Active && p[k].target == k
    case Relisted(p, _, _) => k in p ==> p[k].status != Active && p[k].target == k
    case Restored(p) => k in p ==> p[k].status != Active && p[k].target == k
    case _ => true
  }

  ghost predicate Inv(s: State, k: Id) { NoEnable(s.queue, k) && CarriesNoEnable(s.caller, k) && PhaseInv(s, k) }

  lemma {:induction false} AnswerKeepsInv(s: State, t: State, k: Id)
    requires Inv(s, k) && t.caller == s.caller && Answers(s.queue, t.queue)
    ensures Inv(t, k)
  {
    hide Trim;
    var todo := s.queue.worker.todo;
    assert todo[0] in Hand(s.queue.worker);
    assert Hand(t.queue.worker) == todo;
    assert HandOk(todo[0], s.queue, k);
  }

  lemma {:induction false} AcknowledgeKeepsInv(s: State, t: State, k: Id)
    requires Inv(s, k) && t.caller == s.caller && Acknowledges(s.queue, t.queue)
    ensures Inv(t, k)
  {
    var u, rest := s.queue.worker.update, s.queue.worker.rest;
    assert Hand(s.queue.worker) == [u] + rest;
    assert u in Hand(s.queue.worker) && forall w :: w in rest ==> w in Hand(s.queue.worker);
    assert HandOk(u, s.queue, k);
  }

  lemma {:induction false} SnapshotKeepsInv(s: State, t: State, k: Id)
    requires Inv(s, k) && t.caller == s.caller && Snapshots(s.queue, t.queue)
    ensures Inv(t, k)
  {
    var todo := t.queue.worker.todo;
    forall u | u in todo ensures HandOk(u, t.queue, k) { var i :| 0 <= i < |todo| && todo[i] == u; }
  }

  lemma {:induction false} DroppedIsMissing(c: Pending, current: Data, k: Id)
    ensures HoldsDisable(c, k) && k !in current ==> k.1 in MissingDisabled(c, current)
  {
  }

  lemma {:induction false} ReconcileKeepsInv(s: State, t: State, vendor: string, keys: set<string>, k: Id)
    requires Inv(s, k) && k.0 == vendor && CallerStep(s, t, vendor, keys) && s.caller.Relisted? && t.caller == Completed
    ensures Inv(t, k)
  {
    hide Trim, MissingDisabled, Replaced, Appended, VendorRecords, EffectivePending;
    DroppedIsMissing(s.caller.carried, s.caller.current, k);
    assert forall u :: u in Hand(s.queue.worker) ==> HandOk(u, s.queue, k);
    if s.queue.worker.Answered? { assert s.queue.worker.update in Hand(s.queue.worker); }
  }

  lemma {:induction false} RewriteKeepsInv(s: State, t: State, vendor: string, keys: set<string>, k: Id)
    requires Inv(s, k) && k.0 == vendor && CallerStep(s, t, vendor, keys) && s.caller.Carried?
    ensures Inv(t, k)
  {
    hide Trim, Hand, Effective, Reconciled, VendorRecords, EffectivePending;
  }

  lemma {:induction false} RestoreKeepsInv(s: State, t: State, vendor: string, keys: set<string>, k: Id)
    requires Inv(s, k) && k.0 == vendor && CallerStep(s, t, vendor, keys) && s.caller.Relisted? && t.caller != Completed
    ensures Inv(t, k)
  {
    hide Trim, MissingDisabled, Replaced, Reconciled, VendorRecords, EffectivePending, Hand;
    DroppedIsMissing(s.caller.carried, s.caller.current, k);
    if t.caller.Restored? && !StoredDisabled(s.queue.data, k) && k !in s.caller.current {
      assert k in t.queue.data;
    }
  }

  lemma {:induction false} ReadingKeepsInv(s: State, t: State, vendor: string, keys: set<string>, k: Id)
    requires Inv(s, k) && k.0 == vendor && CallerStep(s, t, vendor, keys)
    requires s.caller.NotCalled? || s.caller.Listed? || s.caller.Rewritten? || s.caller.Restored?
    ensures Inv(t, k)
  {
    hide Trim, MissingDisabled, Replaced, Appended, Reconciled, Hand;
  }

  lemma {:induction false} CallerKeepsInv(s: State, t: State, vendor: string, keys: set<string>, k: Id)
    requires Inv(s, k) && k.0 == vendor && CallerStep(s, t, vendor, keys)
    ensures Inv(t, k)
  {
    hide Inv, Reconciled, Trim;
    if s.caller.Carried? { RewriteKeepsInv(s, t, vendor, keys, k); }
    else if s.caller.Relisted? && t.caller == Completed { ReconcileKeepsInv(s, t, vendor, keys, k); }
    else if s.caller.Relisted? { RestoreKeepsInv(s, t, vendor, keys, k); }
    else { ReadingKeepsInv(s, t, vendor, keys, k); }
  }

  lemma {:induction false} OthersKeepInv(s: State, t: State, k: Id)
    requires Inv(s, k) && (ElsewhereStep(s, t, k) || (DisableStep(s, t, k) && TimelyStep(s, t, k)))
    ensures Inv(t, k)
  {
    assert forall u :: u in Hand(s.queue.worker) ==> HandOk(u, s.queue, k);
    if s.queue.worker.Answered? { assert s.queue.worker.update in Hand(s.queue.worker); }
  }

  lemma {:induction false} StepKeepsInv(s: State, t: State, vendor: string, keys: set<string>, k: Id)
    requires Inv(s, k) && k.0 == vendor && Step(s, t, vendor, keys, k) && TimelyStep(s, t, k)
    ensures Inv(t, k)
  {
    hide Inv, CallerStep, ElsewhereStep, DisableStep, TimelyStep, Answers, Acknowledges, Snapshots;
    if CallerStep(s, t, vendor, keys) { CallerKeepsInv(s, t, vendor, keys, k); }
    else if ElsewhereStep(s, t, k) || DisableStep(s, t, k) { OthersKeepInv(s, t, k); }
    else if Answers(s.queue, t.queue) { AnswerKeepsInv(s, t, k); }
    else if Acknowledges(s.queue, t.queue) { AcknowledgeKeepsInv(s, t, k); }
    else { SnapshotKeepsInv(s, t, k); }
  }

  lemma {:induction false} RunKeepsInv(ss: seq<State>, vendor: string, keys: set<string>, k: Id)
    requires Run(ss, vendor, keys, k) && Timely(ss, k) && k.0 == vendor && Inv(ss[0], k)
    ensures Inv(ss[|ss| - 1], k)
    decreases |ss|
  {
    hide Inv, Step, TimelyStep;
    if |ss| > 1 {
      var prefix := ss[..|ss| - 1];
      assert Run(prefix, vendor, keys, k) by {
        forall i | 0 <= i < |prefix| - 1 ensures Step(prefix[i], prefix[i + 1], vendor, keys, k) {
          assert Step(ss[i], ss[i + 1], vendor, keys, k);
        }
      }
      assert Timely(prefix, k) by {
        forall i | 0 <= i < |prefix| - 1 ensures TimelyStep(prefix[i], prefix[i + 1], k) { assert TimelyStep(ss[i], ss[i + 1], k); }
      }
      assert TimelyStep(ss[|ss| - 2], ss[|ss| - 1], k);
      RunKeepsInv(prefix, vendor, keys, k);
      assert Step(ss[|ss| - 2], ss[|ss| - 1], vendor, keys, k);
      StepKeepsInv(ss[|ss| - 2], ss[|ss| - 1], vendor, keys, k);
    }
  }

  ghost predicate ReportedDisabled(q: Queue, k: Id) {
    k in Effective(q.data, q.pending) && Effective(q.data, q.pending)[k].status != Active
  }

  /** A replacement that succeeds loses no disable: whatever the flush worker and the callers of other keys do in
      between, whether or not the key is in the new list, and with any timely further disables, a protected key is still
      stored and reported disabled. */
  lemma {:induction false} ReplaceLosesNoDisable(ss: seq<State>, vendor: string, keys: set<string>, k: Id)
    requires Run(ss, vendor, keys, k) && k.0 == vendor
    requires ss[0].caller == NotCalled && Protected(ss[0].queue, k) && Timely(ss, k)
    ensures ss[|ss| - 1].caller == Completed ==>
      ReportedDisabled(ss[|ss| - 1].queue, k) && Protected(ss[|ss| - 1].queue, k)
  {
    hide Run, Timely;
    RunKeepsInv(ss, vendor, keys, k);
  }

  // ---------------------------------------------------------------- exactly how far the protection goes

  /** What the last step decides. Where `current` is up to date, a key of the vendor is reported with the carried status
      if that was queued again and with its stored status otherwise; what was queued since the snapshot has no say. */
  lemma {:induction false} ReconcileDecides(s: State, t: State, vendor: string, keys: set<string>, id: Id)
    requires CallerStep(s, t, vendor, keys) && s.caller.Relisted? && t.caller == Completed
    requires id.0 == vendor && id in s.queue.data && s.queue.data[id] == NormalizeRecord(s.queue.data[id])
    requires id in s.caller.current && s.caller.current[id] == s.queue.data[id]
    ensures Effective(t.queue.data, t.queue.pending)[id].status ==
      if Requeues(s.caller.carried, s.caller.current, id) then s.caller.carried[id].status else s.queue.data[id].status
  {
    hide Trim, MissingDisabled;
  }

  /** An update queued before the last step survives it exactly when it belongs to another vendor. In particular an
      automatic disable of the replaced vendor that was queued after the snapshot of pending updates is dropped. */
  lemma {:induction false} QueuedSurvivesReconcileIff(s: State, t: State, vendor: string, keys: set<string>, id: Id)
    requires CallerStep(s, t, vendor, keys) && s.caller.Relisted? && t.caller == Completed
    requires id in s.queue.pending && s.queue.pending[id].id <= s.queue.nextID
    requires forall k :: k in s.caller.carried ==> k.0 == vendor
    ensures (id in t.queue.pending && t.queue.pending[id] == s.queue.pending[id]) <==> id.0 != vendor
  {
    hide MissingDisabled, Reflected;
  }
}
