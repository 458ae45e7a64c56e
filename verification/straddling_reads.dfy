/** A list of keys is read under two locks, one after the other: the stored records are fetched, then the queue as it is by
    then is laid over them. Everything may move in between. */
module StraddlingReads {
  import opened Wrappers
  import opened KeyRecords
  import opened FileStore
  import opened StatusQueue
  import opened ReplaceProtocol
  import ReplaceLimits

  /** What a read shows that fetches its records in one state and looks at the queue in another. */
  ghost function Shown(fetched: Queue, laid: Queue): Data { Effective(fetched.data, laid.pending) }

  ghost predicate Covers(d: Data, p: Pending, id: Id) { id in d && id in p && d[id].version <= p[id].expected }

  ghost predicate SameCover(d: Data, p: Pending, q: Pending, id: Id) {
    && (Covers(d, p, id) <==> Covers(d, q, id))
    && (Covers(d, p, id) ==> p[id].expected == q[id].expected && SamePayload(p[id], q[id]))
  }

  /** Whoever moved the queue: two queues show the same over given records exactly when they cover the same of them, with
      the same version and content. With the records of the fetch this decides a read that looks at the queue too late,
      with those of the end one that looked at it before fetching. */
  lemma {:induction false} SameViewIff(d: Data, p: Pending, q: Pending)
    requires Tidy(d, p) && Tidy(d, q)
    ensures Effective(d, p) == Effective(d, q) <==> forall id :: id in d ==> SameCover(d, p, q, id)
  {
    hide Trim, SameCover, Covers, Overlay, NormalizeRecord;
    var x, y := Effective(d, p), Effective(d, q);
    forall id | id in d ensures x[id] == y[id] <==> SameCover(d, p, q, id) { SameViewAt(d, p, q, id); }
    assert x.Keys == y.Keys == d.Keys;
    assert x == y <==> forall id :: id in d ==> x[id] == y[id];
  }

  lemma {:induction false} SameViewAt(d: Data, p: Pending, q: Pending, id: Id)
    requires Tidy(d, p) && Tidy(d, q) && id in d
    ensures Effective(d, p)[id] == Effective(d, q)[id] <==> SameCover(d, p, q, id)
  {
    hide Trim;
    assert d[id] == NormalizeRecord(d[id]);
  }

  /** The fetched record shows what the present one does: both lie under the queued update with the same statistics, or one
      lies under it and the other is what the update makes of it, or neither lies under it and they are equal. */
  ghost predicate SameShown(d: Data, e: Data, p: Pending, id: Id)
    requires id in d && id in e
  {
    if Covers(d, p, id) && Covers(e, p, id) then d[id].stats == e[id].stats
    else if Covers(d, p, id) then e[id] == Overlay(d[id], p[id])
    else if Covers(e, p, id) then d[id] == Overlay(e[id], p[id])
    else d[id] == e[id]
  }

  /** Whoever moved the store: a read that fetched the records `d` and looks at the queue while the store holds `e` shows what
      that instant shows exactly when the keys are the same and each shows the same. */
  lemma {:induction false} SameRecordsIff(d: Data, e: Data, p: Pending)
    requires Tidy(d, p) && Tidy(e, p)
    ensures Effective(d, p) == Effective(e, p) <==> d.Keys == e.Keys && forall id :: id in d && id in e ==> SameShown(d, e, p, id)
  {
    hide Trim, SameShown, Covers, Overlay, NormalizeRecord;
    var x, y := Effective(d, p), Effective(e, p);
    forall id | id in d && id in e ensures x[id] == y[id] <==> SameShown(d, e, p, id) { SameRecordAt(d, e, p, id); }
    assert x.Keys == d.Keys && y.Keys == e.Keys;
    assert x == y <==> d.Keys == e.Keys && forall id :: id in d && id in e ==> x[id] == y[id];
  }

  lemma {:induction false} SameRecordAt(d: Data, e: Data, p: Pending, id: Id)
    requires Tidy(d, p) && Tidy(e, p) && id in d && id in e
    ensures Effective(d, p)[id] == Effective(e, p)[id] <==> SameShown(d, e, p, id)
  {
    hide Trim;
    assert d[id] == NormalizeRecord(d[id]) && e[id] == NormalizeRecord(e[id]);
  }

  // ---------------------------------------------------------------- one key, left alone by callers

  ghost function ViewAt(d: Data, p: Pending, id: Id): Option<Record> {
    if id !in d then None else Some(if id in p then Overlay(d[id], p[id]) else d[id])
  }

  /** Any step that keeps the record, the queued update and the worker's hands as they are for this key. */
  ghost predicate LeavesAlone(s: Queue, t: Queue, id: Id) {
    && t.worker == s.worker
    && (id in s.data <==> id in t.data) && (id in s.data ==> t.data[id] == s.data[id])
    && (id in s.pending <==> id in t.pending) && (id in s.pending ==> t.pending[id] == s.pending[id])
  }

  ghost predicate KeyRun(ss: seq<Queue>, id: Id) {
    |ss| > 0 && forall i :: 0 <= i < |ss| - 1 ==> WorkerStep(ss[i], ss[i + 1]) || LeavesAlone(ss[i], ss[i + 1], id)
  }

  /** What the worker holds of the key is what is queued, or the store has moved past it. */
  ghost predicate HeldOk(s: Queue, id: Id, u: Update) {
    u.target == id ==>
      && (id in s.pending && s.pending[id].id == u.id ==> s.pending[id] == u)
      && ((id in s.pending && s.pending[id] == u) || id !in s.data || s.data[id].version > u.expected)
  }

  ghost predicate KeyReady(s: Queue, id: Id) {
    && (id in s.data ==> s.data[id] == NormalizeRecord(s.data[id]))
    && (id in s.pending ==>
          && s.pending[id].target == id
          && Trim(s.pending[id].reason) == s.pending[id].reason && Trim(s.pending[id].actor) == s.pending[id].actor)
    && (id in s.data && id in s.pending ==> s.pending[id].expected <= s.data[id].version)
    && (forall u :: u in Held(s.worker) ==> HeldOk(s, id, u))
    && !(s.worker.Answered? && s.worker.verdict != NotWritten && s.worker.update.target == id
         && Covers(s.data, s.pending, id) && s.pending[id].id == s.worker.update.id)
  }

  /** Since `s` the record is as it was or has become what the queued update made of it, and that update is still queued or
      the store has moved past it. */
  ghost predicate Moved(s: Queue, t: Queue, id: Id) {
    && (id in s.data <==> id in t.data)
    && (id in s.data ==>
          t.data[id] == s.data[id] || (Covers(s.data, s.pending, id) && t.data[id] == Overlay(s.data[id], s.pending[id])))
    && (id in t.pending ==> id in s.pending && t.pending[id] == s.pending[id])
    && (id in s.pending && id !in t.pending ==> id !in t.data || t.data[id].version > s.pending[id].expected)
  }

  lemma {:induction false} AnswerMoves(s: Queue, t: Queue, id: Id)
    requires KeyReady(s, id) && Answers(s, t)
    ensures KeyReady(t, id) && Moved(s, t, id)
  {
    hide Trim;
    var u := s.worker.todo[0];
    assert u in Held(s.worker) && Held(t.worker) == s.worker.todo;
    assert HeldOk(s, id, u);
    forall w | w in Held(t.worker) ensures HeldOk(t, id, w) { assert HeldOk(s, id, w); }
  }

  lemma {:induction false} AcknowledgeMoves(s: Queue, t: Queue, id: Id)
    requires KeyReady(s, id) && Acknowledges(s, t)
    ensures KeyReady(t, id) && Moved(s, t, id)
  {
    hide Trim, NormalizeRecord, Overlay;
    forall w | w in Held(t.worker) ensures HeldOk(t, id, w) {
      assert w in Held(s.worker);
      assert HeldOk(s, id, w);
    }
  }

  lemma {:induction false} SnapshotMoves(s: Queue, t: Queue, id: Id)
    requires KeyReady(s, id) && Snapshots(s, t)
    ensures KeyReady(t, id) && Moved(s, t, id)
  {
    hide Trim, NormalizeRecord, Overlay;
    var todo := t.worker.todo;
    forall w | w in Held(t.worker) ensures HeldOk(t, id, w) { var i :| 0 <= i < |todo| && todo[i] == w; }
  }

  lemma {:induction false} AloneMoves(s: Queue, t: Queue, id: Id)
    requires KeyReady(s, id) && LeavesAlone(s, t, id)
    ensures KeyReady(t, id) && Moved(s, t, id)
  {
    hide Trim, NormalizeRecord, Overlay;
    forall w | w in Held(t.worker) ensures HeldOk(t, id, w) { assert HeldOk(s, id, w); }
  }

  lemma {:induction false} MovedFurther(s: Queue, t: Queue, r: Queue, id: Id)
    requires KeyReady(s, id) && Moved(s, t, id) && Moved(t, r, id)
    ensures Moved(s, r, id)
  {
    hide Trim;
  }

  lemma {:induction false} StepMoves(s: Queue, t: Queue, id: Id)
    requires KeyReady(s, id) && (WorkerStep(s, t) || LeavesAlone(s, t, id))
    ensures KeyReady(t, id) && Moved(s, t, id)
  {
    hide KeyReady, Moved, Answers, Acknowledges, Snapshots, LeavesAlone;
    if Answers(s, t) { AnswerMoves(s, t, id); }
    else if Acknowledges(s, t) { AcknowledgeMoves(s, t, id); }
    else if Snapshots(s, t) { SnapshotMoves(s, t, id); }
    else { AloneMoves(s, t, id); }
  }

  lemma {:induction false} RunReady(ss: seq<Queue>, id: Id, i: nat)
    requires KeyRun(ss, id) && KeyReady(ss[0], id) && i < |ss|
    ensures KeyReady(ss[i], id)
  {
    hide KeyReady, WorkerStep, LeavesAlone;
    if i > 0 {
      RunReady(ss, id, i - 1);
      StepMoves(ss[i - 1], ss[i], id);
    }
  }

  lemma {:induction false} NothingMoved(s: Queue, id: Id)
    ensures Moved(s, s, id)
  {
    hide Overlay, Covers;
  }

  lemma {:induction false} RunMoves(ss: seq<Queue>, id: Id, i: nat, j: nat)
    requires KeyRun(ss, id) && KeyReady(ss[0], id) && i <= j < |ss|
    ensures KeyReady(ss[i], id) && Moved(ss[i], ss[j], id)
    decreases j
  {
    hide KeyReady, Moved, WorkerStep, LeavesAlone;
    RunReady(ss, id, i);
    if i == j {
      NothingMoved(ss[i], id);
    } else {
      RunMoves(ss, id, i, j - 1);
      RunReady(ss, id, j - 1);
      StepMoves(ss[j - 1], ss[j], id);
      MovedFurther(ss[i], ss[j - 1], ss[j], id);
    }
  }

  /** Two instants of a key that callers leave alone: both show the same; looking at the queue first is always right; the
      order of the program is right exactly when the update that covered the fetched record is still queued. */
  lemma {:induction false} MovedShows(s: Queue, t: Queue, id: Id)
    requires KeyReady(s, id) && Moved(s, t, id)
    ensures ViewAt(t.data, t.pending, id) == ViewAt(s.data, s.pending, id)
    ensures ViewAt(t.data, s.pending, id) == ViewAt(s.data, s.pending, id)
    ensures ViewAt(s.data, t.pending, id) == ViewAt(s.data, s.pending, id) <==> (Covers(s.data, s.pending, id) ==> id in t.pending)
  {
    hide Trim;
  }

  /** A key that callers leave alone while the worker acts, read anywhere between its steps. Every instant shows the same.
      A read that looks at the queue before it fetches the record always shows that too. A read in the program's order
      does exactly when an update that covered the record at the fetch is still queued at the look. */
  lemma {:induction false} KeyReadAcross(ss: seq<Queue>, id: Id, i: nat, j: nat)
    requires KeyRun(ss, id) && KeyReady(ss[0], id) && i <= j < |ss|
    ensures ViewAt(ss[j].data, ss[j].pending, id) == ViewAt(ss[0].data, ss[0].pending, id)
    ensures ViewAt(ss[j].data, ss[i].pending, id) == ViewAt(ss[0].data, ss[0].pending, id)
    ensures ViewAt(ss[i].data, ss[j].pending, id) == ViewAt(ss[0].data, ss[0].pending, id) <==>
      (Covers(ss[i].data, ss[i].pending, id) ==> id in ss[j].pending)
  {
    hide KeyReady, Moved, ViewAt, Covers, WorkerStep, LeavesAlone;
    RunMoves(ss, id, 0, i);
    RunMoves(ss, id, i, j);
    MovedShows(ss[0], ss[i], id);
    MovedShows(ss[i], ss[j], id);
  }

  // ---------------------------------------------------------------- all keys, the worker alone

  lemma {:induction false} IdleIsReady(s: Queue, id: Id)
    requires s.worker == Flushing([]) && Tidy(s.data, s.pending) && NoneAhead(s.data, s.pending)
    ensures KeyReady(s, id)
  {
    hide Trim, NormalizeRecord;
  }

  lemma {:induction false} WorkerRunIsKeyRun(ss: seq<Queue>, id: Id)
    requires WorkerRun(ss)
    ensures KeyRun(ss, id)
  {
    hide WorkerStep, LeavesAlone;
  }

  lemma {:induction false} ViewsMakeEffective(d: Data, p: Pending, e: Data, q: Pending)
    ensures Effective(d, p) == Effective(e, q) <==> forall id :: ViewAt(d, p, id) == ViewAt(e, q, id)
  {
    hide Overlay;
    var x, y := Effective(d, p), Effective(e, q);
    assert forall id :: ViewAt(d, p, id) == if id in x then Some(x[id]) else None;
    assert forall id :: ViewAt(e, q, id) == if id in y then Some(y[id]) else None;
    if forall id :: ViewAt(d, p, id) == ViewAt(e, q, id) {
      forall id ensures (id in x <==> id in y) && (id in x ==> x[id] == y[id]) { assert ViewAt(d, p, id) == ViewAt(e, q, id); }
    }
  }

  /** A whole list read while the worker alone acts: it shows what every instant shows exactly when each update that covered
      a fetched record is still queued at the look. With the two locked sections the other way round it always would. */
  lemma {:induction false} StraddlingReadIff(ss: seq<Queue>, i: nat, j: nat)
    requires WorkerRun(ss) && ss[0].worker == Flushing([]) && i <= j < |ss|
    requires Tidy(ss[0].data, ss[0].pending) && NoneAhead(ss[0].data, ss[0].pending)
    ensures Shown(ss[i], ss[j]) == Shown(ss[0], ss[0]) <==>
      forall id :: Covers(ss[i].data, ss[i].pending, id) ==> id in ss[j].pending
    ensures Shown(ss[j], ss[i]) == Shown(ss[0], ss[0])
  {
    hide WorkerRun, KeyRun, KeyReady, Covers, ViewAt, Effective, Tidy, NoneAhead;
    forall id
      ensures ViewAt(ss[i].data, ss[j].pending, id) == ViewAt(ss[0].data, ss[0].pending, id) <==>
        (Covers(ss[i].data, ss[i].pending, id) ==> id in ss[j].pending)
      ensures ViewAt(ss[j].data, ss[i].pending, id) == ViewAt(ss[0].data, ss[0].pending, id)
    {
      WorkerRunIsKeyRun(ss, id);
      IdleIsReady(ss[0], id);
      KeyReadAcross(ss, id, i, j);
    }
    ViewsMakeEffective(ss[i].data, ss[j].pending, ss[0].data, ss[0].pending);
    ViewsMakeEffective(ss[j].data, ss[i].pending, ss[0].data, ss[0].pending);
  }

  /** The run that shows it: a disable of the stored version is queued; the record is fetched, the worker writes the update
      and takes it out of the queue, and the queue is looked at. The key is disabled at every instant and listed as active. */
  lemma {:induction false} StraddlingReadMisses(s: Queue, k: Id) returns (ss: seq<Queue>)
    requires s.worker == Flushing([]) && Tidy(s.data, s.pending) && NoneAhead(s.data, s.pending)
    requires k in s.data && s.data[k].status == Active && HoldsDisable(s.pending, k) && s.pending[k].expected == s.data[k].version
    ensures WorkerRun(ss) && |ss| == 4 && ss[0] == s
    ensures forall i :: 0 <= i < 4 ==> ReportedDisabled(ss[i], k)
    ensures k in Shown(ss[0], ss[3]) && Shown(ss[0], ss[3])[k].status == Active
  {
    hide Trim, SnapshotOf;
    var todo := ReplaceLimits.SnapshotStartingWith(s.pending, k);
    var u, rest := todo[0], todo[1..];
    var s1 := s.(worker := Flushing(todo));
    var s2 := s.(data := Written(s.data, u), worker := Answered(u, Applied, rest));
    var s3 := s2.(pending := s.pending - {k}, worker := Flushing(rest));
    ss := [s, s1, s2, s3];
    assert Snapshots(s, s1) && Answers(s1, s2) && Acknowledges(s2, s3);
  }

  /** Reads after a replacement, with further timely disables: at one instant a protected key is always reported disabled;
      a read that straddles reports it disabled exactly when it was stored disabled at the fetch, or the look finds an
      update that is not older than the fetched record. */
  lemma {:induction false} StraddlingReportIff(ss: seq<State>, vendor: string, keys: set<string>, k: Id, i: nat, j: nat)
    requires Run(ss, vendor, keys, k) && Timely(ss, k) && k.0 == vendor && ss[0].caller == NotCalled && Protected(ss[0].queue, k)
    requires i <= j < |ss| && ss[i].caller == Completed
    ensures ReportedDisabled(ss[i].queue, k) && k in Shown(ss[i].queue, ss[j].queue)
    ensures Shown(ss[i].queue, ss[j].queue)[k].status != Active <==>
      StoredDisabled(ss[i].queue.data, k) || Covers(ss[i].queue.data, ss[j].queue.pending, k)
  {
    hide Step, TimelyStep, Trim;
    var past, whole := ss[..i + 1], ss[..j + 1];
    PrefixRuns(ss, vendor, keys, k, i);
    PrefixRuns(ss, vendor, keys, k, j);
    hide Run, Timely;
    RunKeepsInv(past, vendor, keys, k);
    RunKeepsInv(whole, vendor, keys, k);
    assert past[|past| - 1] == ss[i] && whole[|whole| - 1] == ss[j];
  }

  lemma {:induction false} PrefixRuns(ss: seq<State>, vendor: string, keys: set<string>, k: Id, n: nat)
    requires Run(ss, vendor, keys, k) && Timely(ss, k) && n < |ss|
    ensures Run(ss[..n + 1], vendor, keys, k) && Timely(ss[..n + 1], k)
  {
    hide Step, TimelyStep;
    var past := ss[..n + 1];
    forall i | 0 <= i < |past| - 1 ensures Step(past[i], past[i + 1], vendor, keys, k) && TimelyStep(past[i], past[i + 1], k) {
      assert Step(ss[i], ss[i + 1], vendor, keys, k) && TimelyStep(ss[i], ss[i + 1], k);
    }
  }
}
