/** Status updates queued in front of the key store: what readers are shown, and the worker that writes them through. */
module StatusQueue {
  import opened Wrappers
  import opened KeyRecords
  import opened FileStore

  datatype Update = Update(id: nat, target: Id, expected: int, status: Status, reason: string, actor: string)

  type Pending = map<Id, Update>

  /** What the worker is doing: updates still to write, or one just answered by the store but not yet removed. */
  datatype Verdict = Applied | Rejected | NotWritten
  datatype Worker = Flushing(todo: seq<Update>) | Answered(update: Update, verdict: Verdict, rest: seq<Update>)

  datatype Queue = Queue(data: Data, pending: Pending, nextID: nat, worker: Worker)

  ghost predicate StoredDisabled(d: Data, id: Id) { id in d && d[id].status != Active }

  predicate SamePayload(u: Update, w: Update) {
    u.status == w.status && (u.status == Active || (u.reason == w.reason && u.actor == w.actor))
  }

  /** A stored record under a queued update: the update shows unless the record is already newer. */
  function Overlay(r: Record, u: Update): Record {
    if r.version > u.expected then r
    else NormalizeRecord(r.(status := u.status, version := Max(r.version, u.expected + 1),
                            reason := if u.status == Active then "" else u.reason,
                            actor := if u.status == Active then "" else u.actor))
  }

  /** The effective records: what a reader is shown who sees store and queue at one instant. */
  ghost function Effective(d: Data, p: Pending): Data {
    map id | id in d :: if id in p then Overlay(d[id], p[id]) else d[id]
  }

  ghost function Written(d: Data, u: Update): Data {
    StatusSet(d, u.target, Some(u.expected), u.status, u.reason, u.actor)
  }

  ghost predicate Declined(d: Data, u: Update) { StatusRefusal(d, u.target, Some(u.expected)).Some? }

  /** Removal after a verdict: only the very update that was answered. */
  function Acknowledged(p: Pending, u: Update, verdict: Verdict): Pending {
    if verdict != NotWritten && u.target in p && p[u.target].id == u.id then p - {u.target} else p
  }

  /** Stored records are normalized, queued diagnostics are trimmed, and the queue is indexed by its targets. */
  ghost predicate Tidy(d: Data, p: Pending) {
    && (forall id :: id in d ==> d[id] == NormalizeRecord(d[id]))
    && (forall id :: id in p ==> p[id].target == id && Trim(p[id].reason) == p[id].reason && Trim(p[id].actor) == p[id].actor)
  }

  ghost predicate NoneAhead(d: Data, p: Pending) {
    forall id :: id in p && id in d ==> p[id].expected <= d[id].version
  }

  // ---------------------------------------------------------------- when a step shows

  /** Writing an update in hand leaves what readers see alone exactly when the store refuses it, or a queued update
      still covers the record: one that names a newer version, or one of the same version and content. */
  lemma {:induction false} WriteInvisibleIff(d: Data, p: Pending, u: Update)
    requires Tidy(d, p) && Trim(u.reason) == u.reason && Trim(u.actor) == u.actor
    ensures Effective(Written(d, u), p) == Effective(d, p) <==>
      || Declined(d, u)
      || (u.target in p && (p[u.target].expected > d[u.target].version
                            || (p[u.target].expected == d[u.target].version && SamePayload(p[u.target], u))))
  {
    hide Trim;
    var id := u.target;
    if !Declined(d, u) {
      var before, after := Effective(d, p), Effective(Written(d, u), p);
      assert before.Keys == after.Keys;
      assert forall x :: x in before && x != id ==> before[x] == after[x];
      assert before == after <==> before[id] == after[id];
      assert d[id] == NormalizeRecord(d[id]);
    }
  }

  /** Removing a queued update shows exactly when it still covers a stored record. */
  lemma {:induction false} RemovalInvisibleIff(d: Data, p: Pending, id: Id)
    requires Tidy(d, p) && id in p
    ensures Effective(d, p - {id}) == Effective(d, p) <==> id !in d || d[id].version > p[id].expected
  {
    hide Trim;
    var before, after := Effective(d, p), Effective(d, p - {id});
    if id in d {
      assert id in before && id in after;
      assert d[id] == NormalizeRecord(d[id]);
    } else {
      assert before == after;
    }
  }

  // ---------------------------------------------------------------- the flush worker

  ghost predicate SnapshotOf(todo: seq<Update>, p: Pending) {
    && (forall i :: 0 <= i < |todo| ==> todo[i].target in p && p[todo[i].target] == todo[i])
    && (forall id :: id in p ==> p[id] in todo)
    && (forall i, j :: 0 <= i < j < |todo| ==> todo[i].target != todo[j].target)
  }

  ghost predicate Snapshots(s: Queue, t: Queue) {
    s.worker == Flushing([]) && t.worker.Flushing? && SnapshotOf(t.worker.todo, s.pending) && t == s.(worker := t.worker)
  }

  /** The store answers the next update: refused, not written because saving failed, or applied. */
  ghost predicate Answers(s: Queue, t: Queue) {
    && s.worker.Flushing? && |s.worker.todo| > 0
    && var u, rest := s.worker.todo[0], s.worker.todo[1..];
    if Declined(s.data, u) then t == s.(worker := Answered(u, Rejected, rest))
    else t == s.(worker := Answered(u, NotWritten, rest)) || t == s.(data := Written(s.data, u), worker := Answered(u, Applied, rest))
  }

  ghost predicate Acknowledges(s: Queue, t: Queue) {
    && s.worker.Answered?
    && t == s.(pending := Acknowledged(s.pending, s.worker.update, s.worker.verdict), worker := Flushing(s.worker.rest))
  }

  ghost predicate WorkerStep(s: Queue, t: Queue) { Snapshots(s, t) || Answers(s, t) || Acknowledges(s, t) }

  ghost predicate InStep(us: seq<Update>, p: Pending) {
    && (forall i :: 0 <= i < |us| ==> us[i].target in p && p[us[i].target] == us[i])
    && (forall i, j :: 0 <= i < j < |us| ==> us[i].target != us[j].target)
  }

  /** The worker alone: everything in its hands is still queued, and an answered update no longer shows. */
  ghost predicate WorkerInv(s: Queue) {
    && Tidy(s.data, s.pending) && NoneAhead(s.data, s.pending)
    && match s.worker
       case Flushing(todo) => InStep(todo, s.pending)
       case Answered(u, v, rest) =>
         && InStep([u] + rest, s.pending)
         && (v != NotWritten && u.target in s.data ==> s.data[u.target].version > u.expected)
  }

  lemma {:induction false} AnswerIsInvisible(s: Queue, t: Queue)
    requires WorkerInv(s) && Answers(s, t)
    ensures WorkerInv(t) && Effective(t.data, t.pending) == Effective(s.data, s.pending)
  {
    hide Trim, Effective, Overlay;
    var u, rest := s.worker.todo[0], s.worker.todo[1..];
    assert [u] + rest == s.worker.todo;
    if t.worker.verdict == Applied {
      WriteInvisibleIff(s.data, s.pending, u);
      assert t.data == s.data[u.target := t.data[u.target]];
    }
  }

  lemma {:induction false} RemovalIsInvisible(s: Queue, t: Queue)
    requires WorkerInv(s) && Acknowledges(s, t)
    ensures WorkerInv(t) && Effective(t.data, t.pending) == Effective(s.data, s.pending)
  {
    hide Trim, Effective, Overlay;
    var us := [s.worker.update] + s.worker.rest;
    assert us[0] == s.worker.update && us[1..] == s.worker.rest;
    assert forall i :: 0 <= i < |s.worker.rest| ==> s.worker.rest[i] == us[i + 1];
    RemovalInvisibleIff(s.data, s.pending, s.worker.update.target);
  }

  ghost predicate WorkerRun(ss: seq<Queue>) {
    |ss| > 0 && forall i :: 0 <= i < |ss| - 1 ==> WorkerStep(ss[i], ss[i + 1])
  }

  /** The worker is invisible: while no queued update names a version newer than the stored one, no number of
      snapshots, writes, refusals, failures and removals changes the effective records. */
  lemma {:induction false} WorkerIsInvisible(ss: seq<Queue>)
    requires WorkerRun(ss) && ss[0].worker == Flushing([])
    requires Tidy(ss[0].data, ss[0].pending) && NoneAhead(ss[0].data, ss[0].pending)
    ensures WorkerInv(ss[|ss| - 1])
    ensures Effective(ss[|ss| - 1].data, ss[|ss| - 1].pending) == Effective(ss[0].data, ss[0].pending)
    decreases |ss|
  {
    hide Tidy, NoneAhead, Effective, Answers, Acknowledges;
    if |ss| > 1 {
      var n := |ss| - 1;
      var prefix := ss[..n];
      assert forall i :: 0 <= i < |prefix| - 1 ==> WorkerStep(prefix[i], prefix[i + 1]) by {
        forall i | 0 <= i < |prefix| - 1 ensures WorkerStep(prefix[i], prefix[i + 1]) { assert WorkerStep(ss[i], ss[i + 1]); }
      }
      WorkerIsInvisible(prefix);
      assert WorkerStep(ss[n - 1], ss[n]);
      if Answers(ss[n - 1], ss[n]) { AnswerIsInvisible(ss[n - 1], ss[n]); }
      else if Acknowledges(ss[n - 1], ss[n]) { RemovalIsInvisible(ss[n - 1], ss[n]); }
    }
  }

  ghost function InHand(w: Worker): set<nat> {
    match w
    case Flushing(todo) => set i | 0 <= i < |todo| :: todo[i].id
    case Answered(u, _, rest) => {u.id} + set i | 0 <= i < |rest| :: rest[i].id
  }

  // ---------------------------------------------------------------- callers between the worker's steps

  /** What a caller may do between two steps of the worker: change the store, drop queued updates, queue others. */
  ghost predicate CallerChange(s: Queue, t: Queue) {
    && t.worker == s.worker && s.nextID <= t.nextID
    && (Tidy(s.data, s.pending) ==> Tidy(t.data, t.pending))
    && forall id :: id in t.pending ==>
         (id in s.pending && t.pending[id] == s.pending[id]) || s.nextID < t.pending[id].id <= t.nextID
  }

  ghost predicate Queues(s: Queue, t: Queue, u: Update) {
    && Trim(u.reason) == u.reason && Trim(u.actor) == u.actor && u.id == s.nextID + 1
    && t == s.(pending := s.pending[u.target := u], nextID := u.id)
  }

  /** A conditional update that is queued is such a change... */
  lemma {:induction false} QueuingIsAChange(s: Queue, t: Queue, u: Update)
    requires Queues(s, t, u)
    ensures CallerChange(s, t)
  {
    hide Trim;
  }

  /** ...and so is every operation of the store, together with the removal of any queued updates. */
  lemma {:induction false} DirectIsAChange(s: Queue, op: Op, gone: set<Id>)
    ensures CallerChange(s, s.(data := Perform(s.data, op), pending := s.pending - gone))
  {
    hide Perform, Trim;
    forall id | id in Perform(s.data, op) && Tidy(s.data, s.pending) ensures Perform(s.data, op)[id] == NormalizeRecord(Perform(s.data, op)[id]) {
      PerformKeepsNormal(s.data, op, id);
    }
  }

  lemma {:induction false} PerformKeepsNormal(d: Data, op: Op, id: Id)
    requires (forall k :: k in d ==> d[k] == NormalizeRecord(d[k])) && id in Perform(d, op)
    ensures Perform(d, op)[id] == NormalizeRecord(Perform(d, op)[id])
  {
    hide Trim, DeltasApplied;
    if op.OpDeltas? { DeltasKeepNormal(d, op.deltas); }
  }

  lemma {:induction false} DeltasKeepNormal(d: Data, deltas: seq<(Id, RuntimeStats.Stats)>)
    requires forall k :: k in d ==> d[k] == NormalizeRecord(d[k])
    ensures forall k :: k in DeltasApplied(d, deltas) ==> DeltasApplied(d, deltas)[k] == NormalizeRecord(DeltasApplied(d, deltas)[k])
  {
    hide RuntimeStats.ApplyDelta, RuntimeStats.IsZero;
    if deltas != [] { DeltasKeepNormal(d, deltas[..|deltas| - 1]); }
  }

  /** The worker and any number of callers take turns. */
  ghost predicate Interleaved(ss: seq<Queue>) {
    |ss| > 0 && forall i :: 0 <= i < |ss| - 1 ==> WorkerStep(ss[i], ss[i + 1]) || CallerChange(ss[i], ss[i + 1])
  }

  ghost function Held(w: Worker): seq<Update> { if w.Flushing? then w.todo else [w.update] + w.rest }

  /** Reachable states: the queue is tidy, and what the worker holds was queued. */
  ghost predicate Sane(s: Queue) {
    && Tidy(s.data, s.pending) && (forall id :: id in s.pending ==> s.pending[id].id <= s.nextID)
    && forall u :: u in Held(s.worker) ==> Trim(u.reason) == u.reason && Trim(u.actor) == u.actor && u.id <= s.nextID
  }

  lemma {:induction false} WorkerKeepsSane(s: Queue, t: Queue)
    requires Sane(s) && WorkerStep(s, t)
    ensures Sane(t)
  {
    hide Trim;
    if Answers(s, t) {
      var todo := s.worker.todo;
      assert Held(t.worker) == todo;
      assert todo[0] in Held(s.worker);
      hide WithStatus;
      if t.data != s.data { WrittenIsNormal(s.data, todo[0]); }
    } else if Acknowledges(s, t) {
      assert forall u :: u in Held(t.worker) ==> u in Held(s.worker);
    } else {
      forall u | u in t.worker.todo ensures u.target in s.pending && s.pending[u.target] == u {
        var i :| 0 <= i < |t.worker.todo| && t.worker.todo[i] == u;
      }
    }
  }

  lemma {:induction false} WrittenIsNormal(d: Data, u: Update)
    requires u.target in d
    ensures Written(d, u).Keys == d.Keys && forall id :: id in d && id != u.target ==> Written(d, u)[id] == d[id]
    ensures !Declined(d, u) ==> Written(d, u)[u.target] == NormalizeRecord(Written(d, u)[u.target])
  {
    hide Trim;
  }

  lemma {:induction false} InterleavedIsSane(ss: seq<Queue>, i: nat)
    requires Interleaved(ss) && Sane(ss[0]) && i < |ss|
    ensures Sane(ss[i])
  {
    hide WorkerStep;
    if i > 0 {
      InterleavedIsSane(ss, i - 1);
      hide Trim, Tidy;
      if WorkerStep(ss[i - 1], ss[i]) { WorkerKeepsSane(ss[i - 1], ss[i]); }
    }
  }

  /** The step of the worker that readers cannot notice: a write under a queued update that still covers the record, or
      the removal of an update that does not. */
  ghost predicate Unnoticed(s: Queue, t: Queue) {
    var p := s.pending;
    match t.worker
    case Answered(u, Applied, _) =>
      u.target in p && u.target in s.data
      && (p[u.target].expected > s.data[u.target].version
          || (p[u.target].expected == s.data[u.target].version && SamePayload(p[u.target], u)))
    case Answered(_, _, _) => true
    case Flushing(_) =>
      match s.worker
      case Flushing(_) => true
      case Answered(u, v, _) =>
        v != NotWritten && u.target in p && p[u.target].id == u.id ==>
          u.target !in s.data || s.data[u.target].version > p[u.target].expected
  }

  lemma {:induction false} WorkerStepVisibility(s: Queue, t: Queue)
    requires Sane(s) && WorkerStep(s, t)
    ensures Effective(t.data, t.pending) == Effective(s.data, s.pending) <==> Unnoticed(s, t)
  {
    hide Trim, Effective, Overlay, Snapshots;
    if Answers(s, t) {
      var u := s.worker.todo[0];
      assert u in Held(s.worker);
      if t.worker.verdict == Applied { WriteInvisibleIff(s.data, s.pending, u); }
    } else if Acknowledges(s, t) {
      var u := s.worker.update;
      if u.target in s.pending { RemovalInvisibleIff(s.data, s.pending, u.target); }
    } else {
      SnapshotShowsNothing(s, t);
    }
  }

  lemma {:induction false} SnapshotShowsNothing(s: Queue, t: Queue)
    requires Snapshots(s, t)
    ensures t.data == s.data && t.pending == s.pending && t.worker.Flushing? && s.worker.Flushing?
  {
  }

  /** Under any interleaving with callers a step of the worker changes the effective records exactly when it is not of the
      unnoticed kind. */
  lemma {:induction false} WorkerShowsExactly(ss: seq<Queue>, i: nat)
    requires Interleaved(ss) && ss[0].worker == Flushing([]) && Tidy(ss[0].data, ss[0].pending)
    requires forall id :: id in ss[0].pending ==> ss[0].pending[id].id <= ss[0].nextID
    requires i < |ss| - 1 && WorkerStep(ss[i], ss[i + 1])
    ensures Effective(ss[i + 1].data, ss[i + 1].pending) == Effective(ss[i].data, ss[i].pending) <==> Unnoticed(ss[i], ss[i + 1])
  {
    assert Sane(ss[0]) by { hide Trim, WorkerStep; }
    hide Sane, Tidy, WorkerStep, Unnoticed, Effective;
    InterleavedIsSane(ss, i);
    WorkerStepVisibility(ss[i], ss[i + 1]);
  }

  /** A run in which readers do notice: a second update of the same version with other content takes the place of the one
      the worker already holds, and the first is written under it. */
  lemma {:induction false} WriteCanShow(s: Queue, u: Update, w: Update) returns (ss: seq<Queue>)
    requires Tidy(s.data, map[]) && s.pending == map[] && s.worker == Flushing([]) && u.target == w.target && u.target in s.data
    requires u.expected == w.expected == s.data[u.target].version && !SamePayload(w, u) && u.id == s.nextID + 1 && w.id == s.nextID + 2
    requires Trim(u.reason) == u.reason && Trim(u.actor) == u.actor && Trim(w.reason) == w.reason && Trim(w.actor) == w.actor
    ensures Interleaved(ss) && |ss| == 5 && ss[0] == s && Queues(ss[0], ss[1], u) && Queues(ss[2], ss[3], w)
    ensures WorkerStep(ss[3], ss[4]) && Effective(ss[4].data, ss[4].pending) != Effective(ss[3].data, ss[3].pending)
  {
    hide Trim, Effective, Overlay, WithStatus;
    var s1 := s.(pending := map[u.target := u], nextID := u.id);
    var s2 := s1.(worker := Flushing([u]));
    var s3 := s2.(pending := map[u.target := w], nextID := w.id);
    var s4 := s3.(data := Written(s.data, u), worker := Answered(u, Applied, []));
    ss := [s, s1, s2, s3, s4];
    var none: Pending := map[];
    assert none[u.target := u] == map[u.target := u];
    assert map[u.target := u][u.target := w] == map[u.target := w];
    assert Queues(s, s1, u) && Queues(s2, s3, w);
    QueuingIsAChange(s, s1, u);
    QueuingIsAChange(s2, s3, w);
    assert Snapshots(s1, s2) by { assert [u][0] == u; }
    assert Answers(s3, s4) by { assert [u][0] == u && [u][1..] == []; }
    hide CallerChange, Snapshots;
    WriteInvisibleIff(s3.data, s3.pending, u);
  }

  /** Between two snapshots the worker drops only what it holds, whatever else happens to the store. */
  ghost predicate FlushRun(ss: seq<Queue>, id: Id) {
    && |ss| > 0
    && forall i :: 0 <= i < |ss| - 1 ==>
      || Answers(ss[i], ss[i + 1])
      || Acknowledges(ss[i], ss[i + 1])
      || (ss[i + 1].worker == ss[i].worker && (id in ss[i].pending ==> id in ss[i + 1].pending && ss[i + 1].pending[id] == ss[i].pending[id]))
  }

  lemma {:induction false} UnheldSurvives(ss: seq<Queue>, id: Id)
    requires FlushRun(ss, id) && id in ss[0].pending && ss[0].pending[id].id !in InHand(ss[0].worker)
    ensures id in ss[|ss| - 1].pending && ss[|ss| - 1].pending[id] == ss[0].pending[id]
    ensures InHand(ss[|ss| - 1].worker) <= InHand(ss[0].worker)
    decreases |ss|
  {
    hide Declined, Written;
    if |ss| > 1 {
      var n := |ss| - 1;
      var prefix := ss[..n];
      assert FlushRun(prefix, id);
      UnheldSurvives(prefix, id);
      HandShrinks(ss[n - 1], ss[n]);
    }
  }

  lemma {:induction false} HandShrinks(s: Queue, t: Queue)
    requires Answers(s, t) || Acknowledges(s, t) || t.worker == s.worker
    ensures InHand(t.worker) <= InHand(s.worker)
  {
    hide Declined, Written;
    if Answers(s, t) {
      var todo := s.worker.todo;
      assert todo[0].id in InHand(s.worker);
      forall i | 0 <= i < |todo| - 1 ensures todo[1..][i].id in InHand(s.worker) { assert todo[1..][i] == todo[i + 1]; }
    }
  }

  /** One flush, from its snapshot on, with callers in between. */
  ghost predicate Flush(ss: seq<Queue>) {
    && |ss| > 1 && Snapshots(ss[0], ss[1])
    && forall i :: 1 <= i < |ss| - 1 ==>
         Answers(ss[i], ss[i + 1]) || Acknowledges(ss[i], ss[i + 1]) || CallerChange(ss[i], ss[i + 1])
  }

  /** Everything the worker holds during a flush carries an id from before its snapshot. */
  lemma {:induction false} HeldIsOld(ss: seq<Queue>, i: nat)
    requires Flush(ss) && (forall id :: id in ss[0].pending ==> ss[0].pending[id].id <= ss[0].nextID) && 1 <= i < |ss|
    ensures forall x :: x in InHand(ss[i].worker) ==> x <= ss[0].nextID
    ensures ss[0].nextID <= ss[i].nextID
  {
    if i > 1 {
      HeldIsOld(ss, i - 1);
      hide Tidy, InHand, Declined, Written;
      HandShrinks(ss[i - 1], ss[i]);
    }
  }

  /** An update that a caller queues after the snapshot, and that no caller removes, survives that flush. */
  lemma {:induction false} LateUpdateSurvivesFlush(ss: seq<Queue>, j: nat, u: Update)
    requires Flush(ss) && forall id :: id in ss[0].pending ==> ss[0].pending[id].id <= ss[0].nextID
    requires 1 <= j < |ss| - 1 && Queues(ss[j], ss[j + 1], u)
    requires forall i :: j < i < |ss| - 1 && CallerChange(ss[i], ss[i + 1]) && u.target in ss[i].pending ==>
               u.target in ss[i + 1].pending && ss[i + 1].pending[u.target] == ss[i].pending[u.target]
    ensures u.target in ss[|ss| - 1].pending && ss[|ss| - 1].pending[u.target] == u
  {
    HeldIsOld(ss, j);
    HeldIsOld(ss, j + 1);
    var rest := ss[j + 1..];
    assert u.id !in InHand(rest[0].worker);
    hide InHand, Declined, Written, Tidy;
    assert FlushRun(rest, u.target) by {
      hide Answers, Acknowledges;
      forall i | 0 <= i < |rest| - 1
        ensures Answers(rest[i], rest[i + 1]) || Acknowledges(rest[i], rest[i + 1])
                || (rest[i + 1].worker == rest[i].worker
                    && (u.target in rest[i].pending ==> u.target in rest[i + 1].pending && rest[i + 1].pending[u.target] == rest[i].pending[u.target]))
      {
        assert rest[i] == ss[j + 1 + i] && rest[i + 1] == ss[j + 1 + i + 1];
      }
    }
    UnheldSurvives(rest, u.target);
  }
}
