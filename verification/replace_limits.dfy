/** How far the protection of a replacement goes: the runs that lose a disable, and the exact conditions. */
module ReplaceLimits {
  import opened Wrappers
  import opened KeyRecords
  import opened FileStore
  import opened StatusQueue
  import opened ReplaceProtocol

  ghost predicate Keyed(p: Pending) { forall id :: id in p ==> p[id].target == id }

  // ---------------------------------------------------------------- building runs

  /** A run in which nothing disables `k`. */
  ghost predicate Quiet(ss: seq<State>, k: Id) { forall i :: 0 <= i < |ss| - 1 ==> !DisableStep(ss[i], ss[i + 1], k) }

  lemma {:induction false} QuietIsTimely(ss: seq<State>, k: Id)
    requires Quiet(ss, k)
    ensures Timely(ss, k)
  {
    hide DisableStep;
  }

  lemma {:induction false} Extend(ss: seq<State>, t: State, vendor: string, keys: set<string>, k: Id)
    requires Run(ss, vendor, keys, k) && Step(ss[|ss| - 1], t, vendor, keys, k)
    ensures Run(ss + [t], vendor, keys, k)
    ensures Quiet(ss, k) && !DisableStep(ss[|ss| - 1], t, k) ==> Quiet(ss + [t], k)
  {
    hide Step, DisableStep;
    var tt := ss + [t];
    forall i | 0 <= i < |tt| - 1
      ensures Step(tt[i], tt[i + 1], vendor, keys, k)
      ensures Quiet(ss, k) && !DisableStep(ss[|ss| - 1], t, k) ==> !DisableStep(tt[i], tt[i + 1], k)
    {
      if i < |ss| - 1 { assert tt[i] == ss[i] && tt[i + 1] == ss[i + 1]; }
    }
  }

  lemma {:induction false} Join(ss: seq<State>, tt: seq<State>, vendor: string, keys: set<string>, k: Id)
    requires Run(ss, vendor, keys, k) && Run(tt, vendor, keys, k) && tt[0] == ss[|ss| - 1]
    ensures Run(ss + tt[1..], vendor, keys, k) && (ss + tt[1..])[|ss| + |tt| - 2] == tt[|tt| - 1]
    ensures Quiet(ss, k) && Quiet(tt, k) ==> Quiet(ss + tt[1..], k)
    decreases |tt|
  {
    hide Step, DisableStep;
    if |tt| == 1 {
      assert ss + tt[1..] == ss;
    } else {
      var n := |tt| - 1;
      var front := tt[..n];
      assert Run(front, vendor, keys, k) && (Quiet(tt, k) ==> Quiet(front, k));
      Join(ss, front, vendor, keys, k);
      assert ss + tt[1..] == ss + front[1..] + [tt[n]];
      assert Step(tt[n - 1], tt[n], vendor, keys, k);
      assert Quiet(tt, k) ==> !DisableStep(tt[n - 1], tt[n], k);
      assert (ss + front[1..])[|ss + front[1..]| - 1] == tt[n - 1];
      Extend(ss + front[1..], tt[n], vendor, keys, k);
    }
  }

  /** The last locked section always has an outcome. */
  lemma {:induction false} ReconcileExists(p: Pending, nextID: nat, vendor: string, carried: Pending, current: Data)
    returns (p': Pending, n: nat)
    requires Keyed(carried) && forall id :: id in carried ==> id.0 == vendor
    ensures Reconciled(p, p', nextID, n, vendor, carried, current)
    decreases |carried|
  {
    hide Reconciled, Reflected;
    if carried == map[] {
      NothingCarried(p, nextID, vendor, current);
      p', n := map id | id in p && id.0 != vendor :: p[id], nextID;
    } else {
      var id :| id in carried;
      var rest := carried - {id};
      var u := carried[id];
      p', n := ReconcileExists(p, nextID, vendor, rest, current);
      assert rest[id := u] == carried;
      if u.target in current && !Reflected(current[u.target], u) {
        RequeueOne(p, p', nextID, n, vendor, rest, current, u);
        p', n := p'[id := u.(id := n + 1, expected := current[id].version)], n + 1;
      } else {
        RequeueSkips(p, p', nextID, n, vendor, rest, current, u);
      }
    }
  }

  /** The store after a replacement that nothing else touches. */
  ghost function FinalData(d: Data, vendor: string, keys: set<string>, carried: Pending): Data {
    var r := Replaced(d, vendor, keys);
    var m := MissingDisabled(carried, VendorRecords(r, vendor));
    if m == {} then r else Appended(r, vendor, m)
  }

  /** The replacement carried `c` and nothing else touched the store. */
  ghost predicate CompletedFrom(s: State, t: State, vendor: string, keys: set<string>, c: Pending) {
    && t.caller == Completed && t.queue.worker == s.queue.worker
    && t.queue.data == FinalData(s.queue.data, vendor, keys, c)
    && Reconciled(s.queue.pending, t.queue.pending, s.queue.nextID, t.queue.nextID, vendor, c, VendorRecords(t.queue.data, vendor))
  }

  /** What a replacement carries that takes its snapshot of the queue next. */
  ghost function WillCarry(s: State, vendor: string): Pending {
    EffectivePending(s.queue.pending, vendor, if s.caller.Listed? then s.caller.records else VendorRecords(s.queue.data, vendor))
  }

  lemma {:induction false} CallerExtends(ss: seq<State>, t: State, vendor: string, keys: set<string>, k: Id)
    requires Run(ss, vendor, keys, k) && Quiet(ss, k) && CallerStep(ss[|ss| - 1], t, vendor, keys) && t.caller != ss[|ss| - 1].caller
    ensures Run(ss + [t], vendor, keys, k) && Quiet(ss + [t], k)
  {
    hide CallerStep, Quiet;
    assert Step(ss[|ss| - 1], t, vendor, keys, k) && !DisableStep(ss[|ss| - 1], t, k);
    Extend(ss, t, vendor, keys, k);
  }

  predicate BeforeSnapshot(c: Caller) { c.NotCalled? || c.Listed? }

  lemma {:induction false} CarriedKeyed(p: Pending, vendor: string, records: Data)
    requires Keyed(p)
    ensures var c := EffectivePending(p, vendor, records); Keyed(c) && forall id :: id in c ==> id.0 == vendor
  {
  }

  /** Before the snapshot is taken the replacement can run to its end without interference. */
  lemma {:induction false} ReplaceCanComplete(s: State, vendor: string, keys: set<string>, k: Id) returns (ss: seq<State>)
    requires BeforeSnapshot(s.caller) && Keyed(s.queue.pending)
    ensures Run(ss, vendor, keys, k) && Quiet(ss, k) && ss[0] == s && CompletedFrom(s, ss[|ss| - 1], vendor, keys, WillCarry(s, vendor))
  {
    var q := s.queue;
    var records := if s.caller.Listed? then s.caller.records else VendorRecords(q.data, vendor);
    var c := WillCarry(s, vendor);
    CarriedKeyed(q.pending, vendor, records);
    hide Run, Quiet, VendorRecords, EffectivePending, CompletedFrom;
    Alone(s, vendor, keys, k);
    ss := [s];
    if s.caller == NotCalled {
      CallerExtends(ss, State(q, Listed(records)), vendor, keys, k);
      ss := ss + [State(q, Listed(records))];
    }
    CallerExtends(ss, State(q, Carried(c)), vendor, keys, k);
    ss := ss + [State(q, Carried(c))];
    var more := CarriedCanComplete(State(q, Carried(c)), vendor, keys, k);
    Join(ss, more, vendor, keys, k);
    SameQueueCompletes(s, State(q, Carried(c)), more[|more| - 1], vendor, keys, c);
    ss := ss + more[1..];
  }

  lemma {:induction false} SameQueueCompletes(s: State, s': State, t: State, vendor: string, keys: set<string>, c: Pending)
    requires s.queue == s'.queue && CompletedFrom(s', t, vendor, keys, c)
    ensures CompletedFrom(s, t, vendor, keys, c)
  {
    hide FinalData, Reconciled;
  }

  lemma {:induction false} CarriedCanComplete(s: State, vendor: string, keys: set<string>, k: Id) returns (ss: seq<State>)
    requires s.caller.Carried? && Keyed(s.caller.carried) && forall id :: id in s.caller.carried ==> id.0 == vendor
    ensures Run(ss, vendor, keys, k) && Quiet(ss, k) && ss[0] == s && CompletedFrom(s, ss[|ss| - 1], vendor, keys, s.caller.carried)
  {
    hide Run, Quiet, Replaced, Appended, VendorRecords, EffectivePending, MissingDisabled, Reconciled;
    var q, c := s.queue, s.caller.carried;
    var r := Replaced(q.data, vendor, keys);
    var m := MissingDisabled(c, VendorRecords(r, vendor));
    Alone(s, vendor, keys, k);
    ss := [s];
    var q1 := q.(data := r);
    CallerExtends(ss, State(q1, Rewritten(c)), vendor, keys, k);
    ss := ss + [State(q1, Rewritten(c))];
    CallerExtends(ss, State(q1, Relisted(c, VendorRecords(r, vendor), false)), vendor, keys, k);
    ss := ss + [State(q1, Relisted(c, VendorRecords(r, vendor), false))];
    if m != {} {
      var q2 := q.(data := Appended(r, vendor, m));
      CallerExtends(ss, State(q2, Restored(c)), vendor, keys, k);
      ss := ss + [State(q2, Restored(c))];
      CallerExtends(ss, State(q2, Relisted(c, VendorRecords(q2.data, vendor), true)), vendor, keys, k);
      ss := ss + [State(q2, Relisted(c, VendorRecords(q2.data, vendor), true))];
    }
    var last := ss[|ss| - 1];
    var p', n := ReconcileExists(q.pending, q.nextID, vendor, c, VendorRecords(last.queue.data, vendor));
    var t := State(last.queue.(pending := p', nextID := n), Completed);
    CallerExtends(ss, t, vendor, keys, k);
    ss := ss + [t];
  }

  lemma {:induction false} Alone(s: State, vendor: string, keys: set<string>, k: Id)
    ensures Run([s], vendor, keys, k) && Quiet([s], k)
  {
  }

  // ---------------------------------------------------------------- the worker gives up an update

  /** The worker can finish what it holds without writing anything: saving fails, or the store refuses. */
  lemma {:induction false} WorkerCanDrain(s: State, vendor: string, keys: set<string>, k: Id) returns (ss: seq<State>)
    ensures Run(ss, vendor, keys, k) && Quiet(ss, k) && ss[0] == s
    ensures var t := ss[|ss| - 1];
            t.caller == s.caller && t.queue.worker == Flushing([]) && t.queue.data == s.queue.data && t.queue.nextID == s.queue.nextID
            && forall id :: id in t.queue.pending ==> id in s.queue.pending && t.queue.pending[id] == s.queue.pending[id]
    decreases match s.queue.worker case Flushing(todo) => 2 * |todo| case Answered(_, _, rest) => 2 * |rest| + 1
  {
    hide Run, Quiet, Declined;
    Alone(s, vendor, keys, k);
    var q := s.queue;
    if q.worker == Flushing([]) { return [s]; }
    var t: State :=
      if q.worker.Flushing? then
        var u, rest := q.worker.todo[0], q.worker.todo[1..];
        s.(queue := q.(worker := Answered(u, if Declined(q.data, u) then Rejected else NotWritten, rest)))
      else
        s.(queue := q.(pending := Acknowledged(q.pending, q.worker.update, q.worker.verdict), worker := Flushing(q.worker.rest)));
    assert WorkerStep(q, t.queue);
    assert Step(s, t, vendor, keys, k) && !DisableStep(s, t, k);
    Extend([s], t, vendor, keys, k);
    var more := WorkerCanDrain(t, vendor, keys, k);
    Join([s] + [t], more, vendor, keys, k);
    ss := [s] + [t] + more[1..];
  }

  lemma {:induction false} SnapshotExists(p: Pending) returns (todo: seq<Update>)
    requires Keyed(p)
    ensures SnapshotOf(todo, p)
    decreases |p|
  {
    if p == map[] { return []; }
    var id :| id in p;
    todo := SnapshotStartingWith(p, id);
  }

  lemma {:induction false} SnapshotStartingWith(p: Pending, k: Id) returns (todo: seq<Update>)
    requires Keyed(p) && k in p
    ensures SnapshotOf(todo, p) && |todo| > 0 && todo[0] == p[k]
    decreases |p|, 0
  {
    var rest := p - {k};
    assert |rest| == |p| - 1 by { assert rest.Keys == p.Keys - {k}; }
    var more := SnapshotExists(rest);
    todo := [p[k]] + more;
    assert forall id :: id in p && id != k ==> rest[id] in more;
  }

  /** An idle worker can take up an update that the store refuses and drop it. */
  lemma {:induction false} WorkerCanDrop(s: State, vendor: string, keys: set<string>, k: Id) returns (ss: seq<State>)
    requires s.queue.worker == Flushing([]) && Keyed(s.queue.pending) && k in s.queue.pending && Declined(s.queue.data, s.queue.pending[k])
    ensures Run(ss, vendor, keys, k) && Quiet(ss, k) && ss[0] == s
    ensures var t := ss[|ss| - 1];
            t.caller == s.caller && t.queue.data == s.queue.data && t.queue.pending == s.queue.pending - {k}
  {
    hide Run, Quiet, Declined, SnapshotOf;
    var q := s.queue;
    var todo := SnapshotStartingWith(q.pending, k);
    Alone(s, vendor, keys, k);
    var s1 := s.(queue := q.(worker := Flushing(todo)));
    var s2 := s.(queue := q.(worker := Answered(todo[0], Rejected, todo[1..])));
    var s3 := s.(queue := q.(pending := q.pending - {k}, worker := Flushing(todo[1..])));
    assert WorkerStep(q, s1.queue) && Step(s, s1, vendor, keys, k);
    Extend([s], s1, vendor, keys, k);
    assert WorkerStep(s1.queue, s2.queue) && Step(s1, s2, vendor, keys, k);
    Extend([s] + [s1], s2, vendor, keys, k);
    assert WorkerStep(s2.queue, s3.queue) && Step(s2, s3, vendor, keys, k);
    Extend([s] + [s1] + [s2], s3, vendor, keys, k);
    ss := [s] + [s1] + [s2] + [s3];
  }

  // ---------------------------------------------------------------- a disable that does not name the stored version

  /** An active key that the replacement does not carry ends up active or gone. */
  lemma {:induction false} NotCarriedIsNotReported(s: State, t: State, vendor: string, keys: set<string>, c: Pending, k: Id)
    requires CompletedFrom(s, t, vendor, keys, c) && k.0 == vendor && k in s.queue.data && s.queue.data[k].status == Active
    requires k !in c && forall id :: id in c ==> id.0 == vendor
    ensures !ReportedDisabled(t.queue, k)
  {
    hide Trim;
    var r := Replaced(s.queue.data, vendor, keys);
    var m := MissingDisabled(c, VendorRecords(r, vendor));
    assert forall id :: id in c && id.1 == k.1 ==> id == k;
    assert k.1 !in m;
    assert !Requeues(c, VendorRecords(t.queue.data, vendor), k);
    hide EffectivePending, MissingDisabled, VendorRecords;
  }

  lemma {:induction false} NothingQueued(s: State, vendor: string, k: Id)
    requires k !in s.queue.pending
    ensures k !in WillCarry(s, vendor) && forall id :: id in WillCarry(s, vendor) ==> id.0 == vendor
  {
  }

  lemma {:induction false} CompletedMeans(s: State, t: State, vendor: string, keys: set<string>, c: Pending)
    requires CompletedFrom(s, t, vendor, keys, c)
    ensures t.caller == Completed
  {
  }

  /** Every run with timely further disables keeps `k` reported disabled to the end of the replacement. */
  ghost predicate AlwaysKept(s: State, vendor: string, keys: set<string>, k: Id) {
    forall ss: seq<State> :: Run(ss, vendor, keys, k) && Timely(ss, k) && ss[0] == s && ss[|ss| - 1].caller == Completed ==>
      ReportedDisabled(ss[|ss| - 1].queue, k)
  }

  /** What the invariant of the protocol protects is kept. */
  lemma {:induction false} ProtectedIsKept(s: State, vendor: string, keys: set<string>, k: Id)
    requires k.0 == vendor && Inv(s, k)
    ensures AlwaysKept(s, vendor, keys, k)
  {
    forall ss: seq<State> | Run(ss, vendor, keys, k) && Timely(ss, k) && ss[0] == s && ss[|ss| - 1].caller == Completed
      ensures ReportedDisabled(ss[|ss| - 1].queue, k)
    {
      hide Run, Timely;
      RunKeepsInv(ss, vendor, keys, k);
    }
  }

  /** The worker may first finish what it holds, then take up the queued disable and have it refused. */
  lemma {:induction false} CanLose(s: State, vendor: string, keys: set<string>, k: Id) returns (ss: seq<State>)
    requires BeforeSnapshot(s.caller) && k.0 == vendor && Keyed(s.queue.pending)
    requires k in s.queue.data && s.queue.data[k].status == Active && s.queue.data[k].version >= 0
    requires k in s.queue.pending ==> s.queue.pending[k].expected != s.queue.data[k].version
    ensures Run(ss, vendor, keys, k) && Quiet(ss, k) && ss[0] == s && ss[|ss| - 1].caller == Completed
    ensures !ReportedDisabled(ss[|ss| - 1].queue, k)
  {
    hide Step, Quiet, ReportedDisabled, CompletedFrom, WillCarry;
    ss := WorkerCanDrain(s, vendor, keys, k);
    var idle := ss[|ss| - 1];
    var clear := idle;
    if k in idle.queue.pending {
      var drop := WorkerCanDrop(idle, vendor, keys, k);
      Join(ss, drop, vendor, keys, k);
      ss := ss + drop[1..];
      clear := drop[|drop| - 1];
    }
    var done := ReplaceCanComplete(clear, vendor, keys, k);
    NothingQueued(clear, vendor, k);
    NotCarriedIsNotReported(clear, done[|done| - 1], vendor, keys, WillCarry(clear, vendor), k);
    CompletedMeans(clear, done[|done| - 1], vendor, keys, WillCarry(clear, vendor));
    Join(ss, done, vendor, keys, k);
    ss := ss + done[1..];
  }

  /** A replacement is about to start and a disable of the active key `k` is queued, among whatever else. Nothing queued or
      held by the worker enables `k`, and no verdict is about to take the disable away. */
  ghost predicate DisableQueued(s: State, vendor: string, k: Id) {
    && s.caller == NotCalled && k.0 == vendor && Keyed(s.queue.pending) && NoEnable(s.queue, k) && VerdictOk(s.queue, k)
    && HoldsDisable(s.queue.pending, k) && k in s.queue.data && s.queue.data[k].status == Active
  }

  /** Every run with timely further disables keeps a queued disable if and only if it names the stored version, whatever is
      queued for other keys and whatever else the worker holds: an older one no longer shows and is not carried, a newer
      one may be refused and dropped first. */
  lemma {:induction false} KeptExactlyWhenCurrent(s: State, vendor: string, keys: set<string>, k: Id)
    requires DisableQueued(s, vendor, k)
    ensures AlwaysKept(s, vendor, keys, k) <==> s.queue.pending[k].expected == s.queue.data[k].version
  {
    hide AlwaysKept, Step, Timely, Quiet, ReportedDisabled;
    if s.queue.pending[k].expected == s.queue.data[k].version {
      ProtectedIsKept(s, vendor, keys, k);
    } else {
      LosingRun(s, vendor, keys, k);
    }
  }

  lemma {:induction false} LosingRun(s: State, vendor: string, keys: set<string>, k: Id)
    requires BeforeSnapshot(s.caller) && k.0 == vendor && Keyed(s.queue.pending)
    requires k in s.queue.data && s.queue.data[k].status == Active && s.queue.data[k].version >= 0
    requires k in s.queue.pending ==> s.queue.pending[k].expected != s.queue.data[k].version
    ensures !AlwaysKept(s, vendor, keys, k)
  {
    hide Step, Timely, Quiet, ReportedDisabled;
    var ss := CanLose(s, vendor, keys, k);
    QuietIsTimely(ss, k);
  }

  /** A further disable at any point before the snapshot takes the place of the one that protected the key. From there the
      key is still always kept if and only if it was stored disabled or the further disable names the stored version. */
  lemma {:induction false} FurtherDisableKeptIff(ss: seq<State>, t: State, vendor: string, keys: set<string>, k: Id)
    requires Run(ss, vendor, keys, k) && Timely(ss, k) && k.0 == vendor && ss[0].caller == NotCalled && Protected(ss[0].queue, k)
    requires var s := ss[|ss| - 1]; BeforeSnapshot(s.caller) && Keyed(s.queue.pending) && DisableStep(s, t, k)
    ensures var s := ss[|ss| - 1];
            && k in s.queue.data
            && (AlwaysKept(t, vendor, keys, k) <==>
                StoredDisabled(s.queue.data, k) || t.queue.pending[k].expected == s.queue.data[k].version)
  {
    var s := ss[|ss| - 1];
    assert Inv(s, k) by {
      hide Run, Timely;
      RunKeepsInv(ss, vendor, keys, k);
    }
    hide Run, Timely, AlwaysKept;
    if StoredDisabled(s.queue.data, k) || t.queue.pending[k].expected == s.queue.data[k].version {
      OthersKeepInv(s, t, k);
      ProtectedIsKept(t, vendor, keys, k);
    } else {
      LosingRun(t, vendor, keys, k);
    }
  }

  /** What readers are shown right after a further disable, at any point of the protocol: the key is reported disabled
      if and only if it is stored disabled or the update is not older than its record. */
  lemma {:induction false} ReportedAfterDisable(s: State, t: State, k: Id)
    requires DisableStep(s, t, k) && k in s.queue.data && s.queue.data[k] == NormalizeRecord(s.queue.data[k])
    ensures ReportedDisabled(t.queue, k) <==>
      StoredDisabled(s.queue.data, k) || t.queue.pending[k].expected >= s.queue.data[k].version
  {
    hide Trim;
  }

  // ---------------------------------------------------------------- two runs the program can take

  /** Two attempts of the same version fail around a replacement that lists their key. The first disable is kept and
      queued again against the new version; the second, of the old version, takes its place and hides it. */
  lemma {:induction false} SecondDisableLoses(s: State, vendor: string, keys: set<string>, k: Id) returns (ss: seq<State>)
    requires DisableQueued(s, vendor, k) && k.1 in keys && s.queue.pending[k].expected == s.queue.data[k].version
    ensures Run(ss, vendor, keys, k) && |ss| > 2 && ss[0] == s
    ensures var before, after := ss[|ss| - 2], ss[|ss| - 1];
            && before.caller == Completed && ReportedDisabled(before.queue, k)
            && DisableStep(before, after, k) && after.queue.pending[k].expected == s.queue.pending[k].expected
            && !ReportedDisabled(after.queue, k)
  {
    hide Step, Quiet, Timely, ReportedDisabled, CompletedFrom, DisableStep, NoEnable, Effective;
    var done := ReplaceCanComplete(s, vendor, keys, k);
    QuietIsTimely(done, k);
    ReplaceLosesNoDisable(done, vendor, keys, k);
    var before := done[|done| - 1];
    CompletedMeans(s, before, vendor, keys, WillCarry(s, vendor));
    ListedIsNewer(s, before, vendor, keys, WillCarry(s, vendor), k);
    var q := before.queue;
    var u := s.queue.pending[k].(id := q.nextID + 1);
    var after := before.(queue := q.(pending := q.pending[k := u], nextID := u.id));
    assert DisableStep(before, after, k) by { OldDisable(s, before, after, k); }
    OldDisableHides(before, after, k);
    DisableIsStep(before, after, vendor, keys, k);
    Extend(done, after, vendor, keys, k);
    ss := done + [after];
  }

  lemma {:induction false} OldDisable(s: State, before: State, after: State, k: Id)
    requires HoldsDisable(s.queue.pending, k) && s.queue.pending[k].target == k
    requires var q := before.queue; var u := s.queue.pending[k].(id := q.nextID + 1);
             after == before.(queue := q.(pending := q.pending[k := u], nextID := u.id))
    ensures DisableStep(before, after, k)
  {
  }

  lemma {:induction false} DisableIsStep(s: State, t: State, vendor: string, keys: set<string>, k: Id)
    requires DisableStep(s, t, k)
    ensures Step(s, t, vendor, keys, k)
  {
  }

  lemma {:induction false} OldDisableHides(s: State, t: State, k: Id)
    requires DisableStep(s, t, k) && k in s.queue.data && s.queue.data[k].status == Active
    requires t.queue.pending[k].expected < s.queue.data[k].version
    ensures !ReportedDisabled(t.queue, k)
  {
  }

  lemma {:induction false} ListedIsNewer(s: State, t: State, vendor: string, keys: set<string>, c: Pending, k: Id)
    requires CompletedFrom(s, t, vendor, keys, c) && k.0 == vendor && k.1 in keys
    requires k in s.queue.data && s.queue.data[k].status == Active
    ensures k in t.queue.data && t.queue.data[k].status == Active && t.queue.data[k].version > s.queue.data[k].version
  {
    hide Trim, EffectivePending, VendorRecords, MissingDisabled;
  }

  /** A key is disabled while a replacement that lists it runs with an empty queue: readers see the disable at once, and
      after the replacement it is gone. */
  lemma {:induction false} LateDisableIsDropped(s: State, u: Update, vendor: string, keys: set<string>, k: Id) returns (ss: seq<State>)
    requires s.caller == NotCalled && s.queue.worker == Flushing([]) && s.queue.pending == map[] && k.0 == vendor && k.1 in keys
    requires k in s.queue.data && s.queue.data[k].status == Active && s.queue.data[k].version >= 0
    requires u.target == k && u.status != Active && u.id == s.queue.nextID + 1 && u.expected == s.queue.data[k].version
    ensures Run(ss, vendor, keys, k) && Timely(ss, k) && |ss| == 7 && ss[0] == s
    ensures ss[2].caller.Carried? && DisableStep(ss[2], ss[3], k) && ss[3].queue.pending[k] == u && ReportedDisabled(ss[3].queue, k)
    ensures ss[6].caller == Completed && k in ss[6].queue.data && !ReportedDisabled(ss[6].queue, k)
  {
    var q := s.queue;
    var q3 := q.(pending := map[k := u], nextID := u.id);
    var r := Replaced(q.data, vendor, keys);
    ss := [s, State(q, Listed(VendorRecords(q.data, vendor))), State(q, Carried(map[])), State(q3, Carried(map[])),
           State(q3.(data := r), Rewritten(map[])), State(q3.(data := r), Relisted(map[], VendorRecords(r, vendor), false)),
           State(q3.(data := r, pending := map[]), Completed)];
    hide Trim, VendorRecords, Effective;
    assert EffectivePending(map[], vendor, VendorRecords(q.data, vendor)) == map[];
    assert MissingDisabled(map[], VendorRecords(r, vendor)) == {};
    assert q.pending[k := u] == map[k := u];
    assert DisableStep(ss[2], ss[3], k);
    assert forall i :: 0 <= i < 6 && i != 2 ==> CallerStep(ss[i], ss[i + 1], vendor, keys);
    CurrentDisableShows(ss[3].queue, k);
    ActiveIsNotReported(ss[6].queue, k);
  }

  lemma {:induction false} CurrentDisableShows(q: Queue, k: Id)
    requires k in q.data && k in q.pending && q.pending[k].status != Active && q.pending[k].expected == q.data[k].version
    ensures ReportedDisabled(q, k)
  {
  }

  lemma {:induction false} ActiveIsNotReported(q: Queue, k: Id)
    requires k in q.data && q.data[k].status == Active && k !in q.pending
    ensures !ReportedDisabled(q, k)
  {
  }
}
