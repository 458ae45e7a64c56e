/** What one client request does to its upstreams, as a trace of events, and the rules such a trace must obey. */
module RequestTrace {
  import opened Wrappers
  import opened KeyRecords
  import KeyPolicy

  /** A vendor and its key index, or the caller's own credential. */
  datatype Target = Target(vendor: string, key: Option<nat>)

  datatype Event =
    | Acquired(vendor: string, idx: nat)
    | Released(vendor: string, idx: nat)
    | Settled(vendor: string, idx: nat, decision: KeyPolicy.Decision)
    | BodyOpened
    | Sent(target: Target)
    | Answered(status: int)
    | Replied
    | Turned(vendor: string)                 // the turn of a vendor begins
    | CallFailed                             // the upstream gave no response
    | PreviewFailed                          // the beginning of an error response could not be read
    | KeyFree(vendor: string, ok: bool)      // whether another key of the vendor was available
    | ChildFree(ok: bool)                    // whether another child of the aggregate was available
    | NotStarted                             // no key, child or request for another attempt
    | ClientLeft

  /** The state of a watcher that reads the trace from its start. */
  datatype Monitor = Monitor(
    used: set<Target>, sends: nat, held: Option<(string, nat)>, opens: nat, replies: nat, last: Option<int>, lawful: bool)

  const START := Monitor({}, 0, None, 0, 0, None, true)

  predicate Rejected(last: Option<int>) { last.Some? && last.value in KeyPolicy.REJECTIONS }

  /** What an attempt may be settled as, given the status its upstream answered with, if it did: an error response as an
      error of that very status; otherwise an interruption, a success of that status, or a failed call or read. */
  predicate Matches(last: Option<int>, d: KeyPolicy.Decision) {
    match last
    case None => d.action == AttemptInterrupted || (d.action in {AttemptObserve, AttemptCooldown} && d.status == 0)
    case Some(status) =>
      if status >= KeyPolicy.BAD_REQUEST then d.action in {AttemptObserve, AttemptCooldown, AttemptDisable} && d.status == status
      else
        || d.action == AttemptInterrupted
        || (d.action == AttemptSuccess && d.status == status)
        || (d.action in {AttemptObserve, AttemptCooldown} && d.status == KeyPolicy.BAD_GATEWAY)
  }

  function After(m: Monitor, e: Event, safe: bool): Monitor {
    match e
    case Acquired(v, i) => m.(held := Some((v, i)), lawful := m.lawful && m.held.None?)
    case Released(v, i) => m.(held := None, lawful := m.lawful && m.held == Some((v, i)))
    case Settled(v, i, d) => m.(held := None, lawful := m.lawful && m.held == Some((v, i)) && Matches(m.last, d))
    case BodyOpened => m.(opens := m.opens + 1)
    case Sent(t) =>
      m.(used := m.used + {t}, sends := m.sends + 1, last := None,
         lawful := m.lawful && t !in m.used && (m.sends > 0 ==> safe || Rejected(m.last))
                   && m.held == if t.key.Some? then Some((t.vendor, t.key.value)) else None)
    case Answered(status) => m.(last := Some(status))
    case Replied => m.(replies := m.replies + 1, lawful := m.lawful && m.replies == 0)
    case _ => m
  }

  ghost function Watch(log: seq<Event>, safe: bool): Monitor {
    if log == [] then START else After(Watch(log[..|log| - 1], safe), log[|log| - 1], safe)
  }

  lemma {:induction false} WatchPrefix(log: seq<Event>, safe: bool, n: nat)
    requires n <= |log| && Watch(log, safe).lawful
    ensures Watch(log[..n], safe).lawful && Watch(log[..n], safe).used <= Watch(log, safe).used
    decreases |log|
  {
    if n == |log| { assert log[..n] == log; }
    else {
      WatchPrefix(log[..|log| - 1], safe, n);
      assert log[..|log| - 1][..n] == log[..n];
    }
  }

  lemma {:induction false} SentIsUsed(log: seq<Event>, safe: bool, i: nat)
    requires i < |log| && log[i].Sent?
    ensures log[i].target in Watch(log, safe).used
  {
    hide Matches, Rejected;
    var n := |log| - 1;
    if i < n {
      SentIsUsed(log[..n], safe, i);
      assert log[..n][i] == log[i];
    }
  }

  lemma {:induction false} SentIsNew(log: seq<Event>, safe: bool)
    requires Watch(log, safe).lawful && log != [] && log[|log| - 1].Sent?
    ensures log[|log| - 1].target !in Watch(log[..|log| - 1], safe).used
  {
  }

  /** No target is used twice. */
  lemma {:induction false} NoTargetTwice(log: seq<Event>, safe: bool, i: nat, j: nat)
    requires Watch(log, safe).lawful && i < j < |log| && log[i].Sent? && log[j].Sent?
    ensures log[i].target != log[j].target
  {
    hide Watch;
    WatchPrefix(log, safe, j + 1);
    var p := log[..j + 1];
    assert p[..j] == log[..j] && p[j] == log[j] && log[..j][i] == log[i];
    SentIsNew(p, safe);
    SentIsUsed(log[..j], safe, i);
  }

  ghost predicate Returns(e: Event, vendor: string, idx: nat) {
    (e.Released? || e.Settled?) && e.vendor == vendor && e.idx == idx
  }

  ghost predicate TouchesKeys(e: Event) { e.Acquired? || e.Released? || e.Settled? }

  /** While a key is held, its acquisition is the last thing that happened to any key. */
  lemma {:induction false} HeldSince(log: seq<Event>, safe: bool) returns (i: nat)
    requires Watch(log, safe).lawful && Watch(log, safe).held.Some?
    ensures i < |log| && log[i] == Acquired(Watch(log, safe).held.value.0, Watch(log, safe).held.value.1)
    ensures forall k :: i < k < |log| ==> !TouchesKeys(log[k])
  {
    hide Matches, Rejected;
    var n := |log| - 1;
    if log[n].Acquired? { i := n; }
    else {
      i := HeldSince(log[..n], safe);
      assert log[..n][i] == log[i];
      assert forall k :: i < k < n ==> log[..n][k] == log[k];
    }
  }

  /** The key acquired at `i` is given back at `j`, with nothing happening to any key in between. */
  ghost predicate ReturnedAt(log: seq<Event>, i: nat, j: nat)
    requires i < |log| && log[i].Acquired?
  {
    i < j < |log| && Returns(log[j], log[i].vendor, log[i].idx) && forall k :: i < k < j ==> !TouchesKeys(log[k])
  }

  lemma {:induction false} ReturnedInPrefix(log: seq<Event>, n: nat, i: nat, j: nat)
    requires n <= |log| && i < n && log[i].Acquired? && ReturnedAt(log[..n], i, j)
    ensures ReturnedAt(log, i, j)
  {
    assert forall k :: 0 <= k < n ==> log[..n][k] == log[k];
  }

  lemma {:induction false} ReturnEnds(log: seq<Event>, safe: bool)
    requires Watch(log, safe).lawful && Watch(log, safe).held.None? && log != []
    ensures var before := Watch(log[..|log| - 1], safe);
            before.lawful && (before.held.Some? ==> Returns(log[|log| - 1], before.held.value.0, before.held.value.1))
    ensures !log[|log| - 1].Acquired?
  {
  }

  /** Every acquired key is given back exactly once: the next thing that happens to any key is its return, and a trace
      that ends with nothing held contains that return. */
  lemma {:induction false} EachKeyReturnedOnce(log: seq<Event>, safe: bool, i: nat)
    requires Watch(log, safe).lawful && Watch(log, safe).held.None? && i < |log| && log[i].Acquired?
    ensures exists j :: ReturnedAt(log, i, j)
    decreases |log|
  {
    hide Watch, ReturnedAt;
    var n := |log| - 1;
    var prefix := log[..n];
    ReturnEnds(log, safe);
    assert prefix[i] == log[i];
    if Watch(prefix, safe).held.None? {
      EachKeyReturnedOnce(prefix, safe, i);
      var j :| ReturnedAt(prefix, i, j);
      ReturnedInPrefix(log, n, i, j);
    } else {
      var h := HeldSince(prefix, safe);
      assert TouchesKeys(prefix[i]);
      assert i <= h;
      if i == h {
        HeldReturns(log, prefix, i);
      } else {
        NothingHeldBefore(prefix, safe, h);
        assert prefix[..h] == log[..h];
        EachKeyReturnedOnce(log[..h], safe, i);
        var j :| ReturnedAt(log[..h], i, j);
        ReturnedInPrefix(log, h, i, j);
      }
    }
  }

  lemma {:induction false} HeldReturns(log: seq<Event>, prefix: seq<Event>, i: nat)
    requires i < |log| - 1 && log[i].Acquired? && Returns(log[|log| - 1], log[i].vendor, log[i].idx)
    requires prefix == log[..|log| - 1] && forall k :: i < k < |prefix| ==> !TouchesKeys(prefix[k])
    ensures ReturnedAt(log, i, |log| - 1)
  {
    assert forall k :: i < k < |prefix| ==> prefix[k] == log[k];
  }

  lemma {:induction false} NothingHeldBefore(log: seq<Event>, safe: bool, i: nat)
    requires Watch(log, safe).lawful && i < |log| && log[i].Acquired?
    ensures Watch(log[..i], safe).lawful && Watch(log[..i], safe).held.None?
  {
    WatchPrefix(log, safe, i + 1);
    assert log[..i + 1][..i] == log[..i];
  }

  ghost function CountSent(log: seq<Event>): nat {
    if log == [] then 0 else CountSent(log[..|log| - 1]) + if log[|log| - 1].Sent? then 1 else 0
  }

  ghost function CountOpened(log: seq<Event>): nat {
    if log == [] then 0 else CountOpened(log[..|log| - 1]) + if log[|log| - 1].BodyOpened? then 1 else 0
  }

  ghost function CountReplied(log: seq<Event>): nat {
    if log == [] then 0 else CountReplied(log[..|log| - 1]) + if log[|log| - 1].Replied? then 1 else 0
  }

  /** The watcher's counters are the true ones, and a lawful trace delivers at most one response. */
  lemma {:induction false} WatchCounts(log: seq<Event>, safe: bool)
    ensures var m := Watch(log, safe);
            m.sends == CountSent(log) && m.opens == CountOpened(log) && m.replies == CountReplied(log)
            && (m.lawful ==> m.replies <= 1)
  {
    if log != [] { WatchCounts(log[..|log| - 1], safe); }
  }

  /** The answer the watcher remembers is the last thing that was sent or answered. */
  lemma {:induction false} LastAnswer(log: seq<Event>, safe: bool) returns (k: nat)
    requires Watch(log, safe).last.Some?
    ensures k < |log| && log[k] == Answered(Watch(log, safe).last.value)
    ensures forall l :: k < l < |log| ==> !log[l].Sent? && !log[l].Answered?
  {
    var n := |log| - 1;
    if log[n].Answered? { k := n; }
    else {
      k := LastAnswer(log[..n], safe);
      assert log[..n][k] == log[k];
      assert forall l :: k < l < n ==> log[..n][l] == log[l];
    }
  }

  /** An attempt is settled as what its upstream answered: a known error keeps its status whatever happens later. */
  lemma {:induction false} SettledAsAnswered(log: seq<Event>, safe: bool, i: nat)
    requires Watch(log, safe).lawful && i < |log| && log[i].Settled?
    ensures Matches(Watch(log[..i], safe).last, log[i].decision)
    ensures forall k :: 0 <= k < i && log[k].Answered? && log[k].status >= KeyPolicy.BAD_REQUEST
                        && (forall l :: k < l < i ==> !log[l].Sent? && !log[l].Answered?) ==>
              log[i].decision.status == log[k].status && log[i].decision.action != AttemptInterrupted
  {
    WatchPrefix(log, safe, i + 1);
    assert log[..i + 1][..i] == log[..i] && log[..i + 1][i] == log[i];
    forall k | 0 <= k < i && log[k].Answered? && (forall l :: k < l < i ==> !log[l].Sent? && !log[l].Answered?)
      ensures Watch(log[..i], safe).last == Some(log[k].status)
    {
      AnswerStays(log[..i], safe, k);
    }
  }

  lemma {:induction false} AnswerStays(log: seq<Event>, safe: bool, k: nat)
    requires k < |log| && log[k].Answered? && forall l :: k < l < |log| ==> !log[l].Sent? && !log[l].Answered?
    ensures Watch(log, safe).last == Some(log[k].status)
  {
    var n := |log| - 1;
    if k < n {
      assert forall l :: k <= l < n ==> log[..n][l] == log[l];
      AnswerStays(log[..n], safe, k);
    }
  }

  /** A request whose method is not safe is sent again only right after an upstream answered 401, 402, 403 or 429. */
  lemma {:induction false} UnsafeResentOnlyAfterRejection(log: seq<Event>, i: nat, j: nat)
    requires Watch(log, false).lawful && i < j < |log| && log[i].Sent? && log[j].Sent?
    ensures exists k :: 0 <= k < j && log[k].Answered? && log[k].status in {401, 402, 403, 429}
                        && forall l :: k < l < j ==> !log[l].Sent? && !log[l].Answered?
  {
    WatchPrefix(log, false, j + 1);
    var before := log[..j];
    assert log[..j + 1][..j] == before && log[..j + 1][j] == log[j];
    assert before[i] == log[i];
    SentBefore(before, i);
    var k := LastAnswer(before, false);
    assert log[k] == before[k];
    assert forall l :: k < l < j ==> before[l] == log[l];
  }

  lemma {:induction false} SentBefore(log: seq<Event>, i: nat)
    requires i < |log| && log[i].Sent?
    ensures Watch(log, false).sends > 0
  {
    var n := |log| - 1;
    if i < n { SentBefore(log[..n], i); }
  }
}
