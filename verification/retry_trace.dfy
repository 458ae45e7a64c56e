/** What a request has learned about its latest attempt, read off its trace: how it failed and what else was to be had. */
module RetryTrace {
  import opened Wrappers
  import opened RequestTrace
  import KeyPolicy

  /** No response at all, an error response whose beginning could not be read, or an error response of a status. */
  datatype Failure = NoResponse | NoPreview | ErrorStatus(status: int)

  /** `turns` counts the vendors whose turn has come, `since` the sends before the present turn. What follows speaks of the
      latest send: its failure, whether another key or another child was free, and whether another attempt could not be
      started. At the end the client was answered or had left. */
  datatype Progress = Progress(
    sends: nat, turns: nat, since: nat, vendor: string, failure: Option<Failure>, keyFree: Option<bool>, childFree: Option<bool>,
    stuck: bool, left: bool, replied: bool)

  const NOTHING := Progress(0, 0, 0, "", None, None, None, false, false, false)

  function Learned(p: Progress, e: Event): Progress {
    match e
    case Turned(v) => p.(turns := p.turns + 1, since := p.sends, vendor := v)
    case Sent(_) => p.(sends := p.sends + 1, failure := None, keyFree := None, childFree := None, stuck := false)
    case Answered(status) => p.(failure := if status >= KeyPolicy.BAD_REQUEST then Some(ErrorStatus(status)) else None)
    case CallFailed => p.(failure := Some(NoResponse))
    case PreviewFailed => p.(failure := Some(NoPreview))
    case KeyFree(_, ok) => p.(keyFree := Some(ok))
    case ChildFree(ok) => p.(childFree := Some(ok))
    case NotStarted => p.(stuck := true)
    case ClientLeft => p.(left := true)
    case Replied => p.(replied := true)
    case _ => p
  }

  ghost function Recall(log: seq<Event>): Progress {
    if log == [] then NOTHING else Learned(Recall(log[..|log| - 1]), log[|log| - 1])
  }

  ghost predicate EndsCall(e: Event) { e.Answered? || e.CallFailed? || e.PreviewFailed? }

  /** What is remembered is in the log: counts are counts... */
  lemma {:induction false} RecallCounts(log: seq<Event>)
    ensures Recall(log).sends == CountSent(log) && (Recall(log).replied <==> CountReplied(log) > 0)
    ensures Recall(log).left <==> ClientLeft in log
  {
    if log != [] {
      RecallCounts(log[..|log| - 1]);
      assert log == log[..|log| - 1] + [log[|log| - 1]];
    }
  }

  /** ...and every fact about the latest send was logged after it. */
  lemma {:induction false} KeyAnswerIsLogged(log: seq<Event>) returns (k: nat)
    requires Recall(log).keyFree.Some?
    ensures k < |log| && log[k].KeyFree? && log[k].ok == Recall(log).keyFree.value
    ensures forall l :: k < l < |log| ==> !log[l].Sent? && !log[l].KeyFree?
  {
    var n := |log| - 1;
    k := n;
    if !log[n].KeyFree? {
      k := KeyAnswerIsLogged(log[..n]);
      assert forall l :: k <= l < n ==> log[..n][l] == log[l];
    }
  }

  lemma {:induction false} ChildAnswerIsLogged(log: seq<Event>) returns (k: nat)
    requires Recall(log).childFree.Some?
    ensures k < |log| && log[k] == ChildFree(Recall(log).childFree.value)
    ensures forall l :: k < l < |log| ==> !log[l].Sent? && !log[l].ChildFree?
  {
    var n := |log| - 1;
    k := n;
    if !log[n].ChildFree? {
      k := ChildAnswerIsLogged(log[..n]);
      assert forall l :: k <= l < n ==> log[..n][l] == log[l];
    }
  }

  lemma {:induction false} StuckIsLogged(log: seq<Event>) returns (k: nat)
    requires Recall(log).stuck
    ensures k < |log| && log[k] == NotStarted && forall l :: k < l < |log| ==> !log[l].Sent?
  {
    var n := |log| - 1;
    k := n;
    if !log[n].NotStarted? {
      k := StuckIsLogged(log[..n]);
      assert forall l :: k <= l < n ==> log[..n][l] == log[l];
    }
  }

  /** The outcome of the latest send, if one was logged, is the failure that is remembered. */
  lemma {:induction false} FailureIsLatest(log: seq<Event>, k: nat)
    requires k < |log| && EndsCall(log[k]) && forall l :: k < l < |log| ==> !log[l].Sent? && !EndsCall(log[l])
    ensures Recall(log).failure == match log[k]
      case CallFailed => Some(NoResponse)
      case PreviewFailed => Some(NoPreview)
      case Answered(status) => (if status >= 400 then Some(ErrorStatus(status)) else None)
      case _ => None
  {
    var n := |log| - 1;
    if k < n {
      assert forall l :: k <= l < n ==> log[..n][l] == log[l];
      FailureIsLatest(log[..n], k);
      KeepsFailure(Recall(log[..n]), log[n]);
      hide Learned, EndsCall;
    }
  }

  lemma {:induction false} KeepsFailure(p: Progress, e: Event)
    requires !e.Sent? && !EndsCall(e)
    ensures Learned(p, e).failure == p.failure
  {
  }

  /** The sends of the present turn are those after its beginning. */
  lemma {:induction false} TurnCounts(log: seq<Event>, k: nat)
    requires k < |log| && log[k].Turned? && forall l :: k < l < |log| ==> !log[l].Turned?
    ensures Recall(log).vendor == log[k].vendor && Recall(log).sends - Recall(log).since == CountSent(log[k..])
  {
    var n := |log| - 1;
    if k == n {
      assert log[k..] == [log[k]] && log[k..][..0] == [];
    } else {
      hide Learned;
      assert forall l :: k <= l < n ==> log[..n][l] == log[l];
      TurnCounts(log[..n], k);
      KeepsTurn(Recall(log[..n]), log[n]);
      assert log[k..][..n - k] == log[..n][k..] && log[k..][n - k] == log[n];
    }
  }

  lemma {:induction false} KeepsTurn(p: Progress, e: Event)
    requires !e.Turned?
    ensures Learned(p, e).vendor == p.vendor && Learned(p, e).since == p.since
    ensures Learned(p, e).sends == p.sends + if e.Sent? then 1 else 0
  {
  }
}
