/** A response body whose blocked reads are timed: three entry points, a timer, and every interleaving of their locked sections. */
module IdleTimeout {
  import opened Wrappers

  datatype Outcome = Bytes | Eof | Failed
  datatype Result = Got(outcome: Outcome) | TimedOut | ClosedError

  /** Where the one reading goroutine is: outside, inside the upstream read, or back but not yet past the lock. */
  datatype Reader = Outside | Blocked | Returned(outcome: Outcome)

  /** `timer` is the scheduled callback time; `firing` counts callbacks started but not yet past the lock; `owed` and
      `closing` count Close calls due and Close calls that have set the flags but not yet reached the body. */
  datatype State = State(
    timeout: int, now: int, deadline: int, armed: bool, reading: bool, closed: bool, timedOut: bool,
    timer: Option<int>, firing: nat, reader: Reader, started: int, owed: nat, closing: nat, closes: nat, results: seq<Result>)

  function Fresh(timeout: int, now: int): State {
    State(timeout, now, now, false, false, false, false, None, 0, Outside, now, 0, 0, 0, [])
  }

  /** The locked section before an upstream read; a closed body answers at once. */
  function ReadBegun(s: State): State {
    if s.closed then s.(results := s.results + [if s.timedOut then TimedOut else ClosedError])
    else
      s.(reading := true, deadline := s.now + s.timeout, started := s.now, reader := Blocked,
         armed := true, timer := if s.armed then s.timer else Some(s.now + s.timeout))
  }

  /** The locked section after it. End of data closes the body, unless the read had expired. */
  function ReadEnded(s: State): State
    requires s.reader.Returned?
  {
    var result := if s.timedOut then TimedOut else Got(s.reader.outcome);
    s.(reading := false, reader := Outside, results := s.results + [result],
       owed := s.owed + if result == Got(Eof) then 1 else 0)
  }

  /** A callback: a stale one disarms or reschedules itself, one past the deadline of the read in progress expires it. */
  function CallbackRan(s: State): State
    requires s.firing > 0
  {
    var t := s.(firing := s.firing - 1);
    if s.closed || !s.reading then t.(armed := false)
    else if s.deadline > s.now then t.(timer := Some(s.deadline))
    else t.(timedOut := true, closed := true, armed := false, owed := s.owed + 1)
  }

  function FlagsClosed(s: State): State {
    s.(closed := true, reading := false, armed := false, timer := None, closing := s.closing + 1)
  }

  /** Only the first Close reaches the body. */
  function BodyClosed(s: State): State
    requires s.closing > 0
  {
    s.(closing := s.closing - 1, closes := if s.closes == 0 then 1 else s.closes)
  }

  datatype Step = Tick(d: nat) | Read | UpstreamReturns(outcome: Outcome) | ReadEnds | TimerFires | Callback | DueClose | OtherClose | BodyClose

  predicate Enabled(s: State, e: Step) {
    match e
    case Tick(_) => true
    case Read => s.reader == Outside
    case UpstreamReturns(_) => s.reader == Blocked
    case ReadEnds => s.reader.Returned?
    case TimerFires => s.timer.Some? && s.timer.value <= s.now
    case Callback => s.firing > 0
    case DueClose => s.owed > 0
    case OtherClose => true
    case BodyClose => s.closing > 0
  }

  function Next(s: State, e: Step): State
    requires Enabled(s, e)
  {
    match e
    case Tick(d) => s.(now := s.now + d)
    case Read => ReadBegun(s)
    case UpstreamReturns(outcome) => s.(reader := Returned(outcome))
    case ReadEnds => ReadEnded(s)
    case TimerFires => s.(timer := None, firing := s.firing + 1)
    case Callback => CallbackRan(s)
    case DueClose => FlagsClosed(s.(owed := s.owed - 1))
    case OtherClose => FlagsClosed(s)
    case BodyClose => BodyClosed(s)
  }

  ghost predicate Run(ss: seq<State>, es: seq<Step>) {
    |ss| == |es| + 1 && forall i :: 0 <= i < |es| ==> Enabled(ss[i], es[i]) && ss[i + 1] == Next(ss[i], es[i])
  }

  /** The read in progress is watched: a callback is on its way, or is scheduled no later than the read's deadline. */
  predicate Watched(s: State) { s.firing > 0 || (s.timer.Some? && s.timer.value <= s.deadline) }

  predicate Inv(s: State) {
    && (s.reading ==> s.reader != Outside)
    && (s.reader != Outside ==> s.deadline == s.started + s.timeout && s.started <= s.now)
    && s.deadline <= s.now + s.timeout
    && (!s.closed ==> (s.armed <==> s.firing > 0 || s.timer.Some?) && s.firing <= 1 && (s.firing == 1 ==> s.timer.None?))
    && (s.timer.Some? ==> s.timer.value <= s.deadline)
    && (s.reader != Outside && !s.closed ==> s.reading && s.armed)
    && (s.timedOut ==> s.closed)
    && (s.timedOut && s.reader != Outside ==> s.now >= s.started + s.timeout)
    && s.closes <= 1
    && (s.timedOut || Got(Eof) in s.results ==> s.owed > 0 || s.closing > 0 || s.closes == 1)
  }

  /** A refused read is the only result a step adds besides the end of the read in progress. */
  lemma {:induction false} StepKeepsInv(s: State, e: Step)
    requires s.timeout > 0 && Inv(s) && Enabled(s, e)
    ensures Inv(Next(s, e)) && Next(s, e).timeout == s.timeout
  {
    if e.Read? {
      ReadKeepsInv(s);
    } else if e.ReadEnds? {
      EndKeepsInv(s);
    }
  }

  lemma {:induction false} ReadKeepsInv(s: State)
    requires s.timeout > 0 && Inv(s) && s.reader == Outside
    ensures Inv(ReadBegun(s)) && ReadBegun(s).timeout == s.timeout
  {
  }

  lemma {:induction false} EndKeepsInv(s: State)
    requires s.timeout > 0 && Inv(s) && s.reader.Returned?
    ensures Inv(ReadEnded(s)) && ReadEnded(s).timeout == s.timeout
  {
  }

  lemma {:induction false} RunKeepsInv(ss: seq<State>, es: seq<Step>, i: nat)
    requires Run(ss, es) && ss[0].timeout > 0 && Inv(ss[0]) && i < |ss|
    ensures Inv(ss[i]) && ss[i].timeout == ss[0].timeout
  {
    hide Inv, Next, Enabled;
    if i > 0 {
      RunKeepsInv(ss, es, i - 1);
      assert ss[i] == Next(ss[i - 1], es[i - 1]);
      StepKeepsInv(ss[i - 1], es[i - 1]);
    }
  }

  /** No interleaving loses a read: while one is blocked on an open body, its callback is running or due by its deadline. */
  lemma {:induction false} BlockedReadIsWatched(ss: seq<State>, es: seq<Step>, timeout: int, i: nat)
    requires timeout > 0 && Run(ss, es) && ss[0] == Fresh(timeout, ss[0].now) && i < |ss|
    requires ss[i].reader != Outside && !ss[i].closed
    ensures Watched(ss[i]) && ss[i].deadline == ss[i].started + timeout
  {
    RunKeepsInv(ss, es, i);
    hide Run;
  }

  /** Timeouts are just: the step that expires a body does so for the read then in progress, at or past its deadline;
      a callback left over from an earlier read never does. */
  lemma {:induction false} TimeoutIsJust(ss: seq<State>, es: seq<Step>, timeout: int, i: nat)
    requires timeout > 0 && Run(ss, es) && ss[0] == Fresh(timeout, ss[0].now) && i < |es|
    requires !ss[i].timedOut && ss[i + 1].timedOut
    ensures es[i] == Callback && ss[i].reader != Outside && !ss[i].closed && ss[i].now >= ss[i].started + timeout
  {
    RunKeepsInv(ss, es, i);
    assert ss[i + 1] == Next(ss[i], es[i]);
    hide Run;
  }

  /** Steps that can happen while the reading goroutine, back from the upstream, waits for the lock. */
  predicate Waiting(e: Step) { !e.Read? && !e.UpstreamReturns? && !e.ReadEnds? }

  /** The upstream answers the first read at once, the goroutine reaches the lock `d` later, and then the read has expired. */
  ghost predicate AnsweredYetExpired(ss: seq<State>, es: seq<Step>, timeout: int, outcome: Outcome, d: nat) {
    var n := |es| - 1;
    && Run(ss, es) && n >= 2 && ss[0] == Fresh(timeout, 0)
    && es[0] == Read && es[1] == UpstreamReturns(outcome) && es[n] == ReadEnds && (forall i :: 2 <= i < n ==> Waiting(es[i]))
    && ss[n].now == d && ss[n + 1].results == [TimedOut]
  }

  lemma {:induction false} WaitingKeepsRead(ss: seq<State>, es: seq<Step>, i: nat)
    requires Run(ss, es) && 2 <= i < |ss| && (forall j :: 2 <= j < i ==> Waiting(es[j]))
    ensures ss[i].started == ss[2].started && ss[i].reader == ss[2].reader && ss[i].timeout == ss[2].timeout
  {
    if i > 2 {
      WaitingKeepsRead(ss, es, i - 1);
      assert Enabled(ss[i - 1], es[i - 1]) && ss[i] == Next(ss[i - 1], es[i - 1]);
    }
  }

  /** "Blocked" is measured to the lock, not to the upstream: a read that the upstream answered at once can expire if and
      only if its goroutine reaches the lock no earlier than the timeout. */
  lemma {:induction false} AnsweredReadExpiresIff(timeout: int, outcome: Outcome, d: nat)
    requires timeout > 0
    ensures (exists ss: seq<State>, es: seq<Step> :: AnsweredYetExpired(ss, es, timeout, outcome, d)) <==> d >= timeout
  {
    if d >= timeout {
      LateLock(timeout, outcome, d);
    }
    forall ss: seq<State>, es: seq<Step> | AnsweredYetExpired(ss, es, timeout, outcome, d) ensures d >= timeout {
      EarlyLock(ss, es, timeout, outcome, d);
    }
  }

  lemma {:induction false} EarlyLock(ss: seq<State>, es: seq<Step>, timeout: int, outcome: Outcome, d: nat)
    requires timeout > 0 && AnsweredYetExpired(ss, es, timeout, outcome, d)
    ensures d >= timeout
  {
    var n := |es| - 1;
    FinishedReadResult(ss, es, timeout, n);
    WaitingKeepsRead(ss, es, n);
    assert ss[1] == Next(ss[0], es[0]) && ss[2] == Next(ss[1], es[1]);
    hide Run;
    assert ss[n + 1].results[|ss[n].results|] == TimedOut;
  }

  lemma {:induction false} LateLock(timeout: int, outcome: Outcome, d: nat)
    requires timeout > 0 && d >= timeout
    ensures exists ss: seq<State>, es: seq<Step> :: AnsweredYetExpired(ss, es, timeout, outcome, d)
  {
    var es := [Read, UpstreamReturns(outcome), Tick(d), TimerFires, Callback, ReadEnds];
    var s0 := Fresh(timeout, 0);
    var s1 := Next(s0, es[0]);
    var s2 := Next(s1, es[1]);
    var s3 := Next(s2, es[2]);
    var s4 := Next(s3, es[3]);
    var s5 := Next(s4, es[4]);
    var s6 := Next(s5, es[5]);
    var ss := [s0, s1, s2, s3, s4, s5, s6];
    assert Run(ss, es);
    assert AnsweredYetExpired(ss, es, timeout, outcome, d);
  }

  /** A read that finishes before its deadline never reports a timeout, and one that finishes reports it exactly when
      the body had expired. */
  lemma {:induction false} FinishedReadResult(ss: seq<State>, es: seq<Step>, timeout: int, i: nat)
    requires timeout > 0 && Run(ss, es) && ss[0] == Fresh(timeout, ss[0].now) && i < |es| && es[i] == ReadEnds
    ensures ss[i + 1].results == ss[i].results + [if ss[i].timedOut then TimedOut else Got(ss[i].reader.outcome)]
    ensures ss[i].timedOut ==> ss[i].now >= ss[i].started + timeout
  {
    RunKeepsInv(ss, es, i);
    assert Enabled(ss[i], es[i]) && ss[i + 1] == Next(ss[i], es[i]);
    hide Run;
  }

  lemma {:induction false} ExpiredStep(s: State, e: Step)
    requires Inv(s) && Enabled(s, e) && s.timedOut
    ensures Next(s, e).timedOut && |s.results| <= |Next(s, e).results| <= |s.results| + 1
    ensures Next(s, e).results[..|s.results|] == s.results
    ensures |Next(s, e).results| > |s.results| ==> Next(s, e).results[|s.results|] == TimedOut
  {
  }

  /** After a timeout no read succeeds and none reports the end of the data: every later result is the timeout. */
  lemma {:induction false} NothingSucceedsAfterTimeout(ss: seq<State>, es: seq<Step>, i: nat, j: nat)
    requires Run(ss, es) && ss[0].timeout > 0 && Inv(ss[0]) && i <= j < |ss| && ss[i].timedOut
    ensures ss[j].timedOut && |ss[i].results| <= |ss[j].results| && ss[j].results[..|ss[i].results|] == ss[i].results
    ensures forall k :: |ss[i].results| <= k < |ss[j].results| ==> ss[j].results[k] == TimedOut
    decreases j
  {
    hide Inv, Next, Enabled;
    if i < j {
      NothingSucceedsAfterTimeout(ss, es, i, j - 1);
      RunKeepsInv(ss, es, j - 1);
      assert ss[j] == Next(ss[j - 1], es[j - 1]);
      ExpiredStep(ss[j - 1], es[j - 1]);
      var before, after := ss[j - 1].results, ss[j].results;
      assert forall k :: 0 <= k < |before| ==> after[k] == after[..|before|][k];
    }
  }

  /** The body is closed at most once, and an expired or finished body is not forgotten. */
  lemma {:induction false} ClosedOnce(ss: seq<State>, es: seq<Step>, timeout: int, i: nat)
    requires timeout > 0 && Run(ss, es) && ss[0] == Fresh(timeout, ss[0].now) && i < |ss|
    ensures ss[i].closes <= 1
    ensures (ss[i].timedOut || Got(Eof) in ss[i].results) && ss[i].owed == 0 && ss[i].closing == 0 ==> ss[i].closes == 1
  {
    RunKeepsInv(ss, es, i);
    hide Run;
  }

  // ---------------------------------------------------------------- the object

  /** The fields of the wrapped body and its locked sections. The environment of the state machine is `View`'s argument. */
  class ReadCloser {
    const timeout: int
    var deadline: int
    var armed: bool
    var reading: bool
    var closed: bool
    var timedOut: bool
    var timer: Option<int>
    var bodyCloses: nat

    constructor (timeout: int, now: int)
      ensures View(Fresh(timeout, now)) == Fresh(timeout, now)
    {
      this.timeout, deadline := timeout, now;
      armed, reading, closed, timedOut := false, false, false, false;
      timer, bodyCloses := None, 0;
    }

    /** The state `s` with this object's fields. */
    function View(s: State): State
      reads this
    {
      s.(timeout := timeout, deadline := deadline, armed := armed, reading := reading, closed := closed, timedOut := timedOut,
         timer := timer, closes := bodyCloses)
    }

    /** Returns the immediate result of a read on a closed body, or nothing when the upstream is to be read. */
    method BeginRead(now: int, ghost s: State) returns (r: Option<Result>)
      requires s == View(s) && s.now == now
      modifies this
      ensures var t := ReadBegun(s);
              View(t) == t && (r.None? <==> !s.closed) && t.results == if r.Some? then s.results + [r.value] else s.results
    {
      if closed { return Some(if timedOut then TimedOut else ClosedError); }
      reading, deadline := true, now + timeout;
      if !armed {
        armed := true;
        timer := Some(now + timeout);
      }
      r := None;
    }

    method EndRead(outcome: Outcome, ghost s: State) returns (r: Result, close: bool)
      requires s == View(s) && s.reader == Returned(outcome)
      modifies this
      ensures var t := ReadEnded(s);
              View(t) == t && t.results == s.results + [r] && t.owed == s.owed + if close then 1 else 0
    {
      reading := false;
      if timedOut { return TimedOut, false; }
      r, close := Got(outcome), outcome == Eof;
    }

    method Expire(now: int, ghost s: State) returns (close: bool)
      requires s == View(s) && s.now == now && s.firing > 0
      modifies this
      ensures var t := CallbackRan(s); View(t) == t && t.owed == s.owed + if close then 1 else 0
    {
      if closed || !reading {
        armed := false;
        return false;
      }
      if deadline - now > 0 {
        timer := Some(now + (deadline - now));
        return false;
      }
      timedOut, closed, armed := true, true, false;
      close := true;
    }

    method Close(ghost s: State)
      requires s == View(s)
      modifies this
      ensures var t := BodyClosed(FlagsClosed(s)); View(t) == t
    {
      closed, reading, armed, timer := true, false, false, None;
      if bodyCloses == 0 { bodyCloses := 1; }
    }
  }
}
