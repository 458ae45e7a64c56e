/** The retry loops of one client request: keys of a vendor, then children of an aggregate, under one budget. */
module FailoverLoop {
  import opened Wrappers
  import opened KeyRecords
  import opened RequestTrace
  import opened RetryTrace
  import opened KeyPolicy

  const DEFAULT_UPSTREAM_ATTEMPTS := 10
  const DEFAULT_VENDOR_ATTEMPTS := 5
  const DEFAULT_AGGREGATE_ATTEMPTS := 2

  datatype Vendor = Vendor(id: string, managed: bool, policy: Policy)

  datatype Child = Child(id: string, vendor: Vendor, keyIdxs: Option<set<nat>>)

  datatype AggregateRetry = AggregateRetry(
    enabled: Option<bool>, maxAttempts: int, networkError: Option<bool>, rateLimit: Option<bool>, serverError: Option<bool>,
    statusCodes: seq<int>)

  /** What an upstream call came back with; the copy of a response body may fail on either side. */
  datatype Reply = BodyReadFailed(clientWaiting: bool) | ClientCanceled | CallFailed | Response(status: int)
  datatype Copy = Complete | EmptyBody | ReadFailed(committed: bool) | WriteFailed | Canceled(committed: bool)

  datatype Loop = Finished | RetryKey | RetryChild

  predicate AggregateRetryable(status: int, isError: bool, r: AggregateRetry) {
    OrDefault(r.enabled, true)
    && if isError then OrDefault(r.networkError, true)
       else status >= BAD_REQUEST
            && if status == TOO_MANY_REQUESTS then OrDefault(r.rateLimit, true)
               else if status in {500, 502, 503, 504} then OrDefault(r.serverError, true)
               else status in r.statusCodes
  }

  /** The trace so far, the watcher that reads it, and what is to be learned from it about the latest attempt. */
  class Trace {
    ghost var log: seq<Event>
    ghost var m: Monitor
    ghost var p: Progress

    constructor ()
      ensures log == [] && m == START && p == NOTHING
    {
      log, m, p := [], START, NOTHING;
    }

    ghost predicate Kept(safe: bool)
      reads this
    {
      m == Watch(log, safe) && p == Recall(log)
    }

    ghost method Emit(e: Event, safe: bool)
      requires Kept(safe)
      modifies this
      ensures log == old(log) + [e] && m == After(old(m), e, safe) && p == Learned(old(p), e) && Kept(safe)
    {
      log := log + [e];
      m := After(m, e, safe);
      p := Learned(p, e);
      assert log[..|log| - 1] == old(log);
    }

    /** The client gets its answer. */
    ghost method Reply(safe: bool)
      requires Kept(safe)
      modifies this
      ensures Kept(safe) && log == old(log) + [Replied]
      ensures m == old(m).(replies := m.replies, lawful := m.lawful) && m.replies == old(m.replies) + 1
      ensures m.lawful == (old(m.lawful) && old(m.replies) == 0) && p == old(p).(replied := true)
    {
      Emit(Replied, safe);
    }

    ghost method Leave(safe: bool)
      requires Kept(safe)
      modifies this
      ensures Kept(safe) && log == old(log) + [Event.ClientLeft] && m == old(m) && p == old(p).(left := true)
    {
      Emit(Event.ClientLeft, safe);
    }

    ghost method Stick(safe: bool)
      requires Kept(safe)
      modifies this
      ensures Kept(safe) && log == old(log) + [NotStarted] && m == old(m) && p == old(p).(stuck := true)
    {
      Emit(NotStarted, safe);
    }

    ghost method Take(vendor: string, idx: nat, safe: bool)
      requires Kept(safe)
      modifies this
      ensures Kept(safe) && log == old(log) + [Acquired(vendor, idx)] && p == old(p)
      ensures m == old(m).(held := Some((vendor, idx)), lawful := old(m.lawful) && old(m.held).None?)
    {
      Emit(Acquired(vendor, idx), safe);
    }

    ghost method Turn(vendor: string, safe: bool)
      requires Kept(safe)
      modifies this
      ensures Kept(safe) && log == old(log) + [Turned(vendor)] && m == old(m)
      ensures p == old(p).(turns := old(p.turns) + 1, since := old(p.sends), vendor := vendor)
    {
      Emit(Turned(vendor), safe);
    }

    ghost method Hear(status: int, safe: bool)
      requires Kept(safe)
      modifies this
      ensures Kept(safe) && log == old(log) + [Answered(status)] && m == old(m).(last := Some(status))
      ensures p == old(p).(failure := if status >= BAD_REQUEST then Some(ErrorStatus(status)) else None)
    {
      Emit(Answered(status), safe);
    }

    ghost method Miss(e: Event, safe: bool)
      requires Kept(safe) && (e.CallFailed? || e.PreviewFailed?)
      modifies this
      ensures Kept(safe) && log == old(log) + [e] && m == old(m)
      ensures p == old(p).(failure := Some(if e.CallFailed? then NoResponse else NoPreview))
    {
      Emit(e, safe);
    }

    /** The key is given back without having been used. */
    ghost method GiveBack(vendor: string, idx: nat, safe: bool)
      requires Kept(safe)
      modifies this
      ensures Kept(safe) && log == old(log) + [Released(vendor, idx)] && p == old(p)
      ensures m == old(m).(held := None, lawful := old(m.lawful) && old(m.held) == Some((vendor, idx)))
    {
      Emit(Released(vendor, idx), safe);
    }
  }

  /** Budget and memory of one request: how many upstream attempts it made, and where. */
  class Execution {
    const maxAttempts: int
    var attempts: int
    var tried: set<Target>
    var triedIndexes: map<string, set<nat>>

    constructor (limit: int)
      ensures maxAttempts == (if limit <= 0 then DEFAULT_UPSTREAM_ATTEMPTS else limit) > 0
      ensures attempts == 0 && tried == {} && triedIndexes == map[]
    {
      maxAttempts := if limit <= 0 then DEFAULT_UPSTREAM_ATTEMPTS else limit;
      attempts, tried, triedIndexes := 0, {}, map[];
    }

    predicate HasBudget()
      reads this
    {
      attempts < maxAttempts
    }

    method ConsumeAttempt() returns (ok: bool)
      modifies this`attempts
      ensures ok == old(HasBudget()) && attempts == old(attempts) + if ok then 1 else 0
    {
      if attempts >= maxAttempts { return false; }
      attempts := attempts + 1;
      ok := true;
    }

    function TriedIndexes(vendor: string): set<nat>
      reads this
    {
      if vendor in triedIndexes then triedIndexes[vendor] else {}
    }

    method MarkTried(v: Vendor, idx: Option<nat>)
      modifies this`tried, this`triedIndexes
      ensures tried == old(tried) + {Target(v.id, idx)}
      ensures forall w :: TriedIndexes(w) == old(TriedIndexes(w)) + if w == v.id && idx.Some? && v.managed then {idx.value} else {}
    {
      tried := tried + {Target(v.id, idx)};
      if idx.Some? && v.managed { triedIndexes := triedIndexes[v.id := TriedIndexes(v.id) + {idx.value}]; }
    }
  }

  class BodySource {
    const replayable: bool
    const safeRetry: bool
    var used: bool

    constructor (replayable: bool, safeRetry: bool)
      ensures this.replayable == replayable && this.safeRetry == safeRetry && !used
    {
      this.replayable, this.safeRetry, this.used := replayable, safeRetry, false;
    }

    /** Opens the body; a single-use source refuses the second time. */
    method Body(tr: Trace) returns (ok: bool)
      requires tr.Kept(safeRetry)
      modifies this`used, tr
      ensures tr.Kept(safeRetry) && tr.p == old(tr.p)
      ensures !replayable ==> ok == !old(used) && used
      ensures replayable ==> used == old(used)
      ensures tr.m == if ok then old(tr.m).(opens := old(tr.m.opens) + 1) else old(tr.m)
    {
      if replayable {
        ok := *;
      } else if used {
        return false;
      } else {
        used := true;
        ok := true;
      }
      if ok { tr.Emit(BodyOpened, safeRetry); }
    }

    predicate CanRetryRequestError(d: Decision) { replayable && safeRetry && ShouldRetry(d) }

    predicate CanRetryResponse(status: int, d: Decision) { replayable && KeyPolicy.CanRetryResponse(safeRetry, status, d) }

    predicate CanRetryAggregate(status: int, isError: bool) { replayable && (safeRetry || (!isError && status in REJECTIONS)) }
  }

  class Attempt {
    const vendor: Vendor
    const idx: Option<nat>
    var finished: bool

    constructor (vendor: Vendor, idx: Option<nat>)
      ensures this.vendor == vendor && this.idx == idx && !finished
    {
      this.vendor, this.idx, this.finished := vendor, idx, false;
    }

    /** Settles the attempt with its pool, the first time only. */
    method Finish(tr: Trace, d: Decision, ghost safe: bool)
      requires tr.Kept(safe)
      modifies this, tr
      ensures tr.Kept(safe) && tr.p == old(tr.p) && finished
      ensures tr.m == if old(finished) || idx.None? then old(tr.m)
                      else old(tr.m).(held := None, lawful := old(tr.m.lawful) && old(tr.m.held) == Some((vendor.id, idx.value))
                                                              && Matches(old(tr.m.last), d))
    {
      if finished { return; }
      finished := true;
      if idx.Some? { tr.Emit(Settled(vendor.id, idx.value, d), safe); }
    }
  }

  // ---------------------------------------------------------------- what holds between attempts

  /** The key of every target used is excluded for its vendor. */
  ghost predicate Remembers(e: Execution)
    reads e
  {
    forall t :: t in e.tried && t.key.Some? ==> t.key.value in e.TriedIndexes(t.vendor)
  }

  /** The trace is lawful and agrees with what the request remembers. */
  ghost predicate Consistent(tr: Trace, e: Execution, b: BodySource)
    reads tr, e, b
  {
    && tr.Kept(b.safeRetry) && tr.m.lawful && tr.m.replies <= 1
    && tr.m.sends == tr.p.sends == e.attempts <= e.maxAttempts && tr.m.used == e.tried
    && (tr.p.replied <==> tr.m.replies > 0) && tr.p.since <= tr.p.sends
    && Remembers(e)
    && (!b.replayable ==> tr.m.opens == if b.used then 1 else 0)
  }

  /** The request is over: no key is held. */
  ghost predicate Over(tr: Trace, e: Execution, b: BodySource)
    reads tr, e, b
  {
    Consistent(tr, e, b) && tr.m.held.None?
  }

  /** Another attempt may start: within budget, with a body to send, and lawful to send it. */
  ghost predicate Ready(tr: Trace, e: Execution, b: BodySource)
    reads tr, e, b
  {
    && Over(tr, e, b) && tr.m.replies == 0 && e.HasBudget()
    && (tr.m.sends > 0 ==> b.replayable && (b.safeRetry || Rejected(tr.m.last)))
    && (!b.replayable ==> !b.used)
  }

  /** A target of this vendor that has not been used. */
  ghost predicate Fresh(e: Execution, v: Vendor)
    reads e
  {
    !v.managed ==> Target(v.id, None) !in e.tried
  }

  /** The attempt in progress: its key is held, nothing has been delivered. */
  ghost predicate InFlight(tr: Trace, e: Execution, b: BodySource, a: Attempt)
    reads tr, e, b, a
  {
    && Consistent(tr, e, b) && tr.m.replies == 0 && (a.idx.Some? <==> a.vendor.managed)
    && tr.m.held == if a.idx.None? || a.finished then None else Some((a.vendor.id, a.idx.value))
  }

  // ---------------------------------------------------------------- one attempt

  /** The pool hands out some key outside the excluded ones, or none; other requests use it meanwhile. */
  method AcquireVersioned(excluded: set<nat>) returns (idx: Option<nat>)
    ensures idx.Some? ==> idx.value !in excluded
  {
    var i: nat := *;
    var free: bool := *;
    idx := if free && i !in excluded then Some(i) else None;
  }

  /** The facts about the latest attempt, without how the request ends. */
  ghost predicate SameFacts(p: Progress, q: Progress) {
    p == q.(left := p.left, replied := p.replied)
  }

  datatype NewAttempt = Started(attempt: Attempt) | GatewayError | ClientLeft

  method StartAttempt(tr: Trace, e: Execution, b: BodySource, v: Vendor) returns (r: NewAttempt)
    requires Ready(tr, e, b) && Fresh(e, v)
    modifies tr, b`used
    ensures r.Started? ==>
      && fresh(r.attempt) && !r.attempt.finished && r.attempt.vendor == v && InFlight(tr, e, b, r.attempt)
      && Target(v.id, r.attempt.idx) !in e.tried
      && tr.m.sends == old(tr.m.sends) && tr.m.last == old(tr.m.last) && tr.p == old(tr.p)
    ensures !r.Started? ==> Over(tr, e, b) && tr.m.replies == 0
    ensures r.GatewayError? ==> tr.p == old(tr.p).(stuck := true)
    ensures r.ClientLeft? ==> tr.p == old(tr.p).(left := true)
  {
    hide Matches, Watch, Recall, After, Learned, Trace.Kept;
    var idx := None;
    if v.managed {
      idx := AcquireVersioned(e.TriedIndexes(v.id));
      if idx.None? {
        tr.Stick(b.safeRetry);
        return GatewayError;
      }
      tr.Take(v.id, idx.value, b.safeRetry);
    }
    var urlBuilt: bool := *;
    if !urlBuilt {
      if v.managed { tr.GiveBack(v.id, idx.value, b.safeRetry); }
      tr.Stick(b.safeRetry);
      return GatewayError;
    }
    var hasBody := b.Body(tr);
    var requestBuilt: bool := *;
    if !(hasBody && requestBuilt) {
      if v.managed { tr.GiveBack(v.id, idx.value, b.safeRetry); }
      var left: bool := *;
      if left {
        tr.Leave(b.safeRetry);
        return NewAttempt.ClientLeft;
      }
      tr.Stick(b.safeRetry);
      return GatewayError;
    }
    var a := new Attempt(v, idx);
    r := Started(a);
  }

  // ---------------------------------------------------------------- retry decisions

  /** The closure an aggregate passes down: which of its attempts this is. */
  datatype Hook = NoHook | AggregateHook(attempt: nat, maxAttempts: int, retry: AggregateRetry)

  function VendorRounds(v: Vendor): int {
    if v.policy.failover.maxAttempts <= 0 then DEFAULT_VENDOR_ATTEMPTS else v.policy.failover.maxAttempts
  }

  /** The configured switch for what went wrong, on the way to another key of the vendor. */
  ghost predicate KeySwitch(f: Failure, policy: Policy) {
    if f.ErrorStatus? then FailoverResponse(policy.failover, f.status) else OrDefault(policy.failover.requestError, true)
  }

  /** The configured switch on the way to another child. */
  ghost predicate ChildSwitch(f: Failure, r: AggregateRetry) {
    && OrDefault(r.enabled, true)
    && match f
       case ErrorStatus(429) => OrDefault(r.rateLimit, true)
       case ErrorStatus(status) => if status in {500, 502, 503, 504} then OrDefault(r.serverError, true) else status in r.statusCodes
       case _ => OrDefault(r.networkError, true)
  }

  /** The body can be sent again after this failure: always with a safe method, else only if the upstream rejected it. */
  ghost predicate MayResend(f: Failure, b: BodySource) {
    b.replayable && (b.safeRetry || (f.ErrorStatus? && f.status in {401, 402, 403, 429}))
  }

  /** Everything is in favour of another key, except that none may be available. */
  ghost predicate KeyInReach(p: Progress, e: Execution, b: BodySource, v: Vendor)
    requires p.failure.Some?
  {
    && KeySwitch(p.failure.value, v.policy) && MayResend(p.failure.value, b)
    && p.sends - p.since < VendorRounds(v) && p.sends < e.maxAttempts
  }

  /** Another key is not tried: something is against it, or the pool says that none is available. */
  ghost predicate KeyRefused(p: Progress, e: Execution, b: BodySource, v: Vendor)
    requires p.failure.Some?
  {
    !KeyInReach(p, e, b, v) || p.keyFree == Some(false)
  }

  /** The closure an aggregate passes down, if there is one: its rounds and switches. */
  ghost predicate ChildInReach(p: Progress, e: Execution, b: BodySource, h: Hook)
    requires p.failure.Some?
  {
    && h.AggregateHook? && ChildSwitch(p.failure.value, h.retry) && MayResend(p.failure.value, b)
    && p.turns < h.maxAttempts && p.sends < e.maxAttempts
  }

  ghost predicate ChildRefused(p: Progress, e: Execution, b: BodySource, h: Hook)
    requires p.failure.Some?
  {
    !ChildInReach(p, e, b, h) || p.childFree == Some(false)
  }

  /** The hook tells the round that the trace tells. */
  ghost predicate InRound(p: Progress, h: Hook) { h.AggregateHook? ==> h.attempt == p.turns - 1 }

  /** Another key of the vendor is available now; a vendor that passes credentials through has none. */
  method HasAvailableKey(tr: Trace, v: Vendor, ghost safe: bool) returns (ok: bool)
    requires tr.Kept(safe)
    modifies tr
    ensures ok ==> v.managed
    ensures tr.Kept(safe) && tr.m == old(tr.m) && tr.p == old(tr.p).(keyFree := Some(ok))
  {
    ok := *;
    ok := ok && v.managed;
    tr.Emit(KeyFree(v.id, ok), safe);
  }

  lemma {:induction false} SwitchesAgree(f: Failure, r: AggregateRetry, b: BodySource)
    requires f.ErrorStatus? ==> f.status >= BAD_REQUEST
    ensures var status := if f.ErrorStatus? then f.status else 0;
            && (AggregateRetryable(status, !f.ErrorStatus?, r) <==> ChildSwitch(f, r))
            && (b.CanRetryAggregate(status, !f.ErrorStatus?) <==> MayResend(f, b))
  {
  }

  /** Another child is asked for exactly when rounds, budget, switches and body allow it and another child is available. */
  method ShouldRetryAggregate(tr: Trace, h: Hook, e: Execution, b: BodySource, status: int, isError: bool) returns (again: bool)
    requires tr.Kept(b.safeRetry) && InRound(tr.p, h) && tr.p.sends == e.attempts
    requires tr.p.failure.Some? && isError == !tr.p.failure.value.ErrorStatus?
    requires tr.p.failure.value.ErrorStatus? ==> status == tr.p.failure.value.status >= BAD_REQUEST
    requires isError ==> status == 0
    modifies tr
    ensures tr.Kept(b.safeRetry) && tr.m == old(tr.m) && tr.p == old(tr.p).(childFree := tr.p.childFree)
    ensures again ==>
      h.AggregateHook? && h.attempt < h.maxAttempts - 1 && e.HasBudget() && b.CanRetryAggregate(status, isError)
    ensures again ==> ChildInReach(tr.p, e, b, h) && tr.p.childFree == Some(true)
    ensures !again ==> ChildRefused(tr.p, e, b, h)
  {
    if h.NoHook? || h.attempt >= h.maxAttempts - 1 || !e.HasBudget() { return false; }
    SwitchesAgree(tr.p.failure.value, h.retry, b);
    if !AggregateRetryable(status, isError, h.retry) || !b.CanRetryAggregate(status, isError) { return false; }
    again := *;
    tr.Emit(ChildFree(again), b.safeRetry);
  }

  const NO_PREVIEW := Preview({}, "", false, 0)
  const INTERRUPTED := Decision(AttemptInterrupted, 0, 0, false)

  lemma {:induction false} RequestErrorIsLight(policy: Policy)
    ensures ClassifyRequestError(policy).action in {AttemptObserve, AttemptCooldown} && ClassifyRequestError(policy).status == 0
  {
  }

  lemma {:induction false} ErrorMatches(status: int, d: Decision)
    requires status >= BAD_REQUEST && d.action in {AttemptObserve, AttemptCooldown, AttemptDisable} && d.status == status
    ensures Matches(Some(status), d)
  {
  }

  lemma {:induction false} DeliveredMatches(status: int, policy: Policy)
    requires status < BAD_REQUEST
    ensures Matches(Some(status), INTERRUPTED) && Matches(Some(status), Decision(AttemptSuccess, status, 0, false))
    ensures Matches(Some(status), ClassifyRequestError(policy).(status := BAD_GATEWAY))
  {
    RequestErrorIsLight(policy);
  }

  lemma {:induction false} FailedCallMatches(policy: Policy)
    ensures Matches(None, INTERRUPTED) && Matches(None, ClassifyRequestError(policy))
  {
    RequestErrorIsLight(policy);
  }

  /** The response is being copied to the client. Whatever goes wrong, the attempt is settled once, and an error that
      was already settled stays as it is. */
  method WriteUpstreamResponse(tr: Trace, e: Execution, b: BodySource, a: Attempt, decision: Decision)
    requires InFlight(tr, e, b, a)
    requires !a.finished ==> tr.m.last == Some(decision.status) && decision.status < BAD_REQUEST && decision == Decision(AttemptSuccess, decision.status, 0, false)
    modifies tr, a
    ensures Over(tr, e, b) && SameFacts(tr.p, old(tr.p)) && (tr.p.replied || tr.p.left)
  {
    hide Rejected, Remembers, Matches, Watch, Recall, After, Learned, Trace.Kept, ClassifyRequestError;
    if !a.finished { DeliveredMatches(decision.status, a.vendor.policy); }
    var failure := ClassifyRequestError(a.vendor.policy).(status := BAD_GATEWAY);
    var copy: Copy := *;
    match copy {
      case Complete =>
        tr.Reply(b.safeRetry);
        a.Finish(tr, decision, b.safeRetry);
      case EmptyBody =>
        a.Finish(tr, failure, b.safeRetry);
        tr.Reply(b.safeRetry);
      case ReadFailed(committed) =>
        if committed { tr.Reply(b.safeRetry); }
        a.Finish(tr, failure, b.safeRetry);
        if !committed { tr.Reply(b.safeRetry); }
      case WriteFailed =>
        tr.Reply(b.safeRetry);
      case Canceled(committed) =>
        if committed { tr.Reply(b.safeRetry); }
        tr.Leave(b.safeRetry);
    }
    a.Finish(tr, INTERRUPTED, b.safeRetry);
  }

  /** The state after a retry was chosen: the answer allows it, and the attempt was settled. */
  ghost predicate Retries(tr: Trace, e: Execution, b: BodySource, h: Hook, l: Loop)
    reads tr, e, b
  {
    && Ready(tr, e, b) && b.replayable
    && (l == RetryChild ==> h.AggregateHook? && h.attempt < h.maxAttempts - 1)
  }

  /** How an attempt ends. The client is answered or has left. A failure is handed to it only when another key was refused
      and another child too; another key is tried exactly in the first and another child exactly in the second case. */
  ghost predicate Settles(tr: Trace, e: Execution, b: BodySource, v: Vendor, h: Hook, l: Loop)
    reads tr
  {
    match l
    case Finished =>
      && (tr.p.replied || tr.p.left)
      && (tr.p.replied && tr.p.failure.Some? ==> KeyRefused(tr.p, e, b, v) && ChildRefused(tr.p, e, b, h))
    case RetryKey => !tr.p.left && tr.p.failure.Some? && KeyInReach(tr.p, e, b, v) && tr.p.keyFree == Some(true)
    case RetryChild =>
      !tr.p.left && tr.p.failure.Some? && KeyRefused(tr.p, e, b, v) && ChildInReach(tr.p, e, b, h) && tr.p.childFree == Some(true)
  }

  /** Whether rounds and budget of the vendor are left, as the caller found out. */
  ghost predicate Remaining(tr: Trace, e: Execution, v: Vendor, retryRemaining: bool)
    reads tr
  {
    retryRemaining <==> tr.p.sends - tr.p.since < VendorRounds(v) && tr.p.sends < e.maxAttempts
  }

  lemma {:induction false} VendorSwitchesAgree(b: BodySource, policy: Policy, status: int, d: Decision)
    requires status >= BAD_REQUEST && (ShouldRetry(d) <==> FailoverResponse(policy.failover, status))
    ensures b.CanRetryResponse(status, d) <==> KeySwitch(ErrorStatus(status), policy) && MayResend(ErrorStatus(status), b)
    ensures b.CanRetryResponse(status, d) ==> b.replayable && (b.safeRetry || Rejected(Some(status)))
  {
  }

  lemma {:induction false} CallSwitchesAgree(b: BodySource, policy: Policy, f: Failure)
    requires !f.ErrorStatus?
    ensures b.CanRetryRequestError(ClassifyRequestError(policy)) <==> KeySwitch(f, policy) && MayResend(f, b)
  {
  }

  ghost predicate SameTurn(p: Progress, q: Progress) { p.sends == q.sends && p.since == q.since && p.turns == q.turns && p.vendor == q.vendor && p.stuck == q.stuck }

  /** A failed attempt is settled: another key if the vendor's policy, the body, its rounds and its pool allow it, else
      another child if the aggregate does, else nothing. */
  method AnotherAttempt(tr: Trace, e: Execution, b: BodySource, a: Attempt, h: Hook, retryRemaining: bool, canRetry: bool, status: int, isError: bool)
    returns (l: Loop)
    requires InFlight(tr, e, b, a) && a.finished && tr.m.sends > 0 && tr.p.failure.Some?
    requires isError == !tr.p.failure.value.ErrorStatus? && (isError ==> status == 0)
    requires !isError ==> status == tr.p.failure.value.status >= BAD_REQUEST && tr.m.last == Some(status)
    requires canRetry <==> KeySwitch(tr.p.failure.value, a.vendor.policy) && MayResend(tr.p.failure.value, b)
    requires canRetry ==> b.replayable && (b.safeRetry || Rejected(tr.m.last))
    requires retryRemaining ==> e.HasBudget()
    requires Remaining(tr, e, a.vendor, retryRemaining) && InRound(tr.p, h) && !tr.p.left
    modifies tr
    ensures InFlight(tr, e, b, a) && tr.m == old(tr.m) && SameTurn(tr.p, old(tr.p)) && tr.p.failure == old(tr.p.failure) && !tr.p.left
    ensures l == Finished ==> KeyRefused(tr.p, e, b, a.vendor) && ChildRefused(tr.p, e, b, h) && !tr.p.replied
    ensures l != Finished ==> Retries(tr, e, b, h, l) && Settles(tr, e, b, a.vendor, h, l)
    ensures l == RetryKey ==> retryRemaining && a.vendor.managed
  {
    hide Remembers, Matches, Watch, Recall, After, Learned, Trace.Kept, KeySwitch, ChildSwitch, MayResend;
    if canRetry && retryRemaining {
      var available := HasAvailableKey(tr, a.vendor, b.safeRetry);
      if available { return RetryKey; }
    }
    var again := ShouldRetryAggregate(tr, h, e, b, status, isError);
    l := if again then RetryChild else Finished;
  }

  /** A call or the preview of its response failed: another key, another child, or a gateway error. */
  method AfterFailedCall(tr: Trace, e: Execution, b: BodySource, a: Attempt, h: Hook, retryRemaining: bool) returns (l: Loop)
    requires InFlight(tr, e, b, a) && a.finished && tr.m.sends > 0
    requires tr.p.failure.Some? && !tr.p.failure.value.ErrorStatus?
    requires retryRemaining ==> e.HasBudget()
    requires Remaining(tr, e, a.vendor, retryRemaining) && InRound(tr.p, h) && !tr.p.left
    modifies tr
    ensures l == Finished ==> Over(tr, e, b)
    ensures l != Finished ==> Retries(tr, e, b, h, l)
    ensures l == RetryKey ==> retryRemaining && a.vendor.managed
    ensures Settles(tr, e, b, a.vendor, h, l) && SameTurn(tr.p, old(tr.p))
  {
    hide Remembers, Matches, Watch, Recall, After, Learned, Trace.Kept, ClassifyRequestError, KeySwitch, ChildSwitch, MayResend;
    CallSwitchesAgree(b, a.vendor.policy, tr.p.failure.value);
    l := AnotherAttempt(tr, e, b, a, h, retryRemaining, b.CanRetryRequestError(ClassifyRequestError(a.vendor.policy)), 0, true);
    if l == Finished { tr.Reply(b.safeRetry); }
  }

  /** The beginning of an error response could not be read: its status counts for the key, the switch for failed calls for
      what happens next. */
  method AfterFailedPreview(tr: Trace, e: Execution, b: BodySource, a: Attempt, decision: Decision, h: Hook, retryRemaining: bool)
    returns (l: Loop)
    requires InFlight(tr, e, b, a) && !a.finished && tr.m.sends > 0 && Matches(tr.m.last, decision)
    requires retryRemaining ==> e.HasBudget()
    requires Remaining(tr, e, a.vendor, retryRemaining) && InRound(tr.p, h) && !tr.p.left
    modifies tr, a
    ensures l == Finished ==> Over(tr, e, b)
    ensures l != Finished ==> Retries(tr, e, b, h, l)
    ensures l == RetryKey ==> retryRemaining && a.vendor.managed
    ensures Settles(tr, e, b, a.vendor, h, l) && SameTurn(tr.p, old(tr.p))
  {
    hide Remembers, Matches, Watch, Recall, After, Learned, Trace.Kept, KeyInReach, ChildInReach;
    tr.Miss(PreviewFailed, b.safeRetry);
    a.Finish(tr, decision, b.safeRetry);
    var canceled: bool := *;
    if canceled {
      tr.Leave(b.safeRetry);
      return Finished;
    }
    l := AfterFailedCall(tr, e, b, a, h, retryRemaining);
  }

  method HandleUpstreamResponse(tr: Trace, e: Execution, b: BodySource, a: Attempt, status: int, h: Hook, retryRemaining: bool)
    returns (l: Loop)
    requires InFlight(tr, e, b, a) && !a.finished && tr.m.sends > 0 && tr.m.last == Some(status)
    requires tr.p.failure == (if status >= BAD_REQUEST then Some(ErrorStatus(status)) else None)
    requires retryRemaining ==> e.HasBudget()
    requires Remaining(tr, e, a.vendor, retryRemaining) && InRound(tr.p, h) && !tr.p.left
    modifies tr, a
    ensures l == Finished ==> Over(tr, e, b)
    ensures l != Finished ==> Retries(tr, e, b, h, l)
    ensures l == RetryKey ==> retryRemaining && a.vendor.managed
    ensures Settles(tr, e, b, a.vendor, h, l) && SameTurn(tr.p, old(tr.p))
  {
    hide Disables, BodySource.CanRetryResponse, ShouldRetry, Rejected, Remembers, Matches, Watch, Recall, After, Learned, Trace.Kept, KeySwitch, ChildSwitch, MayResend, AnalyzeErrorResponse, ClassifyRequestError, FailoverResponse;
    var decision := Decision(AttemptSuccess, status, 0, false);
    if status >= BAD_REQUEST {
      var preview: Preview, openAI: bool, mask: Option<int>, previewed: bool := *, *, *, *;
      ErrorDecision(a.vendor.policy, status, preview, openAI, mask);
      ErrorDecision(a.vendor.policy, status, NO_PREVIEW, openAI, None);
      ErrorMatches(status, AnalyzeErrorResponse(a.vendor.policy, status, preview, openAI, mask));
      ErrorMatches(status, AnalyzeErrorResponse(a.vendor.policy, status, NO_PREVIEW, openAI, None));
      if !previewed {
        decision := AnalyzeErrorResponse(a.vendor.policy, status, NO_PREVIEW, openAI, None);
        l := AfterFailedPreview(tr, e, b, a, decision, h, retryRemaining);
        return;
      }
      decision := AnalyzeErrorResponse(a.vendor.policy, status, preview, openAI, mask);
      a.Finish(tr, decision, b.safeRetry);
      VendorSwitchesAgree(b, a.vendor.policy, status, decision);
      l := AnotherAttempt(tr, e, b, a, h, retryRemaining, b.CanRetryResponse(status, decision), status, false);
      if l != Finished { return; }
      if mask.Some? {
        tr.Reply(b.safeRetry);
        return Finished;
      }
    }
    WriteUpstreamResponse(tr, e, b, a, decision);
    l := Finished;
  }

  // ---------------------------------------------------------------- the loops

  /** Charges the budget, remembers the target and sends. Every path here has been checked against the budget before. */
  method Send(tr: Trace, e: Execution, b: BodySource, a: Attempt)
    requires InFlight(tr, e, b, a) && !a.finished && e.HasBudget() && Target(a.vendor.id, a.idx) !in e.tried
    requires tr.m.sends > 0 ==> b.safeRetry || Rejected(tr.m.last)
    modifies tr, e
    ensures InFlight(tr, e, b, a) && tr.m.sends > 0 && tr.m.last.None?
    ensures tr.p == Learned(old(tr.p), Sent(Target(a.vendor.id, a.idx)))
  {
    hide Watch, Recall;
    var allowed := e.ConsumeAttempt();
    if !allowed { assert false; }
    e.MarkTried(a.vendor, a.idx);
    tr.Emit(Sent(Target(a.vendor.id, a.idx)), b.safeRetry);
  }

  method AwaitReply(tr: Trace, e: Execution, b: BodySource, a: Attempt, h: Hook, retryRemaining: bool) returns (l: Loop)
    requires InFlight(tr, e, b, a) && !a.finished && tr.m.sends > 0 && tr.m.last.None? && tr.p.failure.None?
    requires retryRemaining ==> e.HasBudget()
    requires Remaining(tr, e, a.vendor, retryRemaining) && InRound(tr.p, h) && !tr.p.left
    modifies tr, a
    ensures l == Finished ==> Over(tr, e, b)
    ensures l != Finished ==> Retries(tr, e, b, h, l)
    ensures l == RetryKey ==> retryRemaining && a.vendor.managed
    ensures Settles(tr, e, b, a.vendor, h, l) && SameTurn(tr.p, old(tr.p))
  {
    hide Rejected, Remembers, Matches, Watch, Recall, After, Learned, Trace.Kept, KeySwitch, ChildSwitch, MayResend, ClassifyRequestError;
    FailedCallMatches(a.vendor.policy);
    l := Finished;
    var reply: Reply := *;
    match reply {
      case BodyReadFailed(clientWaiting) =>
        a.Finish(tr, INTERRUPTED, b.safeRetry);
        if clientWaiting { tr.Reply(b.safeRetry); } else { tr.Leave(b.safeRetry); }
      case ClientCanceled =>
        a.Finish(tr, INTERRUPTED, b.safeRetry);
        tr.Leave(b.safeRetry);
      case CallFailed =>
        tr.Miss(Event.CallFailed, b.safeRetry);
        a.Finish(tr, ClassifyRequestError(a.vendor.policy), b.safeRetry);
        l := AfterFailedCall(tr, e, b, a, h, retryRemaining);
      case Response(status) =>
        tr.Hear(status, b.safeRetry);
        l := HandleUpstreamResponse(tr, e, b, a, status, h, retryRemaining);
    }
  }

  /** How a turn ends: as its last attempt did, or because another attempt could not be started. */
  ghost predicate TurnEnds(tr: Trace, e: Execution, b: BodySource, v: Vendor, h: Hook, l: Loop)
    reads tr
  {
    if tr.p.stuck || tr.p.left then l == Finished && (tr.p.replied || tr.p.left) else Settles(tr, e, b, v, h, l)
  }

  /** The turn goes on: nothing about it has changed, except that one more attempt was made. */
  ghost predicate OneMore(p: Progress, q: Progress) {
    p.sends == q.sends + 1 && p.since == q.since && p.turns == q.turns && p.vendor == q.vendor && !p.stuck && !p.left
  }

  /** One round of the vendor loop; `attempts` counts this one. */
  method OneAttempt(tr: Trace, e: Execution, b: BodySource, v: Vendor, h: Hook, attempts: int) returns (l: Loop)
    requires Ready(tr, e, b) && Fresh(e, v) && !tr.p.stuck && !tr.p.left && InRound(tr.p, h)
    requires attempts == tr.p.sends - tr.p.since + 1
    modifies tr, e, b`used
    ensures l == Finished ==> Over(tr, e, b)
    ensures l != Finished ==> Retries(tr, e, b, h, l) && OneMore(tr.p, old(tr.p))
    ensures l == RetryKey ==> attempts < VendorRounds(v) && v.managed
    ensures TurnEnds(tr, e, b, v, h, l) && tr.p.vendor == old(tr.p.vendor) && tr.p.turns == old(tr.p.turns)
  {
    hide KeyInReach, ChildInReach, Rejected, Remembers, Matches, Watch, Recall, After, Trace.Kept;
    var started := StartAttempt(tr, e, b, v);
    if !started.Started? {
      if started.GatewayError? { tr.Reply(b.safeRetry); }
      return Finished;
    }
    var a := started.attempt;
    Send(tr, e, b, a);
    l := AwaitReply(tr, e, b, a, h, attempts < VendorRounds(v) && e.HasBudget());
  }

  /** The keys of one vendor are tried in turn. The two guards kept against a spinning loop cannot be reached. */
  method ServeVendor(tr: Trace, e: Execution, b: BodySource, v: Vendor, h: Hook) returns (l: Loop)
    requires Ready(tr, e, b) && Fresh(e, v) && !tr.p.stuck && !tr.p.left
    requires h.AggregateHook? ==> h.attempt == tr.p.turns
    modifies tr, e, b`used
    ensures l == Finished ==> Over(tr, e, b)
    ensures l != Finished ==> l == RetryChild && Retries(tr, e, b, h, l) && !tr.p.stuck && !tr.p.left
    ensures TurnEnds(tr, e, b, v, h, l) && tr.p.vendor == v.id && tr.p.turns == old(tr.p.turns) + 1
  {
    hide KeyRefused, ChildRefused, KeyInReach, ChildInReach, Rejected, Remembers, Matches, Watch, Recall, After, Learned, Trace.Kept;
    tr.Turn(v.id, b.safeRetry);
    var maxAttempts := VendorRounds(v);
    var attempts := 0;
    while true
      invariant 0 <= attempts < maxAttempts && Ready(tr, e, b) && Fresh(e, v)
      invariant attempts == tr.p.sends - tr.p.since && InRound(tr.p, h) && !tr.p.stuck && !tr.p.left
      invariant tr.p.vendor == v.id && tr.p.turns == old(tr.p.turns) + 1
      decreases maxAttempts - attempts
    {
      attempts := attempts + 1;
      if attempts > maxAttempts { assert false; }
      l := OneAttempt(tr, e, b, v, h, attempts);
      if l != RetryKey { return l; }
    }
  }

  /** Some child outside `exclude` with a target this request has not used, if there is one. */
  method PickAvailable(children: seq<Child>, exclude: set<string>, e: Execution) returns (c: Option<Child>)
    ensures c.Some? ==> c.value in children && c.value.id !in exclude && Fresh(e, c.value.vendor)
  {
    var k: int := *;
    if k < 0 || k >= |children| || children[k].id in exclude { return None; }
    if !children[k].vendor.managed && Target(children[k].vendor.id, None) in e.tried { return None; }
    c := Some(children[k]);
  }

  /** Children of one vendor share it. */
  ghost predicate OneVendorPerId(children: seq<Child>) {
    forall c, d :: c in children && d in children && c.vendor.id == d.vendor.id ==> c.vendor == d.vendor
  }

  /** The children of an aggregate are tried in turn under the budget of the whole request. The loop always returns
      from its body: it never runs out of rounds with the client still waiting. A failure is handed to the client only
      when another key of the last child and another child were refused, or another attempt could not be started. */
  method ServeAggregate(tr: Trace, e: Execution, b: BodySource, children: seq<Child>, retry: AggregateRetry)
    requires tr.log == [] && tr.m == START && tr.p == NOTHING && e.attempts == 0 && e.maxAttempts > 0 && e.tried == {} && !b.used
    requires OneVendorPerId(children)
    modifies tr, e, b`used
    ensures Over(tr, e, b) && (tr.p.replied || tr.p.left)
    ensures tr.p.replied && tr.p.failure.Some? && !tr.p.stuck && !tr.p.left ==>
      exists c :: c in children && c.vendor.id == tr.p.vendor
    ensures tr.p.replied && tr.p.failure.Some? && !tr.p.stuck && !tr.p.left ==>
      forall c :: c in children && c.vendor.id == tr.p.vendor ==>
        KeyRefused(tr.p, e, b, c.vendor) && ChildRefused(tr.p, e, b, AggregateHook(0, AggregateRounds(retry), retry))
  {
    assert tr.Kept(b.safeRetry);
    hide Remembers, Matches, Watch, Recall, After, Learned, Trace.Kept, KeyInReach, ChildInReach;
    if !OrDefault(retry.enabled, true) {
      var only := PickAvailable(children, {}, e);
      if only.None? {
        tr.Stick(b.safeRetry);
        tr.Reply(b.safeRetry);
        return;
      }
      var _ := ServeVendor(tr, e, b, only.value.vendor, NoHook);
      return;
    }
    var maxAttempts := if retry.maxAttempts <= 0 then DEFAULT_AGGREGATE_ATTEMPTS else retry.maxAttempts;
    var exclude: set<string> := {};
    var attempt := 0;
    while attempt < maxAttempts
      invariant attempt < maxAttempts && Ready(tr, e, b) && attempt == tr.p.turns && !tr.p.stuck && !tr.p.left
      decreases maxAttempts - attempt
    {
      var child := PickAvailable(children, exclude, e);
      if child.None? {
        tr.Stick(b.safeRetry);
        tr.Reply(b.safeRetry);
        return;
      }
      var l := ServeVendor(tr, e, b, child.value.vendor, AggregateHook(attempt, maxAttempts, retry));
      if l != RetryChild { return; }
      exclude := exclude + {child.value.id};
      attempt := attempt + 1;
    }
    assert false;
  }

  function AggregateRounds(retry: AggregateRetry): int {
    if retry.maxAttempts <= 0 then DEFAULT_AGGREGATE_ATTEMPTS else retry.maxAttempts
  }

  /** No event of this kind was logged since the latest send. */
  ghost predicate NotSince(log: seq<Event>, e: Event) {
    forall l :: 0 <= l < |log| && log[l] == e ==> exists j :: l < j < |log| && log[j].Sent?
  }

  lemma {:induction false} NeverStuck(log: seq<Event>)
    requires NotSince(log, NotStarted)
    ensures !Recall(log).stuck
  {
    hide Recall;
    if Recall(log).stuck { var _ := StuckIsLogged(log); }
  }

  /** Failover, read off the trace of a turn that ended: when the latest send was answered with an error and the client got a
      reply, although it had not left and no further attempt failed to start, then the switch for that status is off, or the
      body may not be sent again, or the budget or the rounds of the vendor are spent, or the pool was asked since and had no
      other key; and likewise for the children of the aggregate. */
  lemma {:induction false} DeliveredErrorIsExcused(tr: Trace, e: Execution, b: BodySource, v: Vendor, h: Hook, k: nat, t: nat)
    requires Over(tr, e, b) && TurnEnds(tr, e, b, v, h, Finished)
    requires k < |tr.log| && tr.log[k].Answered? && tr.log[k].status >= 400
    requires forall l :: k < l < |tr.log| ==> !tr.log[l].Sent? && !EndsCall(tr.log[l])
    requires t < |tr.log| && tr.log[t].Turned? && forall l :: t < l < |tr.log| ==> !tr.log[l].Turned?
    requires CountReplied(tr.log) > 0 && Event.ClientLeft !in tr.log && NotSince(tr.log, NotStarted)
    ensures var status := tr.log[k].status;
            var resend := b.replayable && (b.safeRetry || status in {401, 402, 403, 429});
            && (FailoverResponse(v.policy.failover, status) && resend
                && CountSent(tr.log) < e.maxAttempts && CountSent(tr.log[t..]) < VendorRounds(v) ==>
                  exists l :: 0 <= l < |tr.log| && tr.log[l].KeyFree? && !tr.log[l].ok && forall j :: l < j < |tr.log| ==> !tr.log[j].Sent?)
            && (h.AggregateHook? && ChildSwitch(ErrorStatus(status), h.retry) && resend
                && CountSent(tr.log) < e.maxAttempts && tr.p.turns < h.maxAttempts ==>
                  exists l :: 0 <= l < |tr.log| && tr.log[l] == ChildFree(false) && forall j :: l < j < |tr.log| ==> !tr.log[j].Sent?)
  {
    hide Remembers, Watch, Recall, CountSent, CountReplied, FailoverResponse, ChildSwitch;
    var log := tr.log;
    RecallCounts(log);
    FailureIsLatest(log, k);
    TurnCounts(log, t);
    NeverStuck(log);
    if tr.p.keyFree == Some(false) { var l := KeyAnswerIsLogged(log); }
    if tr.p.childFree == Some(false) { var l := ChildAnswerIsLogged(log); }
  }

  /** What a finished request has done, read off its trace: within budget, no target twice, every key given back once
      and settled as what its upstream answered, a body that cannot be replayed opened at most once, one reply, and no unsafe method repeated except after a rejection. */
  lemma {:induction false} FinishedRequest(tr: Trace, e: Execution, b: BodySource)
    requires Over(tr, e, b)
    ensures CountSent(tr.log) == e.attempts <= e.maxAttempts && CountReplied(tr.log) <= 1
    ensures !b.replayable ==> CountOpened(tr.log) <= 1
    ensures forall i, j :: 0 <= i < j < |tr.log| && tr.log[i].Sent? && tr.log[j].Sent? ==> tr.log[i].target != tr.log[j].target
    ensures forall i :: 0 <= i < |tr.log| && tr.log[i].Acquired? ==> exists j :: ReturnedAt(tr.log, i, j)
    ensures forall i :: 0 <= i < |tr.log| && tr.log[i].Settled? ==> Matches(Watch(tr.log[..i], b.safeRetry).last, tr.log[i].decision)
    ensures !b.safeRetry ==> forall i, j :: 0 <= i < j < |tr.log| && tr.log[i].Sent? && tr.log[j].Sent? ==>
              exists k :: 0 <= k < j && tr.log[k].Answered? && tr.log[k].status in {401, 402, 403, 429}
                          && forall l :: k < l < j ==> !tr.log[l].Sent? && !tr.log[l].Answered?
  {
    hide Watch, CountSent, CountReplied, CountOpened, ReturnedAt, Matches;
    var log, safe := tr.log, b.safeRetry;
    WatchCounts(log, safe);
    forall i | 0 <= i < |log| && log[i].Settled? ensures Matches(Watch(log[..i], safe).last, log[i].decision) {
      SettledAsAnswered(log, safe, i);
    }
    forall i | 0 <= i < |log| && log[i].Acquired? ensures exists j :: ReturnedAt(log, i, j) { EachKeyReturnedOnce(log, safe, i); }
    forall i, j | 0 <= i < j < |log| && log[i].Sent? && log[j].Sent?
      ensures log[i].target != log[j].target
      ensures !safe ==> exists k :: 0 <= k < j && log[k].Answered? && log[k].status in {401, 402, 403, 429}
                                    && forall l :: k < l < j ==> !log[l].Sent? && !log[l].Answered?
    {
      NoTargetTwice(log, safe, i, j);
      if !safe { UnsafeResentOnlyAfterRejection(log, i, j); }
    }
  }
}
