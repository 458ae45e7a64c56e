/** What an upstream outcome means for the key that served it. Which keywords and codes a response matched is an input. */
module KeyPolicy {
  import opened Wrappers
  import opened RuntimeStats
  import opened KeyRecords

  datatype Decision = Decision(action: Action, status: int, cooldown: int, failover: bool)

  datatype Rule = Rule(enabled: Option<bool>, duration: int)

  datatype RetryAfter = Unset | Ignore | Override | AtLeast

  datatype ResponseRule = ResponseRule(statusCodes: seq<int>, keywords: set<string>, duration: int, retryAfter: RetryAfter)

  datatype AutoDisable = AutoDisable(enabled: Option<bool>, statusCodes: seq<int>, credentialCodes: set<string>, keywords: set<string>)

  datatype Cooldowns = Cooldowns(
    requestError: Rule, unauthorized: Rule, paymentRequired: Rule, forbidden: Rule, rateLimit: Rule, serverError: Rule,
    openAISlowDown: Rule, noDefaultBackoff: bool, responseRules: seq<ResponseRule>)

  datatype Failover = Failover(
    requestError: Option<bool>, unauthorized: Option<bool>, paymentRequired: Option<bool>, forbidden: Option<bool>,
    rateLimit: Option<bool>, serverError: Option<bool>, statusCodes: seq<int>, maxAttempts: int)

  datatype Policy = Policy(autoDisable: AutoDisable, cooldowns: Cooldowns, failover: Failover)

  /** A response preview: the configured keywords its body contains, its credential error code if any, whether it asks
      an OpenAI client to slow down, and the delay of its Retry-After header (0 without one). */
  datatype Preview = Preview(hits: set<string>, credentialCode: string, slowDown: bool, retryAfter: int)

  const BAD_REQUEST := 400
  const UNAUTHORIZED := 401
  const PAYMENT_REQUIRED := 402
  const FORBIDDEN := 403
  const TOO_MANY_REQUESTS := 429
  const BAD_GATEWAY := 502
  const SERVER_ERRORS := {529, 500, 502, 503, 504}
  const REJECTIONS := {UNAUTHORIZED, PAYMENT_REQUIRED, FORBIDDEN, TOO_MANY_REQUESTS}

  function OrDefault(v: Option<bool>, fallback: bool): bool { if v.Some? then v.value else fallback }

  function WithoutBackoff(c: Cooldowns, rule: Rule): Rule {
    if c.noDefaultBackoff then rule.(enabled := Some(false)) else rule
  }

  function CooldownDecision(status: int, rule: Rule, failover: bool, retryAfter: int, atLeast: bool): Decision {
    if !OrDefault(rule.enabled, true) then Decision(AttemptObserve, status, 0, failover)
    else
      var duration := if retryAfter > 0 then (if atLeast then Max(retryAfter, rule.duration) else retryAfter) else rule.duration;
      Decision(AttemptCooldown, status, duration, failover)
  }

  function ResponseCooldown(status: int, rule: ResponseRule, failover: bool, retryAfter: int): Decision {
    var mode := if rule.retryAfter == Unset then (if status == TOO_MANY_REQUESTS then Override else Ignore) else rule.retryAfter;
    var duration :=
      if mode == Override && retryAfter > 0 then retryAfter
      else if mode == AtLeast && retryAfter > 0 then Max(retryAfter, rule.duration)
      else rule.duration;
    Decision(AttemptCooldown, status, duration, failover)
  }

  predicate Disables(a: AutoDisable, status: int, p: Preview) {
    OrDefault(a.enabled, true)
    && (status in a.statusCodes || p.credentialCode in a.credentialCodes || p.hits * a.keywords != {})
  }

  predicate RuleMatches(rule: ResponseRule, status: int, p: Preview) {
    && (rule.statusCodes != [] ==> status in rule.statusCodes)
    && (rule.keywords != {} ==> rule.keywords * p.hits != {})
    && (rule.statusCodes != [] || rule.keywords != {})
  }

  /** The first rule that matches. */
  function MatchRule(rules: seq<ResponseRule>, status: int, p: Preview): Option<ResponseRule> {
    if rules == [] then None
    else if RuleMatches(rules[0], status, p) then Some(rules[0])
    else MatchRule(rules[1..], status, p)
  }

  predicate FailoverResponse(f: Failover, status: int) {
    if f.statusCodes != [] then status in f.statusCodes
    else match status
      case 401 => OrDefault(f.unauthorized, true)
      case 402 => OrDefault(f.paymentRequired, true)
      case 403 => OrDefault(f.forbidden, true)
      case 429 => OrDefault(f.rateLimit, true)
      case _ => status in SERVER_ERRORS && OrDefault(f.serverError, true)
  }

  function ClassifyRequestError(policy: Policy): Decision {
    CooldownDecision(0, WithoutBackoff(policy.cooldowns, policy.cooldowns.requestError), OrDefault(policy.failover.requestError, true), 0, false)
  }

  function ClassifyErrorResponse(policy: Policy, status: int, p: Preview, openAI: bool): Decision {
    var failover := FailoverResponse(policy.failover, status);
    var c := policy.cooldowns;
    if Disables(policy.autoDisable, status, p) then Decision(AttemptDisable, status, 0, failover)
    else
      var matched := MatchRule(c.responseRules, status, p);
      if matched.Some? then ResponseCooldown(status, matched.value, failover, p.retryAfter)
      else match status
        case 401 => CooldownDecision(status, WithoutBackoff(c, c.unauthorized), failover, 0, false)
        case 402 => CooldownDecision(status, WithoutBackoff(c, c.paymentRequired), failover, 0, false)
        case 403 => CooldownDecision(status, WithoutBackoff(c, c.forbidden), failover, 0, false)
        case 429 => CooldownDecision(status, WithoutBackoff(c, c.rateLimit), failover, p.retryAfter, false)
        case _ =>
          if status in SERVER_ERRORS then
            if openAI && p.slowDown then CooldownDecision(status, WithoutBackoff(c, c.openAISlowDown), failover, p.retryAfter, true)
            else CooldownDecision(status, WithoutBackoff(c, c.serverError), failover, p.retryAfter, false)
          else Decision(AttemptObserve, status, 0, failover)
  }

  /** A masking rule may lengthen the backoff, or start one; it never downgrades a disable. */
  function ExtendCooldown(d: Decision, cooldown: int): Decision {
    if cooldown <= 0 || d.action == AttemptDisable then d
    else if d.action == AttemptCooldown && d.cooldown >= cooldown then d
    else d.(action := AttemptCooldown, cooldown := cooldown)
  }

  /** `mask` is the backoff of the masking rule that matched, if one did. */
  function AnalyzeErrorResponse(policy: Policy, status: int, p: Preview, openAI: bool, mask: Option<int>): Decision {
    var d := ClassifyErrorResponse(policy, status, p, openAI);
    if mask.Some? then ExtendCooldown(d, mask.value) else d
  }

  predicate ShouldRetry(d: Decision) {
    d.failover && d.action in {AttemptCooldown, AttemptDisable, AttemptObserve}
  }

  // ---------------------------------------------------------------- what the decisions have in common

  /** Every error response is settled as an error of its own status, and the retry switch is the configured one
      whichever rule decided about the key's health. */
  lemma {:induction false} ErrorDecision(policy: Policy, status: int, p: Preview, openAI: bool, mask: Option<int>)
    ensures var d := AnalyzeErrorResponse(policy, status, p, openAI, mask);
            && d.action in {AttemptObserve, AttemptCooldown, AttemptDisable} && d.status == status
            && (ShouldRetry(d) <==> FailoverResponse(policy.failover, status))
            && (d.action == AttemptDisable <==> Disables(policy.autoDisable, status, p))
  {
    hide MatchRule, Disables, FailoverResponse;
  }

  /** What disables a key: nothing while the rule is off, and otherwise any one of a listed status, a listed credential code
      and a configured keyword in the body; each entry adds its own cases and no others. */
  lemma {:induction false} DisableCauses(a: AutoDisable, status: int, p: Preview, code: int, word: string)
    ensures !Disables(a.(enabled := Some(false)), status, p)
    ensures !Disables(AutoDisable(a.enabled, [], {}, {}), status, p)
    ensures a.enabled != Some(false) ==>
      && (Disables(a.(statusCodes := a.statusCodes + [code]), status, p) <==> status == code || Disables(a, status, p))
      && (Disables(a.(credentialCodes := a.credentialCodes + {word}), status, p) <==> p.credentialCode == word || Disables(a, status, p))
      && (Disables(a.(keywords := a.keywords + {word}), status, p) <==> word in p.hits || Disables(a, status, p))
  {
    assert p.hits * (a.keywords + {word}) != {} <==> word in p.hits || p.hits * a.keywords != {} by {
      assert p.hits * (a.keywords + {word}) == p.hits * a.keywords + p.hits * {word};
      if word in p.hits { assert word in p.hits * {word}; } else { assert p.hits * {word} == {}; }
    }
    assert p.hits * {} == {};
  }

  /** When a response rule applies: it must name a status or a keyword, and each kind it names must be met. */
  lemma {:induction false} RuleConditions(rule: ResponseRule, status: int, p: Preview)
    ensures rule.statusCodes == [] && rule.keywords == {} ==> !RuleMatches(rule, status, p)
    ensures rule.statusCodes != [] && rule.keywords == {} ==> (RuleMatches(rule, status, p) <==> status in rule.statusCodes)
    ensures rule.statusCodes == [] && rule.keywords != {} ==> (RuleMatches(rule, status, p) <==> exists w :: w in rule.keywords && w in p.hits)
    ensures rule.statusCodes != [] && rule.keywords != {} ==>
      (RuleMatches(rule, status, p) <==> status in rule.statusCodes && exists w :: w in rule.keywords && w in p.hits)
  {
    var both := rule.keywords * p.hits;
    if both != {} { var w :| w in both; } else { assert forall w :: w in rule.keywords && w in p.hits ==> w in both; }
  }

  /** Without a list of statuses each class of error has its own switch: all on, the nine usual statuses fail over, and turning
      one switch decides its own statuses and no others. A list decides alone. */
  lemma {:induction false} FailoverSwitches(f: Failover, status: int, x: bool)
    ensures f.statusCodes != [] ==> (FailoverResponse(f, status) <==> status in f.statusCodes)
    ensures f.statusCodes == [] ==>
      && (FailoverResponse(f, status) ==> status in {401, 402, 403, 429, 500, 502, 503, 504, 529})
      && (FailoverResponse(Failover(None, None, None, None, None, None, [], f.maxAttempts), status) <==>
            status in {401, 402, 403, 429, 500, 502, 503, 504, 529})
      && (FailoverResponse(f.(unauthorized := Some(x)), status) <==> if status == 401 then x else FailoverResponse(f, status))
      && (FailoverResponse(f.(paymentRequired := Some(x)), status) <==> if status == 402 then x else FailoverResponse(f, status))
      && (FailoverResponse(f.(forbidden := Some(x)), status) <==> if status == 403 then x else FailoverResponse(f, status))
      && (FailoverResponse(f.(rateLimit := Some(x)), status) <==> if status == 429 then x else FailoverResponse(f, status))
      && (FailoverResponse(f.(serverError := Some(x)), status) <==>
            if status in {500, 502, 503, 504, 529} then x else FailoverResponse(f, status))
      && (FailoverResponse(f.(requestError := Some(x)), status) <==> FailoverResponse(f, status))
  {
  }

  /** The configured cooldown of a status without a response rule of its own. */
  ghost function RuleFor(c: Cooldowns, status: int, slowDown: bool): Option<Rule> {
    if status == 401 then Some(c.unauthorized)
    else if status == 402 then Some(c.paymentRequired)
    else if status == 403 then Some(c.forbidden)
    else if status == 429 then Some(c.rateLimit)
    else if status in {500, 502, 503, 504, 529} then Some(if slowDown then c.openAISlowDown else c.serverError)
    else None
  }

  /** The backoff of an error response that neither disables the key nor matches a response rule: that of its status unless
      backoffs are switched off; a Retry-After header replaces it for 429 and server errors, and can only lengthen it when an
      OpenAI upstream asks to slow down. */
  lemma {:induction false} StatusBackoff(policy: Policy, status: int, p: Preview, openAI: bool)
    requires !Disables(policy.autoDisable, status, p)
    requires forall i :: 0 <= i < |policy.cooldowns.responseRules| ==> !RuleMatches(policy.cooldowns.responseRules[i], status, p)
    ensures var d, c := ClassifyErrorResponse(policy, status, p, openAI), policy.cooldowns;
            var slow := openAI && p.slowDown;
            var rule := RuleFor(c, status, slow);
            && (d.action == AttemptCooldown <==> rule.Some? && !c.noDefaultBackoff && rule.value.enabled != Some(false))
            && (d.action != AttemptCooldown ==> d.action == AttemptObserve && d.cooldown == 0)
            && (d.action == AttemptCooldown && (status in {401, 402, 403} || p.retryAfter <= 0) ==> d.cooldown == rule.value.duration)
            && (d.action == AttemptCooldown && status !in {401, 402, 403} && p.retryAfter > 0 ==>
                  if slow && status != 429 then d.cooldown >= p.retryAfter && d.cooldown >= rule.value.duration
                                                && d.cooldown in {p.retryAfter, rule.value.duration}
                  else d.cooldown == p.retryAfter)
  {
    hide Disables, FailoverResponse, MatchRule;
    FirstMatch(policy.cooldowns.responseRules, status, p);
  }

  /** The first response rule that matches decides whatever its status' own rule says. Its duration stands unless the header
      overrides it, which is the default for 429 only, or lengthens it. */
  lemma {:induction false} RuleBackoff(policy: Policy, status: int, p: Preview, openAI: bool, i: nat)
    requires !Disables(policy.autoDisable, status, p) && i < |policy.cooldowns.responseRules|
    requires RuleMatches(policy.cooldowns.responseRules[i], status, p)
    requires forall j :: 0 <= j < i ==> !RuleMatches(policy.cooldowns.responseRules[j], status, p)
    ensures var d, rule := ClassifyErrorResponse(policy, status, p, openAI), policy.cooldowns.responseRules[i];
            && d.action == AttemptCooldown
            && (p.retryAfter <= 0 || rule.retryAfter == Ignore || (rule.retryAfter == Unset && status != 429) ==> d.cooldown == rule.duration)
            && (p.retryAfter > 0 && (rule.retryAfter == Override || (rule.retryAfter == Unset && status == 429)) ==> d.cooldown == p.retryAfter)
            && (p.retryAfter > 0 && rule.retryAfter == AtLeast ==>
                  d.cooldown >= p.retryAfter && d.cooldown >= rule.duration && d.cooldown in {p.retryAfter, rule.duration})
  {
    FirstIsMatched(policy.cooldowns.responseRules, status, p, i);
    hide Disables, FailoverResponse, MatchRule, RuleMatches;
  }

  lemma {:induction false} FirstIsMatched(rules: seq<ResponseRule>, status: int, p: Preview, i: nat)
    requires i < |rules| && RuleMatches(rules[i], status, p) && forall j :: 0 <= j < i ==> !RuleMatches(rules[j], status, p)
    ensures MatchRule(rules, status, p) == Some(rules[i])
  {
    hide RuleMatches;
    if i > 0 {
      assert forall j :: 0 <= j < i ==> rules[1..][j] == rules[j + 1];
      FirstIsMatched(rules[1..], status, p, i - 1);
    }
  }

  /** A failed call backs off by its own rule and fails over by its own switch; no header can change either. */
  lemma {:induction false} CallBackoff(policy: Policy)
    ensures var d, rule := ClassifyRequestError(policy), policy.cooldowns.requestError;
            && d.status == 0 && (d.failover <==> policy.failover.requestError != Some(false))
            && (d.action == AttemptCooldown <==> !policy.cooldowns.noDefaultBackoff && rule.enabled != Some(false))
            && (if d.action == AttemptCooldown then d.cooldown == rule.duration else d.action == AttemptObserve && d.cooldown == 0)
  {
  }

  /** The rule that decides is the first that matches, and there is one exactly when some rule matches. */
  lemma {:induction false} FirstMatch(rules: seq<ResponseRule>, status: int, p: Preview)
    ensures MatchRule(rules, status, p).None? <==> forall i :: 0 <= i < |rules| ==> !RuleMatches(rules[i], status, p)
    ensures MatchRule(rules, status, p).Some? ==>
      exists i :: 0 <= i < |rules| && RuleMatches(rules[i], status, p) && MatchRule(rules, status, p) == Some(rules[i])
                  && forall j :: 0 <= j < i ==> !RuleMatches(rules[j], status, p)
  {
    hide RuleMatches;
    if rules != [] {
      FirstMatch(rules[1..], status, p);
      assert forall i :: 0 <= i < |rules| - 1 ==> rules[1..][i] == rules[i + 1];
      if !RuleMatches(rules[0], status, p) && MatchRule(rules, status, p).Some? {
        var i :| 0 <= i < |rules| - 1 && RuleMatches(rules[1..][i], status, p) && MatchRule(rules[1..], status, p) == Some(rules[1..][i])
                 && forall j :: 0 <= j < i ==> !RuleMatches(rules[1..][j], status, p);
        assert RuleMatches(rules[i + 1], status, p);
        forall j | 0 <= j < i + 1 ensures !RuleMatches(rules[j], status, p) {
          if j > 0 { assert rules[j] == rules[1..][j - 1]; }
        }
      }
    }
  }

  /** Masking only ever makes the consequence for the key heavier: the longer backoff, and never less than a disable. */
  lemma {:induction false} MaskingOnlyExtends(d: Decision, cooldown: int)
    requires d.action in {AttemptObserve, AttemptCooldown, AttemptDisable} && (d.action == AttemptCooldown ==> d.cooldown >= 0)
    ensures var e := ExtendCooldown(d, cooldown);
            && (d.action == AttemptDisable ==> e == d) && e.failover == d.failover && e.status == d.status
            && (d.action == AttemptCooldown ==> e.action == AttemptCooldown && e.cooldown == Max(d.cooldown, cooldown))
            && (d.action == AttemptObserve ==> if cooldown > 0 then e.action == AttemptCooldown && e.cooldown == cooldown else e == d)
  {
  }

  // ---------------------------------------------------------------- accounting

  /** Every way the gateway settles an attempt. */
  datatype Outcome =
    | ClientGone
    | Delivered(status: int)
    | TransportFailed(policy: Policy)
    | ReadFailed(policy: Policy)
    | ErrorResponse(policy: Policy, code: int, preview: Preview, openAI: bool, mask: Option<int>)

  /** An error response is one of status 400 or more; anything below is delivered as it is. */
  predicate Possible(o: Outcome) {
    (o.ErrorResponse? ==> o.code >= BAD_REQUEST) && (o.Delivered? ==> o.status < BAD_REQUEST)
  }

  function DecisionOf(o: Outcome): Decision {
    match o
    case ClientGone => Decision(AttemptInterrupted, 0, 0, false)
    case Delivered(status) => Decision(AttemptSuccess, status, 0, false)
    case TransportFailed(policy) => ClassifyRequestError(policy)
    case ReadFailed(policy) => ClassifyRequestError(policy).(status := BAD_GATEWAY)
    case ErrorResponse(policy, code, preview, openAI, mask) => AnalyzeErrorResponse(policy, code, preview, openAI, mask)
  }

  function Tallied(o: Outcome): Tally {
    var d := DecisionOf(o);
    TallyOf(AttemptResult(d.action, d.status, "", d.cooldown, 0, -1))
  }

  ghost function Tallies(os: seq<Outcome>): (ts: seq<Tally>)
    ensures |ts| == |os|
  {
    if os == [] then [] else Tallies(os[..|os| - 1]) + [Tallied(os[|os| - 1])]
  }

  ghost function CountGone(os: seq<Outcome>): nat {
    if os == [] then 0 else CountGone(os[..|os| - 1]) + if os[|os| - 1].ClientGone? then 1 else 0
  }

  lemma {:induction false} ErrorsAreClassified(o: Outcome)
    requires Possible(o)
    ensures Tallied(o) == Interrupted <==> o.ClientGone?
    ensures Tallied(o) == Success <==> o.Delivered?
    ensures Tallied(o).Failure? ==> Tallied(o).status == 0 || Tallied(o).status >= BAD_REQUEST
  {
    if o.ErrorResponse? { ErrorDecision(o.policy, o.code, o.preview, o.openAI, o.mask); }
    hide AnalyzeErrorResponse;
  }

  lemma {:induction false} NothingUnclassified(os: seq<Outcome>)
    requires forall i :: 0 <= i < |os| ==> Possible(os[i])
    ensures CountUnclassified(Tallies(os)) == 0 && CountInterrupted(Tallies(os)) == CountGone(os)
  {
    hide Tallied, Possible;
    if os != [] {
      var n := |os| - 1;
      NothingUnclassified(os[..n]);
      ErrorsAreClassified(os[n]);
      assert Tallies(os)[..n] == Tallies(os[..n]);
    }
  }

  ghost function CountDelivered(os: seq<Outcome>): nat {
    if os == [] then 0 else CountDelivered(os[..|os| - 1]) + if os[|os| - 1].Delivered? then 1 else 0
  }

  /** Error responses with the given status. */
  ghost function CountCode(os: seq<Outcome>, code: int): nat {
    if os == [] then 0 else CountCode(os[..|os| - 1], code) + if os[|os| - 1].ErrorResponse? && os[|os| - 1].code == code then 1 else 0
  }

  lemma {:induction false} TallyIsOutcome(o: Outcome)
    requires Possible(o)
    ensures Tallied(o) == Success <==> o.Delivered?
    ensures forall code :: code in {401, 403, 429} ==> (Tallied(o) == Failure(code) <==> o.ErrorResponse? && o.code == code)
  {
    if o.ErrorResponse? { ErrorDecision(o.policy, o.code, o.preview, o.openAI, o.mask); }
    hide AnalyzeErrorResponse;
  }

  lemma {:induction false} TalliesAreOutcomes(os: seq<Outcome>)
    requires forall i :: 0 <= i < |os| ==> Possible(os[i])
    ensures Occurrences(Tallies(os), Success) == CountDelivered(os)
    ensures forall code :: code in {401, 403, 429} ==> Occurrences(Tallies(os), Failure(code)) == CountCode(os, code)
  {
    hide Tallied, Possible;
    if os != [] {
      var n := |os| - 1;
      TalliesAreOutcomes(os[..n]);
      TallyIsOutcome(os[n]);
      assert Tallies(os)[..n] == Tallies(os[..n]);
    }
  }

  /** Accounting is exact: over any attempts settled by the gateway each counter is the number of outcomes of its kind, the
      interrupted count derived from the stored ones is the number of attempts the client gave up, and the total splits into
      the five other counters and it. */
  lemma {:induction false} AccountingIsExact(os: seq<Outcome>)
    requires forall i :: 0 <= i < |os| ==> Possible(os[i])
    ensures var c := Settled(NO_COUNTS, Tallies(os));
            && InterruptedCount(c) == CountGone(os)
            && c.total == |os| && c.success == CountDelivered(os)
            && c.unauthorized == CountCode(os, 401) && c.forbidden == CountCode(os, 403) && c.rateLimit == CountCode(os, 429)
            && c.total == c.success + c.unauthorized + c.forbidden + c.rateLimit + c.other + InterruptedCount(c)
  {
    hide Possible, Settled;
    NothingUnclassified(os);
    TalliesAreOutcomes(os);
    CountersTell(NO_COUNTS, Tallies(os));
    InterruptedCountIsExact(Tallies(os));
    UnclassifiedRemainder(Tallies(os));
  }

  // ---------------------------------------------------------------- replaying request bodies

  /** Whether a body that could be sent again permits another attempt after an error response. */
  predicate CanRetryResponse(safe: bool, status: int, d: Decision) {
    ShouldRetry(d) && (safe || status in REJECTIONS)
  }

  const PROBED := [401, 402, 403, 429, 529, 500, 502, 503, 504]

  /** Whether the gateway buffers a body so that it can be replayed: a fixed list of statuses is asked. */
  predicate ShouldBuffer(f: Failover, managed: bool, keyCount: nat, safe: bool) {
    managed && keyCount >= 2
    && if safe then
         OrDefault(f.requestError, true) || f.statusCodes != [] || exists i :: 0 <= i < |PROBED| && FailoverResponse(f, PROBED[i])
       else exists i :: 0 <= i < 4 && FailoverResponse(f, PROBED[i])
  }

  /** The fixed list is complete: a managed vendor with another key to turn to buffers a body exactly when some failure
      could make it send the body again. */
  lemma {:induction false} BuffersExactlyWhenReplayable(policy: Policy, keyCount: nat, safe: bool)
    requires keyCount >= 2
    ensures ShouldBuffer(policy.failover, true, keyCount, safe) <==>
      || (safe && ShouldRetry(ClassifyRequestError(policy)))
      || exists status, p, openAI, mask :: CanRetryResponse(safe, status, AnalyzeErrorResponse(policy, status, p, openAI, mask))
  {
    var f := policy.failover;
    var p := Preview({}, "", false, 0);
    forall status, q, openAI, mask
      ensures CanRetryResponse(safe, status, AnalyzeErrorResponse(policy, status, q, openAI, mask)) <==>
              FailoverResponse(f, status) && (safe || status in REJECTIONS)
    {
      ErrorDecision(policy, status, q, openAI, mask);
    }
    assert ShouldRetry(ClassifyRequestError(policy)) <==> OrDefault(f.requestError, true);
    hide AnalyzeErrorResponse, CanRetryResponse;
    if safe && f.statusCodes != [] { assert FailoverResponse(f, f.statusCodes[0]); }
    if status :| FailoverResponse(f, status) && (safe || status in REJECTIONS) {
      assert CanRetryResponse(safe, status, AnalyzeErrorResponse(policy, status, p, false, None));
      if f.statusCodes == [] || !safe { Probed(f, status, safe); }
    }
  }

  lemma {:induction false} Probed(f: Failover, status: int, safe: bool)
    requires FailoverResponse(f, status) && (safe || status in REJECTIONS) && (f.statusCodes == [] || !safe)
    ensures exists i :: 0 <= i < (if safe then |PROBED| else 4) && FailoverResponse(f, PROBED[i])
  {
    assert status in REJECTIONS || status in SERVER_ERRORS;
    var i := if status == 401 then 0 else if status == 402 then 1 else if status == 403 then 2 else if status == 429 then 3
             else if status == 529 then 4 else if status == 500 then 5 else if status == 502 then 6 else if status == 503 then 7 else 8;
    assert PROBED[i] == status;
  }
}
