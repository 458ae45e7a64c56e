/** Lifetime counters and recent-window summary of one key, with the delta arithmetic that persists them. */
module RuntimeStats {
  import opened Wrappers

  /** Aggregates of the recent window: a replacement snapshot, never an additive counter. */
  datatype RecentStats = RecentStats(
    requests: nat, successes: nat, headerSamples: int, avgHeader: real, responseSamples: int, avgResponse: real)

  datatype Counters = Counters(total: int, success: int, unauthorized: int, forbidden: int, rateLimit: int, other: int)

  datatype Stats = Stats(recent: RecentStats, c: Counters, lastStatus: int, lastError: string)

  const NO_RECENT := RecentStats(0, 0, 0, 0.0, 0, 0.0)
  const NO_COUNTS := Counters(0, 0, 0, 0, 0, 0)
  const NO_STATS := Stats(NO_RECENT, NO_COUNTS, 0, "")

  function Plus(a: Counters, b: Counters): Counters {
    Counters(a.total + b.total, a.success + b.success, a.unauthorized + b.unauthorized,
             a.forbidden + b.forbidden, a.rateLimit + b.rateLimit, a.other + b.other)
  }

  function Minus(a: Counters, b: Counters): Counters {
    Counters(a.total - b.total, a.success - b.success, a.unauthorized - b.unauthorized,
             a.forbidden - b.forbidden, a.rateLimit - b.rateLimit, a.other - b.other)
  }

  predicate Leq(a: Counters, b: Counters) {
    && a.total <= b.total && a.success <= b.success && a.unauthorized <= b.unauthorized
    && a.forbidden <= b.forbidden && a.rateLimit <= b.rateLimit && a.other <= b.other
  }

  // ---------------------------------------------------------------- last error text

  const MAX_ERROR := 240

  /** The white space of Unicode. */
  predicate IsSpace(c: char) {
    || c in {' ', '\t', '\n', '\r', '\U{0b}', '\U{0c}', '\U{85}', '\U{a0}'}
    || '\U{2000}' <= c <= '\U{200a}'
    || c in {'\U{1680}', '\U{2028}', '\U{2029}', '\U{202f}', '\U{205f}', '\U{3000}'}
  }

  function TrimLeft(s: string): string {
    if s != [] && IsSpace(s[0]) then TrimLeft(s[1..]) else s
  }

  function TrimRight(s: string): string {
    if s != [] && IsSpace(s[|s| - 1]) then TrimRight(s[..|s| - 1]) else s
  }

  function NormalizeError(message: string): string {
    var m := TrimRight(TrimLeft(message));
    if |m| <= MAX_ERROR then m else m[..MAX_ERROR - 3] + "..."
  }

  predicate NormalError(s: string) {
    |s| <= MAX_ERROR && (s != [] ==> !IsSpace(s[0]) && !IsSpace(s[|s| - 1]))
  }

  lemma {:induction false} TrimLeftStart(s: string)
    ensures TrimLeft(s) != [] ==> !IsSpace(TrimLeft(s)[0])
  {
    if s != [] { TrimLeftStart(s[1..]); }
  }

  lemma {:induction false} TrimRightEnds(s: string)
    requires s != [] ==> !IsSpace(s[0])
    ensures TrimRight(s) != [] ==> !IsSpace(TrimRight(s)[0]) && !IsSpace(TrimRight(s)[|TrimRight(s)| - 1])
  {
    if s != [] { TrimRightEnds(s[..|s| - 1]); }
  }

  /** Stored error texts are normal, and normalizing a normal text changes nothing. */
  lemma {:induction false} NormalizeErrorIdempotent(s: string)
    ensures NormalError(NormalizeError(s))
    ensures NormalError(s) ==> NormalizeError(s) == s
  {
    TrimLeftStart(s);
    TrimRightEnds(TrimLeft(s));
  }

  // ---------------------------------------------------------------- deltas

  function IsZero(s: Stats): bool {
    s.recent.requests == 0 && s.c == NO_COUNTS && s.lastStatus == 0 && s.lastError == ""
  }

  /** The change since `prev`, or nothing when a counter went backwards. */
  function DeltaSince(s: Stats, prev: Stats): Option<Stats> {
    if !Leq(prev.c, s.c) then None
    else
      var d := Minus(s.c, prev.c);
      var moved := d != NO_COUNTS;
      Some(Stats(
        if s.recent != prev.recent then s.recent else NO_RECENT,
        d,
        if moved then s.lastStatus else 0,
        if moved then s.lastError else ""))
  }

  function ApplyDelta(s: Stats, delta: Stats): Stats {
    Stats(
      if delta.recent.requests > 0 then delta.recent else s.recent,
      Plus(s.c, delta.c),
      if delta.c.total > 0 then delta.lastStatus else s.lastStatus,
      if delta.c.total > 0 then NormalizeError(delta.lastError) else s.lastError)
  }

  /** Round trip: applying a delta to its own baseline always restores the counters, and restores the whole
      record exactly when a last-error change came with a request and an emptied window was not involved. */
  lemma {:induction false} DeltaRoundTrip(cur: Stats, prev: Stats)
    requires Leq(prev.c, cur.c) && NormalError(cur.lastError)
    ensures DeltaSince(cur, prev).Some?
    ensures ApplyDelta(prev, DeltaSince(cur, prev).value).c == cur.c
    ensures ApplyDelta(prev, DeltaSince(cur, prev).value) == cur <==>
            && (cur.c.total > prev.c.total || (cur.lastStatus == prev.lastStatus && cur.lastError == prev.lastError))
            && (cur.recent == prev.recent || cur.recent.requests > 0)
  {
    NormalizeErrorIdempotent(cur.lastError);
    hide NormalizeError, NormalError;
  }

  // ---------------------------------------------------------------- classification of one attempt

  /** How one settled attempt is counted. */
  datatype Tally = Interrupted | Success | Failure(status: int)

  function Unit(t: Tally): Counters {
    match t
    case Interrupted => Counters(1, 0, 0, 0, 0, 0)
    case Success => Counters(1, 1, 0, 0, 0, 0)
    case Failure(401) => Counters(1, 0, 1, 0, 0, 0)
    case Failure(403) => Counters(1, 0, 0, 1, 0, 0)
    case Failure(429) => Counters(1, 0, 0, 0, 1, 0)
    case Failure(status) => Counters(1, 0, 0, 0, 0, if status >= 400 || status == 0 then 1 else 0)
  }

  function InterruptedCount(c: Counters): int {
    Max(0, c.total - c.success - c.unauthorized - c.forbidden - c.rateLimit - c.other)
  }

  /** Counters after settling the given attempts, starting from `start`. */
  function Settled(start: Counters, ts: seq<Tally>): Counters {
    if ts == [] then start else Plus(Settled(start, ts[..|ts| - 1]), Unit(ts[|ts| - 1]))
  }

  ghost function CountInterrupted(ts: seq<Tally>): nat {
    if ts == [] then 0
    else CountInterrupted(ts[..|ts| - 1]) + if ts[|ts| - 1] == Interrupted then 1 else 0
  }

  /** Failures whose status no counter recognises: these are the ones that would be taken for interruptions. */
  ghost function CountUnclassified(ts: seq<Tally>): nat {
    if ts == [] then 0
    else CountUnclassified(ts[..|ts| - 1]) +
         match ts[|ts| - 1] case Failure(s) => (if s < 400 && s != 0 then 1 else 0) case _ => 0
  }

  lemma {:induction false} UnclassifiedRemainder(ts: seq<Tally>)
    ensures var c := Settled(NO_COUNTS, ts);
            c.total - c.success - c.unauthorized - c.forbidden - c.rateLimit - c.other
              == CountInterrupted(ts) + CountUnclassified(ts)
    ensures Settled(NO_COUNTS, ts).total == |ts|
  {
    if ts != [] { UnclassifiedRemainder(ts[..|ts| - 1]); }
  }

  /** The derived interrupted count is the true one, without clamping, exactly when every failure was classified. */
  lemma {:induction false} InterruptedCountIsExact(ts: seq<Tally>)
    ensures InterruptedCount(Settled(NO_COUNTS, ts)) == CountInterrupted(ts) + CountUnclassified(ts)
    ensures InterruptedCount(Settled(NO_COUNTS, ts)) == CountInterrupted(ts) <==> CountUnclassified(ts) == 0
  {
    UnclassifiedRemainder(ts);
  }

  // ---------------------------------------------------------------- which counter an attempt reaches

  /** How many of the attempts were counted as `t`. */
  ghost function Occurrences(ts: seq<Tally>, t: Tally): nat {
    if ts == [] then 0 else Occurrences(ts[..|ts| - 1], t) + if ts[|ts| - 1] == t then 1 else 0
  }

  /** A failure that has no counter of its own: without a status, or an error of any other one. */
  predicate OtherError(t: Tally) {
    t.Failure? && t.status !in {401, 403, 429} && (t.status == 0 || t.status >= 400)
  }

  ghost function CountOther(ts: seq<Tally>): nat {
    if ts == [] then 0 else CountOther(ts[..|ts| - 1]) + if OtherError(ts[|ts| - 1]) then 1 else 0
  }

  /** The counters `c` hold, over what `start` held, one for each of the attempts, in the counter of its kind. */
  ghost predicate Tells(c: Counters, start: Counters, ts: seq<Tally>) {
    && c.total == start.total + |ts|
    && c.success == start.success + Occurrences(ts, Success)
    && c.unauthorized == start.unauthorized + Occurrences(ts, Failure(401))
    && c.forbidden == start.forbidden + Occurrences(ts, Failure(403))
    && c.rateLimit == start.rateLimit + Occurrences(ts, Failure(429))
    && c.other == start.other + CountOther(ts)
  }

  /** Each counter is the number of attempts of its kind. */
  lemma {:induction false} CountersTell(start: Counters, ts: seq<Tally>)
    ensures Tells(Settled(start, ts), start, ts)
  {
    if ts != [] { CountersTell(start, ts[..|ts| - 1]); }
  }
}
