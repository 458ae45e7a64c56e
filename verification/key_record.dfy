/** The runtime state of one API key and the state changes the pool applies to it, as values. */
module KeyRecords {
  import opened Wrappers
  import opened RuntimeStats
  import opened SampleWindow

  const NEVER := -0x8000_0000_0000_0000        // before every clock reading
  const MAX_DURATION := 0x7fff_ffff_ffff_ffff
  const MINUTE := 60 * 1_000_000_000
  const EXPLORATION_INTERVAL := 10
  const MAX_COOLDOWN_LEVEL := 10

  datatype Status = Active | DisabledManual | DisabledAuto

  /** Scheduling history of a key; times are ticks of the process-local monotonic clock. */
  datatype Explore = Explore(
    lastAttempt: int, sampleExpires: int, nextExplore: int, liveSamples: nat, failedSamples: nat, generation: nat)

  datatype KeyRecord = KeyRecord(
    key: string, status: Status, reason: string, disabledAt: Option<int>, disabledBy: string, version: int,
    inflight: nat, failures: nat, cooldownUntil: int, cooldownLevel: nat, retired: bool, explore: Explore)

  datatype KeyConfig = KeyConfig(
    key: string, status: Status, reason: string, disabledAt: Option<int>, disabledBy: string, version: int)

  /** A key as a new pool creates it. */
  function Created(c: KeyConfig, createdAt: int): KeyRecord {
    KeyRecord(c.key, c.status, c.reason, c.disabledAt, c.disabledBy, c.version, 0, 0, NEVER, 0, false,
              Explore(NEVER, createdAt + FRESHNESS, NEVER, 0, 0, 0))
  }

  predicate Available(r: KeyRecord, now: int) {
    !r.retired && r.status == Active && r.cooldownUntil <= now
  }

  // ---------------------------------------------------------------- exploration history

  /** Forget the history when the statistics were reset since it was last looked at. */
  function Sync(x: Explore, generation: nat, tick: int): Explore {
    if x.generation == generation then x
    else Explore(NEVER, tick + FRESHNESS, NEVER, 0, 0, generation)
  }

  /** Backoff before the next probe: one, two, four, then five minutes. */
  function ProbeDelay(failed: nat): int {
    if failed <= 1 then MINUTE
    else if failed == 2 then 2 * MINUTE
    else if failed == 3 then 4 * MINUTE
    else FRESHNESS
  }

  /** A sample of the given generation was recorded at `tick`. */
  function Note(x: Explore, generation: nat, tick: int, success: bool): Explore {
    var y := Sync(x, generation, tick);
    var live := if tick >= y.sampleExpires then 0 else y.liveSamples;
    var failed := if success then 0 else Min(4, y.failedSamples + 1);
    Explore(y.lastAttempt, tick + FRESHNESS, if success then NEVER else tick + ProbeDelay(failed),
            Min(2, live + 1), failed, generation)
  }

  predicate Expired(x: Explore, tick: int) { tick >= x.sampleExpires }

  /** Worth a probe: hardly sampled, recently failing, or stale. */
  predicate Due(x: Explore, tick: int) {
    x.liveSamples < 2 || x.failedSamples > 0 || Expired(x, tick)
  }

  // ---------------------------------------------------------------- acquire and settle

  function Acquired(r: KeyRecord, now: int): KeyRecord {
    r.(inflight := r.inflight + 1, explore := r.explore.(lastAttempt := now))
  }

  /** The release clamps at zero. */
  function Released(r: KeyRecord): KeyRecord {
    r.(inflight := if r.inflight > 0 then r.inflight - 1 else 0)
  }

  predicate Current(r: KeyRecord, version: int) { !r.retired && r.version == version }

  function Pow2(n: nat): nat {
    if n == 0 then 1 else 2 * Pow2(n - 1)
  }

  /** base * 2^(level-1), saturating at the largest duration; a non-positive base is left alone. */
  function ScaledCooldown(level: nat, base: int): int {
    if base <= 0 || level <= 1 then base else Min(MAX_DURATION, base * Pow2(level - 1))
  }

  datatype Action = AttemptInterrupted | AttemptSuccess | AttemptObserve | AttemptCooldown | AttemptDisable | AttemptUnknown

  datatype AttemptResult = AttemptResult(
    action: Action, status: int, reason: string, cooldown: int, header: int, full: int)

  function Disabled(r: KeyRecord, reason: string, actor: string, now: int): KeyRecord {
    r.(status := DisabledAuto, reason := NormalizeError(reason), disabledBy := actor, disabledAt := Some(now),
       cooldownUntil := NEVER, cooldownLevel := 0, failures := 0)
  }

  /** An administrator's recovery: healthy again, at the same version. */
  function Recovered(r: KeyRecord): KeyRecord {
    r.(status := Active, reason := "", disabledAt := None, disabledBy := "", cooldownUntil := NEVER, cooldownLevel := 0, failures := 0)
  }

  /** Health change of a current attempt; the flag authorises persisting an automatic disable. */
  function Judged(r: KeyRecord, res: AttemptResult, now: int): (KeyRecord, bool) {
    match res.action
    case AttemptSuccess => (r.(failures := 0, cooldownLevel := 0), false)
    case AttemptObserve => (r.(failures := 0), false)
    case AttemptCooldown =>
      var level := if r.cooldownLevel < MAX_COOLDOWN_LEVEL then r.cooldownLevel + 1 else r.cooldownLevel;
      (r.(failures := r.failures + 1, cooldownLevel := level, cooldownUntil := now + ScaledCooldown(level, res.cooldown)), false)
    case AttemptDisable => (Disabled(r, res.reason, "system:auto", now), true)
    case _ => (r, false)
  }

  predicate Counted(res: AttemptResult) { res.action != AttemptUnknown }

  predicate Sampled(res: AttemptResult) { Counted(res) && res.action != AttemptInterrupted }

  /** Settlement of one attempt that was acquired at `version`: `generation` is the handle's generation after
      the sample, `now` the clock at the sample and `later` the clock at the health change. */
  function Settle(r: KeyRecord, version: int, res: AttemptResult, generation: nat, now: int, later: int): (KeyRecord, bool) {
    var r1 := Released(r);
    if !Sampled(res) || !Current(r, version) then (r1, false)
    else Judged(r1.(explore := Note(r1.explore, generation, now, res.action == AttemptSuccess)), res, later)
  }

  function TallyOf(res: AttemptResult): Tally {
    if res.action == AttemptInterrupted then Interrupted
    else if res.action == AttemptSuccess then Success
    else Failure(res.status)
  }

  /** The statistics side of the same settlement. */
  function SettleStats(h: Handle, current: bool, res: AttemptResult, now: int): Handle {
    if !Counted(res) then h
    else
      var h1 := if Sampled(res) && current
                then RecordSample(h, MakeSample(res.header, res.full, res.action == AttemptSuccess), now) else h;
      Count(h1, TallyOf(res), res.reason, !current)
  }

  /** An attempt of an older version, or of a retired key, only gives its slot back: status, cooldown, failures,
      exploration history and version stay, its sample is not recorded, the last error survives, and nothing may
      be persisted. */
  lemma {:induction false} StaleAttemptIsHarmless(r: KeyRecord, h: Handle, version: int, res: AttemptResult, now: int, later: int)
    requires !Current(r, version)
    ensures Settle(r, version, res, h.generation, now, later) == (Released(r), false)
    ensures var h' := SettleStats(h, false, res, now);
            && h'.samples == h.samples && h'.stats.recent == h.stats.recent && h'.costs == h.costs
            && h'.stats.lastError == h.stats.lastError && h'.stats.lastStatus == h.stats.lastStatus
            && h'.stats.c == if Counted(res) then Plus(h.stats.c, Unit(TallyOf(res))) else h.stats.c
  {
    hide Unit, NormalizeError;
  }

  /** Persisting is authorised exactly for a current disable, and then the key is disabled in memory. */
  lemma {:induction false} PersistOnlyCurrentDisable(r: KeyRecord, version: int, res: AttemptResult, generation: nat, now: int, later: int)
    ensures Settle(r, version, res, generation, now, later).1 <==> res.action == AttemptDisable && Current(r, version)
    ensures Settle(r, version, res, generation, now, later).1 ==>
            Settle(r, version, res, generation, now, later).0.status == DisabledAuto
    ensures r.status != Active ==> Settle(r, version, res, generation, now, later).0.status != Active
    ensures Settle(r, version, res, generation, now, later).0.version == r.version
  {
    hide NormalizeError, ScaledCooldown, Note;
  }

  /** What a settlement leaves of the key's health: only a verdict on the key as it is now changes it. */
  ghost predicate HealthFollows(before: KeyRecord, after: KeyRecord, persist: bool, version: int, res: AttemptResult, later: int) {
    var current := !before.retired && before.version == version;
    && after.key == before.key && after.version == before.version && after.retired == before.retired
    && after.inflight == (if before.inflight > 0 then before.inflight - 1 else 0)
    && (persist <==> current && res.action == AttemptDisable)
    && (if persist then
          && after.status == DisabledAuto && after.disabledBy == "system:auto" && after.disabledAt == Some(later)
          && NormalError(after.reason) && (NormalError(res.reason) ==> after.reason == res.reason)
        else
          && after.status == before.status && after.disabledBy == before.disabledBy && after.disabledAt == before.disabledAt
          && after.reason == before.reason)
    && match if current then res.action else AttemptInterrupted
       case AttemptDisable => after.failures == 0 && after.cooldownLevel == 0 && after.cooldownUntil == NEVER
       case AttemptSuccess => after.failures == 0 && after.cooldownLevel == 0 && after.cooldownUntil == before.cooldownUntil
       case AttemptObserve => after.failures == 0 && after.cooldownLevel == before.cooldownLevel && after.cooldownUntil == before.cooldownUntil
       case AttemptCooldown =>
         && after.failures == before.failures + 1
         && after.cooldownLevel == (if before.cooldownLevel < 10 then before.cooldownLevel + 1 else before.cooldownLevel)
         && (res.cooldown <= 0 ==> after.cooldownUntil == later + res.cooldown)
         && (0 < res.cooldown <= MAX_DURATION ==>
               after.cooldownUntil == later + Min(MAX_DURATION, res.cooldown * Pow2(after.cooldownLevel - 1)))
       case _ =>
         after.failures == before.failures && after.cooldownLevel == before.cooldownLevel && after.cooldownUntil == before.cooldownUntil
  }

  lemma {:induction false} SettleHealth(r: KeyRecord, version: int, res: AttemptResult, generation: nat, now: int, later: int)
    ensures var p := Settle(r, version, res, generation, now, later); HealthFollows(r, p.0, p.1, version, res, later)
  {
    NormalizeErrorIdempotent(res.reason);
    hide NormalizeError, NormalError, Note;
    assert Pow2(0) == 1;
  }

  /** A retained key of a new pool keeps its live state; only a newer version overrides its health. */
  function Shared(state: KeyRecord, incoming: KeyRecord): KeyRecord {
    if incoming.version > state.version then
      state.(status := incoming.status, reason := incoming.reason, disabledAt := incoming.disabledAt,
             disabledBy := incoming.disabledBy, version := incoming.version,
             cooldownUntil := NEVER, cooldownLevel := 0, failures := 0)
    else state
  }

  predicate HasKey(incoming: seq<KeyRecord>, key: string) {
    exists i :: 0 <= i < |incoming| && incoming[i].key == key
  }

  ghost predicate DistinctKeys(rs: seq<KeyRecord>) {
    forall i, j :: 0 <= i < j < |rs| ==> rs[i].key != rs[j].key
  }

  /** A live key after every incoming record of the same name was merged into it. */
  function Merged(state: KeyRecord, incoming: seq<KeyRecord>): KeyRecord {
    if incoming == [] then state
    else
      var last, before := incoming[|incoming| - 1], Merged(state, incoming[..|incoming| - 1]);
      if last.key == state.key then Shared(before, last) else before
  }

  /** A live key after a new generation was published: merged if the generation names it, else retired. */
  function AfterShare(state: KeyRecord, incoming: seq<KeyRecord>): KeyRecord {
    if HasKey(incoming, state.key) then Merged(state, incoming) else state.(retired := true)
  }

  /** Publishing never renames a key, never touches what is in flight and never lowers a version. */
  lemma {:induction false} MergedKeeps(state: KeyRecord, incoming: seq<KeyRecord>)
    ensures var m := Merged(state, incoming);
            && m.key == state.key && m.inflight == state.inflight && m.retired == state.retired
            && m.explore == state.explore && m.version >= state.version
    ensures !HasKey(incoming, state.key) ==> Merged(state, incoming) == state
    ensures (forall i :: 0 <= i < |incoming| && incoming[i].key == state.key ==> incoming[i].version <= state.version)
            ==> Merged(state, incoming) == state
  {
    if incoming != [] {
      var init := incoming[..|incoming| - 1];
      MergedKeeps(state, init);
      assert HasKey(init, state.key) ==> HasKey(incoming, state.key);
      assert incoming[|incoming| - 1].key == state.key ==> HasKey(incoming, state.key);
    }
  }

  /** Merging records of distinct names merges the one of the key's name. */
  lemma {:induction false} MergedIsShared(state: KeyRecord, incoming: seq<KeyRecord>, i: nat)
    requires DistinctKeys(incoming) && i < |incoming| && incoming[i].key == state.key
    ensures Merged(state, incoming) == Shared(state, incoming[i])
  {
    var n := |incoming| - 1;
    var init := incoming[..n];
    if i == n {
      assert !HasKey(init, state.key);
      MergedKeeps(state, init);
    } else {
      assert incoming[n].key != state.key;
      MergedIsShared(state, init, i);
    }
  }

  /** `after` is the live key `before` once a reloaded record of its name arrived: a newer record's health replaces the live
      one and ends any backoff, any other leaves it alone; what is in flight and the history stay. */
  ghost predicate TakesOver(before: KeyRecord, after: KeyRecord, record: KeyRecord) {
    && after.key == before.key && after.inflight == before.inflight && after.explore == before.explore && after.retired == before.retired
    && if record.version > before.version then
         && after.status == record.status && after.version == record.version && after.reason == record.reason
         && after.disabledAt == record.disabledAt && after.disabledBy == record.disabledBy
         && after.failures == 0 && after.cooldownLevel == 0
         && after.cooldownUntil == NEVER
       else
         && after.status == before.status && after.version == before.version && after.reason == before.reason
         && after.disabledAt == before.disabledAt && after.disabledBy == before.disabledBy
         && after.failures == before.failures && after.cooldownLevel == before.cooldownLevel && after.cooldownUntil == before.cooldownUntil
  }

  lemma {:induction false} MergedTakesOver(state: KeyRecord, incoming: seq<KeyRecord>, i: nat)
    requires DistinctKeys(incoming) && i < |incoming| && incoming[i].key == state.key
    ensures TakesOver(state, Merged(state, incoming), incoming[i])
  {
    hide Merged;
    MergedIsShared(state, incoming, i);
  }

  /** A live key that is not retired is available right after the hand-over exactly when the newer record is active. */
  lemma {:induction false} NewerRecordDecides(before: KeyRecord, after: KeyRecord, record: KeyRecord, now: int)
    requires TakesOver(before, after, record) && !before.retired && now >= NEVER
    ensures Available(after, now) <==> if record.version > before.version then record.status == Active else Available(before, now)
  {
  }

  // ---------------------------------------------------------------- the doubling loop

  lemma {:induction false} Pow2Bound(n: nat, m: nat)
    requires n <= m
    ensures 1 <= Pow2(n) <= Pow2(m)
  {
    if n < m { Pow2Bound(n, m - 1); } else if n > 0 { Pow2Bound(n - 1, m - 1); }
  }

  lemma {:induction false} DivideExactly(base: int, factor: nat)
    requires base > 0 && factor >= 1
    ensures base > MAX_DURATION / factor <==> base * factor > MAX_DURATION
  {
    var q := MAX_DURATION / factor;
    assert q * factor <= MAX_DURATION < (q + 1) * factor;
    if base >= q + 1 {
      assert base * factor >= (q + 1) * factor;
    } else {
      assert base * factor <= q * factor;
    }
  }

  lemma {:induction false} GrowsAtLeast(base: int, f: nat, g: nat)
    requires base >= 1 && f <= g
    ensures base * g >= f
  {
    assert base * g >= 1 * g;
  }

  /** The doubling loop: the factor never overflows, and the result is the exact saturating product. */
  method ScaledCooldownLoop(level: nat, base: int) returns (d: int)
    requires base <= MAX_DURATION
    ensures d == ScaledCooldown(level, base)
  {
    if base <= 0 || level <= 1 { return base; }
    var factor := 1;
    for i := 1 to level
      invariant factor == Pow2(i - 1) <= MAX_DURATION
    {
      if factor > MAX_DURATION / 2 {
        Pow2Bound(i, level - 1);
        assert Pow2(i) == 2 * factor;
        GrowsAtLeast(base, 2 * factor, Pow2(level - 1));
        return MAX_DURATION;
      }
      factor := factor * 2;
    }
    Pow2Bound(0, level - 1);
    DivideExactly(base, factor);
    if base > MAX_DURATION / factor { return MAX_DURATION; }
    d := base * factor;
  }

  // ---------------------------------------------------------------- two expiry machines

  /** The key's sample count and the handle's window agree while they share a generation, and a handle that
      the key has not caught up with has an empty window. */
  ghost predicate InStep(x: Explore, h: Handle) {
    && x.generation <= h.generation
    && (h.lastSample.None? ==> h.samples == [])
    && (x.generation == h.generation ==>
          && x.liveSamples == Min(2, |h.samples|)
          && (h.lastSample.Some? ==> x.sampleExpires == h.lastSample.value + FRESHNESS))
    && (x.generation < h.generation ==> h.lastSample.None?)
  }

  datatype Tick =
    | SampleAt(sample: Sample, at: int)   // a current attempt finished
    | StaleCount(tally: Tally, reason: string)   // an obsolete or interrupted attempt was counted
    | ScanAt(at: int)                     // a pick looked at the key
    | ResetStats                          // statistics were reset; the key notices later

  function TickStep(x: Explore, h: Handle, t: Tick): (Explore, Handle) {
    match t
    case SampleAt(s, at) => (Note(x, h.generation, at, s.success), RecordSample(h, s, at))
    case StaleCount(tally, reason) => (x, Count(h, tally, reason, true))
    case ScanAt(at) => (Sync(x, h.generation, at), h)
    case ResetStats => (x, Reset(h))
  }

  function TicksAfter(x: Explore, h: Handle, ts: seq<Tick>): (Explore, Handle) {
    if ts == [] then (x, h)
    else var p := TicksAfter(x, h, ts[..|ts| - 1]); TickStep(p.0, p.1, ts[|ts| - 1])
  }

  lemma {:induction false} TickKeepsInStep(x: Explore, h: Handle, t: Tick)
    requires InStep(x, h)
    ensures var p := TickStep(x, h, t); InStep(p.0, p.1)
  {
    hide Summary, CostsOf, Unit, NormalizeError, ProbeDelay;
  }

  /** For a key created together with its handle, over every run of samples, gaps, stale results, scans and lazy
      resets: whenever the key has the current generation it counts min(2, window size) live samples. */
  lemma {:induction false} ExpiryMachinesAgree(c: KeyConfig, createdAt: int, baseline: Stats, ts: seq<Tick>)
    ensures var p := TicksAfter(Created(c, createdAt).explore, FromBaseline(baseline), ts);
            && InStep(p.0, p.1)
            && (p.0.generation == p.1.generation ==> p.0.liveSamples == Min(2, |p.1.samples|))
  {
    hide TickStep, CostsOf, NormalizeError;
    if ts != [] {
      ExpiryMachinesAgree(c, createdAt, baseline, ts[..|ts| - 1]);
      var p := TicksAfter(Created(c, createdAt).explore, FromBaseline(baseline), ts[..|ts| - 1]);
      TickKeepsInStep(p.0, p.1, ts[|ts| - 1]);
    }
  }

  /** A handle has a last sample time exactly when its window holds a sample. */
  predicate Timed(h: Handle) { h.lastSample.Some? <==> h.samples != [] }

  /** Every handle the program can have is so: a new one is, and every sample, count, scan and reset keeps it. */
  lemma {:induction false} HandlesAreTimed(baseline: Stats, x: Explore, h: Handle, t: Tick)
    ensures Timed(FromBaseline(baseline))
    ensures Timed(h) ==> Timed(TickStep(x, h, t).1)
  {
    hide Summary, CostsOf, Unit, NormalizeError, Note, Sync;
  }

  /** At equal generations the key counts min(2, window size) live samples. */
  predicate Agrees(p: (Explore, Handle)) {
    p.0.generation == p.1.generation ==> p.0.liveSamples == Min(2, |p.1.samples|)
  }

  ghost predicate AlwaysAgree(x: Explore, h: Handle) { forall ts: seq<Tick> :: Agrees(TicksAfter(x, h, ts)) }

  lemma {:induction false} InStepStays(x: Explore, h: Handle, ts: seq<Tick>)
    requires InStep(x, h)
    ensures var p := TicksAfter(x, h, ts); InStep(p.0, p.1)
  {
    hide TickStep, InStep;
    if ts != [] {
      InStepStays(x, h, ts[..|ts| - 1]);
      var p := TicksAfter(x, h, ts[..|ts| - 1]);
      TickKeepsInStep(p.0, p.1, ts[|ts| - 1]);
    }
  }

  /** A key that is removed and added again gets new state beside its old handle. The two agree in every run from then on
      if and only if the old window is empty: otherwise they disagree at once, or, after a reset, at the next scan. */
  lemma {:induction false} ReaddedKeyAgrees(c: KeyConfig, createdAt: int, h: Handle)
    requires Timed(h)
    ensures AlwaysAgree(Created(c, createdAt).explore, h) <==> h.samples == []
  {
    var x := Created(c, createdAt).explore;
    if h.samples == [] {
      forall ts: seq<Tick> ensures Agrees(TicksAfter(x, h, ts)) { InStepStays(x, h, ts); }
    } else {
      var none: seq<Tick>, scan: seq<Tick> := [], [ScanAt(createdAt)];
      assert scan[..0] == none;
      assert TicksAfter(x, h, none) == (x, h);
      assert TicksAfter(x, h, scan) == TickStep(x, h, scan[0]);
      var bad := if Agrees(TicksAfter(x, h, none)) then scan else none;
      assert !Agrees(TicksAfter(x, h, bad));
    }
  }

  /** Such a run: statistics are reset, an attempt is recorded, the key is removed and added again, and looked at once. */
  lemma {:induction false} ReaddedKeyCanDisagree(c: KeyConfig, createdAt: int, baseline: Stats, s: Sample, at: int, scan: int)
    ensures var h := RecordSample(Reset(FromBaseline(baseline)), s, at);
            var p := TickStep(Created(c, createdAt).explore, h, ScanAt(scan));
            h.generation > 0 && |h.samples| == 1 && p.0.generation == p.1.generation && p.0.liveSamples == 0 && !Agrees(p)
  {
    hide Summary, CostsOf, NormalizeError;
  }
}
