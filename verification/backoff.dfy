/** How long verdicts keep a key out of use: runs of everything that can happen to the health of one key. */
module Backoff {
  import opened Wrappers
  import opened RuntimeStats
  import opened SampleWindow
  import opened KeyRecords

  datatype Happening =
    | Acquire(now: int)
    | Release
    | Settled(version: int, res: AttemptResult, generation: nat, now: int, later: int)
    | Scanned(history: Explore)
    | Recover
    | Reload(record: KeyRecord)              // a configured record of the key's name
    | Retire

  ghost function Next(r: KeyRecord, e: Happening): KeyRecord {
    match e
    case Acquire(now) => Acquired(r, now)
    case Release => Released(r)
    case Settled(version, res, generation, now, later) => Settle(r, version, res, generation, now, later).0
    case Scanned(history) => r.(explore := history)
    case Recover => Recovered(r)
    case Reload(record) => Shared(r, record)
    case Retire => r.(retired := true)
  }

  /** A key starts clean, with the configured health, and available exactly when that is active. */
  lemma {:induction false} CreatedClean(c: KeyConfig, createdAt: int, now: int)
    requires now >= NEVER
    ensures var r := Created(c, createdAt);
            && r.key == c.key && r.status == c.status && r.reason == c.reason && r.disabledAt == c.disabledAt && r.disabledBy == c.disabledBy
            && r.version == c.version && r.inflight == 0 && r.failures == 0 && r.cooldownLevel == 0 && !r.retired
            && (Available(r, now) <==> c.status == Active)
  {
  }

  ghost predicate Run(rs: seq<KeyRecord>, es: seq<Happening>) {
    |rs| == |es| + 1 && forall i :: 0 <= i < |es| ==> rs[i + 1] == Next(rs[i], es[i])
  }

  /** The verdict of an attempt that saw the key as it is now. */
  ghost predicate Judges(r: KeyRecord, e: Happening, action: Action) {
    e.Settled? && e.res.action == action && !r.retired && e.version == r.version
  }

  /** Gives the key a clean start. */
  ghost predicate Clears(r: KeyRecord, e: Happening) {
    Judges(r, e, AttemptDisable) || e.Recover? || (e.Reload? && e.record.version > r.version)
  }

  /** Cooldown verdicts since the last success or clean start. */
  ghost function Strikes(rs: seq<KeyRecord>, es: seq<Happening>): nat
    requires |es| <= |rs|
  {
    if es == [] then 0
    else
      var n := |es| - 1;
      if Judges(rs[n], es[n], AttemptCooldown) then Strikes(rs, es[..n]) + 1
      else if Judges(rs[n], es[n], AttemptSuccess) || Clears(rs[n], es[n]) then 0
      else Strikes(rs, es[..n])
  }

  lemma {:induction false} StepLevel(r: KeyRecord, e: Happening, k: nat)
    requires r.cooldownLevel == Min(MAX_COOLDOWN_LEVEL, k)
    ensures Next(r, e).cooldownLevel ==
      if Judges(r, e, AttemptCooldown) then Min(MAX_COOLDOWN_LEVEL, k + 1)
      else if Judges(r, e, AttemptSuccess) || Clears(r, e) then 0 else r.cooldownLevel
  {
    hide Note, NormalizeError, ScaledCooldown;
  }

  /** The cooldown level counts the strikes up to ten. */
  lemma {:induction false} LevelCountsStrikes(rs: seq<KeyRecord>, es: seq<Happening>, i: nat)
    requires Run(rs, es) && rs[0].cooldownLevel == 0 && i < |rs|
    ensures rs[i].cooldownLevel == Min(MAX_COOLDOWN_LEVEL, Strikes(rs, es[..i]))
  {
    hide Next, Judges, Clears;
    if i > 0 {
      LevelCountsStrikes(rs, es, i - 1);
      assert es[..i][..i - 1] == es[..i - 1] && es[..i][i - 1] == es[i - 1];
      StepLevel(rs[i - 1], es[i - 1], Strikes(rs, es[..i - 1]));
    }
  }

  /** The backoff of the k-th strike in a row on a base `d`: it doubles with each strike, nine times at most. */
  ghost function Spell(k: nat, d: int): int
    requires k >= 1
  {
    if d <= 0 then d else Min(MAX_DURATION, d * Pow2(Min(k, MAX_COOLDOWN_LEVEL) - 1))
  }

  /** Ends or replaces a backoff. */
  ghost predicate Overrules(r: KeyRecord, e: Happening) { Judges(r, e, AttemptCooldown) || Clears(r, e) }

  lemma {:induction false} StrikeCools(r: KeyRecord, e: Happening, k: nat)
    requires Judges(r, e, AttemptCooldown) && r.cooldownLevel == Min(MAX_COOLDOWN_LEVEL, k)
    requires e.res.cooldown <= MAX_DURATION
    ensures Next(r, e).cooldownUntil == e.later + Spell(k + 1, e.res.cooldown)
    ensures Next(r, e).status == r.status && !Next(r, e).retired
  {
    hide Note, Pow2;
    assert Pow2(0) == 1 by { FirstPower(); }
  }

  lemma {:induction false} FirstPower()
    ensures Pow2(0) == 1
  {
  }

  lemma {:induction false} KeepsCooldown(r: KeyRecord, e: Happening)
    requires !Overrules(r, e)
    ensures Next(r, e).cooldownUntil == r.cooldownUntil
  {
    hide Note, NormalizeError, ScaledCooldown;
  }

  lemma {:induction false} CooldownStays(rs: seq<KeyRecord>, es: seq<Happening>, i: nat, j: nat)
    requires Run(rs, es) && i <= j < |rs| && forall m :: i <= m < j ==> !Overrules(rs[m], es[m])
    ensures rs[j].cooldownUntil == rs[i].cooldownUntil
    decreases j
  {
    hide Next, Overrules;
    if i < j {
      CooldownStays(rs, es, i, j - 1);
      KeepsCooldown(rs[j - 1], es[j - 1]);
    }
  }

  /** A verdict cools: in any run of a key that was created clean, the k-th strike in a row, on a base d and settled at t,
      keeps the key unavailable before t + d*2^(min(k,10)-1), saturated at the longest duration, and from then on it is
      available whenever it is active and not retired, until the next strike or clean start. */
  lemma {:induction false} StrikeKeepsOut(rs: seq<KeyRecord>, es: seq<Happening>, i: nat, j: nat, now: int)
    requires Run(rs, es) && rs[0].cooldownLevel == 0 && i < j < |rs|
    requires Judges(rs[i], es[i], AttemptCooldown) && es[i].res.cooldown <= MAX_DURATION
    requires forall m :: i < m < j ==> !Overrules(rs[m], es[m])
    ensures Strikes(rs, es[..i + 1]) == Strikes(rs, es[..i]) + 1
    ensures Available(rs[j], now) <==>
      rs[j].status == Active && !rs[j].retired && now >= es[i].later + Spell(Strikes(rs, es[..i + 1]), es[i].res.cooldown)
  {
    hide Next, Judges, Clears, Overrules, Spell;
    LevelCountsStrikes(rs, es, i);
    assert es[..i + 1][..i] == es[..i] && es[..i + 1][i] == es[i];
    StrikeCools(rs[i], es[i], Strikes(rs, es[..i]));
    assert rs[i + 1] == Next(rs[i], es[i]);
    CooldownStays(rs, es, i + 1, j);
  }

  /** A success is forgiving: the first strike after it lasts as long as configured. */
  lemma {:induction false} SuccessForgives(rs: seq<KeyRecord>, es: seq<Happening>, i: nat, j: nat, now: int)
    requires Run(rs, es) && rs[0].cooldownLevel == 0 && i < j < |es|
    requires Judges(rs[i], es[i], AttemptSuccess) && Judges(rs[j], es[j], AttemptCooldown) && es[j].res.cooldown <= MAX_DURATION
    requires forall m :: i < m < j ==> !Judges(rs[m], es[m], AttemptCooldown)
    ensures Available(rs[j + 1], now) <==> rs[j + 1].status == Active && now >= es[j].later + es[j].res.cooldown
  {
    NoStrikes(rs, es, i, j);
    FirstPower();
    LevelCountsStrikes(rs, es, j);
    hide Next, Judges, Strikes, Pow2;
    assert rs[j + 1] == Next(rs[j], es[j]);
    StrikeCools(rs[j], es[j], 0);
  }

  lemma {:induction false} NoStrikes(rs: seq<KeyRecord>, es: seq<Happening>, i: nat, j: nat)
    requires |es| <= |rs| && i < j <= |es| && Judges(rs[i], es[i], AttemptSuccess)
    requires forall m :: i < m < j ==> !Judges(rs[m], es[m], AttemptCooldown)
    ensures Strikes(rs, es[..j]) == 0
    decreases j
  {
    assert es[..j][..j - 1] == es[..j - 1] && es[..j][j - 1] == es[j - 1];
    hide Clears;
    if i + 1 < j { NoStrikes(rs, es, i, j - 1); }
  }

  /** An observed error, an interruption and an obsolete attempt leave level and backoff as they are. */
  lemma {:induction false} OthersDoNotCool(r: KeyRecord, e: Happening)
    requires e.Settled? && !Judges(r, e, AttemptCooldown) && !Judges(r, e, AttemptDisable) && !Judges(r, e, AttemptSuccess)
    ensures var r' := Next(r, e);
            r'.cooldownLevel == r.cooldownLevel && r'.cooldownUntil == r.cooldownUntil && r'.status == r.status
            && (Judges(r, e, AttemptObserve) ==> r'.failures == 0)
  {
    hide Note;
  }

  // ---------------------------------------------------------------- probing a failing key

  /** The history after samples were recorded in one statistics generation. */
  ghost function Noted(x: Explore, generation: nat, ns: seq<(int, bool)>): Explore {
    if ns == [] then x
    else var n := |ns| - 1; Note(Noted(x, generation, ns[..n]), generation, ns[n].0, ns[n].1)
  }

  lemma {:induction false} FailuresInARow(x: Explore, generation: nat, ns: seq<(int, bool)>, k: nat)
    requires x.generation == generation && k <= |ns| && (k == |ns| ==> x.failedSamples == 0)
    requires k < |ns| ==> ns[|ns| - k - 1].1
    requires forall i :: |ns| - k <= i < |ns| ==> !ns[i].1
    ensures Noted(x, generation, ns).generation == generation && Noted(x, generation, ns).failedSamples == Min(4, k)
    ensures k > 0 ==> Noted(x, generation, ns).nextExplore == ns[|ns| - 1].0 + Min(FRESHNESS, MINUTE * Pow2(Min(k, 4) - 1))
    ensures k == 0 && ns != [] ==> Noted(x, generation, ns).nextExplore == NEVER
  {
    hide Pow2;
    assert Pow2(0) == 1 && Pow2(1) == 2 && Pow2(2) == 4 && Pow2(3) == 8 by { SmallPowers(); }
    if ns != [] {
      var n := |ns| - 1;
      if k > 0 { FailuresInARow(x, generation, ns[..n], k - 1); } else { SameGeneration(x, generation, ns[..n]); }
    }
  }

  lemma {:induction false} SmallPowers()
    ensures Pow2(0) == 1 && Pow2(1) == 2 && Pow2(2) == 4 && Pow2(3) == 8
  {
    assert Pow2(1) == 2 * Pow2(0);
    assert Pow2(2) == 2 * Pow2(1);
  }

  lemma {:induction false} SameGeneration(x: Explore, generation: nat, ns: seq<(int, bool)>)
    requires x.generation == generation
    ensures Noted(x, generation, ns).generation == generation
  {
    if ns != [] { SameGeneration(x, generation, ns[..|ns| - 1]); }
  }

  /** Backoff of probes: after k failed samples in a row the key is not probed before one minute, doubled with each further
      failure up to five, has passed since the last; a success lifts that. */
  lemma {:induction false} ProbesBackOff(x: Explore, generation: nat, ns: seq<(int, bool)>, k: nat, tick: int)
    requires x.generation == generation && k <= |ns| && ns != [] && (k == |ns| ==> x.failedSamples == 0)
    requires k < |ns| ==> ns[|ns| - k - 1].1
    requires forall i :: |ns| - k <= i < |ns| ==> !ns[i].1
    requires tick >= NEVER
    ensures tick >= Noted(x, generation, ns).nextExplore <==>
      k == 0 || tick >= ns[|ns| - 1].0 + Min(5 * MINUTE, MINUTE * Pow2(Min(k, 4) - 1))
  {
    hide Pow2;
    FailuresInARow(x, generation, ns, k);
  }
}
