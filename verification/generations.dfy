/** Live reconfiguration: router generations come and go while attempts are in flight.
    Key state objects are cells; every generation maps its slots to cells, and a retained key keeps its cell. */
module Generations {
  import opened Wrappers
  import opened RuntimeStats
  import opened SampleWindow
  import opened KeyRecords

  /** An outstanding attempt: the generation and slot that issued it, and the key version it saw. */
  datatype Ticket = Ticket(gen: nat, slot: nat, version: int)

  /** The last generation is the published one; older ones may still serve requests that hold them. */
  datatype World = World(cells: seq<KeyRecord>, gens: seq<seq<nat>>, out: seq<Ticket>)

  datatype Step =
    | Acquire(gen: nat, slot: nat, now: int)
    | Settle(n: nat, res: AttemptResult, generation: nat, now: int, later: int)
    | Release(n: nat)
    | Note(cell: nat, x: Explore)            // scans and samples touch the scheduling history
    | Recover(slot: nat)                     // an administrator enables a published key again
    | Publish(incoming: seq<KeyRecord>)      // reload; an empty list removes the vendor
    | Unpool                                 // reload; the vendor stays configured but has no pool any more

  ghost predicate InRange(w: World) {
    && w.gens != []
    && (forall g, s :: 0 <= g < |w.gens| && 0 <= s < |w.gens[g]| ==> w.gens[g][s] < |w.cells|)
    && (forall n :: 0 <= n < |w.out| ==> w.out[n].gen < |w.gens| && w.out[n].slot < |w.gens[w.out[n].gen]|)
  }

  ghost function Published(w: World): seq<nat>
    requires w.gens != []
  {
    w.gens[|w.gens| - 1]
  }

  ghost function CellOf(w: World, n: nat): nat
    requires InRange(w) && n < |w.out|
  {
    w.gens[w.out[n].gen][w.out[n].slot]
  }

  /** How many of the tickets hold cell `c`. */
  ghost function Holding(gens: seq<seq<nat>>, out: seq<Ticket>, c: nat): nat
    requires forall n :: 0 <= n < |out| ==> out[n].gen < |gens| && out[n].slot < |gens[out[n].gen]|
  {
    if out == [] then 0
    else
      var t := out[|out| - 1];
      Holding(gens, out[..|out| - 1], c) + if gens[t.gen][t.slot] == c then 1 else 0
  }

  ghost predicate Enabled(w: World, s: Step)
    requires InRange(w)
  {
    match s
    case Acquire(g, k, now) => g < |w.gens| && k < |w.gens[g]| && Available(w.cells[w.gens[g][k]], now)
    case Settle(n, _, _, _, _) => n < |w.out|
    case Release(n) => n < |w.out|
    case Note(c, _) => c < |w.cells|
    case Recover(k) => k < |Published(w)|
    case Publish(incoming) =>
      DistinctKeys(incoming) && forall i :: 0 <= i < |incoming| ==> incoming[i].inflight == 0 && !incoming[i].retired
    case Unpool => true
  }

  /** Cell that slot `i` of the new generation uses: the live one of the same name, else its own. */
  ghost function SlotCell(cells: seq<KeyRecord>, gen: seq<nat>, incoming: seq<KeyRecord>, i: nat): (c: nat)
    requires i < |incoming| && forall s :: 0 <= s < |gen| ==> gen[s] < |cells|
    ensures c < |cells| + |incoming|
    ensures c < |cells| ==> c in gen && cells[c].key == incoming[i].key
    ensures c >= |cells| ==> c == |cells| + i && forall s :: 0 <= s < |gen| ==> cells[gen[s]].key != incoming[i].key
  {
    if s :| 0 <= s < |gen| && cells[gen[s]].key == incoming[i].key then gen[s] else |cells| + i
  }

  ghost function Without(out: seq<Ticket>, n: nat): seq<Ticket>
    requires n < |out|
  {
    out[..n] + out[n + 1..]
  }

  ghost function PublishCells(w: World, incoming: seq<KeyRecord>): (cells: seq<KeyRecord>)
    requires InRange(w)
    ensures |cells| == |w.cells| + |incoming|
  {
    seq(|w.cells|, c requires 0 <= c < |w.cells| =>
      if c in Published(w) then AfterShare(w.cells[c], incoming) else w.cells[c]) + incoming
  }

  ghost function Apply(w: World, s: Step): World
    requires InRange(w) && Enabled(w, s)
  {
    match s
    case Acquire(g, k, now) =>
      var c := w.gens[g][k];
      w.(cells := w.cells[c := Acquired(w.cells[c], now)], out := w.out + [Ticket(g, k, w.cells[c].version)])
    case Settle(n, res, generation, now, later) =>
      var c := CellOf(w, n);
      w.(cells := w.cells[c := KeyRecords.Settle(w.cells[c], w.out[n].version, res, generation, now, later).0],
         out := Without(w.out, n))
    case Release(n) =>
      var c := CellOf(w, n);
      w.(cells := w.cells[c := Released(w.cells[c])], out := Without(w.out, n))
    case Note(c, x) => w.(cells := w.cells[c := w.cells[c].(explore := x)])
    case Recover(k) => var c := Published(w)[k]; w.(cells := w.cells[c := Recovered(w.cells[c])])
    case Publish(incoming) =>
      World(PublishCells(w, incoming),
            w.gens + [seq(|incoming|, i requires 0 <= i < |incoming| => SlotCell(w.cells, Published(w), incoming, i))],
            w.out)
    case Unpool => w.(gens := w.gens + [[]])
  }

  /** A step that publishes nothing. */
  predicate Local(s: Step) { !s.Publish? && !s.Unpool? }

  // ---------------------------------------------------------------- the invariant

  /** Every cell's inflight count is its number of outstanding attempts. */
  ghost predicate Balanced(w: World)
    requires InRange(w)
  {
    forall c :: 0 <= c < |w.cells| ==> w.cells[c].inflight == Holding(w.gens, w.out, c)
  }

  /** The published keys are distinct and live. */
  ghost predicate PublishedLive(w: World)
    requires InRange(w)
  {
    && (forall i, j :: 0 <= i < j < |Published(w)| ==> w.cells[Published(w)[i]].key != w.cells[Published(w)[j]].key)
    && (forall i :: 0 <= i < |Published(w)| ==> !w.cells[Published(w)[i]].retired)
  }

  /** A cell that some generation still reaches without being retired or published: it can be acquired all the same. */
  ghost predicate Stray(w: World, c: nat)
    requires InRange(w)
  {
    && c < |w.cells| && !w.cells[c].retired && c !in Published(w)
    && exists g, s :: 0 <= g < |w.gens| && 0 <= s < |w.gens[g]| && w.gens[g][s] == c
  }

  /** Every cell of any generation that is not retired is published. */
  ghost predicate Contained(w: World)
    requires InRange(w)
  {
    forall c :: 0 <= c < |w.cells| ==> !Stray(w, c)
  }

  /** No attempt has seen a version newer than its key's. */
  ghost predicate TicketsNotAhead(w: World)
    requires InRange(w)
  {
    forall n :: 0 <= n < |w.out| ==> w.out[n].version <= w.cells[CellOf(w, n)].version
  }

  ghost predicate Inv(w: World) {
    InRange(w) && Balanced(w) && PublishedLive(w) && TicketsNotAhead(w)
  }

  lemma {:induction false} HoldingMore(gens: seq<seq<nat>>, g: seq<nat>, out: seq<Ticket>, c: nat)
    requires forall n :: 0 <= n < |out| ==> out[n].gen < |gens| && out[n].slot < |gens[out[n].gen]|
    ensures Holding(gens + [g], out, c) == Holding(gens, out, c)
  {
    if out != [] { HoldingMore(gens, g, out[..|out| - 1], c); }
  }

  lemma {:induction false} HoldingWithout(gens: seq<seq<nat>>, out: seq<Ticket>, n: nat, c: nat)
    requires forall k :: 0 <= k < |out| ==> out[k].gen < |gens| && out[k].slot < |gens[out[k].gen]|
    requires n < |out|
    ensures Holding(gens, Without(out, n), c) == Holding(gens, out, c) - if gens[out[n].gen][out[n].slot] == c then 1 else 0
  {
    var m := |out| - 1;
    if n == m {
      assert Without(out, n) == out[..m];
    } else {
      HoldingWithout(gens, out[..m], n, c);
      var less := Without(out, n);
      assert less[..|less| - 1] == Without(out[..m], n);
      assert less[|less| - 1] == out[m];
    }
  }

  lemma {:induction false} HoldingUnknown(gens: seq<seq<nat>>, out: seq<Ticket>, c: nat, bound: nat)
    requires forall n :: 0 <= n < |out| ==> out[n].gen < |gens| && out[n].slot < |gens[out[n].gen]|
    requires forall g, s :: 0 <= g < |gens| && 0 <= s < |gens[g]| ==> gens[g][s] < bound
    requires c >= bound
    ensures Holding(gens, out, c) == 0
  {
    if out != [] { HoldingUnknown(gens, out[..|out| - 1], c, bound); }
  }

  /** The release clamp never fires: an outstanding attempt's key has something in flight. */
  lemma {:induction false} ClampNeverFires(w: World, n: nat)
    requires Inv(w) && n < |w.out|
    ensures w.cells[CellOf(w, n)].inflight >= 1
    ensures Released(w.cells[CellOf(w, n)]).inflight == w.cells[CellOf(w, n)].inflight - 1
  {
    HoldingWithout(w.gens, w.out, n, CellOf(w, n));
  }

  /** What a step other than publishing may change in a cell. */
  ghost predicate SameIdentity(a: KeyRecord, b: KeyRecord) {
    a.key == b.key && a.version == b.version && a.retired == b.retired
  }

  lemma {:induction false} LocalStepKeepsIdentity(w: World, s: Step)
    requires InRange(w) && Enabled(w, s) && Local(s)
    ensures var w' := Apply(w, s);
            && w'.gens == w.gens && |w'.cells| == |w.cells|
            && forall c :: 0 <= c < |w.cells| ==> SameIdentity(w.cells[c], w'.cells[c])
  {
    hide NormalizeError, ScaledCooldown, Without, KeyRecords.Note;
    if s.Settle? { PersistOnlyCurrentDisable(w.cells[CellOf(w, s.n)], w.out[s.n].version, s.res, s.generation, s.now, s.later); }
  }

  lemma {:induction false} IdentityKeepsLive(w: World, w': World)
    requires InRange(w) && PublishedLive(w) && w'.gens == w.gens && |w'.cells| == |w.cells| && InRange(w')
    requires forall c :: 0 <= c < |w.cells| ==> SameIdentity(w.cells[c], w'.cells[c])
    ensures PublishedLive(w')
  {
    assert Published(w') == Published(w);
    forall i | 0 <= i < |Published(w)|
      ensures SameIdentity(w.cells[Published(w)[i]], w'.cells[Published(w)[i]])
    {
    }
  }

  /** Tickets of a step other than publishing are old ones, except the one a new attempt gets. */
  lemma {:induction false} LocalStepTickets(w: World, s: Step, n: nat)
    requires InRange(w) && Enabled(w, s) && Local(s) && n < |Apply(w, s).out|
    ensures (exists m :: 0 <= m < |w.out| && Apply(w, s).out[n] == w.out[m])
      || (s.Acquire? && Apply(w, s).out[n] == Ticket(s.gen, s.slot, w.cells[w.gens[s.gen][s.slot]].version))
  {
    hide KeyRecords.Settle, Acquired, Released, Recovered, Available, DistinctKeys, PublishCells, SlotCell;
    match s {
      case Acquire(_, _, _) => assert n < |w.out| ==> Apply(w, s).out[n] == w.out[n];
      case Settle(k, _, _, _, _) => assert Apply(w, s).out[n] == w.out[if n < k then n else n + 1];
      case Release(k) => assert Apply(w, s).out[n] == w.out[if n < k then n else n + 1];
      case Note(_, _) => assert Apply(w, s).out[n] == w.out[n];
      case Recover(_) => assert Apply(w, s).out[n] == w.out[n];
    }
  }

  lemma {:induction false} LocalStepKeepsRest(w: World, s: Step)
    requires Inv(w) && Enabled(w, s) && Local(s)
    ensures InRange(Apply(w, s)) && PublishedLive(Apply(w, s)) && TicketsNotAhead(Apply(w, s))
  {
    LocalStepKeepsIdentity(w, s);
    var w' := Apply(w, s);
    forall n | 0 <= n < |w'.out|
      ensures w'.out[n].gen < |w.gens| && w'.out[n].slot < |w.gens[w'.out[n].gen]|
      ensures w'.out[n].version <= w'.cells[w.gens[w'.out[n].gen][w'.out[n].slot]].version
    {
      LocalStepTickets(w, s, n);
      hide Apply, Balanced, PublishedLive;
      assert SameIdentity(w.cells[w.gens[w'.out[n].gen][w'.out[n].slot]], w'.cells[w.gens[w'.out[n].gen][w'.out[n].slot]]);
    }
    hide Apply, Balanced, PublishedLive;
    assert InRange(w');
    IdentityKeepsLive(w, w');
  }

  lemma {:induction false} SettleInflight(r: KeyRecord, version: int, res: AttemptResult, generation: nat, now: int, later: int)
    ensures KeyRecords.Settle(r, version, res, generation, now, later).0.inflight == Released(r).inflight
  {
    hide NormalizeError, ScaledCooldown, KeyRecords.Note;
  }

  lemma {:induction false} LeaveBalanced(w: World, n: nat, cells: seq<KeyRecord>)
    requires Inv(w) && n < |w.out| && |cells| == |w.cells|
    requires forall c :: 0 <= c < |cells| && c != CellOf(w, n) ==> cells[c] == w.cells[c]
    requires cells[CellOf(w, n)].inflight == Released(w.cells[CellOf(w, n)]).inflight
    requires InRange(World(cells, w.gens, Without(w.out, n)))
    ensures Balanced(World(cells, w.gens, Without(w.out, n)))
  {
    ClampNeverFires(w, n);
    hide PublishedLive, TicketsNotAhead, Holding, Without;
    forall c | 0 <= c < |cells| ensures cells[c].inflight == Holding(w.gens, Without(w.out, n), c) {
      HoldingWithout(w.gens, w.out, n, c);
    }
  }

  lemma {:induction false} EnterBalanced(w: World, g: nat, k: nat, now: int, version: int)
    requires Inv(w) && g < |w.gens| && k < |w.gens[g]|
    requires InRange(World(w.cells[w.gens[g][k] := Acquired(w.cells[w.gens[g][k]], now)], w.gens, w.out + [Ticket(g, k, version)]))
    ensures Balanced(World(w.cells[w.gens[g][k] := Acquired(w.cells[w.gens[g][k]], now)], w.gens, w.out + [Ticket(g, k, version)]))
  {
    hide PublishedLive, TicketsNotAhead;
    var out := w.out + [Ticket(g, k, version)];
    assert out[..|out| - 1] == w.out;
  }

  lemma {:induction false} LocalStepBalanced(w: World, s: Step)
    requires Inv(w) && Enabled(w, s) && Local(s) && InRange(Apply(w, s))
    ensures Balanced(Apply(w, s))
  {
    var w' := Apply(w, s);
    hide KeyRecords.Settle, PublishedLive, TicketsNotAhead, Released, Acquired, Without, Holding;
    match s {
      case Acquire(g, k, now) =>
        EnterBalanced(w, g, k, now, w.cells[w.gens[g][k]].version);
      case Settle(n, res, generation, now, later) =>
        SettleInflight(w.cells[CellOf(w, n)], w.out[n].version, res, generation, now, later);
        LeaveBalanced(w, n, w'.cells);
      case Release(n) =>
        LeaveBalanced(w, n, w'.cells);
      case Note(c, x) =>
      case Recover(k) =>
    }
  }

  lemma {:induction false} PublishKeeps(w: World, incoming: seq<KeyRecord>)
    requires Inv(w) && Enabled(w, Publish(incoming))
    ensures InRange(Apply(w, Publish(incoming)))
    ensures Balanced(Apply(w, Publish(incoming))) && TicketsNotAhead(Apply(w, Publish(incoming)))
  {
    var w' := Apply(w, Publish(incoming));
    hide PublishedLive, Merged;
    forall c | 0 <= c < |w.cells|
      ensures w'.cells[c].inflight == w.cells[c].inflight && w'.cells[c].version >= w.cells[c].version
    {
      MergedKeeps(w.cells[c], incoming);
    }
    assert forall g :: 0 <= g < |w.gens| ==> w'.gens[g] == w.gens[g];
    assert InRange(w');
    forall c | 0 <= c < |w'.cells| ensures w'.cells[c].inflight == Holding(w'.gens, w'.out, c) {
      HoldingMore(w.gens, w'.gens[|w.gens|], w.out, c);
      if c >= |w.cells| { HoldingUnknown(w.gens, w.out, c, |w.cells|); }
    }
    forall n | 0 <= n < |w'.out| ensures w'.out[n].version <= w'.cells[CellOf(w', n)].version {
      assert CellOf(w', n) == CellOf(w, n);
    }
  }

  /** What slot `i` of a freshly published generation is: the published live key of the record's name, updated by that
      record alone, or a new key that is the record itself. */
  lemma {:induction false} PublishedSlot(w: World, incoming: seq<KeyRecord>, i: nat)
    requires Inv(w) && Enabled(w, Publish(incoming)) && i < |incoming|
    ensures var w' := Apply(w, Publish(incoming)); var c := Published(w')[i];
            && c < |w'.cells| && w'.cells[c].key == incoming[i].key && !w'.cells[c].retired
            && (forall s :: 0 <= s < |Published(w)| && w.cells[Published(w)[s]].key == incoming[i].key ==>
                  c == Published(w)[s] && TakesOver(w.cells[c], w'.cells[c], incoming[i]))
            && ((forall s :: 0 <= s < |Published(w)| ==> w.cells[Published(w)[s]].key != incoming[i].key) ==>
                  c == |w.cells| + i && w'.cells[c] == incoming[i])
  {
    hide Merged, Balanced, TicketsNotAhead, Holding, DistinctKeys;
    var c := SlotCell(w.cells, Published(w), incoming, i);
    if c < |w.cells| {
      assert HasKey(incoming, w.cells[c].key);
      MergedTakesOver(w.cells[c], incoming, i);
    }
  }

  /** A reload hands its newer records to the live keys: a published key that is named is available afterwards exactly when
      the record is active, if that is newer, and exactly when it was before otherwise. */
  lemma {:induction false} ReloadDecidesAvailability(w: World, incoming: seq<KeyRecord>, s: nat, i: nat, now: int)
    requires Inv(w) && Enabled(w, Publish(incoming)) && s < |Published(w)| && i < |incoming| && now >= NEVER
    requires incoming[i].key == w.cells[Published(w)[s]].key
    ensures var c, w' := Published(w)[s], Apply(w, Publish(incoming));
            && c in Published(w')
            && (Available(w'.cells[c], now) <==>
                if incoming[i].version > w.cells[c].version then incoming[i].status == Active else Available(w.cells[c], now))
  {
    hide Apply, Balanced, TicketsNotAhead, Holding, DistinctKeys;
    PublishedSlot(w, incoming, i);
    PublishedLength(w, incoming);
  }

  lemma {:induction false} PublishedLength(w: World, incoming: seq<KeyRecord>)
    requires InRange(w) && Enabled(w, Publish(incoming))
    ensures var w' := Apply(w, Publish(incoming)); w'.gens != [] && |Published(w')| == |incoming|
  {
  }

  lemma {:induction false} PublishLive(w: World, incoming: seq<KeyRecord>)
    requires Inv(w) && Enabled(w, Publish(incoming)) && InRange(Apply(w, Publish(incoming)))
    ensures PublishedLive(Apply(w, Publish(incoming)))
  {
    var w' := Apply(w, Publish(incoming));
    forall i | 0 <= i < |incoming|
      ensures w'.cells[Published(w')[i]].key == incoming[i].key && !w'.cells[Published(w')[i]].retired
    {
      PublishedSlot(w, incoming, i);
    }
  }

  lemma {:induction false} UnpoolKeepsInv(w: World)
    requires Inv(w)
    ensures Inv(Apply(w, Unpool))
  {
    var w' := Apply(w, Unpool);
    assert forall g :: 0 <= g < |w.gens| ==> w'.gens[g] == w.gens[g];
    forall c | 0 <= c < |w'.cells| ensures w'.cells[c].inflight == Holding(w'.gens, w'.out, c) { HoldingMore(w.gens, [], w.out, c); }
    assert forall n :: 0 <= n < |w'.out| ==> CellOf(w', n) == CellOf(w, n);
  }

  lemma {:induction false} StepKeepsInv(w: World, s: Step)
    requires Inv(w) && Enabled(w, s)
    ensures Inv(Apply(w, s))
  {
    hide Apply, Balanced, PublishedLive, TicketsNotAhead;
    match s {
      case Publish(incoming) =>
        PublishKeeps(w, incoming);
        PublishLive(w, incoming);
      case Unpool => UnpoolKeepsInv(w);
      case _ =>
        LocalStepKeepsRest(w, s);
        LocalStepBalanced(w, s);
    }
  }

  // ---------------------------------------------------------------- keys that outlive their publication

  /** Which cells are stray after a step: those that were, and, when a pool is dropped, the ones that were published. */
  lemma {:induction false} StrayAfterStep(w: World, s: Step, c: nat)
    requires Inv(w) && Enabled(w, s) && InRange(Apply(w, s))
    ensures Stray(Apply(w, s), c) <==> Stray(w, c) || (s.Unpool? && c in Published(w))
  {
    hide Balanced, TicketsNotAhead, Holding;
    if s.Publish? { StrayAfterPublish(w, s.incoming, c); }
    else if s.Unpool? { hide Apply; StrayAfterUnpool(w, c); }
    else {
      LocalStepKeepsIdentity(w, s);
      hide Apply, PublishedLive, Enabled;
      if c < |w.cells| { assert SameIdentity(w.cells[c], Apply(w, s).cells[c]); }
    }
  }

  lemma {:induction false} StrayAfterUnpool(w: World, c: nat)
    requires Inv(w)
    ensures Stray(Apply(w, Unpool), c) <==> Stray(w, c) || c in Published(w)
  {
    hide Balanced, TicketsNotAhead, Holding;
    var w' := Apply(w, Unpool);
    assert forall g :: 0 <= g < |w.gens| ==> w'.gens[g] == w.gens[g];
    if c in Published(w) {
      var s :| 0 <= s < |Published(w)| && Published(w)[s] == c;
      assert w'.gens[|w.gens| - 1][s] == c;
    }
    if Stray(w', c) {
      var g, s :| 0 <= g < |w'.gens| && 0 <= s < |w'.gens[g]| && w'.gens[g][s] == c;
      assert w.gens[g][s] == c;
    }
    if Stray(w, c) {
      var g, s :| 0 <= g < |w.gens| && 0 <= s < |w.gens[g]| && w.gens[g][s] == c;
      assert w'.gens[g][s] == c;
    }
  }

  lemma {:induction false} StrayAfterPublish(w: World, incoming: seq<KeyRecord>, c: nat)
    requires Inv(w) && Enabled(w, Publish(incoming)) && InRange(Apply(w, Publish(incoming)))
    ensures Stray(Apply(w, Publish(incoming)), c) <==> Stray(w, c)
  {
    hide Balanced, TicketsNotAhead, Holding, Merged, DistinctKeys;
    var w' := Apply(w, Publish(incoming));
    assert forall g :: 0 <= g < |w.gens| ==> w'.gens[g] == w.gens[g];
    if Stray(w, c) {
      var g, s :| 0 <= g < |w.gens| && 0 <= s < |w.gens[g]| && w.gens[g][s] == c;
      assert w'.gens[g][s] == c && w'.cells[c] == w.cells[c];
      forall i | 0 <= i < |incoming| ensures Published(w')[i] != c { assert SlotCell(w.cells, Published(w), incoming, i) != c; }
    }
    if Stray(w', c) {
      var g, s :| 0 <= g < |w'.gens| && 0 <= s < |w'.gens[g]| && w'.gens[g][s] == c;
      assert g < |w.gens|;
      assert w.gens[g][s] == c;
      if c in Published(w) { RetainedIsPublished(w, incoming, c); }
    }
  }

  /** A published cell that survives a publication without being retired is in the new generation. */
  lemma {:induction false} RetainedIsPublished(w: World, incoming: seq<KeyRecord>, c: nat)
    requires Inv(w) && Enabled(w, Publish(incoming)) && c in Published(w) && c < |w.cells|
    requires !Apply(w, Publish(incoming)).cells[c].retired
    ensures c in Published(Apply(w, Publish(incoming)))
  {
    hide Merged, Balanced, TicketsNotAhead, Holding;
    var w' := Apply(w, Publish(incoming));
    var i :| 0 <= i < |incoming| && incoming[i].key == w.cells[c].key;
    assert SlotCell(w.cells, Published(w), incoming, i) == c;
    assert Published(w')[i] == c;
  }

  // ---------------------------------------------------------------- runs

  const EMPTY := World([], [[]], [])

  /** The worlds a run goes through, each step enabled where it is taken. */
  ghost predicate Run(ws: seq<World>, steps: seq<Step>) {
    && |ws| == |steps| + 1
    && (forall i :: 0 <= i < |steps| ==> InRange(ws[i]) && Enabled(ws[i], steps[i]) && ws[i + 1] == Apply(ws[i], steps[i]))
  }

  lemma {:induction false} RunKeepsInv(ws: seq<World>, steps: seq<Step>, i: nat)
    requires Run(ws, steps) && Inv(ws[0]) && i < |ws|
    ensures Inv(ws[i])
  {
    hide Inv, Apply, InRange, Enabled;
    if i > 0 {
      RunKeepsInv(ws, steps, i - 1);
      StepKeepsInv(ws[i - 1], steps[i - 1]);
    }
  }

  /** Conservation over every run from the empty world: each shared key's inflight equals its outstanding attempts, the
      release clamp never fires, and no published key is retired. */
  lemma {:induction false} InflightIsConserved(ws: seq<World>, steps: seq<Step>, i: nat)
    requires Run(ws, steps) && ws[0] == EMPTY && i < |ws|
    ensures Inv(ws[i])
    ensures forall c :: 0 <= c < |ws[i].cells| ==> ws[i].cells[c].inflight == Holding(ws[i].gens, ws[i].out, c)
    ensures forall n :: 0 <= n < |ws[i].out| ==> ws[i].cells[CellOf(ws[i], n)].inflight >= 1
    ensures forall s :: 0 <= s < |Published(ws[i])| ==> !ws[i].cells[Published(ws[i])[s]].retired
  {
    EmptyHolds();
    RunKeepsInv(ws, steps, i);
    hide Run, Holding;
    forall n | 0 <= n < |ws[i].out| ensures ws[i].cells[CellOf(ws[i], n)].inflight >= 1 { ClampNeverFires(ws[i], n); }
  }

  /** Cell `c` was published when an earlier step of the run took the pool of the vendor away. */
  ghost predicate Dropped(ws: seq<World>, steps: seq<Step>, i: nat, c: nat) {
    exists j :: 0 <= j < i && j < |ws| && j < |steps| && steps[j].Unpool? && ws[j].gens != [] && c in Published(ws[j])
  }

  /** Exactly the keys that were published when a pool was dropped stay reachable, not retired and unpublished, from then
      on: no settlement, recovery or later publication of the same vendor retires them. */
  lemma {:induction false} StrayIff(ws: seq<World>, steps: seq<Step>, i: nat, c: nat)
    requires Run(ws, steps) && ws[0] == EMPTY && i < |ws|
    ensures InRange(ws[i]) && (Stray(ws[i], c) <==> Dropped(ws, steps, i, c))
  {
    EmptyHolds();
    RunKeepsInv(ws, steps, i);
    if i > 0 {
      StrayIff(ws, steps, i - 1, c);
      RunKeepsInv(ws, steps, i - 1);
      hide Inv, Stray, Apply, InRange, Enabled;
      InvIsInRange(ws[i]);
      StrayAfterStep(ws[i - 1], steps[i - 1], c);
      assert Dropped(ws, steps, i, c) <==> Dropped(ws, steps, i - 1, c) || (steps[i - 1].Unpool? && c in Published(ws[i - 1])) by {
        DroppedNext(ws, steps, i - 1, c);
      }
    }
  }

  lemma {:induction false} InvIsInRange(w: World)
    requires Inv(w)
    ensures InRange(w) && w.gens != []
  {
  }

  lemma {:induction false} DroppedNext(ws: seq<World>, steps: seq<Step>, i: nat, c: nat)
    requires i < |ws| && i < |steps| && ws[i].gens != []
    ensures Dropped(ws, steps, i + 1, c) <==> Dropped(ws, steps, i, c) || (steps[i].Unpool? && c in Published(ws[i]))
  {
  }

  /** No step of the run so far took the pool away from a vendor that still published keys. */
  ghost predicate NoDrop(ws: seq<World>, steps: seq<Step>, i: nat) {
    forall j :: 0 <= j < i && j < |ws| && j < |steps| && steps[j].Unpool? ==> ws[j].gens != [] && Published(ws[j]) == []
  }

  lemma {:induction false} DropExists(ws: seq<World>, steps: seq<Step>, i: nat) returns (c: nat)
    requires Run(ws, steps) && ws[0] == EMPTY && i < |ws| && !NoDrop(ws, steps, i)
    ensures Dropped(ws, steps, i, c)
  {
    hide Apply, Enabled, Inv;
    var j :| 0 <= j < i && j < |ws| && j < |steps| && steps[j].Unpool? && !(ws[j].gens != [] && Published(ws[j]) == []);
    EmptyHolds();
    RunKeepsInv(ws, steps, j);
    c := Published(ws[j])[0];
  }

  /** The keys the published generation does not name cannot be acquired through any generation. */
  ghost predicate UnpublishedUnavailable(w: World)
    requires InRange(w)
  {
    forall g, s, now ::
      0 <= g < |w.gens| && 0 <= s < |w.gens[g]|
      && (forall p :: 0 <= p < |Published(w)| ==> w.cells[Published(w)[p]].key != w.cells[w.gens[g][s]].key)
      ==> !Available(w.cells[w.gens[g][s]], now)
  }

  lemma {:induction false} ContainedIsUnavailable(w: World)
    requires InRange(w) && Contained(w)
    ensures UnpublishedUnavailable(w)
  {
    forall g, s | 0 <= g < |w.gens| && 0 <= s < |w.gens[g]|
      ensures w.cells[w.gens[g][s]].retired || w.gens[g][s] in Published(w)
    {
      assert !Stray(w, w.gens[g][s]);
    }
  }

  /** Every unretired key of every generation is published if and only if no pool was dropped that still published keys.
      While that is so, a key the published generation does not name cannot be acquired through any generation. */
  lemma {:induction false} ContainedIff(ws: seq<World>, steps: seq<Step>, i: nat)
    requires Run(ws, steps) && ws[0] == EMPTY && i < |ws|
    ensures InRange(ws[i]) && (Contained(ws[i]) <==> NoDrop(ws, steps, i))
    ensures NoDrop(ws, steps, i) ==> UnpublishedUnavailable(ws[i])
  {
    hide Run, Stray, InRange, Apply, Enabled;
    forall c: nat ensures InRange(ws[i]) && (Stray(ws[i], c) <==> Dropped(ws, steps, i, c)) { StrayIff(ws, steps, i, c); }
    assert InRange(ws[i]) by { StrayIff(ws, steps, i, 0); }
    if NoDrop(ws, steps, i) {
      ContainedIsUnavailable(ws[i]);
    } else {
      var c := DropExists(ws, steps, i);
      StrayIsCell(ws[i], c);
    }
  }

  lemma {:induction false} StrayIsCell(w: World, c: nat)
    requires InRange(w) && Stray(w, c)
    ensures !Contained(w)
  {
  }

  /** An unpublished key can be acquired through a slot of some generation exactly when its pool was dropped with it and
      it is healthy. */
  lemma {:induction false} UnpublishedAcquiredIff(ws: seq<World>, steps: seq<Step>, i: nat, g: nat, s: nat, now: int)
    requires Run(ws, steps) && ws[0] == EMPTY && i < |ws| && InRange(ws[i])
    requires g < |ws[i].gens| && s < |ws[i].gens[g]| && ws[i].gens[g][s] !in Published(ws[i])
    ensures Enabled(ws[i], Acquire(g, s, now)) <==>
      Dropped(ws, steps, i, ws[i].gens[g][s]) && Available(ws[i].cells[ws[i].gens[g][s]], now)
  {
    hide Run, Dropped;
    StrayIff(ws, steps, i, ws[i].gens[g][s]);
  }

  /** What the new configuration says of the vendor's id. */
  datatype Entry = NoEntry | WithoutPool | WithPool(keys: seq<KeyRecord>)

  /** The publication of one vendor: pools on both sides are shared, a vendor that is gone is retired, and an entry without
      a pool is passed over by both loops. */
  function Reload(e: Entry): Step {
    match e
    case NoEntry => Publish([])
    case WithoutPool => Unpool
    case WithPool(keys) => Publish(keys)
  }

  /** A published key is retired exactly when its vendor is gone or has a pool that does not name it, and published again
      exactly when the vendor has a pool that does: under an entry without a pool it is neither. */
  lemma {:induction false} ReloadDecides(w: World, e: Entry, c: nat)
    requires Inv(w) && Enabled(w, Reload(e)) && c in Published(w) && InRange(Apply(w, Reload(e)))
    ensures var w' := Apply(w, Reload(e));
            && c < |w.cells| <= |w'.cells|
            && (w'.cells[c].retired <==> e.NoEntry? || (e.WithPool? && !HasKey(e.keys, w.cells[c].key)))
            && (c in Published(w') <==> e.WithPool? && HasKey(e.keys, w.cells[c].key))
  {
    hide Balanced, TicketsNotAhead, Holding, Merged, DistinctKeys;
    var s :| 0 <= s < |Published(w)| && Published(w)[s] == c;
    if !e.WithoutPool? {
      var keys := if e.WithPool? then e.keys else [];
      MergedKeeps(w.cells[c], keys);
      if HasKey(keys, w.cells[c].key) { RetainedIsPublished(w, keys, c); }
      var w' := Apply(w, Publish(keys));
      forall i | 0 <= i < |keys| && Published(w')[i] == c ensures HasKey(keys, w.cells[c].key) {
        assert SlotCell(w.cells, Published(w), keys, i) == c;
      }
    }
  }

  /** What happens at such a step. A published key that was available is no longer published and can still be acquired
      through the router that requests hold; a disable by that attempt is authorised to be persisted; and when the vendor
      gets a pool again that names it, a second state of the same key is published beside it. */
  lemma {:induction false} DroppedKeyIsAcquired(w: World, k: nat, now: int, incoming: seq<KeyRecord>, i: nat,
                                                res: AttemptResult, generation: nat, later: int)
    requires Inv(w) && k < |Published(w)| && Available(w.cells[Published(w)[k]], now)
    requires Enabled(w, Publish(incoming)) && i < |incoming| && incoming[i].key == w.cells[Published(w)[k]].key
    requires res.action == AttemptDisable
    ensures var c, w1 := Published(w)[k], Apply(w, Unpool);
            && Inv(w1) && c !in Published(w1) && Enabled(w1, Acquire(|w.gens| - 1, k, now))
            && var w2 := Apply(w1, Acquire(|w.gens| - 1, k, now));
            && Inv(w2) && |w2.out| > 0 && CellOf(w2, |w2.out| - 1) == c
            && KeyRecords.Settle(w2.cells[c], w2.out[|w2.out| - 1].version, res, generation, now, later).1
            && Enabled(w2, Publish(incoming))
            && var w3 := Apply(w2, Publish(incoming));
            && Inv(w3) && Published(w3)[i] != c && w3.cells[Published(w3)[i]] == incoming[i]
            && w3.cells[c].key == incoming[i].key && !w3.cells[c].retired
  {
    var g, c, w1 := |w.gens| - 1, Published(w)[k], Apply(w, Unpool);
    UnpoolKeepsInv(w);
    assert w1.gens[g] == w.gens[g];
    StepKeepsInv(w1, Acquire(g, k, now));
    var w2 := Apply(w1, Acquire(g, k, now));
    assert Published(w2) == [];
    PersistOnlyCurrentDisable(w2.cells[c], w2.out[|w2.out| - 1].version, res, generation, now, later);
    StepKeepsInv(w2, Publish(incoming));
    hide Balanced, TicketsNotAhead, Holding, Merged, KeyRecords.Settle, DistinctKeys;
    PublishedSlot(w2, incoming, i);
  }

  lemma {:induction false} EmptyHolds()
    ensures Inv(EMPTY)
  {
  }

  // ---------------------------------------------------------------- versions and health

  lemma {:induction false} StepKeepsStale(w: World, s: Step, c: nat, version: int)
    requires InRange(w) && Enabled(w, s) && c < |w.cells|
    requires w.cells[c].retired || w.cells[c].version > version
    ensures c < |Apply(w, s).cells|
    ensures Apply(w, s).cells[c].retired || Apply(w, s).cells[c].version > version
    ensures Apply(w, s).cells[c].version >= w.cells[c].version
  {
    hide Merged, KeyRecords.Settle, Acquired, Released;
    if s.Publish? {
      MergedKeeps(w.cells[c], s.incoming);
    } else if !s.Unpool? {
      LocalStepKeepsIdentity(w, s);
      hide Apply;
      assert SameIdentity(w.cells[c], Apply(w, s).cells[c]);
    }
  }

  /** No ABA: once a key has moved past a version, or is retired, an attempt of that version stays obsolete in
      every later world; whenever it settles, it only gives its slot back and may persist nothing. */
  lemma {:induction false} ObsoleteForever(ws: seq<World>, steps: seq<Step>, i: nat, j: nat, c: nat, version: int)
    requires Run(ws, steps) && i <= j < |ws| && InRange(ws[i]) && c < |ws[i].cells|
    requires ws[i].cells[c].retired || ws[i].cells[c].version > version
    ensures c < |ws[j].cells| && ws[j].cells[c].version >= ws[i].cells[c].version
    ensures ws[j].cells[c].retired || ws[j].cells[c].version > version
    ensures forall res, generation, now, later ::
      KeyRecords.Settle(ws[j].cells[c], version, res, generation, now, later) == (Released(ws[j].cells[c]), false)
    decreases j
  {
    hide Apply, InRange, Enabled;
    if i < j {
      ObsoleteForever(ws, steps, i, j - 1, c, version);
      StepKeepsStale(ws[j - 1], steps[j - 1], c, version);
    }
    hide Judged, KeyRecords.Note, Run;
  }

  /** Every publication of the run names the key, if at all, with a version not above the live one, and nobody recovers it. */
  ghost predicate NeverOverridden(ws: seq<World>, steps: seq<Step>, c: nat) {
    && (forall i :: 0 <= i < |steps| && i < |ws| ==> !Recovers(ws[i], steps[i], c))
    && forall i, k :: 0 <= i < |steps| && i < |ws| && c < |ws[i].cells| && steps[i].Publish? && 0 <= k < |steps[i].incoming| ==>
      (steps[i].incoming[k].key == ws[i].cells[c].key ==> steps[i].incoming[k].version <= ws[i].cells[c].version)
  }

  ghost predicate Recovers(w: World, s: Step, c: nat) {
    w.gens != [] && s.Recover? && s.slot < |Published(w)| && Published(w)[s.slot] == c
  }

  lemma {:induction false} StepKeepsDisabled(w: World, s: Step, c: nat)
    requires InRange(w) && Enabled(w, s) && c < |w.cells| && w.cells[c].status != Active && !Recovers(w, s, c)
    requires s.Publish? ==> forall k :: 0 <= k < |s.incoming| && s.incoming[k].key == w.cells[c].key ==> s.incoming[k].version <= w.cells[c].version
    ensures c < |Apply(w, s).cells| && Apply(w, s).cells[c].status != Active
  {
    hide Merged, Judged, KeyRecords.Note;
    if s.Publish? { MergedKeeps(w.cells[c], s.incoming); }
    if s.Settle? {
      hide KeyRecords.Settle;
      PersistOnlyCurrentDisable(w.cells[CellOf(w, s.n)], w.out[s.n].version, s.res, s.generation, s.now, s.later);
    }
  }

  /** A key disabled in memory stays disabled through any settlements and any reloads of records whose version
      is not above its own, until it is recovered. */
  lemma {:induction false} DisabledStays(ws: seq<World>, steps: seq<Step>, i: nat, j: nat, c: nat)
    requires Run(ws, steps) && i <= j < |ws| && c < |ws[i].cells| && NeverOverridden(ws, steps, c)
    requires ws[i].cells[c].status != Active
    ensures c < |ws[j].cells| && ws[j].cells[c].status != Active
    decreases j
  {
    hide Apply, InRange, Enabled;
    if i < j {
      DisabledStays(ws, steps, i, j - 1, c);
      StepKeepsDisabled(ws[j - 1], steps[j - 1], c);
    }
  }

  /** Recovery makes a key available at once and is no new version: it makes no attempt obsolete, so one acquired before it can disable the key again, and
      may then be persisted. */
  lemma {:induction false} RecoveryIsNotAVersion(r: KeyRecord, version: int, res: AttemptResult, generation: nat, now: int, later: int)
    ensures Current(Recovered(r), version) <==> Current(r, version)
    ensures !r.retired && later >= NEVER ==> Available(Recovered(r), later)
    ensures res.action == AttemptDisable && Current(r, version) ==>
      var after := KeyRecords.Settle(Recovered(r), version, res, generation, now, later);
      after.1 && after.0.status == DisabledAuto && Recovered(r).status == Active
  {
    hide KeyRecords.Note;
  }
}
