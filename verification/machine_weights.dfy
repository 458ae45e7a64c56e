/** Smooth weighted round-robin in 64-bit arithmetic: what the pool computes, and when that is the exact schedule. */
module MachineWeights {
  import opened SmoothRoundRobin
  import opened ChildOrder

  /** The total as the summing loop leaves it. */
  ghost function MachineTotal(w: seq<int>, cand: seq<nat>): int
    requires InRange(cand, |w|)
  {
    Wrap64(TotalWeight(w, cand))
  }

  /** The raising loop: one candidate after the other. */
  ghost function MachineRaised(cur: seq<int>, w: seq<int>, cand: seq<nat>): (r: seq<int>)
    requires |cur| == |w| && InRange(cand, |w|)
    ensures |r| == |cur|
  {
    if cand == [] then cur
    else
      var up, i := MachineRaised(cur, w, cand[..|cand| - 1]), cand[|cand| - 1];
      up[i := Wrap64(up[i] + w[i])]
  }

  /** A total that is not positive makes the pool fall back to the first candidate. */
  ghost function MachinePick(cur: seq<int>, w: seq<int>, cand: seq<nat>): (best: nat)
    requires |cur| == |w| && cand != [] && InRange(cand, |w|)
    ensures best in cand
  {
    if MachineTotal(w, cand) <= 0 then cand[0] else Largest(MachineRaised(cur, w, cand), cand)
  }

  ghost function MachineNext(cur: seq<int>, w: seq<int>, cand: seq<nat>): (r: seq<int>)
    requires |cur| == |w| && cand != [] && InRange(cand, |w|)
    ensures |r| == |cur|
  {
    if MachineTotal(w, cand) <= 0 then cur
    else
      var b := MachinePick(cur, w, cand);
      var up := MachineRaised(cur, w, cand);
      up[b := Wrap64(up[b] - MachineTotal(w, cand))]
  }

  ghost function MachineRun(w: seq<int>, cand: seq<nat>, t: nat): (cur: seq<int>)
    requires Schedulable(w, cand)
    ensures |cur| == |w|
  {
    if t == 0 then seq(|w|, i => 0) else MachineNext(MachineRun(w, cand, t - 1), w, cand)
  }

  lemma {:induction false} WrapSum(x: int, y: int)
    ensures Wrap64(Wrap64(x) + y) == Wrap64(x + y)
  {
  }

  lemma {:induction false} WrapLowers(x: int)
    requires x >= 0
    ensures Wrap64(x) <= x
  {
  }

  lemma {:induction false} WrapIsIdentity(x: int)
    requires -TWO_63 <= x < TWO_63
    ensures Wrap64(x) == x
  {
  }

  // ---------------------------------------------------------------- when the arithmetic is exact

  /** No value of one pick leaves the 64 bits. */
  ghost predicate FitsNow(cur: seq<int>, w: seq<int>, cand: seq<nat>)
    requires Schedulable(w, cand) && |cur| == |w|
  {
    && TotalWeight(w, cand) < TWO_63
    && (forall i :: 0 <= i < |w| ==> -TWO_63 <= Raised(cur, w, cand)[i] < TWO_63)
    && (forall i :: 0 <= i < |w| ==> -TWO_63 <= Next(cur, w, cand)[i])
  }

  lemma {:induction false} NextIs(start: seq<int>, w: seq<int>, cand: seq<nat>)
    requires |start| == |w| && cand != [] && InRange(cand, |w|) && MachineTotal(w, cand) > 0
    ensures var up := MachineRaised(start, w, cand);
            var b := Largest(up, cand);
            && MachinePick(start, w, cand) == b
            && MachineNext(start, w, cand) == up[b := Wrap64(up[b] - MachineTotal(w, cand))]
  {
    hide Largest, TotalWeight, Wrap64, MachineTotal, MachineRaised;
  }

  lemma {:induction false} RaisedAt(cur: seq<int>, w: seq<int>, cand: seq<nat>, i: nat)
    requires |cur| == |w| && InRange(cand, |w|) && Distinct(cand) && i < |w|
    ensures MachineRaised(cur, w, cand)[i] == if i in cand then Wrap64(cur[i] + w[i]) else cur[i]
  {
    hide Wrap64;
    if cand != [] {
      var m := |cand| - 1;
      RaisedAt(cur, w, cand[..m], i);
      assert cand == cand[..m] + [cand[m]];
    }
  }

  lemma {:induction false} RaisedFits(cur: seq<int>, w: seq<int>, cand: seq<nat>)
    requires |cur| == |w| && InRange(cand, |w|) && Distinct(cand)
    requires forall i :: 0 <= i < |w| ==> -TWO_63 <= Raised(cur, w, cand)[i] < TWO_63
    ensures MachineRaised(cur, w, cand) == Raised(cur, w, cand)
  {
    hide Wrap64, MachineRaised, InRange, Distinct;
    var up := Raised(cur, w, cand);
    forall i | 0 <= i < |w| ensures MachineRaised(cur, w, cand)[i] == up[i] {
      RaisedAt(cur, w, cand, i);
      WrapIsIdentity(up[i]);
    }
  }

  lemma {:induction false} NextFromParts(cur: seq<int>, w: seq<int>, cand: seq<nat>, up: seq<int>, b: nat, total: int)
    requires |cur| == |w| == |up| && cand != [] && InRange(cand, |w|) && total >= 1
    requires TotalWeight(w, cand) == total == MachineTotal(w, cand)
    requires Raised(cur, w, cand) == up == MachineRaised(cur, w, cand) && b == Largest(up, cand)
    ensures Pick(cur, w, cand) == b == MachinePick(cur, w, cand)
    ensures Next(cur, w, cand) == up[b := up[b] - total] && MachineNext(cur, w, cand) == up[b := Wrap64(up[b] - total)]
  {
    hide TotalWeight, Largest, Wrap64, MachineTotal, MachineRaised, Raised, InRange;
  }

  lemma {:induction false} FitsIsExact(cur: seq<int>, w: seq<int>, cand: seq<nat>)
    requires Schedulable(w, cand) && |cur| == |w| && FitsNow(cur, w, cand)
    ensures MachinePick(cur, w, cand) == Pick(cur, w, cand) && MachineNext(cur, w, cand) == Next(cur, w, cand)
  {
    var total := TotalWeightNat(w, cand);
    var up := Raised(cur, w, cand);
    var b := Largest(up, cand);
    RaisedFits(cur, w, cand);
    WrapIsIdentity(total);
    assert MachineTotal(w, cand) == total;
    assert up[b] < TWO_63 && -TWO_63 <= Next(cur, w, cand)[b];
    hide *;
    NextFromParts(cur, w, cand, up, b, total);
    WrapIsIdentity(up[b] - total);
  }

  lemma {:induction false} RunNext(w: seq<int>, cand: seq<nat>, t: nat)
    requires Schedulable(w, cand)
    ensures Run(w, cand, t + 1) == Next(Run(w, cand, t), w, cand)
    ensures MachineRun(w, cand, t + 1) == MachineNext(MachineRun(w, cand, t), w, cand)
  {
    hide Next, MachineNext, Schedulable;
  }

  lemma {:induction false} BothStartAtZero(w: seq<int>, cand: seq<nat>)
    requires Schedulable(w, cand)
    ensures MachineRun(w, cand, 0) == Run(w, cand, 0)
  {
  }

  lemma {:induction false} ExactWhileItFits(w: seq<int>, cand: seq<nat>, t: nat)
    requires Schedulable(w, cand) && forall s: nat :: s < t ==> FitsNow(Run(w, cand, s), w, cand)
    ensures MachineRun(w, cand, t) == Run(w, cand, t)
  {
    hide *;
    if t == 0 {
      BothStartAtZero(w, cand);
    } else {
      ExactWhileItFits(w, cand, t - 1);
      FitsIsExact(Run(w, cand, t - 1), w, cand);
      RunNext(w, cand, t - 1);
    }
  }

  /** With n entries and total weight W the machine's schedule is the exact one as long as n*W stays below 2^63. */
  lemma {:induction false} SmallWeightsAreExact(w: seq<int>, cand: seq<nat>, t: nat)
    requires Schedulable(w, cand) && |w| * TotalWeight(w, cand) < TWO_63
    ensures MachineRun(w, cand, t) == Run(w, cand, t)
    ensures MachinePick(MachineRun(w, cand, t), w, cand) == Pick(Run(w, cand, t), w, cand)
  {
    forall s: nat | s <= t ensures FitsNow(Run(w, cand, s), w, cand) { FitsAlways(w, cand, s); }
    hide FitsNow, Schedulable, Pick, MachinePick, TotalWeight;
    ExactWhileItFits(w, cand, t);
    FitsIsExact(Run(w, cand, t), w, cand);
  }

  lemma {:induction false} FitsAlways(w: seq<int>, cand: seq<nat>, t: nat)
    requires Schedulable(w, cand) && |w| * TotalWeight(w, cand) < TWO_63
    ensures FitsNow(Run(w, cand, t), w, cand)
  {
    hide TotalWeight, Pick, Next;
    var total := TotalWeightNat(w, cand);
    assert cand[0] < |w|;
    MulMonotone(1, |w|, total);
    forall i | 0 <= i < |w|
      ensures -TWO_63 <= Raised(Run(w, cand, t), w, cand)[i] < TWO_63 && -TWO_63 <= Next(Run(w, cand, t), w, cand)[i]
    {
      StaysWithin(w, cand, t, i);
      NeverFarBehind(w, cand, t + 1, i);
    }
  }

  /** A total weight that does not fit is never scheduled right, whatever the candidates: the first pick already leaves
      another state. */
  lemma {:induction false} TotalMustFit(w: seq<int>, cand: seq<nat>)
    requires Schedulable(w, cand) && TotalWeight(w, cand) >= TWO_63
    requires forall i :: 0 <= i < |w| ==> w[i] < TWO_63
    ensures MachineRun(w, cand, 1) != Run(w, cand, 1)
  {
    var zero := Run(w, cand, 0);
    var b := Pick(zero, w, cand);
    hide TotalWeight, Largest, Wrap64;
    assert Run(w, cand, 1) == Next(zero, w, cand) && MachineRun(w, cand, 1) == MachineNext(zero, w, cand);
    assert MachineRun(w, cand, 0) == zero;
    assert Next(zero, w, cand)[b] == w[b] - TotalWeight(w, cand) < 0;
    if MachineTotal(w, cand) > 0 {
      var total := TotalWeight(w, cand);
      TotalBeyond(total);
      assert Next(zero, w, cand)[b] < -TWO_63;
      var up, m := MachineRaised(zero, w, cand), MachinePick(zero, w, cand);
      RaisedAt(zero, w, cand, b);
      WrapRange(zero[b] + w[b]);
      WrapRange(up[m] - MachineTotal(w, cand));
      assert MachineNext(zero, w, cand)[b] >= -TWO_63;
    }
  }

  lemma {:induction false} WrapRange(x: int)
    ensures -TWO_63 <= Wrap64(x) < TWO_63
  {
  }

  lemma {:induction false} TotalBeyond(total: int)
    requires total >= TWO_63 && Wrap64(total) > 0
    ensures total > 2 * TWO_63
  {
  }

  /** A total that wraps to nothing or below: every pick is the first candidate, and no weight ever moves. */
  lemma {:induction false} WrappedTotalSticks(w: seq<int>, cand: seq<nat>, t: nat)
    requires Schedulable(w, cand) && MachineTotal(w, cand) <= 0
    ensures MachineRun(w, cand, t) == Run(w, cand, 0)
    ensures MachinePick(MachineRun(w, cand, t), w, cand) == cand[0]
  {
    hide TotalWeight;
    if t > 0 { WrappedTotalSticks(w, cand, t - 1); }
  }

  // ---------------------------------------------------------------- two children

  /** Two children, in the order in which the pool holds them. */
  ghost function Pair(a: int, b: int): seq<int> { [a, b] }

  const BOTH: seq<nat> := [0, 1]

  ghost function Opposite(x: int): seq<int> { [x, -x] }

  lemma {:induction false} PairTotal(a: int, b: int)
    requires a >= 1 && b >= 1
    ensures Schedulable(Pair(a, b), BOTH) && TotalWeight(Pair(a, b), BOTH) == a + b
  {
    assert BOTH[..1] == [0] && [0][..0] == [];
    assert TotalWeight(Pair(a, b), [0]) == a;
  }

  lemma {:induction false} PairNext(a: int, b: int, x: int)
    requires a >= 1 && b >= 1
    ensures Schedulable(Pair(a, b), BOTH) && Raised(Opposite(x), Pair(a, b), BOTH) == [x + a, b - x]
    ensures Next(Opposite(x), Pair(a, b), BOTH) == if 2 * (x + a) >= a + b then Opposite(x - b) else Opposite(x + a)
  {
    PairTotal(a, b);
    hide TotalWeight;
    var up := Raised(Opposite(x), Pair(a, b), BOTH);
    assert up == [x + a, b - x];
    LargestOfTwo(up);
  }

  lemma {:induction false} LargestOfTwo(up: seq<int>)
    requires |up| == 2
    ensures Largest(up, BOTH) == if up[1] > up[0] then 1 else 0
  {
    assert BOTH[..1] == [0];
    assert Largest(up, [0]) == 0;
  }

  /** The current weights of two children are opposite and stay within half the total. */
  lemma {:induction false} PairRun(a: int, b: int, t: nat) returns (x: int)
    requires a >= 1 && b >= 1
    ensures Schedulable(Pair(a, b), BOTH) && Run(Pair(a, b), BOTH, t) == Opposite(x) && -(a + b) <= 2 * x < a + b
  {
    PairTotal(a, b);
    if t == 0 {
      x := 0;
      assert Run(Pair(a, b), BOTH, 0) == Opposite(0);
    } else {
      hide Next;
      x := PairRun(a, b, t - 1);
      PairNext(a, b, x);
      x := if 2 * (x + a) >= a + b then x - b else x + a;
    }
  }

  lemma {:induction false} PairFits(a: int, b: int, t: nat)
    requires a >= 1 && b >= 1 && a + b - 1 + (a + b) / 2 < TWO_63
    ensures Schedulable(Pair(a, b), BOTH) && FitsNow(Run(Pair(a, b), BOTH, t), Pair(a, b), BOTH)
  {
    PairTotal(a, b);
    var x := PairRun(a, b, t);
    var y := PairRun(a, b, t + 1);
    PairNext(a, b, x);
    hide TotalWeight, Next;
    assert Next(Run(Pair(a, b), BOTH, t), Pair(a, b), BOTH) == Opposite(y);
  }

  lemma {:induction false} PairIsExact(a: int, b: int, t: nat)
    requires a >= 1 && b >= 1 && a + b - 1 + (a + b) / 2 < TWO_63
    ensures Schedulable(Pair(a, b), BOTH) && MachineRun(Pair(a, b), BOTH, t) == Run(Pair(a, b), BOTH, t)
  {
    PairTotal(a, b);
    forall s: nat | s < t ensures FitsNow(Run(Pair(a, b), BOTH, s), Pair(a, b), BOTH) { PairFits(a, b, s); }
    hide FitsNow, Schedulable, TotalWeight;
    ExactWhileItFits(Pair(a, b), BOTH, t);
  }

  /** Every pick of any two children with the weights `a` and `b` is the exact one. */
  ghost predicate AlwaysExact(a: int, b: int)
    requires a >= 1 && b >= 1
  {
    Schedulable(Pair(a, b), BOTH) && forall t: nat :: MachineRun(Pair(a, b), BOTH, t) == Run(Pair(a, b), BOTH, t)
  }

  /** While the heavy child is picked again and again, the light one catches up. */
  lemma {:induction false} LightWaits(half: int, t: nat)
    requires half >= 2 && t < half
    ensures Schedulable(Pair(1, 2 * half - 1), BOTH) && Run(Pair(1, 2 * half - 1), BOTH, t) == Opposite(t)
  {
    PairTotal(1, 2 * half - 1);
    if t == 0 {
      assert Run(Pair(1, 2 * half - 1), BOTH, 0) == Opposite(0);
    } else {
      LightWaits(half, t - 1);
      PairNext(1, 2 * half - 1, t - 1);
    }
  }

  /** Half of the smallest total that two children can take past the 64 bits. */
  const HALF: int := 0x2AAA_AAAA_AAAA_AAAB

  lemma {:induction false} HeavyExactly()
    ensures Schedulable(Pair(1, 2 * HALF - 1), BOTH)
    ensures Run(Pair(1, 2 * HALF - 1), BOTH, HALF) == Opposite(-HALF)
    ensures Run(Pair(1, 2 * HALF - 1), BOTH, HALF + 1)[0] == 1 - HALF
  {
    PairTotal(1, 2 * HALF - 1);
    LightWaits(HALF, HALF - 1);
    PairNext(1, 2 * HALF - 1, HALF - 1);
    PairNext(1, 2 * HALF - 1, -HALF);
    hide TotalWeight, Next;
  }

  lemma {:induction false} HeavyWraps()
    ensures Wrap64(2 * HALF) == 2 * HALF && Wrap64(1 - 3 * HALF) == 1 - 3 * HALF
    ensures Wrap64(1 - HALF) == 1 - HALF && Wrap64(3 * HALF - 1) == -TWO_63
  {
  }

  lemma {:induction false} HeavyByMachine()
    ensures Schedulable(Pair(1, 2 * HALF - 1), BOTH) && MachineNext(Opposite(-HALF), Pair(1, 2 * HALF - 1), BOTH)[0] == 1 - 3 * HALF
  {
    hide Wrap64, TotalWeight, Largest, MachineRaised;
    var w, cur := Pair(1, 2 * HALF - 1), Opposite(-HALF);
    PairTotal(1, 2 * HALF - 1);
    HeavyWraps();
    assert MachineTotal(w, BOTH) == 2 * HALF;
    RaisedAt(cur, w, BOTH, 0);
    RaisedAt(cur, w, BOTH, 1);
    assert |w| == |cur| == 2 && w[0] == 1 && w[1] == 2 * HALF - 1 && cur[0] == -HALF && cur[1] == HALF;
    assert BOTH[0] in BOTH && BOTH[1] in BOTH && BOTH == [0, 1];
    assert Schedulable(w, BOTH) && InRange(BOTH, |w|);
    hide *;
    LargestOfTwo(MachineRaised(cur, w, BOTH));
    NextIs(cur, w, BOTH);
  }

  lemma {:induction false} HeavyOverflows()
    ensures !AlwaysExact(1, 2 * HALF - 1)
  {
    HeavyExactly();
    HeavyByMachine();
    hide TotalWeight, MachineNext, Next;
    var t: nat := HALF;
    if MachineRun(Pair(1, 2 * HALF - 1), BOTH, t) == Run(Pair(1, 2 * HALF - 1), BOTH, t) {
      assert MachineRun(Pair(1, 2 * HALF - 1), BOTH, t + 1) != Run(Pair(1, 2 * HALF - 1), BOTH, t + 1);
    }
  }

  /** The exact range of two weights: all pairs whose total is up to `bound` are scheduled exactly for ever if and only if
      a total of `bound` and another half of it, less one, stays below 2^63. */
  lemma {:induction false} TwoChildrenExactIff(bound: int)
    requires bound >= 2
    ensures (forall a, b :: a >= 1 && b >= 1 && a + b <= bound ==> AlwaysExact(a, b)) <==> bound - 1 + bound / 2 < TWO_63
  {
    if bound - 1 + bound / 2 < TWO_63 {
      forall a, b | a >= 1 && b >= 1 && a + b <= bound ensures AlwaysExact(a, b) {
        PairTotal(a, b);
        forall t: nat ensures MachineRun(Pair(a, b), BOTH, t) == Run(Pair(a, b), BOTH, t) { PairIsExact(a, b, t); }
      }
    } else {
      HeavyOverflows();
      assert 1 + (2 * HALF - 1) <= bound;
    }
  }

  const HUGE: int := 0x4000_0000_0000_0000

  lemma {:induction false} HugeTotal()
    ensures Schedulable(Pair(HUGE, HUGE), BOTH) && TotalWeight(Pair(HUGE, HUGE), BOTH) == TWO_63 && MachineTotal(Pair(HUGE, HUGE), BOTH) <= 0
  {
    PairTotal(HUGE, HUGE);
    hide TotalWeight, Schedulable;
  }

  /** Two children of weight 2^62: the total wraps below nothing, so the first one is picked every time, though each is
      owed one pick in any two. */
  lemma {:induction false} SecondChildStarves(t: nat)
    ensures var w := Pair(HUGE, HUGE);
            && Schedulable(w, BOTH) && TotalWeight(w, BOTH) == TWO_63
            && MachinePick(MachineRun(w, BOTH, t), w, BOTH) == 0
            && Picked(w, BOTH, TotalWeightNat(w, BOTH) + t, 1) - Picked(w, BOTH, t, 1) == w[1]
  {
    HugeTotal();
    assert 1 in BOTH by { assert BOTH[1] == 1; }
    hide *;
    WrappedTotalSticks(Pair(HUGE, HUGE), BOTH, t);
    ExactDistribution(Pair(HUGE, HUGE), BOTH, t, 1);
  }
}
