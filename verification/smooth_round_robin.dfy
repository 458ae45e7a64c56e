/** Smooth weighted round-robin, as the aggregate pool schedules its child vendors.
    One pick raises the current weight of every candidate by its own weight, takes the first
    largest one, and charges the total weight to it.  The functions below are that schedule on unbounded
    integers; the lemmas say what it distributes.  `MachineWeights` says when the pool's 64-bit one is the same. */
module SmoothRoundRobin {

  ghost function Sum(xs: seq<int>): int {
    if xs == [] then 0 else Sum(xs[..|xs| - 1]) + xs[|xs| - 1]
  }

  /** Every candidate is an index below `n`. */
  ghost predicate InRange(cand: seq<nat>, n: nat) {
    forall k :: 0 <= k < |cand| ==> cand[k] < n
  }

  /** Total weight of the candidates. */
  ghost function TotalWeight(w: seq<int>, cand: seq<nat>): int
    requires InRange(cand, |w|)
  {
    if cand == [] then 0 else TotalWeight(w, cand[..|cand| - 1]) + w[cand[|cand| - 1]]
  }

  ghost predicate Distinct(cand: seq<nat>) {
    forall a, b :: 0 <= a < b < |cand| ==> cand[a] != cand[b]
  }

  /** Candidates are distinct entry indexes, and every entry has a positive weight. */
  ghost predicate Schedulable(w: seq<int>, cand: seq<nat>) {
    && cand != []
    && InRange(cand, |w|)
    && Distinct(cand)
    && (forall i :: 0 <= i < |w| ==> w[i] >= 1)
  }

  /** Every candidate's current weight raised by its weight. */
  ghost function Raised(cur: seq<int>, w: seq<int>, cand: seq<nat>): (r: seq<int>)
    requires |cur| == |w|
  {
    seq(|cur|, i requires 0 <= i < |cur| => if i in cand then cur[i] + w[i] else cur[i])
  }

  /** Position `k` holds the first candidate, in candidate order, with the largest value. */
  ghost predicate FirstLargestAt(xs: seq<int>, cand: seq<nat>, k: nat)
    requires InRange(cand, |xs|)
  {
    && k < |cand|
    && (forall j :: 0 <= j < |cand| ==> xs[cand[j]] <= xs[cand[k]])
    && (forall j :: 0 <= j < k ==> xs[cand[j]] < xs[cand[k]])
  }

  /** The first largest candidate; `LargestIsFirst` says so. */
  ghost function Largest(xs: seq<int>, cand: seq<nat>): (best: nat)
    requires cand != [] && InRange(cand, |xs|)
    ensures best in cand && best < |xs|
  {
    var last := cand[|cand| - 1];
    if |cand| == 1 then last
    else
      var best := Largest(xs, cand[..|cand| - 1]);
      if xs[last] > xs[best] then last else best
  }

  lemma {:induction false} LargestIsFirst(xs: seq<int>, cand: seq<nat>) returns (k: nat)
    requires cand != [] && InRange(cand, |xs|)
    ensures FirstLargestAt(xs, cand, k) && cand[k] == Largest(xs, cand)
  {
    var m := |cand| - 1;
    if m == 0 { return 0; }
    var rest := cand[..m];
    k := LargestIsFirst(xs, rest);
    assert forall j :: 0 <= j < m ==> cand[j] == rest[j];
    if xs[cand[m]] > xs[cand[k]] { k := m; }
  }

  ghost function Pick(cur: seq<int>, w: seq<int>, cand: seq<nat>): (best: nat)
    requires |cur| == |w| && cand != [] && InRange(cand, |w|)
    ensures best in cand
  {
    Largest(Raised(cur, w, cand), cand)
  }

  ghost function Next(cur: seq<int>, w: seq<int>, cand: seq<nat>): (r: seq<int>)
    requires |cur| == |w| && cand != [] && InRange(cand, |w|)
    ensures |r| == |cur|
  {
    var b := Pick(cur, w, cand);
    var up := Raised(cur, w, cand);
    up[b := up[b] - TotalWeight(w, cand)]
  }

  /** One pick, entry by entry. */
  lemma {:induction false} NextAt(cur: seq<int>, w: seq<int>, cand: seq<nat>, i: nat)
    requires |cur| == |w| && cand != [] && InRange(cand, |w|) && i < |w|
    ensures Next(cur, w, cand)[i] ==
            cur[i] + (if i in cand then w[i] else 0)
            - (if i == Pick(cur, w, cand) then TotalWeight(w, cand) else 0)
  {
  }

  // ---------------------------------------------------------------- sums

  lemma {:induction false} SumUpdate(xs: seq<int>, i: nat, v: int)
    requires i < |xs|
    ensures Sum(xs[i := v]) == Sum(xs) - xs[i] + v
  {
    var n := |xs| - 1;
    if i == n {
      assert xs[i := v][..n] == xs[..n];
    } else {
      assert xs[i := v][..n] == xs[..n][i := v];
      SumUpdate(xs[..n], i, v);
    }
  }

  lemma {:induction false} SumRaised(cur: seq<int>, w: seq<int>, cand: seq<nat>)
    requires |cur| == |w| && Distinct(cand) && InRange(cand, |w|)
    ensures Sum(Raised(cur, w, cand)) == Sum(cur) + TotalWeight(w, cand)
  {
    if cand == [] {
      assert Raised(cur, w, cand) == cur;
    } else {
      var m := |cand| - 1;
      var rest, last := cand[..m], cand[m];
      SumRaised(cur, w, rest);
      var up := Raised(cur, w, rest);
      assert last !in rest;
      assert cand == rest + [last];
      assert Raised(cur, w, cand) == up[last := up[last] + w[last]];
      SumUpdate(up, last, up[last] + w[last]);
    }
  }

  /** Conservation: one pick, over any candidate set, keeps the sum of all current weights. */
  lemma {:induction false} SumNext(cur: seq<int>, w: seq<int>, cand: seq<nat>)
    requires |cur| == |w| && Schedulable(w, cand)
    ensures Sum(Next(cur, w, cand)) == Sum(cur)
  {
    hide Sum, TotalWeight, Largest;
    SumRaised(cur, w, cand);
    var b := Pick(cur, w, cand);
    var up := Raised(cur, w, cand);
    SumUpdate(up, b, up[b] - TotalWeight(w, cand));
  }

  lemma {:induction false} SumZeros(xs: seq<int>)
    requires forall i :: 0 <= i < |xs| ==> xs[i] == 0
    ensures Sum(xs) == 0
  {
    if xs != [] { SumZeros(xs[..|xs| - 1]); }
  }

  /** A sum of non-positive numbers that is not negative has only zeros; mirrored for positive ones. */
  lemma {:induction false} SumNonNegative(xs: seq<int>)
    requires forall i :: 0 <= i < |xs| ==> xs[i] >= 0
    ensures Sum(xs) >= 0
    ensures Sum(xs) == 0 ==> forall i :: 0 <= i < |xs| ==> xs[i] == 0
  {
    if xs != [] { SumNonNegative(xs[..|xs| - 1]); }
  }

  lemma {:induction false} SumNonPositive(xs: seq<int>)
    requires forall i :: 0 <= i < |xs| ==> xs[i] <= 0
    ensures Sum(xs) <= 0
  {
    if xs != [] { SumNonPositive(xs[..|xs| - 1]); }
  }

  lemma {:induction false} TotalWeightPositive(w: seq<int>, cand: seq<nat>)
    requires InRange(cand, |w|)
    requires forall i :: 0 <= i < |w| ==> w[i] >= 1
    ensures TotalWeight(w, cand) >= |cand|
  {
    if cand != [] { TotalWeightPositive(w, cand[..|cand| - 1]); }
  }

  ghost function TotalWeightNat(w: seq<int>, cand: seq<nat>): (n: nat)
    requires Schedulable(w, cand)
    ensures n == TotalWeight(w, cand) && n >= 1
  {
    TotalWeightPositive(w, cand);
    TotalWeight(w, cand)
  }

  // ---------------------------------------------------------------- changing candidate sets

  ghost function RunAny(w: seq<int>, cands: seq<seq<nat>>): (cur: seq<int>)
    requires forall k :: 0 <= k < |cands| ==> Schedulable(w, cands[k])
    ensures |cur| == |w|
  {
    if cands == [] then seq(|w|, i => 0)
    else
      var last := cands[|cands| - 1];
      assert Schedulable(w, last);
      Next(RunAny(w, cands[..|cands| - 1]), w, last)
  }

  /** Whatever candidate set each pick had, the current weights always sum to zero. */
  lemma {:induction false} CurrentWeightsSumToZero(w: seq<int>, cands: seq<seq<nat>>)
    requires forall k :: 0 <= k < |cands| ==> Schedulable(w, cands[k])
    ensures Sum(RunAny(w, cands)) == 0
  {
    if cands == [] {
      SumZeros(RunAny(w, cands));
    } else {
      CurrentWeightsSumToZero(w, cands[..|cands| - 1]);
      SumNext(RunAny(w, cands[..|cands| - 1]), w, cands[|cands| - 1]);
    }
  }

  // ---------------------------------------------------------------- a fixed candidate set

  /** Current weights after `t` picks from the all-zero state. */
  ghost function Run(w: seq<int>, cand: seq<nat>, t: nat): (cur: seq<int>)
    requires Schedulable(w, cand)
    ensures |cur| == |w|
  {
    if t == 0 then seq(|w|, i => 0) else Next(Run(w, cand, t - 1), w, cand)
  }

  /** How often entry `i` was picked in the first `t` picks. */
  ghost function Picked(w: seq<int>, cand: seq<nat>, t: nat, i: nat): nat
    requires Schedulable(w, cand)
  {
    if t == 0 then 0
    else Picked(w, cand, t - 1, i) + if Pick(Run(w, cand, t - 1), w, cand) == i then 1 else 0
  }

  lemma {:induction false} MulStep(t: nat, a: int, n: int, total: int)
    ensures (t + 1) * a == t * a + a
    ensures total * (n + 1) == total * n + total
  {
  }

  /** The current weight is exactly what the entry was owed minus what it was served. */
  lemma {:induction false} ClosedForm(w: seq<int>, cand: seq<nat>, t: nat, i: nat)
    requires Schedulable(w, cand) && i < |w|
    ensures Run(w, cand, t)[i] ==
            if i in cand then t * w[i] - TotalWeight(w, cand) * Picked(w, cand, t, i) else 0
  {
    hide Next, Pick, TotalWeight;
    if t > 0 {
      ClosedForm(w, cand, t - 1, i);
      NextAt(Run(w, cand, t - 1), w, cand, i);
      MulStep(t - 1, w[i], Picked(w, cand, t - 1, i), TotalWeight(w, cand));
    }
  }

  lemma {:induction false} SumRun(w: seq<int>, cand: seq<nat>, t: nat)
    requires Schedulable(w, cand)
    ensures Sum(Run(w, cand, t)) == 0
  {
    if t == 0 {
      SumZeros(Run(w, cand, 0));
    } else {
      SumRun(w, cand, t - 1);
      SumNext(Run(w, cand, t - 1), w, cand);
    }
  }

  /** The picked entry always has a positive raised weight, because the raised weights sum to the total. */
  lemma {:induction false} PickedIsPositive(cur: seq<int>, w: seq<int>, cand: seq<nat>)
    requires |cur| == |w| && Schedulable(w, cand) && Sum(cur) == 0
    requires forall i :: 0 <= i < |w| && i !in cand ==> cur[i] == 0
    ensures Raised(cur, w, cand)[Pick(cur, w, cand)] > 0
  {
    var up := Raised(cur, w, cand);
    var b := Pick(cur, w, cand);
    SumRaised(cur, w, cand);
    TotalWeightPositive(w, cand);
    if up[b] <= 0 {
      var k := LargestIsFirst(up, cand);
      forall i | 0 <= i < |up| ensures up[i] <= 0 {
        if i in cand {
          var j :| 0 <= j < |cand| && cand[j] == i;
          assert up[cand[j]] <= up[b];
        }
      }
      SumNonPositive(up);
      assert false;
    }
  }

  lemma {:induction false} NeverFarBehind(w: seq<int>, cand: seq<nat>, t: nat, i: nat)
    requires Schedulable(w, cand) && i < |w|
    ensures Run(w, cand, t)[i] > -TotalWeight(w, cand)
  {
    TotalWeightPositive(w, cand);
    if t > 0 {
      var cur := Run(w, cand, t - 1);
      NeverFarBehind(w, cand, t - 1, i);
      SumRun(w, cand, t - 1);
      forall j | 0 <= j < |w| && j !in cand ensures cur[j] == 0 {
        ClosedForm(w, cand, t - 1, j);
      }
      PickedIsPositive(cur, w, cand);
    }
  }

  /** In every prefix of `t` picks no entry runs a whole turn ahead of its share: W*n < t*w + W. */
  lemma {:induction false} PrefixBound(w: seq<int>, cand: seq<nat>, t: nat, i: nat)
    requires Schedulable(w, cand) && i in cand
    ensures TotalWeight(w, cand) * Picked(w, cand, t, i) < t * w[i] + TotalWeight(w, cand)
  {
    ClosedForm(w, cand, t, i);
    NeverFarBehind(w, cand, t, i);
  }

  lemma {:induction false} SumAtLeast(xs: seq<int>, low: int)
    requires low >= 0 && forall i :: 0 <= i < |xs| ==> xs[i] >= -low
    ensures Sum(xs) >= -(|xs| * low)
    ensures forall i :: 0 <= i < |xs| ==> Sum(xs) >= xs[i] - (|xs| - 1) * low
  {
    if xs != [] {
      SumAtLeast(xs[..|xs| - 1], low);
      assert |xs| * low == (|xs| - 1) * low + low;
      if |xs| > 1 { assert (|xs| - 1) * low == (|xs| - 2) * low + low; }
    }
  }

  /** No weight outgrows the machine: with n entries and total weight W every value on the way stays above -W and does
      not exceed n*W. */
  lemma {:induction false} StaysWithin(w: seq<int>, cand: seq<nat>, t: nat, i: nat)
    requires Schedulable(w, cand) && i < |w|
    ensures var total := TotalWeight(w, cand);
            -total < Run(w, cand, t)[i] && Raised(Run(w, cand, t), w, cand)[i] <= |w| * total
  {
    var total := TotalWeightNat(w, cand);
    var cur := Run(w, cand, t);
    if i in cand { WeightBelowTotal(w, cand, i); }
    hide Sum, Run, TotalWeight;
    forall j | 0 <= j < |w| ensures cur[j] >= -(total - 1) { NeverFarBehind(w, cand, t, j); }
    SumRun(w, cand, t);
    SumAtLeast(cur, total - 1);
    OneLess(|w|, total);
  }

  lemma {:induction false} OneLess(n: nat, total: int)
    requires n >= 1 && total >= 1
    ensures (n - 1) * (total - 1) + total <= n * total
  {
    assert (n - 1) * (total - 1) == n * total - total - (n - 1);
  }

  lemma {:induction false} WeightBelowTotal(w: seq<int>, cand: seq<nat>, i: nat)
    requires InRange(cand, |w|) && i in cand && forall k :: 0 <= k < |w| ==> w[k] >= 1
    ensures w[i] <= TotalWeight(w, cand)
  {
    var n := |cand| - 1;
    TotalWeightPositive(w, cand[..n]);
    if cand[n] != i {
      assert i in cand[..n];
      WeightBelowTotal(w, cand[..n], i);
    }
  }

  lemma {:induction false} MultipleAboveMinusOne(total: int, k: int)
    requires total > 0 && total * k > -total
    ensures k >= 0 && total * k >= 0
  {
    if k <= -1 { assert false; }
  }

  lemma {:induction false} CancelTotal(total: int, k: int)
    requires total > 0 && total * k == 0
    ensures k == 0
  {
  }

  /** After W picks, each entry is owed a whole multiple of W. */
  lemma {:induction false} OwedWholeTurns(w: seq<int>, cand: seq<nat>, i: nat)
    requires Schedulable(w, cand) && i in cand
    ensures Run(w, cand, TotalWeightNat(w, cand))[i] ==
            TotalWeight(w, cand) * (w[i] - Picked(w, cand, TotalWeightNat(w, cand), i))
  {
    var total := TotalWeightNat(w, cand);
    ClosedForm(w, cand, total, i);
    Distribute(total, w[i], Picked(w, cand, total, i));
  }

  lemma {:induction false} Distribute(a: int, b: int, c: int)
    ensures a * b - a * c == a * (b - c)
  {
  }

  /** After W picks the state is all zero again. */
  lemma {:induction false} BackToZero(w: seq<int>, cand: seq<nat>)
    requires Schedulable(w, cand)
    ensures Run(w, cand, TotalWeightNat(w, cand)) == Run(w, cand, 0)
  {
    var total := TotalWeightNat(w, cand);
    var end := Run(w, cand, total);
    forall i | 0 <= i < |w| ensures end[i] >= 0 {
      if i in cand {
        OwedWholeTurns(w, cand, i);
        NeverFarBehind(w, cand, total, i);
        MultipleAboveMinusOne(total, w[i] - Picked(w, cand, total, i));
      } else {
        ClosedForm(w, cand, total, i);
      }
    }
    SumRun(w, cand, total);
    SumNonNegative(end);
  }

  /** After exactly W picks entry i was picked exactly w[i] times. */
  lemma {:induction false} FullCycle(w: seq<int>, cand: seq<nat>, i: nat)
    requires Schedulable(w, cand) && i in cand
    ensures Picked(w, cand, TotalWeightNat(w, cand), i) == w[i]
  {
    BackToZero(w, cand);
    OwedWholeTurns(w, cand, i);
    CancelTotal(TotalWeight(w, cand), w[i] - Picked(w, cand, TotalWeightNat(w, cand), i));
  }

  /** Once the state is back at its start, the schedule repeats. */
  lemma {:induction false} Repeats(w: seq<int>, cand: seq<nat>, p: nat, t: nat, i: nat)
    requires Schedulable(w, cand) && Run(w, cand, p) == Run(w, cand, 0)
    ensures Run(w, cand, p + t) == Run(w, cand, t)
    ensures Picked(w, cand, p + t, i) == Picked(w, cand, p, i) + Picked(w, cand, t, i)
  {
    hide Next, Pick;
    if t > 0 { Repeats(w, cand, p, t - 1, i); }
  }

  /** The exact distribution: ANY W consecutive picks choose entry i exactly w[i] times, and leave the state
      where it was. */
  lemma {:induction false} ExactDistribution(w: seq<int>, cand: seq<nat>, t: nat, i: nat)
    requires Schedulable(w, cand) && i in cand
    ensures Picked(w, cand, TotalWeightNat(w, cand) + t, i) - Picked(w, cand, t, i) == w[i]
    ensures Run(w, cand, TotalWeightNat(w, cand) + t) == Run(w, cand, t)
  {
    hide *;
    BackToZero(w, cand);
    FullCycle(w, cand, i);
    Repeats(w, cand, TotalWeightNat(w, cand), t, i);
  }
}
