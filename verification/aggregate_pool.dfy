/** Order in which the "least" strategies prefer one aggregate child over another. */
module ChildOrder {
  import opened Wrappers

  /** What a "least" pick reads of one child: two load figures, its weight and its name. */
  datatype Child = Child(primary: int, secondary: int, weight: int, name: string)

  /** Byte-wise string order. */
  predicate StringLess(a: string, b: string) {
    if b == [] then false
    else if a == [] then true
    else a[0] < b[0] || (a[0] == b[0] && StringLess(a[1..], b[1..]))
  }

  lemma {:induction false} StringLessTotal(a: string, b: string)
    ensures StringLess(a, b) || a == b || StringLess(b, a)
    ensures !(StringLess(a, b) && StringLess(b, a))
  {
    if a != [] && b != [] && a[0] == b[0] {
      StringLessTotal(a[1..], b[1..]);
      assert a == [a[0]] + a[1..] && b == [b[0]] + b[1..];
    }
  }

  lemma {:induction false} StringLessTransitive(a: string, b: string, c: string)
    requires StringLess(a, b) && StringLess(b, c)
    ensures StringLess(a, c)
  {
    if a != [] && a[0] == b[0] == c[0] { StringLessTransitive(a[1..], b[1..], c[1..]); }
  }

  const TWO_63 := 0x8000_0000_0000_0000

  /** A product or sum of two 64-bit integers as the machine keeps it. */
  function Wrap64(x: int): int { (x + TWO_63) % (2 * TWO_63) - TWO_63 }

  /** A non-positive weight counts as one. */
  function Counted(weight: int): (w: int)
    ensures w >= 1
  {
    if weight <= 0 then 1 else weight
  }

  /** -1, 0 or 1, by cross multiplication of machine integers. */
  function CompareWeighted(leftScore: int, leftWeight: int, rightScore: int, rightWeight: int): int {
    var left, right := Wrap64(leftScore * Counted(rightWeight)), Wrap64(rightScore * Counted(leftWeight));
    if left < right then -1 else if left > right then 1 else 0
  }

  ghost function Ratio(score: int, weight: int): real
    requires weight > 0
  {
    score as real / weight as real
  }

  lemma {:induction false} CrossMultiply(a: int, v: int, b: int, w: int)
    requires v > 0 && w > 0
    ensures a * w < b * v <==> Ratio(a, v) < Ratio(b, w)
    ensures a * w == b * v <==> Ratio(a, v) == Ratio(b, w)
  {
    var x, y, p, q := a as real, b as real, v as real, w as real;
    assert x / p == (x * q) / (p * q);
    assert y / q == (y * p) / (p * q);
    assert (a * w) as real == x * q && (b * v) as real == y * p;
  }

  /** The comparison gives the order of the ratios. */
  ghost predicate Exact(a: int, v: int, b: int, w: int) {
    var p, q := Ratio(a, Counted(v)), Ratio(b, Counted(w));
    CompareWeighted(a, v, b, w) == if p < q then -1 else if p > q then 1 else 0
  }

  /** While neither product leaves the 64 bits, cross multiplication compares the exact ratios. */
  lemma {:induction false} CompareIsExact(a: int, v: int, b: int, w: int)
    requires -TWO_63 <= a * Counted(w) < TWO_63 && -TWO_63 <= b * Counted(v) < TWO_63
    ensures Exact(a, v, b, w)
  {
    CrossMultiply(a, Counted(v), b, Counted(w));
    hide Ratio, Counted;
  }

  /** The first score that a weight takes past the 64 bits: its product turns negative. */
  lemma {:induction false} FirstOverflow(w: int, bound: int) returns (s: int)
    requires 1 <= w < TWO_63 && bound * w >= TWO_63
    ensures 0 < s <= bound && Wrap64(s * w) < 0
  {
    s := (TWO_63 + w - 1) / w;
    DivideUp(TWO_63, w);
    MulMonotone(bound, s - 1, w);
    assert s * w - 2 * TWO_63 == Wrap64(s * w);
  }

  lemma {:induction false} MulMonotone(a: int, b: int, w: int)
    requires w > 0
    ensures a <= b ==> a * w <= b * w
  {
  }

  lemma {:induction false} DivideUp(n: int, w: int)
    requires n > 0 && w > 0
    ensures var s := (n + w - 1) / w; s > 0 && n <= s * w < n + w && (s - 1) * w < n
  {
    var s := (n + w - 1) / w;
    assert n + w - 1 == s * w + (n + w - 1) % w;
    assert (s - 1) * w == s * w - w;
  }

  lemma {:induction false} ProductBelow(a: int, w: int, bound: int, m: int)
    requires 0 <= a <= bound && 0 < w <= m && bound * m < TWO_63
    ensures 0 <= a * w < TWO_63
  {
    assert a * w <= bound * w <= bound * m;
  }

  /** The exact range of the comparison: scores up to `bound` are all ordered by their ratios if and only if the
      larger weight cannot take `bound` past the 64 bits. Weights are 64-bit integers themselves. */
  lemma {:induction false} CompareIsExactIff(v: int, w: int, bound: int)
    requires 1 <= v < TWO_63 && 1 <= w < TWO_63 && bound >= 0
    ensures (forall a, b :: 0 <= a <= bound && 0 <= b <= bound ==> Exact(a, v, b, w)) <==> bound * Max(v, w) < TWO_63
  {
    if bound * Max(v, w) < TWO_63 {
      forall a, b | 0 <= a <= bound && 0 <= b <= bound ensures Exact(a, v, b, w) {
        ProductBelow(a, w, bound, Max(v, w));
        ProductBelow(b, v, bound, Max(v, w));
        CompareIsExact(a, v, b, w);
      }
    } else if w >= v {
      var s := FirstOverflow(w, bound);
      OverflowMisorders(s, v, w);
    } else {
      var s := FirstOverflow(v, bound);
      OverflowMisorders(s, w, v);
    }
  }

  /** A score whose product wraps is taken for less than nothing. */
  lemma {:induction false} OverflowMisorders(s: int, v: int, w: int)
    requires s > 0 && v >= 1 && w >= 1 && Wrap64(s * w) < 0
    ensures CompareWeighted(s, v, 0, w) == -1 && Ratio(s, v) > Ratio(0, w) && !Exact(s, v, 0, w)
    ensures CompareWeighted(0, w, s, v) == 1 && Ratio(0, w) < Ratio(s, v) && !Exact(0, w, s, v)
  {
    assert s * w > 0 * v && 0 * v == 0;
    CrossMultiply(s, v, 0, w);
    CrossMultiply(0, w, s, v);
  }

  /** The comparison cascade of the pick loop: `a` displaces `b`. */
  predicate Precedes(a: Child, b: Child) {
    var c1 := CompareWeighted(a.primary, a.weight, b.primary, b.weight);
    var c2 := CompareWeighted(a.secondary, a.weight, b.secondary, b.weight);
    if c1 != 0 then c1 == -1
    else if c2 != 0 then c2 == -1
    else a.weight > b.weight || (a.weight == b.weight && StringLess(a.name, b.name))
  }

  /** Lexicographic order on (primary/weight, secondary/weight, larger weight, name). */
  ghost predicate Lighter(a: Child, b: Child)
    requires a.weight > 0 && b.weight > 0
  {
    var p, q := Ratio(a.primary, a.weight), Ratio(b.primary, b.weight);
    var s, t := Ratio(a.secondary, a.weight), Ratio(b.secondary, b.weight);
    p < q || (p == q && (s < t || (s == t && (a.weight > b.weight
      || (a.weight == b.weight && StringLess(a.name, b.name))))))
  }

  /** Loads times the weight of the other child stay within 64 bits. */
  predicate Fits(a: Child, b: Child) {
    && 0 <= a.primary * b.weight < TWO_63 && 0 <= a.secondary * b.weight < TWO_63
    && 0 <= b.primary * a.weight < TWO_63 && 0 <= b.secondary * a.weight < TWO_63
  }

  lemma {:induction false} PrecedesIsLighter(a: Child, b: Child)
    requires a.weight > 0 && b.weight > 0 && Fits(a, b)
    ensures Precedes(a, b) <==> Lighter(a, b)
  {
    CompareIsExact(a.primary, a.weight, b.primary, b.weight);
    CompareIsExact(a.secondary, a.weight, b.secondary, b.weight);
    hide Ratio, CompareWeighted, StringLess;
  }

  predicate LoadedUpTo(c: Child, weight: int, bound: int) {
    c.weight == weight && 0 <= c.primary <= bound && 0 <= c.secondary <= bound
  }

  lemma {:induction false} LoadBelow(c: Child, weight: int, u: int, bound: int, m: int)
    requires LoadedUpTo(c, weight, bound) && 0 < u <= m && bound * m < TWO_63
    ensures 0 <= c.primary * u < TWO_63 && 0 <= c.secondary * u < TWO_63
  {
    ProductBelow(c.primary, u, bound, m);
    ProductBelow(c.secondary, u, bound, m);
  }

  /** The cascade is the lexicographic order of the ratios for all loads up to `bound` exactly within that range. */
  lemma {:induction false} PrecedesIsLighterIff(v: int, w: int, bound: int)
    requires 1 <= v < TWO_63 && 1 <= w < TWO_63 && bound >= 0
    ensures (forall a, b :: LoadedUpTo(a, v, bound) && LoadedUpTo(b, w, bound) ==> (Precedes(a, b) <==> Lighter(a, b)))
            <==> bound * Max(v, w) < TWO_63
  {
    if bound * Max(v, w) < TWO_63 {
      forall a, b | LoadedUpTo(a, v, bound) && LoadedUpTo(b, w, bound) ensures Precedes(a, b) <==> Lighter(a, b) {
        LoadBelow(a, v, w, bound, Max(v, w));
        LoadBelow(b, w, v, bound, Max(v, w));
        PrecedesIsLighter(a, b);
      }
    } else if w >= v {
      var s := FirstOverflow(w, bound);
      OverflowMisorders(s, v, w);
      var a, b := Child(s, 0, v, ""), Child(0, 0, w, "");
      assert LoadedUpTo(a, v, bound) && LoadedUpTo(b, w, bound) && Precedes(a, b) && !Lighter(a, b);
    } else {
      var s := FirstOverflow(v, bound);
      OverflowMisorders(s, w, v);
      var a, b := Child(0, 0, v, ""), Child(s, 0, w, "");
      assert LoadedUpTo(a, v, bound) && LoadedUpTo(b, w, bound) && !Precedes(a, b) && Lighter(a, b);
    }
  }

  /** If `a` displaces `b` and `c` does not, then `a` displaces `c`: a single scan finds a minimum. */
  lemma {:induction false} ScanStep(a: Child, b: Child, c: Child)
    requires a.weight > 0 && b.weight > 0 && c.weight > 0 && Fits(a, b) && Fits(c, b) && Fits(a, c)
    requires Precedes(a, b) && !Precedes(c, b)
    ensures Precedes(a, c)
  {
    PrecedesIsLighter(a, b);
    PrecedesIsLighter(c, b);
    PrecedesIsLighter(a, c);
    StringLessTotal(b.name, c.name);
    StringLessTotal(a.name, b.name);
    if StringLess(a.name, b.name) && StringLess(b.name, c.name) { StringLessTransitive(a.name, b.name, c.name); }
    hide Ratio, CompareWeighted, StringLess, Precedes, Fits;
  }

  /** Two children never displace each other, whether or not products wrap. */
  lemma {:induction false} PrecedesAsymmetric(a: Child, b: Child)
    ensures !(Precedes(a, b) && Precedes(b, a))
  {
    StringLessTotal(a.name, b.name);
    hide StringLess, Wrap64, Counted;
  }

  /** One scan from the left: each child that displaces the best so far becomes the best. */
  function LeastScan(cs: seq<Child>): (best: nat)
    requires cs != []
    ensures best < |cs|
  {
    if |cs| == 1 then 0
    else
      var b := LeastScan(cs[..|cs| - 1]);
      if Precedes(cs[|cs| - 1], cs[b]) then |cs| - 1 else b
  }

  ghost predicate AllFit(cs: seq<Child>) {
    (forall i :: 0 <= i < |cs| ==> cs[i].weight > 0) && forall i, j :: 0 <= i < |cs| && 0 <= j < |cs| ==> Fits(cs[i], cs[j])
  }

  /** The first child that no other is lighter than. */
  ghost predicate FirstLightest(cs: seq<Child>, best: nat) {
    && (forall i :: 0 <= i < |cs| ==> cs[i].weight > 0)
    && best < |cs|
    && (forall j :: 0 <= j < |cs| ==> !Lighter(cs[j], cs[best]))
    && (forall j :: 0 <= j < best ==> Lighter(cs[best], cs[j]))
  }

  lemma {:induction false} ScanFindsFirst(cs: seq<Child>)
    requires cs != [] && AllFit(cs)
    ensures forall j :: 0 <= j < |cs| ==> !Precedes(cs[j], cs[LeastScan(cs)])
    ensures forall j :: 0 <= j < LeastScan(cs) ==> Precedes(cs[LeastScan(cs)], cs[j])
  {
    hide Precedes, Fits;
    var n := |cs| - 1;
    PrecedesAsymmetric(cs[n], cs[n]);
    if n > 0 {
      var prefix := cs[..n];
      ScanFindsFirst(prefix);
      var b := LeastScan(prefix);
      if Precedes(cs[n], cs[b]) {
        forall j | 0 <= j < n ensures Precedes(cs[n], cs[j]) && !Precedes(cs[j], cs[n]) {
          assert prefix[j] == cs[j];
          ScanStep(cs[n], cs[b], cs[j]);
          PrecedesAsymmetric(cs[n], cs[j]);
        }
      } else {
        assert forall j :: 0 <= j < n ==> prefix[j] == cs[j];
      }
    }
  }

  /** Within 64 bits the scan finds the first lightest child. */
  lemma {:induction false} LeastScanIsLightest(cs: seq<Child>)
    requires cs != [] && AllFit(cs)
    ensures FirstLightest(cs, LeastScan(cs))
  {
    hide Precedes, Fits, Lighter, LeastScan;
    ScanFindsFirst(cs);
    var b := LeastScan(cs);
    forall j | 0 <= j < |cs| ensures (Precedes(cs[j], cs[b]) <==> Lighter(cs[j], cs[b])) && (Precedes(cs[b], cs[j]) <==> Lighter(cs[b], cs[j])) {
      PrecedesIsLighter(cs[j], cs[b]);
      PrecedesIsLighter(cs[b], cs[j]);
    }
  }

  /** Beyond it the scan leaves an idle child for a loaded one. */
  lemma {:induction false} LoadedDisplacesIdle(s: int, v: int, w: int)
    requires s > 0 && v >= 1 && w >= 1 && Wrap64(s * w) < 0
    ensures var cs := [Child(0, 0, w, ""), Child(s, 0, v, "")];
            LeastScan(cs) == 1 && Lighter(cs[0], cs[1]) && !FirstLightest(cs, 1)
  {
    var idle, loaded := Child(0, 0, w, ""), Child(s, 0, v, "");
    OverflowMisorders(s, v, w);
    var cs := [idle, loaded];
    assert cs[..1] == [idle];
    assert Precedes(loaded, idle) && Lighter(cs[0], cs[1]);
    hide Precedes, Lighter;
  }

  lemma {:induction false} TwoFit(a: Child, v: int, b: Child, w: int, bound: int)
    requires LoadedUpTo(a, v, bound) && LoadedUpTo(b, w, bound) && v >= 1 && w >= 1 && bound * Max(v, w) < TWO_63
    ensures AllFit([a, b])
  {
    LoadBelow(a, v, v, bound, Max(v, w));
    LoadBelow(a, v, w, bound, Max(v, w));
    LoadBelow(b, w, v, bound, Max(v, w));
    LoadBelow(b, w, w, bound, Max(v, w));
  }

  /** For two children of given weights, in either order, the scan finds the lightest under all loads up to `bound`
      if and only if the larger weight cannot take `bound` past the 64 bits. */
  lemma {:induction false} LeastScanIsLightestIff(v: int, w: int, bound: int)
    requires 1 <= v < TWO_63 && 1 <= w < TWO_63 && bound >= 0
    ensures (forall a, b :: (LoadedUpTo(a, v, bound) && LoadedUpTo(b, w, bound)) || (LoadedUpTo(a, w, bound) && LoadedUpTo(b, v, bound)) ==>
               FirstLightest([a, b], LeastScan([a, b])))
            <==> bound * Max(v, w) < TWO_63
  {
    hide FirstLightest, LeastScan, AllFit;
    if bound * Max(v, w) < TWO_63 {
      forall a, b | (LoadedUpTo(a, v, bound) && LoadedUpTo(b, w, bound)) || (LoadedUpTo(a, w, bound) && LoadedUpTo(b, v, bound))
        ensures FirstLightest([a, b], LeastScan([a, b]))
      {
        if LoadedUpTo(a, v, bound) && LoadedUpTo(b, w, bound) { TwoFit(a, v, b, w, bound); } else { TwoFit(a, w, b, v, bound); }
        LeastScanIsLightest([a, b]);
      }
    } else {
      var light, heavy := if w >= v then v else w, if w >= v then w else v;
      var s := FirstOverflow(heavy, bound);
      LoadedDisplacesIdle(s, light, heavy);
      assert LoadedUpTo(Child(0, 0, heavy, ""), heavy, bound) && LoadedUpTo(Child(s, 0, light, ""), light, bound);
    }
  }
}

/** Vendor-level load balancing of an aggregate provider. */
module AggregatePool {
  import opened Wrappers
  import opened SmoothRoundRobin
  import opened MachineWeights
  import opened ChildOrder

  datatype Entry = Entry(id: string, name: string, weight: int, priority: int)

  /** Inflight and total requests of the child's key pool, read when a "least" pick is made. */
  datatype Load = Load(inflight: nat, requests: nat)

  datatype Strategy = RoundRobin | Random | LeastUsed | LeastRequests

  ghost predicate SortedByPriority(es: seq<Entry>) {
    forall i, j :: 0 <= i < j < |es| ==> es[i].priority <= es[j].priority
  }

  function Normalized(e: Entry): Entry {
    if e.weight <= 0 then e.(weight := 1) else e
  }

  function NormalizedAll(es: seq<Entry>): seq<Entry> {
    seq(|es|, i requires 0 <= i < |es| => Normalized(es[i]))
  }

  /** Configured weights are kept where they are positive and count as one otherwise; nothing else changes. */
  lemma {:induction false} NormalizedKeeps(es: seq<Entry>, i: nat)
    requires i < |es|
    ensures |NormalizedAll(es)| == |es|
    ensures var e := NormalizedAll(es)[i];
            && e.id == es[i].id && e.name == es[i].name && e.priority == es[i].priority && e.weight >= 1
            && (es[i].weight >= 1 ==> e == es[i]) && (es[i].weight < 1 ==> e.weight == 1)
  {
  }

  /** Insert after every entry of the same or a smaller priority number. */
  function InsertStable(es: seq<Entry>, e: Entry): seq<Entry> {
    if es == [] || es[|es| - 1].priority <= e.priority then es + [e]
    else InsertStable(es[..|es| - 1], e) + [es[|es| - 1]]
  }

  function StableSort(es: seq<Entry>): seq<Entry> {
    if es == [] then [] else InsertStable(StableSort(es[..|es| - 1]), es[|es| - 1])
  }

  /** The entries of one priority, in order. */
  ghost function Tier(es: seq<Entry>, priority: int): seq<Entry> {
    if es == [] then []
    else Tier(es[..|es| - 1], priority) + if es[|es| - 1].priority == priority then [es[|es| - 1]] else []
  }

  lemma {:induction false} TierAppend(es: seq<Entry>, e: Entry, p: int)
    ensures Tier(es + [e], p) == Tier(es, p) + if e.priority == p then [e] else []
  {
    assert (es + [e])[..|es|] == es;
  }

  ghost predicate AtMost(es: seq<Entry>, bound: int) {
    forall i :: 0 <= i < |es| ==> es[i].priority <= bound
  }

  lemma {:induction false} InsertStableAtMost(es: seq<Entry>, e: Entry, bound: int)
    requires AtMost(es, bound) && e.priority <= bound
    ensures AtMost(InsertStable(es, e), bound)
  {
    if es != [] { InsertStableAtMost(es[..|es| - 1], e, bound); }
  }

  lemma {:induction false} InsertStableSorted(es: seq<Entry>, e: Entry)
    requires SortedByPriority(es) && Positive(es) && e.weight >= 1
    ensures SortedByPriority(InsertStable(es, e)) && Positive(InsertStable(es, e))
  {
    if es != [] && es[|es| - 1].priority > e.priority {
      var rest, last := es[..|es| - 1], es[|es| - 1];
      InsertStableSorted(rest, e);
      InsertStableAtMost(rest, e, last.priority);
    }
  }

  lemma {:induction false} InsertStableTier(es: seq<Entry>, e: Entry, p: int)
    ensures Tier(InsertStable(es, e), p) == Tier(es, p) + if e.priority == p then [e] else []
  {
    if es == [] || es[|es| - 1].priority <= e.priority {
      TierAppend(es, e, p);
    } else {
      InsertStableTier(es[..|es| - 1], e, p);
      TierAppend(InsertStable(es[..|es| - 1], e), es[|es| - 1], p);
    }
  }

  /** The constructor's sort leaves the entries ordered by priority... */
  lemma {:induction false} StableSortSorted(es: seq<Entry>)
    requires Positive(es)
    ensures SortedByPriority(StableSort(es)) && Positive(StableSort(es))
  {
    hide InsertStable;
    if es != [] {
      StableSortSorted(es[..|es| - 1]);
      InsertStableSorted(StableSort(es[..|es| - 1]), es[|es| - 1]);
    }
  }

  /** ...and keeps every tier exactly as it was configured, so nothing is lost or reordered inside a tier. */
  lemma {:induction false} StableSortTier(es: seq<Entry>, p: int)
    ensures Tier(StableSort(es), p) == Tier(es, p)
  {
    hide InsertStable;
    if es != [] {
      StableSortTier(es[..|es| - 1], p);
      InsertStableTier(StableSort(es[..|es| - 1]), es[|es| - 1], p);
    }
  }

  ghost predicate Positive(es: seq<Entry>) {
    forall i :: 0 <= i < |es| ==> es[i].weight >= 1
  }

  ghost function Weights(es: seq<Entry>): (w: seq<int>)
    ensures |w| == |es|
  {
    seq(|es|, i requires 0 <= i < |es| => es[i].weight)
  }

  predicate Eligible(es: seq<Entry>, avail: seq<bool>, exclude: set<string>, i: int)
    requires |avail| == |es|
  {
    0 <= i < |es| && es[i].id !in exclude && avail[i]
  }

  /** `cand` is exactly the eligible entries of the best priority that has any, in entry order. */
  ghost predicate BestTier(es: seq<Entry>, avail: seq<bool>, exclude: set<string>, cand: seq<nat>)
    requires |avail| == |es|
  {
    && (forall k :: 0 <= k < |cand| ==> Eligible(es, avail, exclude, cand[k]))
    && (forall a, b :: 0 <= a < b < |cand| ==> cand[a] < cand[b])
    && (forall i :: Eligible(es, avail, exclude, i) ==>
          cand != [] && es[cand[0]].priority <= es[i].priority
          && (i in cand <==> es[i].priority == es[cand[0]].priority))
  }

  /** The scan has collected every eligible entry below `i`, all of one priority. */
  ghost predicate Collected(es: seq<Entry>, avail: seq<bool>, exclude: set<string>, cand: seq<nat>, i: nat)
    requires |avail| == |es|
  {
    && i <= |es|
    && (forall k :: 0 <= k < |cand| ==> cand[k] < i && Eligible(es, avail, exclude, cand[k]))
    && (forall a, b :: 0 <= a < b < |cand| ==> cand[a] < cand[b])
    && (forall k :: 0 <= k < |cand| ==> es[cand[k]].priority == es[cand[0]].priority)
    && (forall j :: 0 <= j < i && Eligible(es, avail, exclude, j) ==> j in cand)
  }

  function ChildOf(es: seq<Entry>, loads: seq<Load>, byRequests: bool, i: nat): Child
    requires i < |es| == |loads|
  {
    var l := loads[i];
    if byRequests then Child(Wrap64(l.requests + l.inflight), l.inflight, es[i].weight, es[i].name)
    else Child(l.inflight, l.requests, es[i].weight, es[i].name)
  }

  /** What a "least" pick reads of its candidates, in order. */
  function Children(es: seq<Entry>, loads: seq<Load>, byRequests: bool, cand: seq<nat>): (cs: seq<Child>)
    requires |es| == |loads| && InRange(cand, |es|)
    ensures |cs| == |cand| && forall k :: 0 <= k < |cand| ==> cs[k] == ChildOf(es, loads, byRequests, cand[k])
  {
    seq(|cand|, k requires 0 <= k < |cand| => ChildOf(es, loads, byRequests, cand[k]))
  }

  /** The candidate that the scan stops at; within 64 bits it is the first that no other is lighter than. */
  ghost predicate LeastPick(es: seq<Entry>, loads: seq<Load>, byRequests: bool, cand: seq<nat>, best: nat)
    requires |es| == |loads| && InRange(cand, |es|) && cand != []
  {
    var cs := Children(es, loads, byRequests, cand);
    best == cand[LeastScan(cs)] && (AllFit(cs) ==> FirstLightest(cs, LeastScan(cs)))
  }

  /** The load a least strategy weighs first, and the one it turns to on a tie: what is in flight and then all requests, or
      all requests with those in flight and then what is in flight. */
  function FirstLoad(l: Load, byRequests: bool): nat { if byRequests then l.requests + l.inflight else l.inflight }

  function SecondLoad(l: Load, byRequests: bool): nat { if byRequests then l.inflight else l.requests }

  /** Every load times every weight of the candidates stays within 64 bits. */
  ghost predicate LoadsFit(es: seq<Entry>, loads: seq<Load>, byRequests: bool, cand: seq<nat>)
    requires |es| == |loads| && InRange(cand, |es|)
  {
    forall a, b :: a in cand && b in cand ==>
      FirstLoad(loads[a], byRequests) * es[b].weight < TWO_63 && SecondLoad(loads[a], byRequests) * es[b].weight < TWO_63
  }

  /** Candidate `a` carries no more than `c`: by first load per weight, then second load per weight, then the larger weight
      and the smaller name. */
  ghost predicate NoHeavier(es: seq<Entry>, loads: seq<Load>, byRequests: bool, a: nat, c: nat)
    requires a < |es| == |loads| && c < |es|
  {
    var p, q := FirstLoad(loads[a], byRequests) * es[c].weight, FirstLoad(loads[c], byRequests) * es[a].weight;
    var s, t := SecondLoad(loads[a], byRequests) * es[c].weight, SecondLoad(loads[c], byRequests) * es[a].weight;
    p < q || (p == q && (s < t || (s == t && (es[a].weight > es[c].weight
      || (es[a].weight == es[c].weight && !StringLess(es[c].name, es[a].name))))))
  }

  lemma {:induction false} NotLighterIsNoHeavier(es: seq<Entry>, loads: seq<Load>, byRequests: bool, a: nat, c: nat)
    requires a < |es| == |loads| && c < |es| && es[a].weight >= 1 && es[c].weight >= 1
    requires FirstLoad(loads[a], byRequests) < TWO_63 && FirstLoad(loads[c], byRequests) < TWO_63
    requires !Lighter(ChildOf(es, loads, byRequests, c), ChildOf(es, loads, byRequests, a))
    ensures NoHeavier(es, loads, byRequests, a, c)
  {
    hide Wrap64;
    WrapIsIdentity(FirstLoad(loads[a], byRequests));
    WrapIsIdentity(FirstLoad(loads[c], byRequests));
    CrossMultiply(FirstLoad(loads[a], byRequests), es[a].weight, FirstLoad(loads[c], byRequests), es[c].weight);
    CrossMultiply(SecondLoad(loads[a], byRequests), es[a].weight, SecondLoad(loads[c], byRequests), es[c].weight);
    hide Ratio, StringLess;
  }

  lemma {:induction false} FitsChildren(es: seq<Entry>, loads: seq<Load>, byRequests: bool, cand: seq<nat>)
    requires |es| == |loads| && InRange(cand, |es|) && Positive(es) && LoadsFit(es, loads, byRequests, cand)
    ensures forall a :: a in cand ==> FirstLoad(loads[a], byRequests) < TWO_63
    ensures AllFit(Children(es, loads, byRequests, cand))
  {
    hide Wrap64;
    forall a | a in cand ensures FirstLoad(loads[a], byRequests) < TWO_63 {
      assert FirstLoad(loads[a], byRequests) * es[a].weight < TWO_63;
      AtLeastOnce(FirstLoad(loads[a], byRequests), es[a].weight);
    }
    var cs := Children(es, loads, byRequests, cand);
    forall k | 0 <= k < |cs| ensures cs[k].primary == FirstLoad(loads[cand[k]], byRequests) && cs[k].secondary == SecondLoad(loads[cand[k]], byRequests) {
      WrapIsIdentity(FirstLoad(loads[cand[k]], byRequests));
    }
    forall i, j | 0 <= i < |cs| && 0 <= j < |cs| ensures Fits(cs[i], cs[j]) {
      assert cand[i] in cand && cand[j] in cand;
      NotNegative(cs[i].primary, cs[j].weight);
      NotNegative(cs[i].secondary, cs[j].weight);
      NotNegative(cs[j].primary, cs[i].weight);
      NotNegative(cs[j].secondary, cs[i].weight);
    }
  }

  lemma {:induction false} NotNegative(a: int, w: int)
    requires a >= 0 && w >= 1
    ensures a * w >= 0
  {
  }

  lemma {:induction false} AtLeastOnce(a: int, w: int)
    requires a >= 0 && w >= 1
    ensures a <= a * w
  {
  }

  lemma {:induction false} LeastPickIsLeast(es: seq<Entry>, loads: seq<Load>, byRequests: bool, cand: seq<nat>, best: nat)
    requires |es| == |loads| && InRange(cand, |es|) && cand != [] && Positive(es) && LoadsFit(es, loads, byRequests, cand)
    requires LeastPick(es, loads, byRequests, cand, best)
    ensures best in cand && forall c :: c in cand ==> NoHeavier(es, loads, byRequests, best, c)
  {
    FitsChildren(es, loads, byRequests, cand);
    var cs := Children(es, loads, byRequests, cand);
    hide LeastScan, AllFit, Lighter, NoHeavier, FirstLoad, SecondLoad, LoadsFit;
    assert FirstLightest(cs, LeastScan(cs)) && best in cand;
    forall c | c in cand ensures NoHeavier(es, loads, byRequests, best, c) {
      var k :| 0 <= k < |cand| && cand[k] == c;
      assert !Lighter(cs[k], cs[LeastScan(cs)]);
      NotLighterIsNoHeavier(es, loads, byRequests, best, c);
    }
  }

  /** The random draw `r` falls in the interval that `best` owns: its length is the weight of `best`. */
  ghost predicate OwnsDraw(w: seq<int>, cand: seq<nat>, r: int, best: nat)
    requires InRange(cand, |w|)
  {
    exists k :: 0 <= k < |cand| && cand[k] == best
      && TotalWeight(w, cand[..k]) <= r < TotalWeight(w, cand[..k]) + w[best]
  }

  /** The draw is taken modulo the total weight and belongs to `best`; without a positive total it is taken modulo the
      number of candidates. */
  ghost predicate RandomPick(w: seq<int>, cand: seq<nat>, draw: nat, best: nat)
    requires cand != [] && InRange(cand, |w|)
  {
    var total := MachineTotal(w, cand);
    if total <= 0 then best == cand[draw % |cand|] else OwnsDraw(w, cand, draw % total, best)
  }

  class Pool {
    const strategy: Strategy
    const entries: seq<Entry>
    const currentWeights: array<int>

    ghost predicate Valid() {
      currentWeights.Length == |entries| && Positive(entries) && SortedByPriority(entries)
    }

    constructor (strategy: Strategy, configured: seq<Entry>)
      ensures Valid() && fresh(currentWeights)
      ensures this.strategy == strategy
      ensures forall p :: Tier(entries, p) == Tier(NormalizedAll(configured), p)
      ensures forall i :: 0 <= i < |entries| ==> currentWeights[i] == 0
    {
      var es := NormalizedAll(configured);
      StableSortSorted(es);
      forall p ensures Tier(StableSort(es), p) == Tier(es, p) { StableSortTier(es, p); }
      var sorted := StableSort(es);
      this.strategy := strategy;
      this.entries := sorted;
      currentWeights := new int[|sorted|](i => 0);
    }

    /** Smooth weighted round-robin over the given entry indexes, in 64-bit arithmetic; exact while nothing wraps. */
    method PickRoundRobin(cand: seq<nat>) returns (best: nat)
      requires Valid() && Schedulable(Weights(entries), cand)
      modifies currentWeights
      ensures best == MachinePick(old(currentWeights[..]), Weights(entries), cand)
      ensures currentWeights[..] == MachineNext(old(currentWeights[..]), Weights(entries), cand)
      ensures FitsNow(old(currentWeights[..]), Weights(entries), cand) ==>
        && best == Pick(old(currentWeights[..]), Weights(entries), cand)
        && currentWeights[..] == Next(old(currentWeights[..]), Weights(entries), cand)
    {
      hide Largest, MachineRaised, TotalWeight, MachineNext, MachinePick, Next, Pick, FitsNow, Wrap64;
      ghost var w := Weights(entries);
      ghost var start := currentWeights[..];
      if FitsNow(start, w, cand) { FitsIsExact(start, w, cand); }
      RaisedNone(start, w, cand);
      var total := Total(cand);
      best := cand[0];
      if total <= 0 {
        MachineStays(start, w, cand);
        return;
      }
      for k := 0 to |cand|
        invariant currentWeights[..] == MachineRaised(start, w, cand[..k])
        invariant best == if k == 0 then cand[0] else Largest(currentWeights[..], cand[..k])
      {
        var i := cand[k];
        ghost var before := currentWeights[..];
        RoundStep(start, w, cand, k, before);
        currentWeights[i] := Wrap64(currentWeights[i] + entries[i].weight);
        assert currentWeights[..] == before[i := Wrap64(before[i] + w[i])];
        if currentWeights[i] > currentWeights[best] {
          best := i;
        }
      }
      assert cand[..|cand|] == cand;
      ghost var up := currentWeights[..];
      NextIs(start, w, cand);
      currentWeights[best] := Wrap64(currentWeights[best] - total);
      assert currentWeights[..] == up[best := Wrap64(up[best] - total)];
    }

    method Total(cand: seq<nat>) returns (total: int)
      requires Valid() && Schedulable(Weights(entries), cand)
      ensures total == MachineTotal(Weights(entries), cand)
    {
      hide Wrap64;
      ghost var w := Weights(entries);
      total := 0;
      WrapIsIdentity(0);
      for k := 0 to |cand|
        invariant total == Wrap64(TotalWeight(w, cand[..k]))
      {
        WrapSum(TotalWeight(w, cand[..k]), w[cand[k]]);
        total := Wrap64(total + entries[cand[k]].weight);
        assert cand[..k + 1][..k] == cand[..k];
      }
      assert cand[..|cand|] == cand;
    }

    /** Weighted random selection; a total that wrapped to nothing or below makes it a uniform one. */
    method PickRandom(cand: seq<nat>, draw: nat) returns (best: nat)
      requires Valid() && Schedulable(Weights(entries), cand)
      ensures best in cand && RandomPick(Weights(entries), cand, draw, best)
    {
      hide Wrap64;
      ghost var w := Weights(entries);
      var total := Total(cand);
      if total <= 0 { return cand[draw % |cand|]; }
      var r := draw % total;
      TotalWeightPositive(w, cand);
      WrapLowers(TotalWeight(w, cand));
      var k := 0;
      var left := r - entries[cand[0]].weight;
      assert cand[..0] == [] && cand[..1] == [cand[0]];
      while left >= 0
        invariant 0 <= k < |cand|
        invariant left == r - TotalWeight(w, cand[..k + 1])
        invariant TotalWeight(w, cand[..k]) <= r
        decreases |cand| - k
      {
        assert cand[..|cand|] == cand;
        assert k + 1 < |cand|;
        k := k + 1;
        assert cand[..k + 1][..k] == cand[..k];
        left := left - entries[cand[k]].weight;
      }
      assert cand[..k + 1][..k] == cand[..k];
      best := cand[k];
    }

    /** Least loaded per unit of weight; ties go to the larger weight, then the smaller name. */
    method PickLeast(cand: seq<nat>, loads: seq<Load>, byRequests: bool) returns (best: nat)
      requires Valid() && Schedulable(Weights(entries), cand) && |loads| == |entries|
      ensures best in cand && LeastPick(entries, loads, byRequests, cand, best)
      ensures LoadsFit(entries, loads, byRequests, cand) ==> forall c :: c in cand ==> NoHeavier(entries, loads, byRequests, best, c)
    {
      hide Precedes, Fits, LoadsFit, NoHeavier;
      ghost var cs := Children(entries, loads, byRequests, cand);
      var at := 0;
      assert cs[..1] == [cs[0]];
      for k := 1 to |cand|
        invariant 0 <= at < k && at == LeastScan(cs[..k])
      {
        assert cs[..k + 1][..k] == cs[..k];
        if Precedes(ChildOf(entries, loads, byRequests, cand[k]), ChildOf(entries, loads, byRequests, cand[at])) { at := k; }
      }
      assert cs[..|cs|] == cs;
      best := cand[at];
      if AllFit(cs) { LeastScanIsLightest(cs); }
      if LoadsFit(entries, loads, byRequests, cand) { LeastPickIsLeast(entries, loads, byRequests, cand, best); }
    }

    /** The eligible entries of the best tier, collected by one scan over the sorted entries. */
    method Candidates(avail: seq<bool>, exclude: set<string>) returns (cand: seq<nat>)
      requires Valid() && |avail| == |entries|
      ensures BestTier(entries, avail, exclude, cand)
    {
      cand := [];
      var i := 0;
      while i < |entries|
        invariant Collected(entries, avail, exclude, cand, i)
      {
        if Eligible(entries, avail, exclude, i) {
          if cand != [] && entries[i].priority > entries[cand[0]].priority { return; }
          assert cand != [] ==> Eligible(entries, avail, exclude, cand[0]);
          cand := cand + [i];
        }
        i := i + 1;
      }
    }

    method HasAvailable(avail: seq<bool>, exclude: set<string>) returns (ok: bool)
      requires Valid() && |avail| == |entries|
      ensures ok <==> exists i :: Eligible(entries, avail, exclude, i)
    {
      var cand := Candidates(avail, exclude);
      ok := cand != [];
      assert ok ==> Eligible(entries, avail, exclude, cand[0]);
    }

    /** Pick a child: nothing exactly when nothing is eligible, else an eligible child of the best tier,
        chosen by the configured strategy among all eligible children of that tier. */
    method PickAvailable(avail: seq<bool>, exclude: set<string>, loads: seq<Load>, draw: nat)
      returns (picked: Option<nat>, ghost cand: seq<nat>)
      requires Valid() && |avail| == |entries| == |loads|
      modifies currentWeights
      ensures BestTier(entries, avail, exclude, cand)
      ensures picked == None <==> forall i :: !Eligible(entries, avail, exclude, i)
      ensures picked.Some? ==> cand != [] && picked.value in cand && Schedulable(Weights(entries), cand)
      ensures picked.Some? && strategy == RoundRobin ==>
        && picked.value == MachinePick(old(currentWeights[..]), Weights(entries), cand)
        && currentWeights[..] == MachineNext(old(currentWeights[..]), Weights(entries), cand)
      ensures picked.Some? && strategy == Random ==> RandomPick(Weights(entries), cand, draw, picked.value)
      ensures picked.Some? && strategy in {LeastUsed, LeastRequests} ==>
        LeastPick(entries, loads, strategy == LeastRequests, cand, picked.value)
        && (LoadsFit(entries, loads, strategy == LeastRequests, cand) ==>
              forall c :: c in cand ==> NoHeavier(entries, loads, strategy == LeastRequests, picked.value, c))
      ensures picked.None? || strategy != RoundRobin ==> currentWeights[..] == old(currentWeights[..])
    {
      var c := Candidates(avail, exclude);
      cand := c;
      if c == [] { return None, c; }
      assert Eligible(entries, avail, exclude, c[0]);
      var best: nat;
      match strategy {
        case RoundRobin => best := PickRoundRobin(c);
        case Random => best := PickRandom(c, draw);
        case LeastUsed => best := PickLeast(c, loads, false);
        case LeastRequests => best := PickLeast(c, loads, true);
      }
      picked := Some(best);
    }
  }

  lemma {:induction false} RaisedNone(start: seq<int>, w: seq<int>, cand: seq<nat>)
    requires |start| == |w|
    ensures MachineRaised(start, w, cand[..0]) == start
  {
  }

  lemma {:induction false} MachineStays(start: seq<int>, w: seq<int>, cand: seq<nat>)
    requires |start| == |w| && cand != [] && InRange(cand, |w|) && MachineTotal(w, cand) <= 0
    ensures MachinePick(start, w, cand) == cand[0] && MachineNext(start, w, cand) == start
  {
    hide TotalWeight, Largest, Wrap64, MachineRaised;
  }

  /** One round of the raising loop extends the processed prefix by one candidate. */
  lemma {:induction false} RoundStep(start: seq<int>, w: seq<int>, cand: seq<nat>, k: nat, before: seq<int>)
    requires |start| == |w| && InRange(cand, |w|) && Distinct(cand) && k < |cand|
    requires before == MachineRaised(start, w, cand[..k])
    ensures var after := before[cand[k] := Wrap64(before[cand[k]] + w[cand[k]])];
            && after == MachineRaised(start, w, cand[..k + 1])
            && Largest(after, cand[..k + 1]) ==
                 if k == 0 then cand[0]
                 else var b := Largest(before, cand[..k]); if after[cand[k]] > after[b] then cand[k] else b
  {
    hide *;
    PrefixOf(cand, k, |w|);
    var i := cand[k];
    var after := before[i := Wrap64(before[i] + w[i])];
    RaisedFurther(start, w, cand[..k + 1], before);
    if k > 0 { LargestIgnores(before, cand[..k], i, Wrap64(before[i] + w[i])); }
    LargestOfMore(after, cand[..k + 1]);
  }

  lemma {:induction false} PrefixOf(cand: seq<nat>, k: nat, n: nat)
    requires InRange(cand, n) && Distinct(cand) && k < |cand|
    ensures cand[k] < n && cand[k] !in cand[..k] && InRange(cand[..k], n) && InRange(cand[..k + 1], n)
    ensures cand[..k + 1][..k] == cand[..k] && cand[..k + 1][k] == cand[k]
  {
  }

  lemma {:induction false} RaisedFurther(start: seq<int>, w: seq<int>, cand: seq<nat>, before: seq<int>)
    requires |start| == |w| && InRange(cand, |w|) && cand != []
    requires before == MachineRaised(start, w, cand[..|cand| - 1])
    ensures var i := cand[|cand| - 1]; before[i := Wrap64(before[i] + w[i])] == MachineRaised(start, w, cand)
  {
    hide Wrap64;
  }

  lemma {:induction false} LargestOfMore(xs: seq<int>, cand: seq<nat>)
    requires cand != [] && InRange(cand, |xs|)
    ensures var n := |cand| - 1;
            Largest(xs, cand) == if n == 0 then cand[0] else var b := Largest(xs, cand[..n]); if xs[cand[n]] > xs[b] then cand[n] else b
  {
  }

  /** A change outside the candidates does not move their largest. */
  lemma {:induction false} LargestIgnores(xs: seq<int>, cand: seq<nat>, i: nat, v: int)
    requires cand != [] && InRange(cand, |xs|) && i < |xs| && i !in cand
    ensures Largest(xs[i := v], cand) == Largest(xs, cand)
  {
    if |cand| > 1 { LargestIgnores(xs, cand[..|cand| - 1], i, v); }
  }
}
