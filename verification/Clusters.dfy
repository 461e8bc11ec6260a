/** The greedy multi-cluster cutter of the retest analysis. */
module Clusters {
  import opened Wrappers
  import opened Samples

  const MIN_PART: nat := 3

  predicate Gap(ordered: seq<real>, threshold: real, i: nat) {
    0 < i < |ordered| && ordered[i] - ordered[i - 1] > threshold
  }

  /** Cuts start at 0, are at least three apart, lie on gaps and below `limit`. */
  predicate Spaced(ordered: seq<real>, threshold: real, cuts: seq<nat>, limit: nat) {
    && cuts != [] && cuts[0] == 0
    && (forall j, k :: 0 <= j < k < |cuts| ==> cuts[j] + MIN_PART <= cuts[k])
    && (forall k :: 1 <= k < |cuts| ==> Gap(ordered, threshold, cuts[k]) && cuts[k] < limit)
  }

  /** A way to divide the whole sample: every part has at least three elements and every interior
      cut lies on a gap above the threshold. */
  predicate IsDivision(ordered: seq<real>, threshold: real, cuts: seq<nat>) {
    && |cuts| >= 2
    && Spaced(ordered, threshold, cuts[..|cuts| - 1], |ordered|)
    && cuts[|cuts| - 1] == |ordered|
    && cuts[|cuts| - 2] + MIN_PART <= |ordered|
  }

  /** Greedy stays ahead: no cut list below `limit` is longer, and each of the greedy cuts comes no
      later than the corresponding cut of any other list. */
  ghost predicate Ahead(ordered: seq<real>, threshold: real, cuts: seq<nat>, limit: nat) {
    forall p: seq<nat> :: Spaced(ordered, threshold, p, limit) ==>
      |p| <= |cuts| && cuts[|p| - 1] <= p[|p| - 1]
  }

  /** The state of the loop before it looks at `index`. */
  ghost predicate Greedy(ordered: seq<real>, threshold: real, cuts: seq<nat>, index: nat) {
    Spaced(ordered, threshold, cuts, index) && Ahead(ordered, threshold, cuts, index)
  }

  function Extended(ordered: seq<real>, threshold: real, cuts: seq<nat>, index: nat): seq<nat>
    requires cuts != []
  {
    if Gap(ordered, threshold, index) && index - cuts[|cuts| - 1] >= MIN_PART then cuts + [index] else cuts
  }

  lemma GreedyStep(ordered: seq<real>, threshold: real, cuts: seq<nat>, index: nat)
    requires Greedy(ordered, threshold, cuts, index) && 0 < index
    ensures Greedy(ordered, threshold, Extended(ordered, threshold, cuts, index), index + 1)
  {
    var cuts' := Extended(ordered, threshold, cuts, index);
    forall p: seq<nat> | Spaced(ordered, threshold, p, index + 1)
      ensures |p| <= |cuts'| && cuts'[|p| - 1] <= p[|p| - 1]
    {
      AheadOf(ordered, threshold, cuts, index, p);
    }
  }

  lemma AheadOf(ordered: seq<real>, threshold: real, cuts: seq<nat>, index: nat, p: seq<nat>)
    requires Greedy(ordered, threshold, cuts, index) && 0 < index
    requires Spaced(ordered, threshold, p, index + 1)
    ensures var cuts' := Extended(ordered, threshold, cuts, index);
            |p| <= |cuts'| && cuts'[|p| - 1] <= p[|p| - 1]
  {
    if p[|p| - 1] < index {
      SpacedBelow(ordered, threshold, p, index);
      AheadAt(ordered, threshold, cuts, index, p);
    } else {
      AheadWithIndex(ordered, threshold, cuts, index, p);
    }
  }

  lemma AheadAt(ordered: seq<real>, threshold: real, cuts: seq<nat>, index: nat, p: seq<nat>)
    requires Ahead(ordered, threshold, cuts, index) && Spaced(ordered, threshold, p, index)
    ensures |p| <= |cuts| && cuts[|p| - 1] <= p[|p| - 1]
  {
  }

  lemma SpacedBelow(ordered: seq<real>, threshold: real, p: seq<nat>, index: nat)
    requires Spaced(ordered, threshold, p, index + 1) && p[|p| - 1] < index
    ensures Spaced(ordered, threshold, p, index)
  {
    forall k | 1 <= k < |p| ensures p[k] < index {
      assert k < |p| - 1 ==> p[k] + MIN_PART <= p[|p| - 1];
    }
  }

  /** A list that ends with the index itself: without it, the greedy cuts are ahead, so they can take the index too. */
  lemma AheadWithIndex(ordered: seq<real>, threshold: real, cuts: seq<nat>, index: nat, p: seq<nat>)
    requires Greedy(ordered, threshold, cuts, index) && 0 < index
    requires Spaced(ordered, threshold, p, index + 1) && index <= p[|p| - 1]
    ensures var cuts' := Extended(ordered, threshold, cuts, index);
            |p| <= |cuts'| && cuts'[|p| - 1] <= p[|p| - 1]
  {
    SpacedInit(ordered, threshold, p, index);
    var q := p[..|p| - 1];
    AheadAt(ordered, threshold, cuts, index, q);
    CutsBelow(ordered, threshold, cuts, index);
    ExtendedAhead(ordered, threshold, cuts, index, |q|);
  }

  lemma CutsBelow(ordered: seq<real>, threshold: real, cuts: seq<nat>, index: nat)
    requires Spaced(ordered, threshold, cuts, index)
    ensures forall k :: 0 <= k < |cuts| ==> cuts[k] <= index
  {
  }

  lemma ExtendedAhead(ordered: seq<real>, threshold: real, cuts: seq<nat>, index: nat, m: nat)
    requires Gap(ordered, threshold, index) && 1 <= m <= |cuts| && cuts[m - 1] + MIN_PART <= index
    requires forall k :: 0 <= k < |cuts| ==> cuts[k] <= index
    ensures var cuts' := Extended(ordered, threshold, cuts, index); m + 1 <= |cuts'| && cuts'[m] <= index
  {
  }

  lemma SpacedInit(ordered: seq<real>, threshold: real, p: seq<nat>, index: nat)
    requires Spaced(ordered, threshold, p, index + 1) && index <= p[|p| - 1] && 0 < index
    ensures |p| >= 2 && p[|p| - 1] == index && Gap(ordered, threshold, index)
    ensures Spaced(ordered, threshold, p[..|p| - 1], index) && p[|p| - 2] + MIN_PART <= index
  {}

  function Limit(n: nat): nat { if n >= 5 then n - 2 else 3 }

  /** One turn of the loop of `clusters`. */
  method CutHere(ordered: seq<real>, threshold: real, cuts: seq<nat>, index: nat) returns (r: seq<nat>)
    requires 0 < index < |ordered| && cuts != []
    ensures r == Extended(ordered, threshold, cuts, index)
  {
    r := cuts;
    if ordered[index] - ordered[index - 1] > threshold && index - cuts[|cuts| - 1] >= MIN_PART {
      r := cuts + [index];
    }
  }

  /** The loop of `clusters`: the cuts of the sorted sample, then its end. */
  method Cut(ordered: seq<real>, threshold: real) returns (cuts: seq<nat>)
    requires ordered != []
    ensures Tiling(ordered, cuts) && Optimal(ordered, threshold, cuts) && Earliest(ordered, threshold, cuts)
  {
    cuts := [0];
    AheadAtFirst(ordered, threshold);
    var index := 3;
    while index < |ordered| - 2
      invariant 3 <= index && (index == 3 || index <= |ordered| - 2)
      invariant Greedy(ordered, threshold, cuts, index)
    {
      GreedyStep(ordered, threshold, cuts, index);
      cuts := CutHere(ordered, threshold, cuts, index);
      index := index + 1;
    }
    GreedyOptimal(ordered, threshold, cuts);
    GreedyEarliest(ordered, threshold, cuts);
    cuts := cuts + [|ordered|];
  }

  lemma SecondCut(ordered: seq<real>, threshold: real, p: seq<nat>, limit: nat)
    requires Spaced(ordered, threshold, p, limit) && |p| >= 2
    ensures MIN_PART <= p[1] < limit
  {
    assert p[0] + MIN_PART <= p[1];
  }

  lemma AheadAtFirst(ordered: seq<real>, threshold: real)
    ensures Greedy(ordered, threshold, [0], 3)
  {
    forall p: seq<nat> | Spaced(ordered, threshold, p, 3) ensures |p| <= 1 {
      if |p| >= 2 {
        SecondCut(ordered, threshold, p, 3);
      }
    }
  }

  datatype Cluster = Cluster(n: nat, medianMs: real)

  /** No division of the sample has more parts than the greedy one, and for a sample of at least
      three elements the greedy one is a division. */
  ghost predicate Optimal(ordered: seq<real>, threshold: real, cuts: seq<nat>) {
    && (|ordered| >= MIN_PART ==> IsDivision(ordered, threshold, cuts))
    && forall other: seq<nat> :: IsDivision(ordered, threshold, other) ==> |other| <= |cuts|
  }

  lemma GreedyOptimal(ordered: seq<real>, threshold: real, cuts: seq<nat>)
    requires Greedy(ordered, threshold, cuts, Limit(|ordered|))
    ensures Optimal(ordered, threshold, cuts + [|ordered|])
    ensures ordered != [] ==> Tiling(ordered, cuts + [|ordered|])
  {
  }

  /** Each cut comes no later than the same cut of any division. */
  ghost predicate Earliest(ordered: seq<real>, threshold: real, cuts: seq<nat>) {
    forall other: seq<nat>, k :: IsDivision(ordered, threshold, other) && 0 <= k < |other| - 1 ==>
      k < |cuts| && cuts[k] <= other[k]
  }

  lemma FirstCutsSpaced(ordered: seq<real>, threshold: real, other: seq<nat>, k: nat)
    requires IsDivision(ordered, threshold, other) && k < |other| - 1
    ensures Spaced(ordered, threshold, other[..k + 1], Limit(|ordered|))
  {
    var interior, first := other[..|other| - 1], other[..k + 1];
    forall j | 1 <= j < |first| ensures first[j] < Limit(|ordered|) {
      assert interior[0] + MIN_PART <= interior[j];
      assert j < |interior| - 1 ==> interior[j] + MIN_PART <= interior[|interior| - 1];
      assert interior[j] + MIN_PART <= |ordered|;
    }
    forall j, k | 0 <= j < k < |first| ensures first[j] + MIN_PART <= first[k] {
      assert first[j] == interior[j] && first[k] == interior[k];
    }
    forall j | 1 <= j < |first| ensures Gap(ordered, threshold, first[j]) {
      assert first[j] == interior[j];
    }
  }

  lemma GreedyEarliest(ordered: seq<real>, threshold: real, cuts: seq<nat>)
    requires Greedy(ordered, threshold, cuts, Limit(|ordered|))
    ensures Earliest(ordered, threshold, cuts + [|ordered|])
  {
    forall other: seq<nat>, k | IsDivision(ordered, threshold, other) && 0 <= k < |other| - 1
      ensures k < |cuts + [|ordered|]| && (cuts + [|ordered|])[k] <= other[k]
    {
      FirstCutsSpaced(ordered, threshold, other, k);
      AheadAt(ordered, threshold, cuts, Limit(|ordered|), other[..k + 1]);
    }
  }

  /** Only one division is optimal and earliest. */
  lemma OneGreedyDivision(ordered: seq<real>, threshold: real, a: seq<nat>, b: seq<nat>)
    requires |ordered| >= MIN_PART
    requires Optimal(ordered, threshold, a) && Earliest(ordered, threshold, a)
    requires Optimal(ordered, threshold, b) && Earliest(ordered, threshold, b)
    ensures a == b
  {
    assert IsDivision(ordered, threshold, a) && IsDivision(ordered, threshold, b);
    forall k | 0 <= k < |a| - 1 ensures a[k] == b[k] {
      assert a[k] <= b[k] && b[k] <= a[k];
    }
  }

  /** Cuts that divide the sample into non-empty parts. */
  predicate Tiling(ordered: seq<real>, cuts: seq<nat>) {
    && |cuts| >= 2 && cuts[0] == 0 && cuts[|cuts| - 1] == |ordered|
    && forall j, k :: 0 <= j < k < |cuts| ==> cuts[j] < cuts[k]
  }

  function Part(ordered: seq<real>, cuts: seq<nat>, k: nat): (part: seq<real>)
    requires Tiling(ordered, cuts) && k < |cuts| - 1
    ensures part != []
  {
    assert cuts[k] < cuts[k + 1] && (k + 1 < |cuts| - 1 ==> cuts[k + 1] < cuts[|cuts| - 1]);
    ordered[cuts[k]..cuts[k + 1]]
  }

  /** The first `n` parts, one after the other. */
  function Parts(ordered: seq<real>, cuts: seq<nat>, n: nat): seq<real>
    requires Tiling(ordered, cuts) && n < |cuts|
  {
    if n == 0 then [] else Parts(ordered, cuts, n - 1) + Part(ordered, cuts, n - 1)
  }

  /** The parts tile the sorted sample. */
  lemma {:induction false} PartsTile(ordered: seq<real>, cuts: seq<nat>, n: nat)
    requires Tiling(ordered, cuts) && n < |cuts|
    ensures cuts[n] <= |ordered| && Parts(ordered, cuts, n) == ordered[..cuts[n]]
  {
    assert n < |cuts| - 1 ==> cuts[n] < cuts[|cuts| - 1];
    if n > 0 {
      PartsTile(ordered, cuts, n - 1);
      assert cuts[n - 1] < cuts[n];
    }
  }

  function Threshold(ordered: seq<real>): real
    requires ordered != []
  {
    if 0.1 * Median(ordered) > 5000000.0 then 0.1 * Median(ordered) else 5000000.0
  }

  /** A gap is above the threshold if and only if it is above five milliseconds and above a tenth of the median. */
  lemma ThresholdMeans(ordered: seq<real>, gap: real)
    requires ordered != []
    ensures gap > Threshold(ordered) <==> gap > 5000000.0 && 10.0 * gap > Median(ordered)
  {
  }

  /** Size and median of each part. */
  ghost predicate Summarizes(clusters: seq<Cluster>, ordered: seq<real>, cuts: seq<nat>)
    requires Tiling(ordered, cuts)
  {
    && |clusters| == |cuts| - 1
    && forall k :: 0 <= k < |clusters| ==>
         clusters[k] == Cluster(|Part(ordered, cuts, k)|, Median(Part(ordered, cuts, k)) / 1000000.0)
  }

  method Summarize(ordered: seq<real>, cuts: seq<nat>) returns (clusters: seq<Cluster>)
    requires Tiling(ordered, cuts)
    ensures Summarizes(clusters, ordered, cuts)
  {
    clusters := [];
    for k := 0 to |cuts| - 1
      invariant |clusters| == k
      invariant forall j :: 0 <= j < k ==>
                  clusters[j] == Cluster(|Part(ordered, cuts, j)|, Median(Part(ordered, cuts, j)) / 1000000.0)
    {
      var part := Part(ordered, cuts, k);
      clusters := clusters + [Cluster(cuts[k + 1] - cuts[k], Median(part) / 1000000.0)];
    }
  }

  lemma PartSorted(ordered: seq<real>, cuts: seq<nat>, k: nat)
    requires Sorted(ordered) && Tiling(ordered, cuts) && k < |cuts| - 1
    ensures Sorted(Part(ordered, cuts, k))
  {
    var part, from := Part(ordered, cuts, k), cuts[k];
    forall i, j | 0 <= i <= j < |part| ensures part[i] <= part[j] {
      assert part[i] == ordered[from + i] && part[j] == ordered[from + j];
    }
  }

  /** A reported cluster tells the size of its part, and half of the part lies on each side of its median, in
      milliseconds. */
  lemma ClusterTells(clusters: seq<Cluster>, ordered: seq<real>, cuts: seq<nat>, k: nat)
    requires Sorted(ordered) && Tiling(ordered, cuts) && Summarizes(clusters, ordered, cuts) && k < |clusters|
    ensures var part, m := Part(ordered, cuts, k), clusters[k].medianMs * 1000000.0;
            clusters[k].n == |part| && |part| <= 2 * AtMost(part, m) && |part| <= 2 * AtLeast(part, m)
  {
    PartSorted(ordered, cuts, k);
    MedianHalves(Part(ordered, cuts, k));
  }

  function Sizes(clusters: seq<Cluster>): nat {
    if clusters == [] then 0 else Sizes(clusters[..|clusters| - 1]) + clusters[|clusters| - 1].n
  }

  lemma {:induction false} SizesUpto(clusters: seq<Cluster>, ordered: seq<real>, cuts: seq<nat>, n: nat)
    requires Tiling(ordered, cuts) && Summarizes(clusters, ordered, cuts) && n <= |clusters|
    ensures cuts[n] <= |ordered| && Sizes(clusters[..n]) == cuts[n]
  {
    PartsTile(ordered, cuts, n);
    if n > 0 {
      SizesUpto(clusters, ordered, cuts, n - 1);
      assert clusters[..n][..n - 1] == clusters[..n - 1];
    }
  }

  /** The sizes of the reported clusters add up to the sample. */
  lemma SizesAddUp(clusters: seq<Cluster>, ordered: seq<real>, cuts: seq<nat>)
    requires Tiling(ordered, cuts) && Summarizes(clusters, ordered, cuts)
    ensures Sizes(clusters) == |ordered|
  {
    SizesUpto(clusters, ordered, cuts, |clusters|);
    assert clusters[..|clusters|] == clusters;
  }

  /** The reported clusters describe the division of the sample into the greatest possible number of parts whose cuts
      come first. */
  ghost predicate Divides(ordered: seq<real>, cuts: seq<nat>, clusters: seq<Cluster>)
    requires ordered != []
  {
    && Tiling(ordered, cuts) && Optimal(ordered, Threshold(ordered), cuts) && Earliest(ordered, Threshold(ordered), cuts)
    && Summarizes(clusters, ordered, cuts) && Parts(ordered, cuts, |clusters|) == ordered
  }

  method Divide(ordered: seq<real>) returns (clusters: seq<Cluster>, ghost cuts: seq<nat>)
    requires ordered != []
    ensures Divides(ordered, cuts, clusters)
  {
    var all := Cut(ordered, Threshold(ordered));
    PartsTile(ordered, all, |all| - 1);
    assert ordered[..|ordered|] == ordered;
    clusters := Summarize(ordered, all);
    cuts := all;
  }

  /** An empty sample has no median and is an error. Otherwise the reported clusters divide the sorted sample. */
  method FindClusters(values: seq<real>) returns (r: Result<seq<Cluster>>, ghost cuts: seq<nat>)
    ensures r.Err? <==> values == []
    ensures r.Ok? ==> Ordered(values) != [] && Divides(Ordered(values), cuts, r.value)
  {
    cuts := [];
    if values == [] {
      return Err, cuts;
    }
    OrderedSorted(values);
    var clusters;
    clusters, cuts := Divide(Ordered(values));
    r := Ok(clusters);
  }
}
