/** The two rules that split a sample into two separated clusters. */
module Separation {
  import opened Wrappers
  import opened Samples

  const MIN_CLUSTER: nat := 3

  predicate CutInRange(n: nat, cut: nat) {
    MIN_CLUSTER <= cut <= n - MIN_CLUSTER
  }

  /** right[0] / left[-1] */
  function AdjacentRatio(ordered: seq<real>, cut: nat): real
    requires CutInRange(|ordered|, cut) && ordered[cut - 1] != 0.0
  {
    ordered[cut] / ordered[cut - 1]
  }

  function MedianRatio(ordered: seq<real>, cut: nat): real
    requires CutInRange(|ordered|, cut) && Median(ordered[..cut]) != 0.0
  {
    Median(ordered[cut..]) / Median(ordered[..cut])
  }

  predicate Positive(ordered: seq<real>, cut: nat)
    requires CutInRange(|ordered|, cut)
  {
    ordered[cut - 1] > 0.0 && Median(ordered[..cut]) > 0.0
  }

  /** The registered rule: three per cluster, adjacent ratio 1.5, median ratio 1.7. */
  predicate Qualifies(ordered: seq<real>, cut: nat) {
    && CutInRange(|ordered|, cut)
    && Positive(ordered, cut)
    && AdjacentRatio(ordered, cut) >= 1.5
    && MedianRatio(ordered, cut) >= 1.7
  }

  /** `cut` has the largest adjacent ratio of all qualifying cuts and is the lowest such cut. */
  ghost predicate BestCut(ordered: seq<real>, cut: nat) {
    && Qualifies(ordered, cut)
    && forall c: nat :: Qualifies(ordered, c) ==>
         AdjacentRatio(ordered, c) < AdjacentRatio(ordered, cut)
         || (AdjacentRatio(ordered, c) == AdjacentRatio(ordered, cut) && cut <= c)
  }

  datatype Cluster = Cluster(
    members: seq<nat>, values: seq<real>, fraction: real, median: real, min: real, max: real, pairs: Option<seq<string>>)

  datatype Distribution =
    | NotTestable
    | NoQualifyingSplit
    | Separated(left: Cluster, right: Cluster, adjacentRatio: real, medianRatio: real)

  datatype Candidate = Candidate(gap: real, cut: nat, ratio: real)

  /** The labels of the samples, by their original indices. */
  function LabelsOf(s: seq<Sample>, labels: seq<string>): (r: seq<string>)
    requires forall i :: 0 <= i < |s| ==> s[i].index < |labels|
    ensures |r| == |s| && forall i :: 0 <= i < |s| ==> r[i] == labels[s[i].index]
  {
    seq(|s|, i requires 0 <= i < |s| => labels[s[i].index])
  }

  /** The samples point into the labels, if there are labels. */
  predicate Labelled(s: seq<Sample>, labels: Option<seq<string>>) {
    labels.Some? ==> forall i :: 0 <= i < |s| ==> s[i].index < |labels.value|
  }

  function Fraction(part: nat, total: nat): real
    requires 0 < total
  {
    part as real / total as real
  }

  function Describe(s: seq<Sample>, total: nat, labels: Option<seq<string>>): Cluster
    requires s != [] && 0 < total && Labelled(s, labels)
  {
    Cluster(Indices(s), Values(s), Fraction(|s|, total), Median(Values(s)), s[0].value, s[|s| - 1].value,
            if labels.None? then None else Some(LabelsOf(s, labels.value)))
  }

  /** All qualifying cuts, in ascending order. */
  ghost predicate Collected(ordered: seq<real>, candidates: seq<Candidate>, limit: nat) {
    && (forall k :: 0 <= k < |candidates| ==> Describes(ordered, candidates[k]))
    && (forall c :: 0 <= c < limit && Qualifies(ordered, c) ==> HasCut(candidates, c))
  }

  predicate Describes(ordered: seq<real>, c: Candidate) {
    && Qualifies(ordered, c.cut)
    && c.gap == AdjacentRatio(ordered, c.cut) && c.ratio == MedianRatio(ordered, c.cut)
  }

  predicate HasCut(candidates: seq<Candidate>, cut: nat) {
    exists k :: 0 <= k < |candidates| && candidates[k].cut == cut
  }

  method Candidates(ordered: seq<real>) returns (candidates: seq<Candidate>)
    requires |ordered| >= 2 * MIN_CLUSTER
    ensures Collected(ordered, candidates, |ordered|)
  {
    candidates := [];
    for cut := MIN_CLUSTER to |ordered| - MIN_CLUSTER + 1
      invariant Collected(ordered, candidates, cut)
    {
      var left, right := ordered[..cut], ordered[cut..];
      ghost var before := candidates;
      if left[cut - 1] > 0.0 && Median(left) > 0.0 {
        var gap := right[0] / left[cut - 1];
        var ratio := Median(right) / Median(left);
        if gap >= 1.5 && ratio >= 1.7 {
          candidates := candidates + [Candidate(gap, cut, ratio)];
          assert candidates[|before|].cut == cut;
        }
      }
      forall c | 0 <= c < cut + 1 && Qualifies(ordered, c) ensures HasCut(candidates, c) {
        if c < cut {
          assert HasCut(before, c);
          var k :| 0 <= k < |before| && before[k].cut == c;
          assert candidates[k].cut == c;
        }
      }
    }
  }

  /** max() over (gap, -cut, cut, ratio). */
  method Largest(candidates: seq<Candidate>) returns (best: Candidate)
    requires candidates != []
    ensures best in candidates
    ensures forall c :: c in candidates ==> c.gap < best.gap || (c.gap == best.gap && best.cut <= c.cut)
  {
    best := candidates[0];
    for i := 1 to |candidates|
      invariant best in candidates
      invariant forall j :: 0 <= j < i ==>
                  candidates[j].gap < best.gap || (candidates[j].gap == best.gap && best.cut <= candidates[j].cut)
    {
      if candidates[i].gap > best.gap || (candidates[i].gap == best.gap && candidates[i].cut < best.cut) {
        best := candidates[i];
      }
    }
  }

  /** The best qualifying cut, if any cut qualifies. */
  method ChooseCut(ordered: seq<real>) returns (choice: Option<Candidate>)
    requires |ordered| >= 2 * MIN_CLUSTER
    ensures choice.None? ==> forall c: nat :: !Qualifies(ordered, c)
    ensures choice.Some? ==> Describes(ordered, choice.value) && BestCut(ordered, choice.value.cut)
  {
    var candidates := Candidates(ordered);
    if candidates == [] {
      forall c: nat ensures !Qualifies(ordered, c) {
        assert Qualifies(ordered, c) ==> HasCut(candidates, c);
      }
      return None;
    }
    var best := Largest(candidates);
    BestOfCollected(ordered, candidates, best);
    return Some(best);
  }

  /** Labels must match the values. Fewer than six values are not testable. Otherwise the answer is negative exactly
      when no cut qualifies, and a positive answer reports the best cut: the samples below it and above it in
      stable order, each at least three, together all samples with their original indices. */
  method SeparatedDistribution(values: seq<real>, labels: Option<seq<string>>)
    returns (r: Result<Distribution>, ghost cut: nat)
    ensures r.Err? <==> labels.Some? && |labels.value| != |values|
    ensures r.Ok? ==> (r.value.NotTestable? <==> |values| < 2 * MIN_CLUSTER)
    ensures r.Ok? && r.value.NoQualifyingSplit? ==> forall c: nat :: !Qualifies(Ordered(values), c)
    ensures r.Ok? && r.value.Separated? ==>
              BestCut(Ordered(values), cut) && Reports(r.value, SortSamples(values), cut, labels)
  {
    cut := 0;
    if labels.Some? && |labels.value| != |values| {
      return Err, cut;
    }
    if |values| < 2 * MIN_CLUSTER {
      return Ok(NotTestable), cut;
    }
    var samples := SortSamples(values);
    OrderedSorted(values);
    PrefixIndices(values, |values|);
    var choice := ChooseCut(Values(samples));
    if choice.None? {
      return Ok(NoQualifyingSplit), cut;
    }
    cut := choice.value.cut;
    var report := Report(samples, choice.value, labels);
    r := Ok(report);
  }

  method Report(samples: seq<Sample>, best: Candidate, labels: Option<seq<string>>) returns (r: Distribution)
    requires Describes(Values(samples), best) && Labelled(samples, labels)
    ensures Reports(r, samples, best.cut, labels)
  {
    var left := Describe(samples[..best.cut], |samples|, labels);
    var right := Describe(samples[best.cut..], |samples|, labels);
    r := Separated(left, right, best.gap, best.ratio);
  }

  /** The two clusters are the samples on both sides of the cut. */
  predicate SplitAt(r: Distribution, samples: seq<Sample>, cut: nat, labels: Option<seq<string>>) {
    && r.Separated? && CutInRange(|samples|, cut) && Labelled(samples, labels)
    && r.left == Describe(samples[..cut], |samples|, labels) && r.right == Describe(samples[cut..], |samples|, labels)
  }

  /** The report lists the samples on both sides of the cut and the two ratios there. */
  predicate Reports(r: Distribution, samples: seq<Sample>, cut: nat, labels: Option<seq<string>>) {
    SplitAt(r, samples, cut, labels) && Describes(Values(samples), Candidate(r.adjacentRatio, cut, r.medianRatio))
  }

  /** The member indices of the two clusters are all the original indices, each once, and their fractions add up
      to the whole. */
  lemma MembersPartition(values: seq<real>, r: Distribution, cut: nat, labels: Option<seq<string>>)
    requires SplitAt(r, SortSamples(values), cut, labels)
    ensures |r.left.members| == cut >= MIN_CLUSTER && |r.right.members| >= MIN_CLUSTER
    ensures multiset(r.left.members + r.right.members) == multiset(Upto(|values|))
    ensures r.left.fraction + r.right.fraction == 1.0
  {
    SplitIndices(values, cut);
    SplitFractions(r, SortSamples(values), cut, labels);
  }

  lemma SplitFractions(r: Distribution, samples: seq<Sample>, cut: nat, labels: Option<seq<string>>)
    requires SplitAt(r, samples, cut, labels)
    ensures r.left.fraction + r.right.fraction == 1.0
  {
    FractionsAddUp(cut, |samples| - cut);
  }

  lemma FractionsAddUp(a: nat, b: nat)
    requires 0 < a + b
    ensures Fraction(a, a + b) + Fraction(b, a + b) == 1.0
  {
    QuotientsOfWhole(a as real, b as real, (a + b) as real);
  }

  lemma QuotientsOfWhole(a: real, b: real, n: real)
    requires n > 0.0 && a + b == n
    ensures a / n + b / n == 1.0
  {
    DivideTimes(a, n);
    DivideTimes(b, n);
    WholeIsOne(a / n, b / n, a, b, n);
  }

  lemma DivideTimes(a: real, n: real)
    requires n > 0.0
    ensures a / n * n == a
  {
  }

  lemma WholeIsOne(x: real, y: real, a: real, b: real, n: real)
    requires n > 0.0 && x * n == a && y * n == b && a + b == n
    ensures x + y == 1.0
  {
    var rest := x + y - 1.0;
    assert rest * n == x * n + y * n - n;
    assert rest > 0.0 ==> rest * n > 0.0;
    assert rest < 0.0 ==> rest * n < 0.0;
  }

  /** The cluster's values are those at its members, and its labels theirs. */
  ghost predicate TakenFrom(c: Cluster, values: seq<real>, labels: Option<seq<string>>) {
    && |c.values| == |c.members| > 0 && (c.pairs.Some? <==> labels.Some?)
    && (c.pairs.Some? ==> |c.pairs.value| == |c.members|)
    && (forall k :: 0 <= k < |c.members| ==> TakenAt(c, k, values, labels))
  }

  predicate TakenAt(c: Cluster, k: nat, values: seq<real>, labels: Option<seq<string>>)
    requires k < |c.members| == |c.values| && (c.pairs.Some? ==> |c.pairs.value| == |c.members|)
  {
    && c.members[k] < |values| && c.values[k] == values[c.members[k]]
    && (c.pairs.Some? && labels.Some? ==>
          c.members[k] < |labels.value| && c.pairs.value[k] == labels.value[c.members[k]])
  }

  /** Its smallest and largest values are among its values and bound them, half of them lie on each side of its median,
      and its share of the `n` samples is its size. */
  ghost predicate Summed(c: Cluster, n: nat)
    requires 0 < n
  {
    && c.min in c.values && c.max in c.values && (forall k :: 0 <= k < |c.values| ==> c.min <= c.values[k] <= c.max)
    && |c.values| <= 2 * AtMost(c.values, c.median) && |c.values| <= 2 * AtLeast(c.values, c.median)
    && c.fraction == |c.values| as real / n as real
  }

  /** Each sorted sample is the value at its own position. */
  lemma SampleIs(values: seq<real>, i: nat)
    requires i < |SortSamples(values)|
    ensures var s := SortSamples(values)[i]; s.index < |values| && s.value == values[s.index]
  {
    SortCorrect(values);
    var s := SortSamples(values)[i];
    assert s in multiset(SortSamples(values));
    assert s in Enumerate(values, |values|);
  }

  predicate AreSamplesOf(s: seq<Sample>, values: seq<real>) {
    forall k :: 0 <= k < |s| ==> s[k].index < |values| && s[k].value == values[s[k].index]
  }

  lemma DescribeTakes(values: seq<real>, s: seq<Sample>, n: nat, labels: Option<seq<string>>)
    requires s != [] && 0 < n && Labelled(s, labels) && AreSamplesOf(s, values)
    ensures TakenFrom(Describe(s, n, labels), values, labels)
  {
  }

  lemma EndsBound(xs: seq<real>)
    requires xs != [] && Sorted(xs)
    ensures xs[0] in xs && xs[|xs| - 1] in xs && forall k :: 0 <= k < |xs| ==> xs[0] <= xs[k] <= xs[|xs| - 1]
  {
  }

  lemma DescribeSums(s: seq<Sample>, n: nat, labels: Option<seq<string>>)
    requires s != [] && 0 < n && Labelled(s, labels) && Sorted(Values(s))
    ensures Summed(Describe(s, n, labels), n)
  {
    var xs := Values(s);
    MedianHalves(xs);
    EndsBound(xs);
    DescribeSays(s, n, labels);
  }

  lemma DescribeSays(s: seq<Sample>, n: nat, labels: Option<seq<string>>)
    requires s != [] && 0 < n && Labelled(s, labels)
    ensures var c, xs := Describe(s, n, labels), Values(s);
            && c.values == xs && c.median == Median(xs) && c.min == xs[0] && c.max == xs[|xs| - 1]
            && c.fraction == Fraction(|s|, n)
  {
  }

  lemma PartSorted(s: seq<Sample>, from: nat, to: nat)
    requires from <= to <= |s| && Sorted(Values(s))
    ensures Sorted(Values(s[from..to]))
  {
    var part := s[from..to];
    forall i, j | 0 <= i <= j < |part| ensures part[i].value <= part[j].value {
      assert Values(s)[from + i] <= Values(s)[from + j];
    }
  }

  lemma SortedParts(values: seq<real>, cut: nat)
    requires cut <= |SortSamples(values)|
    ensures var s := SortSamples(values);
            && AreSamplesOf(s[..cut], values) && AreSamplesOf(s[cut..], values)
            && Sorted(Values(s)) && Sorted(Values(s[..cut])) && Sorted(Values(s[cut..]))
  {
    var s := SortSamples(values);
    OrderedSorted(values);
    forall k | 0 <= k < |s| ensures s[k].index < |values| && s[k].value == values[s[k].index] {
      SampleIs(values, k);
    }
    PartSorted(s, 0, cut);
    PartSorted(s, cut, |s|);
    assert s[0..cut] == s[..cut] && s[cut..|s|] == s[cut..];
  }

  /** What a reported split says of the sample: each cluster describes its own members by their positions. */
  lemma ClustersDescribe(values: seq<real>, r: Distribution, cut: nat, labels: Option<seq<string>>)
    requires SplitAt(r, SortSamples(values), cut, labels)
    ensures SortSamples(values) != []
    ensures TakenFrom(r.left, values, labels) && Summed(r.left, |SortSamples(values)|)
    ensures TakenFrom(r.right, values, labels) && Summed(r.right, |SortSamples(values)|)
  {
    var s := SortSamples(values);
    SortedParts(values, cut);
    DescribeTakes(values, s[..cut], |s|, labels);
    DescribeSums(s[..cut], |s|, labels);
    DescribeTakes(values, s[cut..], |s|, labels);
    DescribeSums(s[cut..], |s|, labels);
  }

  lemma SidesAre(samples: seq<Sample>, cut: nat)
    requires 0 < cut < |samples|
    ensures Values(samples[..cut]) == Values(samples)[..cut] && Values(samples[cut..]) == Values(samples)[cut..]
  {
  }

  /** The upper cluster begins above the lower one's end by the reported ratio, and the medians are apart by theirs. */
  lemma RatiosDescribe(samples: seq<Sample>, r: Distribution, cut: nat, labels: Option<seq<string>>)
    requires Reports(r, samples, cut, labels) && Sorted(Values(samples))
    ensures 0.0 < r.left.max <= r.right.min && r.adjacentRatio == r.right.min / r.left.max
    ensures 0.0 < r.left.median && r.medianRatio == r.right.median / r.left.median
  {
    SidesAre(samples, cut);
    DescribeSays(samples[..cut], |samples|, labels);
    DescribeSays(samples[cut..], |samples|, labels);
  }

  lemma BestOfCollected(ordered: seq<real>, candidates: seq<Candidate>, best: Candidate)
    requires Collected(ordered, candidates, |ordered|) && best in candidates
    requires forall c :: c in candidates ==> c.gap < best.gap || (c.gap == best.gap && best.cut <= c.cut)
    ensures Describes(ordered, best) && BestCut(ordered, best.cut)
  {
  }

  // ----- the two ratios --------------------------------------------------------------------------

  lemma DivideMonotone(a: real, b: real, c: real, d: real)
    requires a >= c > 0.0 && 0.0 < b <= d
    ensures a / b >= c / d
  {
    var x, y := a / b, c / d;
    assert x * b == a && y * d == c;
    assert y * b <= y * d;
    assert x < y ==> x * b < y * b;
  }

  /** The median ratio is never below the adjacent ratio, so any cut whose adjacent ratio reaches
      the median threshold qualifies. */
  lemma MedianRatioAtLeastAdjacent(ordered: seq<real>, cut: nat)
    requires Sorted(ordered) && CutInRange(|ordered|, cut) && Positive(ordered, cut)
    ensures MedianRatio(ordered, cut) >= AdjacentRatio(ordered, cut)
    ensures AdjacentRatio(ordered, cut) >= 1.7 ==> Qualifies(ordered, cut)
  {
    var left, right := ordered[..cut], ordered[cut..];
    MedianBetween(left);
    MedianBetween(right);
    DivideMonotone(Median(right), Median(left), right[0], left[cut - 1]);
  }

  // ----- the rule of the DAX comparison ------------------------------------------------------------

  ghost predicate NoZeroDivision(xs: seq<real>, limit: nat) {
    forall i: nat :: CutInRange(|xs|, i) && i < limit ==> xs[i - 1] != 0.0
  }

  /** The highest cut of largest adjacent ratio among the cuts below `limit`. */
  ghost predicate DaxCut(xs: seq<real>, split: nat, limit: nat) {
    && CutInRange(|xs|, split) && split < limit
    && NoZeroDivision(xs, limit)
    && forall i: nat :: CutInRange(|xs|, i) && i < limit ==>
         AdjacentRatio(xs, i) < AdjacentRatio(xs, split)
         || (AdjacentRatio(xs, i) == AdjacentRatio(xs, split) && i <= split)
  }

  /** The DAX rule looks only at the one cut of largest gap. */
  ghost predicate DaxSplits(xs: seq<real>, split: nat) {
    && DaxCut(xs, split, |xs|)
    && AdjacentRatio(xs, split) >= 1.5
    && Median(xs[..split]) != 0.0
    && MedianRatio(xs, split) >= 1.7
  }

  /** The search for the cut of largest gap; None for a zero denominator. */
  method LargestGap(xs: seq<real>) returns (split: Option<nat>)
    requires |xs| >= 2 * MIN_CLUSTER
    ensures split.Some? ==> DaxCut(xs, split.value, |xs|)
    ensures split.None? ==> !NoZeroDivision(xs, |xs|)
  {
    assert CutInRange(|xs|, MIN_CLUSTER);
    if xs[2] == 0.0 {
      return None;
    }
    var best: nat := MIN_CLUSTER;
    for i := MIN_CLUSTER + 1 to |xs| - 2
      invariant DaxCut(xs, best, i)
    {
      assert CutInRange(|xs|, i);
      if xs[i - 1] == 0.0 {
        return None;
      }
      if AdjacentRatio(xs, i) >= AdjacentRatio(xs, best) {
        best := i;
      }
    }
    return Some(best);
  }

  /** The cut of the DAX comparison. Fewer than six values or a zero denominator is an error. */
  method FindDaxCut(values: seq<real>) returns (r: Result<Option<nat>>)
    ensures r.Err? <==>
              |values| < 2 * MIN_CLUSTER || !NoZeroDivision(Ordered(values), |values|) || ZeroMedian(Ordered(values))
    ensures r.Ok? && r.value.Some? ==> DaxSplits(Ordered(values), r.value.value)
    ensures r == Ok(None) ==> forall split: nat :: !DaxSplits(Ordered(values), split)
  {
    if |values| < 2 * MIN_CLUSTER {
      return Err;
    }
    var xs := Ordered(values);
    OrderedSorted(values);
    var split := LargestGap(xs);
    if split.None? {
      return Err;
    }
    forall s: nat | DaxCut(xs, s, |xs|) ensures s == split.value {
      DaxCutUnique(xs, s, split.value);
    }
    if AdjacentRatio(xs, split.value) < 1.5 {
      return Ok(None);
    }
    if Median(xs[..split.value]) == 0.0 {
      return Err;
    }
    return Ok(if MedianRatio(xs, split.value) >= 1.7 then split else None);
  }

  /** The left cluster of the largest gap has a zero median. */
  ghost predicate ZeroMedian(xs: seq<real>) {
    exists cut: nat :: DaxCut(xs, cut, |xs|) && AdjacentRatio(xs, cut) >= 1.5 && Median(xs[..cut]) == 0.0
  }

  datatype DaxPart = DaxPart(n: nat, medianMs: real)

  function DaxParts(xs: seq<real>, split: nat): seq<DaxPart>
    requires 0 < split < |xs|
  {
    [DaxPart(split, Median(xs[..split])), DaxPart(|xs| - split, Median(xs[split..]))]
  }

  /** `separated` of the DAX comparison: the size and the median of both sides of the cut, or nothing. */
  method DaxSeparated(values: seq<real>) returns (r: Result<seq<DaxPart>>)
    ensures r.Err? <==>
              |values| < 2 * MIN_CLUSTER || !NoZeroDivision(Ordered(values), |values|) || ZeroMedian(Ordered(values))
    ensures r.Ok? && r.value != [] ==>
              exists split: nat :: DaxSplits(Ordered(values), split) && r.value == DaxParts(Ordered(values), split)
    ensures r == Ok([]) ==> forall split: nat :: !DaxSplits(Ordered(values), split)
  {
    var cut := FindDaxCut(values);
    if cut.Err? {
      return Err;
    }
    var xs := Ordered(values);
    r := Ok(if cut.value.None? then [] else DaxParts(xs, cut.value.value));
  }

  /** The part tells the size of `xs`, and half of `xs` lies on each side of its median. */
  predicate PartTells(part: DaxPart, xs: seq<real>) {
    part.n == |xs| && |xs| <= 2 * AtMost(xs, part.medianMs) && |xs| <= 2 * AtLeast(xs, part.medianMs)
  }

  /** What the DAX comparison reports: the first part tells of the values below the cut and the second of the others, both
      of at least three values, and the upper median is at least 1.7 times the lower one. */
  lemma DaxReport(xs: seq<real>, split: nat)
    requires DaxSplits(xs, split) && Sorted(xs) && xs != [] && xs[0] > 0.0
    ensures var parts := DaxParts(xs, split);
            && |parts| == 2 && PartTells(parts[0], xs[..split]) && PartTells(parts[1], xs[split..])
            && MIN_CLUSTER <= split <= |xs| - MIN_CLUSTER
            && 1.7 * parts[0].medianMs <= parts[1].medianMs
  {
    MedianHalves(xs[..split]);
    MedianHalves(xs[split..]);
    MedianBetween(xs[..split]);
    Quotient(Median(xs[split..]), Median(xs[..split]));
  }

  lemma Quotient(a: real, b: real)
    requires b > 0.0 && a / b >= 1.7
    ensures 1.7 * b <= a
  {
    assert a == (a / b) * b;
  }

  lemma DaxCutUnique(xs: seq<real>, a: nat, b: nat)
    requires DaxCut(xs, a, |xs|) && DaxCut(xs, b, |xs|)
    ensures a == b
  {}

  /** Both rules see the same gap, and the registered cut is the same or lower. */
  ghost predicate SameGap(xs: seq<real>, cut: nat, split: nat) {
    && Qualifies(xs, cut) && Qualifies(xs, split)
    && cut <= split && AdjacentRatio(xs, cut) == AdjacentRatio(xs, split)
  }

  /** On positive samples, whenever the DAX rule reports a split the registered rule does too, with
      the same gap, at the same or a lower cut. */
  lemma DaxSplitIsRegistered(xs: seq<real>, split: nat)
    requires Sorted(xs) && |xs| > 0 && xs[0] > 0.0 && DaxSplits(xs, split)
    ensures exists cut: nat :: BestCut(xs, cut)
    ensures forall cut: nat :: BestCut(xs, cut) ==> SameGap(xs, cut, split)
  {
    MedianBetween(xs[..split]);
    assert Qualifies(xs, split);
    var cut := LowestOfLargest(xs, split, split);
  }

  /** On positive samples the DAX rule is the registered test applied to the one cut of largest gap, so the
      registered rule splits and the DAX rule does not exactly when only other cuts qualify. */
  lemma DaxLooksAtOneCut(xs: seq<real>, split: nat)
    requires Sorted(xs) && |xs| > 0 && xs[0] > 0.0 && DaxCut(xs, split, |xs|)
    ensures DaxSplits(xs, split) <==> Qualifies(xs, split)
  {
    MedianBetween(xs[..split]);
  }

  /** Such samples exist: the largest gap lies between the two lower groups, and only the other cut qualifies. */
  lemma RegisteredSplitsMore()
    ensures var xs := MissedSample();
            && Sorted(xs) && xs[0] > 0.0 && Qualifies(xs, 11)
            && DaxCut(xs, 6, |xs|) && !DaxSplits(xs, 6)
  {
    HigherCutQualifies();
    LowerCutIsLargest();
  }

  lemma HigherCutQualifies()
    ensures var xs := MissedSample(); Sorted(xs) && xs[0] > 0.0 && Qualifies(xs, 11)
  {
    var xs := MissedSample();
    assert xs[..11] == [1.0, 1.0, 1.0, 1.0, 1.0, 1.0, 1.6, 1.6, 1.6, 1.6, 1.6];
    assert xs[11..] == [2.4, 2.4, 2.4];
  }

  lemma LowerCutIsLargest()
    ensures var xs := MissedSample(); DaxCut(xs, 6, |xs|) && !DaxSplits(xs, 6)
  {
    var xs := MissedSample();
    assert xs[..6] == [1.0, 1.0, 1.0, 1.0, 1.0, 1.0];
    assert xs[6..] == [1.6, 1.6, 1.6, 1.6, 1.6, 2.4, 2.4, 2.4];
  }

  function MissedSample(): seq<real> {
    [1.0, 1.0, 1.0, 1.0, 1.0, 1.0, 1.6, 1.6, 1.6, 1.6, 1.6, 2.4, 2.4, 2.4]
  }

  /** The lowest qualifying cut with the largest gap exists. */
  lemma {:induction false} LowestOfLargest(xs: seq<real>, split: nat, at: nat) returns (cut: nat)
    requires DaxCut(xs, split, |xs|) && SameGap(xs, at, split)
    ensures BestCut(xs, cut)
    decreases at
  {
    if c: nat :| c < at && SameGap(xs, c, split) {
      cut := LowestOfLargest(xs, split, c);
    } else {
      cut := at;
      forall c: nat | Qualifies(xs, c)
        ensures AdjacentRatio(xs, c) < AdjacentRatio(xs, at)
                || (AdjacentRatio(xs, c) == AdjacentRatio(xs, at) && at <= c)
      {
        assert c < at && AdjacentRatio(xs, c) == AdjacentRatio(xs, at) ==> SameGap(xs, c, split);
      }
    }
  }
}
