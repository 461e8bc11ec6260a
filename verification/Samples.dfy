/** Sorting and medians of measured samples, over the reals.

    A sample keeps the position it was measured at. Sorting is stable insertion, so equal values
    stay in the order of measurement, and the sorted samples carry every position exactly once:
    what the clustering says about a position is then about one measured value. */
module Samples {

  datatype Sample = Sample(index: nat, value: real)

  predicate Sorted(s: seq<real>) {
    forall i, j :: 0 <= i <= j < |s| ==> s[i] <= s[j]
  }

  function Median(s: seq<real>): real
    requires s != []
  {
    if |s| % 2 == 1 then s[|s| / 2] else (s[|s| / 2 - 1] + s[|s| / 2]) / 2.0
  }

  lemma MedianBetween(s: seq<real>)
    requires s != [] && Sorted(s)
    ensures s[0] <= Median(s) <= s[|s| - 1]
  {
  }

  // ----- what the median is ------------------------------------------------------------------

  /** How many values are at most `x`, and how many are at least `x`. */
  function AtMost(s: seq<real>, x: real): nat {
    if s == [] then 0 else AtMost(s[..|s| - 1], x) + if s[|s| - 1] <= x then 1 else 0
  }

  function AtLeast(s: seq<real>, x: real): nat {
    if s == [] then 0 else AtLeast(s[..|s| - 1], x) + if s[|s| - 1] >= x then 1 else 0
  }

  lemma {:induction false} FirstAtMost(s: seq<real>, x: real, k: nat)
    requires k <= |s| && forall i :: 0 <= i < k ==> s[i] <= x
    ensures k <= AtMost(s, x)
  {
    if s != [] {
      FirstAtMost(s[..|s| - 1], x, if k == |s| then k - 1 else k);
    }
  }

  lemma {:induction false} LastAtLeast(s: seq<real>, x: real, k: nat)
    requires k <= |s| && forall i :: k <= i < |s| ==> s[i] >= x
    ensures |s| - k <= AtLeast(s, x)
  {
    if k < |s| {
      LastAtLeast(s[..|s| - 1], x, k);
    }
  }

  /** At least half of a sorted sample is at or below its median, and at least half at or above it. */
  lemma MedianHalves(s: seq<real>)
    requires s != [] && Sorted(s)
    ensures |s| <= 2 * AtMost(s, Median(s)) && |s| <= 2 * AtLeast(s, Median(s))
  {
    FirstAtMost(s, Median(s), (|s| + 1) / 2);
    LastAtLeast(s, Median(s), |s| / 2);
  }

  /** The sample seen from the other end. */
  function Mirrored(s: seq<real>): (r: seq<real>)
    ensures |r| == |s| && forall i :: 0 <= i < |r| ==> r[i] == -s[|s| - 1 - i]
  {
    seq(|s|, i requires 0 <= i < |s| => -s[|s| - 1 - i])
  }

  /** The median prefers neither end. */
  lemma MedianMirrors(s: seq<real>)
    requires s != []
    ensures Median(Mirrored(s)) == -Median(s)
  {
    if |s| % 2 == 1 {
      assert |s| - 1 - |s| / 2 == |s| / 2;
    } else {
      assert |s| - 1 - |s| / 2 == |s| / 2 - 1 && |s| - 1 - (|s| / 2 - 1) == |s| / 2;
    }
  }

  /** `a` times every value, plus `b`. */
  function Scaled(s: seq<real>, a: real, b: real): (r: seq<real>)
    ensures |r| == |s| && forall i :: 0 <= i < |r| ==> r[i] == a * s[i] + b
  {
    seq(|s|, i requires 0 <= i < |s| => a * s[i] + b)
  }

  /** The median does not depend on the unit or the origin of the measurements. */
  lemma MedianScales(s: seq<real>, a: real, b: real)
    requires s != []
    ensures Median(Scaled(s, a, b)) == a * Median(s) + b
  {
    if |s| % 2 == 0 {
      var x, y := s[|s| / 2 - 1], s[|s| / 2];
      assert ((a * x + b) + (a * y + b)) / 2.0 == a * ((x + y) / 2.0) + b;
    }
  }

  // ----- a stable sort ------------------------------------------------------------------------

  /** The pairs of enumerate(values), the first `n` of them. */
  function Enumerate(values: seq<real>, n: nat): (r: seq<Sample>)
    requires n <= |values|
    ensures |r| == n && forall i :: 0 <= i < n ==> r[i] == Sample(i, values[i])
  {
    if n == 0 then [] else Enumerate(values, n - 1) + [Sample(n - 1, values[n - 1])]
  }

  predicate Before(a: Sample, b: Sample) {
    a.value < b.value || (a.value == b.value && a.index < b.index)
  }

  /** Ascending by value; equal values keep their original order. */
  predicate StablySorted(s: seq<Sample>) {
    forall i, j :: 0 <= i < j < |s| ==> Before(s[i], s[j])
  }

  function Insert(s: seq<Sample>, x: Sample): seq<Sample> {
    if s == [] || s[|s| - 1].value <= x.value then s + [x]
    else Insert(s[..|s| - 1], x) + [s[|s| - 1]]
  }

  function SortPrefix(values: seq<real>, n: nat): seq<Sample>
    requires n <= |values|
  {
    if n == 0 then [] else Insert(SortPrefix(values, n - 1), Sample(n - 1, values[n - 1]))
  }

  function SortSamples(values: seq<real>): seq<Sample> {
    SortPrefix(values, |values|)
  }

  lemma {:induction false} InsertAdds(s: seq<Sample>, x: Sample)
    ensures multiset(Insert(s, x)) == multiset(s) + multiset{x}
  {
    if s != [] && !(s[|s| - 1].value <= x.value) {
      InsertAdds(s[..|s| - 1], x);
      assert s == s[..|s| - 1] + [s[|s| - 1]];
    }
  }

  lemma {:induction false} InsertSorted(s: seq<Sample>, x: Sample)
    requires StablySorted(s) && forall i :: 0 <= i < |s| ==> s[i].index < x.index
    ensures StablySorted(Insert(s, x))
  {
    if s != [] && !(s[|s| - 1].value <= x.value) {
      var rest, last := s[..|s| - 1], s[|s| - 1];
      InsertSorted(rest, x);
      InsertAdds(rest, x);
      var r := Insert(rest, x);
      forall i | 0 <= i < |r| ensures Before(r[i], last) {
        assert r[i] in multiset(r);
        assert r[i] == x || r[i] in rest;
      }
    }
  }

  lemma {:induction false} SortPermutes(values: seq<real>, n: nat)
    requires n <= |values|
    ensures multiset(SortPrefix(values, n)) == multiset(Enumerate(values, n))
  {
    if n > 0 {
      SortPermutes(values, n - 1);
      InsertAdds(SortPrefix(values, n - 1), Sample(n - 1, values[n - 1]));
    }
  }

  lemma {:induction false} SortStable(values: seq<real>, n: nat)
    requires n <= |values|
    ensures StablySorted(SortPrefix(values, n))
  {
    if n > 0 {
      SortStable(values, n - 1);
      PrefixIndices(values, n - 1);
      InsertSorted(SortPrefix(values, n - 1), Sample(n - 1, values[n - 1]));
    }
  }

  lemma PrefixIndices(values: seq<real>, n: nat)
    requires n <= |values|
    ensures forall i :: 0 <= i < |SortPrefix(values, n)| ==> SortPrefix(values, n)[i].index < n
  {
    SortPermutes(values, n);
    IndicesBelow(SortPrefix(values, n), Enumerate(values, n), n);
  }

  lemma IndicesBelow(s: seq<Sample>, e: seq<Sample>, n: nat)
    requires multiset(s) == multiset(e) && forall i :: 0 <= i < |e| ==> e[i].index < n
    ensures forall i :: 0 <= i < |s| ==> s[i].index < n
  {
    forall i | 0 <= i < |s| ensures s[i].index < n {
      assert s[i] in multiset(s);
      assert s[i] in e;
    }
  }

  /** The sort is a permutation of the samples with their original indices, in stable order. */
  lemma SortCorrect(values: seq<real>)
    ensures StablySorted(SortSamples(values))
    ensures multiset(SortSamples(values)) == multiset(Enumerate(values, |values|))
    ensures |SortSamples(values)| == |values|
  {
    SortStable(values, |values|);
    SortPermutes(values, |values|);
    assert |multiset(SortSamples(values))| == |multiset(Enumerate(values, |values|))|;
  }

  function Values(s: seq<Sample>): (r: seq<real>)
    ensures |r| == |s| && forall i :: 0 <= i < |s| ==> r[i] == s[i].value
  {
    seq(|s|, i requires 0 <= i < |s| => s[i].value)
  }

  /** sorted(values) */
  function Ordered(values: seq<real>): seq<real> {
    Values(SortSamples(values))
  }

  lemma OrderedSorted(values: seq<real>)
    ensures Sorted(Ordered(values)) && |Ordered(values)| == |values|
  {
    SortCorrect(values);
    var s := SortSamples(values);
    forall i, j | 0 <= i <= j < |s| ensures s[i].value <= s[j].value {
      assert i < j ==> Before(s[i], s[j]);
    }
  }

  lemma ValuesSnoc(s: seq<Sample>, x: Sample)
    ensures Values(s + [x]) == Values(s) + [x.value]
  {
  }

  lemma CountSnoc(s: seq<real>, x: real, m: real)
    ensures AtMost(s + [x], m) == AtMost(s, m) + if x <= m then 1 else 0
    ensures AtLeast(s + [x], m) == AtLeast(s, m) + if x >= m then 1 else 0
  {
    assert (s + [x])[..|s|] == s;
  }

  /** Inserting a sample adds its value, wherever it goes. */
  lemma {:induction false} InsertValues(s: seq<Sample>, x: Sample)
    ensures multiset(Values(Insert(s, x))) == multiset(Values(s)) + multiset{x.value}
  {
    if s == [] || s[|s| - 1].value <= x.value {
      ValuesSnoc(s, x);
    } else {
      var init, y := s[..|s| - 1], s[|s| - 1];
      InsertValues(init, x);
      assert s == init + [y];
      ValuesSnoc(init, y);
      ValuesSnoc(Insert(init, x), y);
    }
  }

  lemma {:induction false} InsertCounts(s: seq<Sample>, x: Sample, m: real)
    ensures AtMost(Values(Insert(s, x)), m) == AtMost(Values(s), m) + if x.value <= m then 1 else 0
    ensures AtLeast(Values(Insert(s, x)), m) == AtLeast(Values(s), m) + if x.value >= m then 1 else 0
  {
    if s == [] || s[|s| - 1].value <= x.value {
      ValuesSnoc(s, x);
      CountSnoc(Values(s), x.value, m);
    } else {
      var init, y := s[..|s| - 1], s[|s| - 1];
      InsertCounts(init, x, m);
      assert s == init + [y];
      ValuesSnoc(init, y);
      ValuesSnoc(Insert(init, x), y);
      CountSnoc(Values(init), y.value, m);
      CountSnoc(Values(Insert(init, x)), y.value, m);
    }
  }

  /** The samples hold these values, each as often. */
  ghost predicate HaveValues(s: seq<Sample>, values: seq<real>) {
    multiset(Values(s)) == multiset(values)
  }

  lemma InsertHas(s: seq<Sample>, x: Sample, values: seq<real>)
    requires HaveValues(s, values)
    ensures HaveValues(Insert(s, x), values + [x.value])
  {
    InsertValues(s, x);
  }

  lemma {:induction false} SortKeepsValues(values: seq<real>, n: nat)
    requires n <= |values|
    ensures HaveValues(SortPrefix(values, n), values[..n])
  {
    if n > 0 {
      SortKeepsValues(values, n - 1);
      InsertHas(SortPrefix(values, n - 1), Sample(n - 1, values[n - 1]), values[..n - 1]);
      assert values[..n] == values[..n - 1] + [values[n - 1]];
    }
  }

  lemma {:induction false} SortKeepsCounts(values: seq<real>, n: nat, m: real)
    requires n <= |values|
    ensures AtMost(Values(SortPrefix(values, n)), m) == AtMost(values[..n], m)
    ensures AtLeast(Values(SortPrefix(values, n)), m) == AtLeast(values[..n], m)
  {
    if n > 0 {
      SortKeepsCounts(values, n - 1, m);
      InsertCounts(SortPrefix(values, n - 1), Sample(n - 1, values[n - 1]), m);
      assert values[..n] == values[..n - 1] + [values[n - 1]];
      CountSnoc(values[..n - 1], values[n - 1], m);
    }
  }

  /** sorted(values) has the same values, and as many on each side of any bound. */
  lemma OrderedKeeps(values: seq<real>, m: real)
    ensures multiset(Ordered(values)) == multiset(values)
    ensures AtMost(Ordered(values), m) == AtMost(values, m) && AtLeast(Ordered(values), m) == AtLeast(values, m)
  {
    SortKeepsValues(values, |values|);
    SortKeepsCounts(values, |values|, m);
    assert values[..|values|] == values;
  }

  /** The same about the sample as it was measured: sorting it changes no count. */
  lemma SampleHalves(values: seq<real>)
    requires values != []
    ensures Ordered(values) != []
    ensures var m := Median(Ordered(values)); |values| <= 2 * AtMost(values, m) && |values| <= 2 * AtLeast(values, m)
  {
    OrderedSorted(values);
    MedianHalves(Ordered(values));
    OrderedKeeps(values, Median(Ordered(values)));
  }

  function Indices(s: seq<Sample>): (r: seq<nat>)
    ensures |r| == |s| && forall i :: 0 <= i < |s| ==> r[i] == s[i].index
  {
    seq(|s|, i requires 0 <= i < |s| => s[i].index)
  }

  function Upto(n: nat): seq<nat> {
    if n == 0 then [] else Upto(n - 1) + [n - 1]
  }

  lemma IndicesSnoc(s: seq<Sample>, x: Sample)
    ensures Indices(s + [x]) == Indices(s) + [x.index]
  {
  }

  lemma {:induction false} InsertIndices(s: seq<Sample>, x: Sample)
    ensures multiset(Indices(Insert(s, x))) == multiset(Indices(s)) + multiset{x.index}
  {
    if s == [] || s[|s| - 1].value <= x.value {
      IndicesSnoc(s, x);
    } else {
      var rest, last := s[..|s| - 1], s[|s| - 1];
      InsertIndices(rest, x);
      IndicesSnoc(Insert(rest, x), last);
      IndicesSnoc(rest, last);
      assert s == rest + [last];
    }
  }

  /** The samples carry exactly these indices. */
  ghost predicate Carries(s: seq<Sample>, indices: seq<nat>) {
    multiset(Indices(s)) == multiset(indices)
  }

  lemma InsertCarries(s: seq<Sample>, x: Sample, indices: seq<nat>)
    requires Carries(s, indices)
    ensures Carries(Insert(s, x), indices + [x.index])
  {
    InsertIndices(s, x);
    OneMore(Indices(s), Indices(Insert(s, x)), indices, x.index);
  }

  /** Sorting keeps every original index exactly once. */
  lemma {:induction false} SortKeepsIndices(values: seq<real>, n: nat)
    requires n <= |values|
    ensures Carries(SortPrefix(values, n), Upto(n))
  {
    if n > 0 {
      SortKeepsIndices(values, n - 1);
      InsertCarries(SortPrefix(values, n - 1), Sample(n - 1, values[n - 1]), Upto(n - 1));
    }
  }

  lemma OneMore(a: seq<nat>, b: seq<nat>, u: seq<nat>, x: nat)
    requires multiset(a) == multiset(u) && multiset(b) == multiset(a) + multiset{x}
    ensures multiset(b) == multiset(u + [x])
  {
  }

  lemma IndicesSplit(s: seq<Sample>, cut: nat)
    requires cut <= |s|
    ensures Indices(s[..cut]) + Indices(s[cut..]) == Indices(s)
  {
  }

  /** The indices below and above a cut of the sorted samples are together all indices. */
  lemma SplitIndices(values: seq<real>, cut: nat)
    requires cut <= |SortSamples(values)|
    ensures |SortSamples(values)| == |values|
    ensures multiset(Indices(SortSamples(values)[..cut]) + Indices(SortSamples(values)[cut..])) == multiset(Upto(|values|))
  {
    SortCorrect(values);
    SortKeepsIndices(values, |values|);
    IndicesSplit(SortSamples(values), cut);
  }
}
