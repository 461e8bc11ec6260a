/** Cumulative profile counters and their differences: `delta` of the diagnostics. */
module Measurements {
  import opened Wrappers

  /** The five cumulative latency buckets. */
  datatype Buckets = Buckets(b0: nat, b1: nat, b2: nat, b3: nat, b4: nat)

  datatype Measure = Measure(calls: nat, units: nat, totalNs: nat, maxNs: nat, buckets: Buckets)

  type Profile = map<string, Measure>

  function Zero(): Measure {
    Measure(0, 0, 0, 0, Buckets(0, 0, 0, 0, 0))
  }

  /** What happened in an interval; a maximum cannot be subtracted. */
  datatype Interval = Interval(calls: nat, units: nat, totalNs: nat, buckets: Buckets)

  /** A label that is absent counts as zero. */
  function Get(p: Profile, name: string): Measure {
    if name in p then p[name] else Zero()
  }

  function Bucket(b: Buckets, i: nat): nat
    requires i < 5
  {
    if i == 0 then b.b0 else if i == 1 then b.b1 else if i == 2 then b.b2 else if i == 3 then b.b3 else b.b4
  }

  /** The eight additive counters of a measurement: calls, units, total time and five buckets. */
  function Counter(m: Measure, f: nat): nat
    requires f < 8
  {
    if f == 0 then m.calls else if f == 1 then m.units else if f == 2 then m.totalNs else Bucket(m.buckets, f - 3)
  }

  predicate Below(a: Measure, b: Measure) {
    && a.calls <= b.calls && a.units <= b.units && a.totalNs <= b.totalNs && a.maxNs <= b.maxNs
    && a.buckets.b0 <= b.buckets.b0 && a.buckets.b1 <= b.buckets.b1 && a.buckets.b2 <= b.buckets.b2
    && a.buckets.b3 <= b.buckets.b3 && a.buckets.b4 <= b.buckets.b4
  }

  /** No counter of any label decreases. */
  ghost predicate Monotone(before: Profile, after: Profile) {
    forall name: string :: Below(Get(before, name), Get(after, name))
  }

  lemma MonotoneReflexive(p: Profile)
    ensures Monotone(p, p)
  {}

  lemma MonotoneTransitive(a: Profile, b: Profile, c: Profile)
    requires Monotone(a, b) && Monotone(b, c)
    ensures Monotone(a, c)
  {
  }

  function Difference(a: Measure, b: Measure): Interval
    requires Below(a, b)
  {
    Interval(b.calls - a.calls, b.units - a.units, b.totalNs - a.totalNs,
             Buckets(b.buckets.b0 - a.buckets.b0, b.buckets.b1 - a.buckets.b1, b.buckets.b2 - a.buckets.b2,
                     b.buckets.b3 - a.buckets.b3, b.buckets.b4 - a.buckets.b4))
  }

  /** The interval of every label of either profile. */
  ghost predicate IsDelta(before: Profile, after: Profile, d: map<string, Interval>) {
    && d.Keys == before.Keys + after.Keys
    && forall name :: name in d ==>
         Below(Get(before, name), Get(after, name))
         && d[name] == Difference(Get(before, name), Get(after, name))
  }

  /** `delta`: subtraction label by label, an error exactly when some counter decreases. */
  method Delta(before: Profile, after: Profile) returns (r: Result<map<string, Interval>>)
    ensures r.Ok? <==> Monotone(before, after)
    ensures r.Ok? ==> IsDelta(before, after, r.value)
  {
    var names := before.Keys + after.Keys;
    var result: map<string, Interval> := map[];
    while names != {}
      invariant names <= before.Keys + after.Keys
      invariant result.Keys == before.Keys + after.Keys - names
      invariant forall name :: name in result ==>
                  Below(Get(before, name), Get(after, name))
                  && result[name] == Difference(Get(before, name), Get(after, name))
      decreases names
    {
      var name :| name in names;
      var old_, new_ := Get(before, name), Get(after, name);
      if !Below(old_, new_) {
        return Err;
      }
      result := result[name := Difference(old_, new_)];
      names := names - {name};
    }
    forall name: string ensures Below(Get(before, name), Get(after, name)) {
      if name in before.Keys + after.Keys {
        assert name in result;
      }
    }
    r := Ok(result);
  }

  /** Monotone profiles: none of the eight counters of any label decreases, nor does its maximum. */
  lemma MonotoneMeans(before: Profile, after: Profile)
    ensures Monotone(before, after) <==>
              && (forall name, f: nat :: f < 8 ==> Counter(Get(before, name), f) <= Counter(Get(after, name), f))
              && (forall name :: Get(before, name).maxNs <= Get(after, name).maxNs)
  {
    if forall name, f: nat :: f < 8 ==> Counter(Get(before, name), f) <= Counter(Get(after, name), f) {
      forall name: string ensures EightBelow(Get(before, name), Get(after, name)) {
        assert forall f: nat :: f < 8 ==> Counter(Get(before, name), f) <= Counter(Get(after, name), f);
        CountersBelow(Get(before, name), Get(after, name));
      }
    }
  }

  /** All eight counters, without the maximum. */
  predicate EightBelow(a: Measure, b: Measure) {
    && a.calls <= b.calls && a.units <= b.units && a.totalNs <= b.totalNs
    && a.buckets.b0 <= b.buckets.b0 && a.buckets.b1 <= b.buckets.b1 && a.buckets.b2 <= b.buckets.b2
    && a.buckets.b3 <= b.buckets.b3 && a.buckets.b4 <= b.buckets.b4
  }

  lemma CountersBelow(a: Measure, b: Measure)
    requires forall f: nat :: f < 8 ==> Counter(a, f) <= Counter(b, f)
    ensures EightBelow(a, b)
  {
    assert Counter(a, 0) <= Counter(b, 0) && Counter(a, 1) <= Counter(b, 1) && Counter(a, 2) <= Counter(b, 2);
    assert Counter(a, 3) <= Counter(b, 3) && Counter(a, 4) <= Counter(b, 4) && Counter(a, 5) <= Counter(b, 5);
    assert Counter(a, 6) <= Counter(b, 6) && Counter(a, 7) <= Counter(b, 7);
  }
}
