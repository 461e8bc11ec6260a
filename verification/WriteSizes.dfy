/** Size buckets of WRITE requests: the counter contract and what the tallies say about the sizes. */
module WriteSizes {
  import opened Wrappers

  datatype Bucket = Bucket(name: string, upper: Option<nat>)

  datatype Contract = Contract(
    enabledComponent: string, enabledLabel: string, batchedLabel: string,
    bytesLabel: string, backgroundLabel: string, buckets: seq<Bucket>)

  const COMPONENTS: set<string> :=
    {"virtio-fs-protocol", "virtio-fs-dispatch", "virtio-fs-overlay", "overlay-core"}

  // ----- the contract ----------------------------------------------------------------------------

  /** Largest size below bucket `i`: the bound of the bucket before it. */
  function Floor(buckets: seq<Bucket>, i: nat): nat
    requires i <= |buckets|
  {
    if i == 0 then 0
    else match buckets[i - 1].upper
      case Some(bound) => bound
      case None => Floor(buckets, i - 1)
  }

  /** Distinct non-empty labels, increasing bounds, and an unbounded last bucket. */
  ghost predicate Valid(buckets: seq<Bucket>) {
    && buckets != []
    && (forall i :: 0 <= i < |buckets| ==> buckets[i].name != [])
    && (forall i, j :: 0 <= i < j < |buckets| ==> buckets[i].name != buckets[j].name)
    && (forall i :: 0 <= i < |buckets| ==> BoundOk(buckets, i))
    && buckets[|buckets| - 1].upper.None?
  }

  ghost predicate BoundOk(buckets: seq<Bucket>, i: nat)
    requires i < |buckets|
  {
    match buckets[i].upper
    case None => i == |buckets| - 1
    case Some(bound) => Floor(buckets, i) < bound
  }

  function Names(buckets: seq<Bucket>, n: nat): set<string>
    requires n <= |buckets|
  {
    if n == 0 then {} else Names(buckets, n - 1) + {buckets[n - 1].name}
  }

  lemma {:induction false} NamesAre(buckets: seq<Bucket>, n: nat)
    requires n <= |buckets|
    ensures forall j :: 0 <= j < n ==> buckets[j].name in Names(buckets, n)
    ensures forall name :: name in Names(buckets, n) ==> exists j :: 0 <= j < n && buckets[j].name == name
  {
    if n > 0 {
      NamesAre(buckets, n - 1);
    }
  }

  /** The loop of `validate_counter_contract` before bucket `n`. */
  ghost predicate Checked(buckets: seq<Bucket>, n: nat, names: set<string>, previous: nat)
  {
    && n <= |buckets| && previous == Floor(buckets, n)
    && names == Names(buckets, n)
    && (forall j, k :: 0 <= j < k < n ==> buckets[j].name != buckets[k].name)
    && (forall j :: 0 <= j < n ==> buckets[j].name != [])
    && (forall j :: 0 <= j < n ==> BoundOk(buckets, j))
  }

  /** A bucket the loop lets pass. */
  predicate Passes(buckets: seq<Bucket>, n: nat, names: set<string>, previous: nat)
    requires n < |buckets|
  {
    && buckets[n].name != [] && buckets[n].name !in names
    && match buckets[n].upper
       case None => n == |buckets| - 1
       case Some(bound) => previous < bound
  }

  lemma PassBucket(buckets: seq<Bucket>, n: nat, names: set<string>, previous: nat)
    requires n < |buckets| && Checked(buckets, n, names, previous) && Passes(buckets, n, names, previous)
    ensures Checked(buckets, n + 1, names + {buckets[n].name}, Floor(buckets, n + 1))
  {
    NamesAre(buckets, n);
    assert BoundOk(buckets, n);
  }

  lemma RefuseBucket(buckets: seq<Bucket>, n: nat, names: set<string>, previous: nat)
    requires n < |buckets| && Checked(buckets, n, names, previous) && !Passes(buckets, n, names, previous)
    ensures !Valid(buckets)
  {
    NamesAre(buckets, n);
    assert BoundOk(buckets, n) ==> buckets[n].name == [] || buckets[n].name in names;
  }

  lemma AllChecked(buckets: seq<Bucket>, names: set<string>, previous: nat)
    requires buckets != [] && Checked(buckets, |buckets|, names, previous)
    ensures Valid(buckets) <==> buckets[|buckets| - 1].upper.None?
  {
  }

  /** The loop of `validate_counter_contract` over the buckets. */
  method ValidateBuckets(buckets: seq<Bucket>) returns (ok: bool)
    ensures ok <==> Valid(buckets)
  {
    if buckets == [] {
      return false;
    }
    var previous: nat := 0;
    var names: set<string> := {};
    for i := 0 to |buckets|
      invariant Checked(buckets, i, names, previous)
    {
      if !Passes(buckets, i, names, previous) {
        RefuseBucket(buckets, i, names, previous);
        return false;
      }
      PassBucket(buckets, i, names, previous);
      names := names + {buckets[i].name};
      if buckets[i].upper.Some? {
        previous := buckets[i].upper.value;
      }
    }
    AllChecked(buckets, names, previous);
    return buckets[|buckets| - 1].upper.None?;
  }

  /** A contract over a known component with non-empty labels and valid buckets. */
  ghost predicate ValidContract(c: Contract) {
    && c.enabledComponent in COMPONENTS
    && c.enabledLabel != [] && c.batchedLabel != [] && c.backgroundLabel != [] && c.bytesLabel != []
    && Valid(c.buckets)
  }

  /** `validate_counter_contract` */
  method ValidateContract(c: Contract) returns (ok: bool)
    ensures ok <==> ValidContract(c)
  {
    if c.enabledComponent !in COMPONENTS || c.enabledLabel == [] || c.batchedLabel == []
       || c.backgroundLabel == [] || c.bytesLabel == [] || c.buckets == [] {
      return false;
    }
    ok := ValidateBuckets(c.buckets);
  }

  // ----- tallies -----------------------------------------------------------------------------------

  predicate Fits(buckets: seq<Bucket>, i: nat, size: nat)
    requires i < |buckets|
  {
    Floor(buckets, i) < size && (buckets[i].upper.Some? ==> size <= buckets[i].upper.value)
  }

  lemma {:induction false} FloorsIncrease(buckets: seq<Bucket>, i: nat, j: nat)
    requires Valid(buckets) && i < j < |buckets|
    ensures buckets[i].upper.Some? && buckets[i].upper.value <= Floor(buckets, j)
    decreases j
  {
    assert BoundOk(buckets, i) && BoundOk(buckets, j - 1);
    if i < j - 1 {
      FloorsIncrease(buckets, i, j - 1);
    }
  }

  /** Every positive size fits exactly one bucket of a valid contract. */
  lemma UniqueBucket(buckets: seq<Bucket>, size: nat) returns (i: nat)
    requires Valid(buckets) && 0 < size
    ensures i < |buckets| && Fits(buckets, i, size)
    ensures forall j :: 0 <= j < |buckets| && j != i ==> !Fits(buckets, j, size)
  {
    i := 0;
    while !(Fits(buckets, i, size))
      invariant i < |buckets| && Floor(buckets, i) < size
      decreases |buckets| - i
    {
      assert BoundOk(buckets, i);
      i := i + 1;
    }
    forall j | 0 <= j < |buckets| && j != i ensures !Fits(buckets, j, size) {
      if j < i {
        FloorsIncrease(buckets, j, i);
      } else {
        FloorsIncrease(buckets, i, j);
      }
    }
  }

  function Tally(buckets: seq<Bucket>, i: nat, sizes: seq<nat>): nat
    requires i < |buckets|
  {
    if sizes == [] then 0
    else Tally(buckets, i, sizes[..|sizes| - 1]) + (if Fits(buckets, i, sizes[|sizes| - 1]) then 1 else 0)
  }

  function Sum(values: seq<nat>): nat {
    if values == [] then 0 else Sum(values[..|values| - 1]) + values[|values| - 1]
  }

  /** The requests counted in each bucket. */
  function Tallies(buckets: seq<Bucket>, sizes: seq<nat>): seq<nat> {
    seq(|buckets|, i requires 0 <= i < |buckets| => Tally(buckets, i, sizes))
  }

  lemma {:induction false} SumBump(a: seq<nat>, b: seq<nat>, k: nat)
    requires |a| == |b| && k < |a| && b[k] == a[k] + 1
    requires forall i :: 0 <= i < |a| && i != k ==> b[i] == a[i]
    ensures Sum(b) == Sum(a) + 1
  {
    var last := |a| - 1;
    if k < last {
      SumBump(a[..last], b[..last], k);
    } else {
      assert a[..last] == b[..last];
    }
  }

  lemma {:induction false} SumZeros(n: nat)
    ensures Sum(seq(n, _ => 0)) == 0
  {
    if n > 0 {
      assert seq(n, _ => 0)[..n - 1] == seq(n - 1, _ => 0);
      SumZeros(n - 1);
    }
  }

  predicate AllPositive(sizes: seq<nat>) {
    forall k :: 0 <= k < |sizes| ==> 0 < sizes[k]
  }

  /** The tallies count every request once. */
  lemma {:induction false} TalliesCount(buckets: seq<Bucket>, sizes: seq<nat>)
    requires Valid(buckets) && AllPositive(sizes)
    ensures Sum(Tallies(buckets, sizes)) == |sizes|
  {
    if sizes == [] {
      assert Tallies(buckets, sizes) == seq(|buckets|, _ => 0);
      SumZeros(|buckets|);
    } else {
      var init, size := sizes[..|sizes| - 1], sizes[|sizes| - 1];
      TalliesCount(buckets, init);
      var i := UniqueBucket(buckets, size);
      SumBump(Tallies(buckets, init), Tallies(buckets, sizes), i);
    }
  }

  // ----- write_sizes ---------------------------------------------------------------------------------

  /** The protocol counters: WRITE.calls and the units of each label, each possibly missing. */
  datatype Counters = Counters(calls: Option<nat>, units: map<string, nat>)

  datatype Bounds = Bounds(lower: nat, upper: Option<nat>)

  datatype Summary = Summary(
    count: nat, size: nat, background: nat, mean: Option<real>, requests: seq<nat>, largest: Option<Bounds>)

  function Requests(c: Contract, m: Counters): seq<nat>
    requires forall i :: 0 <= i < |c.buckets| ==> c.buckets[i].name in m.units
  {
    seq(|c.buckets|, i requires 0 <= i < |c.buckets| => m.units[c.buckets[i].name])
  }

  predicate Complete(c: Contract, m: Counters) {
    && m.calls.Some? && c.bytesLabel in m.units && c.backgroundLabel in m.units
    && forall i :: 0 <= i < |c.buckets| ==> c.buckets[i].name in m.units
  }

  /** The counters are complete and agree with each other. */
  predicate Agree(c: Contract, m: Counters) {
    && Complete(c, m)
    && Sum(Requests(c, m)) == m.calls.value && m.units[c.backgroundLabel] <= m.calls.value
    && (m.calls.value == 0 <==> m.units[c.bytesLabel] == 0)
  }

  /** The bounds of the last bucket with requests. */
  function Largest(buckets: seq<Bucket>, requests: seq<nat>, n: nat): Option<Bounds>
    requires n <= |buckets| == |requests|
  {
    if n == 0 then None
    else if requests[n - 1] > 0 then Some(Bounds(Floor(buckets, n - 1) + 1, buckets[n - 1].upper))
    else Largest(buckets, requests, n - 1)
  }

  /** Accepts exactly the counters that agree. The mean times the count is the payload, and the bounds are those
      of the largest occupied bucket. */
  method Summarize(c: Contract, m: Counters) returns (r: Result<Summary>)
    ensures r.Ok? <==> Agree(c, m)
    ensures r.Ok? ==>
      && r.value.count == m.calls.value && r.value.size == m.units[c.bytesLabel]
      && r.value.background == m.units[c.backgroundLabel] && r.value.requests == Requests(c, m)
      && r.value.largest == Largest(c.buckets, Requests(c, m), |c.buckets|)
    ensures r.Ok? ==> (r.value.mean.None? <==> m.calls.value == 0) && (r.value.mean.None? <==> r.value.size == 0)
    ensures r.Ok? ==> r.value.background <= r.value.count == Sum(r.value.requests)
    ensures r.Ok? && r.value.mean.Some? ==>
              r.value.mean.value * r.value.count as real == r.value.size as real
  {
    if !Complete(c, m) {
      return Err;
    }
    var count, size, background := m.calls.value, m.units[c.bytesLabel], m.units[c.backgroundLabel];
    var requests := Requests(c, m);
    if Sum(requests) != count || background > count {
      return Err;
    }
    if !((count == 0 && size == 0) || (count > 0 && size > 0)) {
      return Err;
    }
    var previous: nat, largest: Option<Bounds> := 0, None;
    for i := 0 to |c.buckets|
      invariant previous == Floor(c.buckets, i)
      invariant largest == Largest(c.buckets, requests, i)
    {
      if requests[i] > 0 {
        largest := Some(Bounds(previous + 1, c.buckets[i].upper));
      }
      if c.buckets[i].upper.Some? {
        previous := c.buckets[i].upper.value;
      }
    }
    var mean := if count == 0 then None else Some(size as real / count as real);
    return Ok(Summary(count, size, background, mean, requests, largest));
  }

  // ----- soundness of the inference --------------------------------------------------------------------

  /** The counters of a run that sent WRITE requests of the given sizes, `background` of them in the background. */
  ghost predicate Counted(c: Contract, m: Counters, sizes: seq<nat>, background: nat) {
    && Complete(c, m) && background <= |sizes|
    && m.calls.value == |sizes| && m.units[c.bytesLabel] == Sum(sizes)
    && m.units[c.backgroundLabel] == background
    && Requests(c, m) == Tallies(c.buckets, sizes)
  }

  lemma {:induction false} SumPositive(sizes: seq<nat>)
    requires AllPositive(sizes)
    ensures |sizes| <= Sum(sizes)
  {
    if sizes != [] {
      SumPositive(sizes[..|sizes| - 1]);
    }
  }

  /** Counters that hold the tallies and the payload of positive requests are accepted. */
  lemma CountedIsAccepted(c: Contract, m: Counters, sizes: seq<nat>, background: nat)
    requires Valid(c.buckets) && AllPositive(sizes) && Counted(c, m, sizes, background)
    ensures Agree(c, m)
  {
    TalliesCount(c.buckets, sizes);
    SumPositive(sizes);
    if sizes == [] {
      assert Sum(sizes) == 0;
    }
  }

  lemma {:induction false} TallyPositive(buckets: seq<Bucket>, i: nat, sizes: seq<nat>)
    requires i < |buckets|
    ensures Tally(buckets, i, sizes) > 0 <==> exists k :: 0 <= k < |sizes| && Fits(buckets, i, sizes[k])
  {
    if sizes != [] {
      TallyPositive(buckets, i, sizes[..|sizes| - 1]);
      assert sizes == sizes[..|sizes| - 1] + [sizes[|sizes| - 1]];
    }
  }

  predicate Within(b: Bounds, size: nat) {
    b.lower <= size && (b.upper.Some? ==> size <= b.upper.value)
  }

  /** The true maximum lies within the reported bounds. */
  lemma MaximumWithinBounds(c: Contract, m: Counters, sizes: seq<nat>, background: nat, max: nat)
    requires Valid(c.buckets) && Counted(c, m, sizes, background)
    requires max in sizes && forall k :: 0 <= k < |sizes| ==> 0 < sizes[k] <= max
    ensures Largest(c.buckets, Requests(c, m), |c.buckets|).Some?
    ensures Within(Largest(c.buckets, Requests(c, m), |c.buckets|).value, max)
  {
    var buckets := c.buckets;
    var i := UniqueBucket(buckets, max);
    forall j | i < j < |buckets| ensures Requests(c, m)[j] == 0 {
      TallyPositive(buckets, j, sizes);
      FloorsIncrease(buckets, i, j);
    }
    TallyPositive(buckets, i, sizes);
    var k :| 0 <= k < |sizes| && sizes[k] == max;
    assert Fits(buckets, i, sizes[k]);
    LargestIs(buckets, Requests(c, m), i, |buckets|);
  }

  lemma {:induction false} LargestIs(buckets: seq<Bucket>, requests: seq<nat>, i: nat, n: nat)
    requires i < n <= |buckets| == |requests|
    requires requests[i] > 0 && forall j :: i < j < n ==> requests[j] == 0
    ensures Largest(buckets, requests, n) == Some(Bounds(Floor(buckets, i) + 1, buckets[i].upper))
  {
    if i < n - 1 {
      LargestIs(buckets, requests, i, n - 1);
    }
  }

  // ----- when the counters of all requests exist ---------------------------------------------------------

  predicate IsBucket(c: Contract, name: string) {
    exists i :: 0 <= i < |c.buckets| && c.buckets[i].name == name
  }

  /** Payload and background count have labels of their own; `validate_counter_contract` does not ask for it. */
  predicate LabelsApart(c: Contract) {
    && !IsBucket(c, c.bytesLabel) && !IsBucket(c, c.backgroundLabel)
    && c.bytesLabel != c.backgroundLabel
  }

  function BucketUnits(buckets: seq<Bucket>, sizes: seq<nat>, n: nat): map<string, nat>
    requires n <= |buckets|
  {
    if n == 0 then map[] else BucketUnits(buckets, sizes, n - 1)[buckets[n - 1].name := Tally(buckets, n - 1, sizes)]
  }

  lemma {:induction false} BucketUnitsAt(buckets: seq<Bucket>, sizes: seq<nat>, n: nat, i: nat)
    requires i < n <= |buckets| && Valid(buckets)
    ensures buckets[i].name in BucketUnits(buckets, sizes, n)
    ensures BucketUnits(buckets, sizes, n)[buckets[i].name] == Tally(buckets, i, sizes)
  {
    if i < n - 1 {
      BucketUnitsAt(buckets, sizes, n - 1, i);
    }
  }

  /** The counters of requests of the given sizes, `background` of them in the background. */
  function CountersOf(c: Contract, sizes: seq<nat>, background: nat): Counters {
    var units := map[c.backgroundLabel := background, c.bytesLabel := Sum(sizes)];
    Counters(Some(|sizes|), units + BucketUnits(c.buckets, sizes, |c.buckets|))
  }

  lemma {:induction false} BucketUnitsOnly(c: Contract, sizes: seq<nat>, n: nat)
    requires n <= |c.buckets|
    ensures forall name :: name in BucketUnits(c.buckets, sizes, n) ==> IsBucket(c, name)
  {
    if n > 0 {
      BucketUnitsOnly(c, sizes, n - 1);
      assert c.buckets[n - 1].name == c.buckets[n - 1].name;
    }
  }

  lemma {:induction false} TallyBound(buckets: seq<Bucket>, i: nat, sizes: seq<nat>)
    requires i < |buckets|
    ensures Tally(buckets, i, sizes) <= |sizes|
  {
    if sizes != [] {
      TallyBound(buckets, i, sizes[..|sizes| - 1]);
    }
  }

  /** With labels of their own, every list of sizes and every background count have their counters. */
  lemma CountersCount(c: Contract, sizes: seq<nat>, background: nat)
    requires Valid(c.buckets) && LabelsApart(c) && background <= |sizes|
    ensures Counted(c, CountersOf(c, sizes, background), sizes, background)
  {
    var m := CountersOf(c, sizes, background);
    BucketUnitsOnly(c, sizes, |c.buckets|);
    forall i | 0 <= i < |c.buckets|
      ensures c.buckets[i].name in m.units && m.units[c.buckets[i].name] == Tally(c.buckets, i, sizes)
    {
      BucketUnitsAt(c.buckets, sizes, |c.buckets|, i);
    }
    assert Requests(c, m) == Tallies(c.buckets, sizes);
  }

  /** The counter under a bucket's label is that bucket's tally. */
  lemma SharedWithBucket(c: Contract, m: Counters, sizes: seq<nat>, background: nat, i: nat)
    requires i < |c.buckets| && Counted(c, m, sizes, background)
    ensures m.units[c.buckets[i].name] == Tally(c.buckets, i, sizes) <= |sizes|
  {
    assert Requests(c, m)[i] == Tallies(c.buckets, sizes)[i];
    TallyBound(c.buckets, i, sizes);
  }

  ghost predicate HasCounters(c: Contract, sizes: seq<nat>, background: nat) {
    exists m :: Counted(c, m, sizes, background)
  }

  /** Two bytes cannot be a number of requests among one. */
  lemma PayloadShared(c: Contract, m: Counters, background: nat)
    requires IsBucket(c, c.bytesLabel) || c.bytesLabel == c.backgroundLabel
    ensures !Counted(c, m, [2], background)
  {
    assert [2][..0] == [] && Sum([]) == 0;
    assert Sum([2]) == 2;
    if Counted(c, m, [2], background) && IsBucket(c, c.bytesLabel) {
      var i :| 0 <= i < |c.buckets| && c.buckets[i].name == c.bytesLabel;
      SharedWithBucket(c, m, [2], background, i);
    }
  }

  /** A background count that a single request of two bytes cannot have when a label is shared. */
  lemma NoCounters(c: Contract) returns (background: nat)
    requires !LabelsApart(c)
    ensures background <= 1 && !HasCounters(c, [2], background)
  {
    if IsBucket(c, c.backgroundLabel) {
      var i :| 0 <= i < |c.buckets| && c.buckets[i].name == c.backgroundLabel;
      TallyBound(c.buckets, i, [2]);
      background := 1 - Tally(c.buckets, i, [2]);
      forall m ensures !Counted(c, m, [2], background) {
        if Counted(c, m, [2], background) {
          SharedWithBucket(c, m, [2], background, i);
        }
      }
    } else {
      background := 0;
      forall m ensures !Counted(c, m, [2], background) {
        PayloadShared(c, m, background);
      }
    }
  }

  /** Requests of every list of positive sizes, with any number of them in the background, can be counted if and only
      if payload, background count and buckets have labels of their own. */
  lemma CountersExist(c: Contract)
    requires Valid(c.buckets)
    ensures (forall sizes, background: nat :: AllPositive(sizes) && background <= |sizes| ==>
               HasCounters(c, sizes, background)) <==> LabelsApart(c)
  {
    if LabelsApart(c) {
      forall sizes, background: nat | AllPositive(sizes) && background <= |sizes|
        ensures HasCounters(c, sizes, background)
      {
        CountersCount(c, sizes, background);
      }
    } else {
      var background := NoCounters(c);
      assert AllPositive([2]) && background <= |[2]|;
    }
  }

  /** Two buckets with a bound of 1024 between them, and the given labels for payload and background count. */
  function TwoBuckets(bytesLabel: string, backgroundLabel: string): Contract {
    Contract("virtio-fs-overlay", "enabled", "batched", bytesLabel, backgroundLabel,
             [Bucket("le", Some(1024)), Bucket("gt", None)])
  }

  lemma TwoBucketsAccepted(bytesLabel: string, backgroundLabel: string)
    requires bytesLabel != [] && backgroundLabel != []
    ensures ValidContract(TwoBuckets(bytesLabel, backgroundLabel))
  {
    var buckets := TwoBuckets(bytesLabel, backgroundLabel).buckets;
    assert BoundOk(buckets, 0) && BoundOk(buckets, 1);
    assert buckets[0].name[0] != buckets[1].name[0];
  }

  /** The validator accepts a payload under a bucket's label: a two-byte request has no counters. */
  lemma SharedLabelAccepted(background: nat)
    ensures ValidContract(TwoBuckets("le", "bg")) && !HasCounters(TwoBuckets("le", "bg"), [2], background)
  {
    var c := TwoBuckets("le", "bg");
    TwoBucketsAccepted("le", "bg");
    assert c.buckets[0].name == c.bytesLabel;
    forall m ensures !Counted(c, m, [2], background) {
      PayloadShared(c, m, background);
    }
  }

  /** The validator accepts a background count under a bucket's label: a two-byte request that is not in the
      background has no counters. */
  lemma SharedBackgroundAccepted()
    ensures ValidContract(TwoBuckets("bytes", "le")) && !HasCounters(TwoBuckets("bytes", "le"), [2], 0)
  {
    var c := TwoBuckets("bytes", "le");
    TwoBucketsAccepted("bytes", "le");
    assert Tally(c.buckets, 0, [2]) == 1 by {
      assert [2][..0] == [] && Fits(c.buckets, 0, 2);
    }
    assert c.buckets[0].name == c.backgroundLabel;
    forall m ensures !Counted(c, m, [2], 0) {
      if Counted(c, m, [2], 0) {
        SharedWithBucket(c, m, [2], 0, 0);
      }
    }
  }

  /** For every contract with labels of their own, all positive sizes and any number of background requests,
      `write_sizes` accepts the counters, reports that number, and bounds the true maximum. */
  lemma SizesAreBounded(c: Contract, sizes: seq<nat>, background: nat, max: nat)
    requires ValidContract(c) && LabelsApart(c) && background <= |sizes|
    requires AllPositive(sizes) && max in sizes && forall k :: 0 <= k < |sizes| ==> sizes[k] <= max
    ensures var m := CountersOf(c, sizes, background);
            && Agree(c, m) && m.units[c.backgroundLabel] == background && m.units[c.bytesLabel] == Sum(sizes)
            && Largest(c.buckets, Requests(c, m), |c.buckets|).Some?
            && Within(Largest(c.buckets, Requests(c, m), |c.buckets|).value, max)
  {
    var m := CountersOf(c, sizes, background);
    CountersCount(c, sizes, background);
    CountedIsAccepted(c, m, sizes, background);
    MaximumWithinBounds(c, m, sizes, background, max);
  }

  // ----- which accepted counters are those of some requests ----------------------------------------------

  /** `x` added `n` times. */
  function Repeated(n: nat, x: nat): nat { if n == 0 then 0 else Repeated(n - 1, x) + x }

  /** The fewest bytes that the first `n` buckets can hold with these requests. */
  function Least(buckets: seq<Bucket>, requests: seq<nat>, n: nat): nat
    requires n <= |buckets| == |requests|
  {
    if n == 0 then 0 else Least(buckets, requests, n - 1) + Repeated(requests[n - 1], Floor(buckets, n - 1) + 1)
  }

  /** The most bytes, if there is a bound: an open bucket with requests has none. */
  function Most(buckets: seq<Bucket>, requests: seq<nat>, n: nat): Option<nat>
    requires n <= |buckets| == |requests|
  {
    if n == 0 then Some(0)
    else
      var rest, k := Most(buckets, requests, n - 1), requests[n - 1];
      if k == 0 then rest
      else if rest.None? || buckets[n - 1].upper.None? then None
      else Some(rest.value + Repeated(k, buckets[n - 1].upper.value))
  }

  predicate UpTo(x: nat, bound: Option<nat>) { bound.Some? ==> x <= bound.value }

  /** The payload lies between the fewest and the most bytes of the histogram; `write_sizes` does not ask for it. */
  predicate Plausible(c: Contract, m: Counters)
    requires Complete(c, m)
  {
    && Least(c.buckets, Requests(c, m), |c.buckets|) <= m.units[c.bytesLabel]
    && UpTo(m.units[c.bytesLabel], Most(c.buckets, Requests(c, m), |c.buckets|))
  }

  /** `b` is `a` with one more request in bucket `k`. */
  predicate OneMoreIn(a: seq<nat>, b: seq<nat>, k: nat) {
    |a| == |b| && k < |a| && b[k] == a[k] + 1 && forall i :: 0 <= i < |a| && i != k ==> b[i] == a[i]
  }

  lemma {:induction false} LeastBump(buckets: seq<Bucket>, a: seq<nat>, b: seq<nat>, k: nat, n: nat)
    requires |buckets| == |a| && OneMoreIn(a, b, k) && n <= |buckets|
    ensures Least(buckets, b, n) == Least(buckets, a, n) + if k < n then Floor(buckets, k) + 1 else 0
  {
    if n > 0 {
      LeastBump(buckets, a, b, k, n - 1);
    }
  }

  lemma {:induction false} MostBump(buckets: seq<Bucket>, a: seq<nat>, b: seq<nat>, k: nat, n: nat)
    requires |buckets| == |a| && OneMoreIn(a, b, k) && n <= |buckets|
    ensures k < n && Most(buckets, b, n).Some? ==>
              && buckets[k].upper.Some? && Most(buckets, a, n).Some?
              && Most(buckets, b, n).value == Most(buckets, a, n).value + buckets[k].upper.value
    ensures n <= k ==> Most(buckets, b, n) == Most(buckets, a, n)
  {
    if n > 0 {
      MostBump(buckets, a, b, k, n - 1);
    }
  }

  lemma {:induction false} NothingLeast(buckets: seq<Bucket>, requests: seq<nat>, n: nat)
    requires n <= |buckets| == |requests| && forall i :: 0 <= i < n ==> requests[i] == 0
    ensures Least(buckets, requests, n) == 0 && Most(buckets, requests, n) == Some(0)
  {
    if n > 0 {
      NothingLeast(buckets, requests, n - 1);
    }
  }

  /** The bytes of any requests lie between the bounds of their histogram. */
  lemma {:induction false} SumWithin(buckets: seq<Bucket>, sizes: seq<nat>)
    requires Valid(buckets) && AllPositive(sizes)
    ensures Least(buckets, Tallies(buckets, sizes), |buckets|) <= Sum(sizes)
    ensures UpTo(Sum(sizes), Most(buckets, Tallies(buckets, sizes), |buckets|))
  {
    if sizes == [] {
      NothingLeast(buckets, Tallies(buckets, sizes), |buckets|);
    } else {
      var init, size := sizes[..|sizes| - 1], sizes[|sizes| - 1];
      SumWithin(buckets, init);
      var k := UniqueBucket(buckets, size);
      var a, b := Tallies(buckets, init), Tallies(buckets, sizes);
      LeastBump(buckets, a, b, k, |buckets|);
      MostBump(buckets, a, b, k, |buckets|);
    }
  }

  // The other direction: sizes for every payload between the bounds.

  lemma {:induction false} SumConcat(a: seq<nat>, b: seq<nat>)
    ensures Sum(a + b) == Sum(a) + Sum(b)
    decreases |b|
  {
    if b == [] {
      assert a + b == a;
    } else {
      assert (a + b)[..|a + b| - 1] == a + b[..|b| - 1];
      SumConcat(a, b[..|b| - 1]);
    }
  }

  lemma {:induction false} TallyConcat(buckets: seq<Bucket>, i: nat, a: seq<nat>, b: seq<nat>)
    requires i < |buckets|
    ensures Tally(buckets, i, a + b) == Tally(buckets, i, a) + Tally(buckets, i, b)
    decreases |b|
  {
    if b == [] {
      assert a + b == a;
    } else {
      assert (a + b)[..|a + b| - 1] == a + b[..|b| - 1];
      TallyConcat(buckets, i, a, b[..|b| - 1]);
    }
  }

  predicate AllBetween(sizes: seq<nat>, low: nat, high: Option<nat>) {
    forall k :: 0 <= k < |sizes| ==> low <= sizes[k] && UpTo(sizes[k], high)
  }

  lemma {:induction false} RepeatedMonotone(n: nat, x: nat, y: nat)
    requires x <= y
    ensures Repeated(n, x) <= Repeated(n, y)
  {
    if n > 0 {
      RepeatedMonotone(n - 1, x, y);
    }
  }

  /** `n` sizes of one bucket with a given sum. */
  lemma {:induction false} Spread(n: nat, low: nat, high: Option<nat>, sum: nat) returns (sizes: seq<nat>)
    requires UpTo(low, high) && Repeated(n, low) <= sum
    requires if n == 0 then sum == 0 else high.Some? ==> sum <= Repeated(n, high.value)
    ensures |sizes| == n && Sum(sizes) == sum && AllBetween(sizes, low, high)
  {
    if n == 0 {
      sizes := [];
    } else if n == 1 {
      assert Repeated(0, low) == 0 && (high.Some? ==> Repeated(0, high.value) == 0);
      sizes := [sum];
      assert sizes[..0] == [];
    } else {
      var most := sum - Repeated(n - 1, low);
      var x := if high.Some? && high.value < most then high.value else most;
      if high.Some? {
        RepeatedMonotone(n - 1, low, high.value);
      }
      var rest := Spread(n - 1, low, high, sum - x);
      sizes := rest + [x];
      assert sizes[..|sizes| - 1] == rest;
    }
  }

  /** Sizes that all belong to bucket `k` are tallied there and nowhere else. */
  lemma {:induction false} TallyOne(buckets: seq<Bucket>, k: nat, sizes: seq<nat>, i: nat)
    requires Valid(buckets) && k < |buckets| && i < |buckets|
    requires AllBetween(sizes, Floor(buckets, k) + 1, buckets[k].upper)
    ensures Tally(buckets, i, sizes) == if i == k then |sizes| else 0
  {
    if sizes != [] {
      var last := |sizes| - 1;
      TallyOne(buckets, k, sizes[..last], i);
      var j := UniqueBucket(buckets, sizes[last]);
      assert Fits(buckets, k, sizes[last]);
    }
  }

  /** The first `n` buckets have the requests, and the others none. */
  ghost predicate TalliedUpto(buckets: seq<Bucket>, requests: seq<nat>, n: nat, sizes: seq<nat>)
    requires n <= |buckets| == |requests|
  {
    forall i :: 0 <= i < |buckets| ==> Tally(buckets, i, sizes) == if i < n then requests[i] else 0
  }

  lemma TalliedNext(buckets: seq<Bucket>, requests: seq<nat>, n: nat, rest: seq<nat>, mine: seq<nat>)
    requires Valid(buckets) && n < |buckets| == |requests| && TalliedUpto(buckets, requests, n, rest)
    requires |mine| == requests[n] && AllBetween(mine, Floor(buckets, n) + 1, buckets[n].upper)
    ensures TalliedUpto(buckets, requests, n + 1, rest + mine)
  {
    forall i | 0 <= i < |buckets| ensures Tally(buckets, i, rest + mine) == if i < n + 1 then requests[i] else 0 {
      TallyConcat(buckets, i, rest, mine);
      TallyOne(buckets, n, mine, i);
    }
  }

  /** The bytes of bucket `n` when the first `n + 1` buckets hold `sum`: as many as it can, leaving the others enough. */
  function Share(buckets: seq<Bucket>, requests: seq<nat>, n: nat, sum: nat): nat
    requires n < |buckets| == |requests| && Least(buckets, requests, n) <= sum
  {
    var most, k := sum - Least(buckets, requests, n), requests[n];
    if k == 0 then 0
    else if buckets[n].upper.Some? && Repeated(k, buckets[n].upper.value) < most then Repeated(k, buckets[n].upper.value)
    else most
  }

  lemma ShareFits(buckets: seq<Bucket>, requests: seq<nat>, n: nat, sum: nat)
    requires Valid(buckets) && n < |buckets| == |requests|
    requires Least(buckets, requests, n + 1) <= sum && UpTo(sum, Most(buckets, requests, n + 1))
    ensures var share, low := Share(buckets, requests, n, sum), Floor(buckets, n) + 1;
            && UpTo(low, buckets[n].upper) && Repeated(requests[n], low) <= share <= sum
            && (requests[n] == 0 ==> share == 0)
            && (buckets[n].upper.Some? ==> share <= Repeated(requests[n], buckets[n].upper.value))
            && Least(buckets, requests, n) <= sum - share
  {
    assert BoundOk(buckets, n);
    if buckets[n].upper.Some? {
      RepeatedMonotone(requests[n], Floor(buckets, n) + 1, buckets[n].upper.value);
    }
  }

  lemma {:induction false} LeastWithinMost(buckets: seq<Bucket>, requests: seq<nat>, n: nat)
    requires Valid(buckets) && n <= |buckets| == |requests|
    ensures UpTo(Least(buckets, requests, n), Most(buckets, requests, n))
  {
    if n > 0 {
      LeastWithinMost(buckets, requests, n - 1);
      assert BoundOk(buckets, n - 1);
      if buckets[n - 1].upper.Some? {
        RepeatedMonotone(requests[n - 1], Floor(buckets, n - 1) + 1, buckets[n - 1].upper.value);
      }
    }
  }

  lemma ShareLeaves(buckets: seq<Bucket>, requests: seq<nat>, n: nat, sum: nat)
    requires Valid(buckets) && n < |buckets| == |requests|
    requires Least(buckets, requests, n + 1) <= sum && UpTo(sum, Most(buckets, requests, n + 1))
    ensures Share(buckets, requests, n, sum) <= sum
    ensures UpTo(sum - Share(buckets, requests, n, sum), Most(buckets, requests, n))
  {
    ShareFits(buckets, requests, n, sum);
    LeastWithinMost(buckets, requests, n);
  }

  lemma PositiveConcat(rest: seq<nat>, mine: seq<nat>, floor: nat, upper: Option<nat>)
    requires AllPositive(rest) && AllBetween(mine, floor + 1, upper)
    ensures AllPositive(rest + mine)
  {
  }

  /** Every payload between the bounds is that of some requests with the histogram. */
  lemma {:induction false} SomeSizes(buckets: seq<Bucket>, requests: seq<nat>, n: nat, sum: nat) returns (sizes: seq<nat>)
    requires Valid(buckets) && n <= |buckets| == |requests|
    requires Least(buckets, requests, n) <= sum && UpTo(sum, Most(buckets, requests, n))
    ensures AllPositive(sizes) && Sum(sizes) == sum && TalliedUpto(buckets, requests, n, sizes)
  {
    if n == 0 {
      sizes := [];
    } else {
      ShareFits(buckets, requests, n - 1, sum);
      ShareLeaves(buckets, requests, n - 1, sum);
      var share := Share(buckets, requests, n - 1, sum);
      var rest := SomeSizes(buckets, requests, n - 1, sum - share);
      var mine := Spread(requests[n - 1], Floor(buckets, n - 1) + 1, buckets[n - 1].upper, share);
      TalliedNext(buckets, requests, n - 1, rest, mine);
      SumConcat(rest, mine);
      PositiveConcat(rest, mine, Floor(buckets, n - 1), buckets[n - 1].upper);
      sizes := rest + mine;
    }
  }

  ghost predicate FromRequests(c: Contract, m: Counters) {
    exists sizes, background: nat :: AllPositive(sizes) && Counted(c, m, sizes, background)
  }

  /** Counters are those of some requests if and only if they are accepted and their payload fits their histogram. */
  lemma AcceptedIsReal(c: Contract, m: Counters)
    requires Valid(c.buckets) && Complete(c, m)
    ensures FromRequests(c, m) <==> Agree(c, m) && Plausible(c, m)
  {
    if FromRequests(c, m) {
      var sizes, background: nat :| AllPositive(sizes) && Counted(c, m, sizes, background);
      CountedIsAccepted(c, m, sizes, background);
      SumWithin(c.buckets, sizes);
    }
    if Agree(c, m) && Plausible(c, m) {
      RealizedBy(c, m);
    }
  }

  lemma RealizedBy(c: Contract, m: Counters)
    requires Valid(c.buckets) && Agree(c, m) && Plausible(c, m)
    ensures FromRequests(c, m)
  {
    var sizes := SomeSizes(c.buckets, Requests(c, m), |c.buckets|, m.units[c.bytesLabel]);
    TalliesCount(c.buckets, sizes);
    assert Requests(c, m) == Tallies(c.buckets, sizes);
    assert Counted(c, m, sizes, m.units[c.backgroundLabel]);
  }

  /** One request of at most 1024 bytes that carried 5000. */
  function TooMuch(): Counters {
    Counters(Some(1), map["bytes" := 5000, "bg" := 0, "le" := 1, "gt" := 0])
  }

  /** Counters that `write_sizes` accepts and no requests have. */
  lemma ImplausibleAccepted()
    ensures var c := TwoBuckets("bytes", "bg");
            ValidContract(c) && LabelsApart(c) && Agree(c, TooMuch()) && !FromRequests(c, TooMuch())
  {
    var c, m := TwoBuckets("bytes", "bg"), TooMuch();
    TwoBucketsAccepted("bytes", "bg");
    LabelsDiffer();
    assert Requests(c, m) == [1, 0];
    assert Sum([1, 0]) == 1 by {
      assert [1, 0][..1] == [1] && [1][..0] == [] && Sum([]) == 0;
    }
    assert Most(c.buckets, [1, 0], 2) == Some(1024) by {
      assert Most(c.buckets, [1, 0], 0) == Some(0) && Repeated(0, 1024) == 0;
      assert Most(c.buckets, [1, 0], 1) == Some(1024);
    }
    AcceptedIsReal(c, m);
  }

  lemma LabelsDiffer()
    ensures LabelsApart(TwoBuckets("bytes", "bg"))
  {
    var c := TwoBuckets("bytes", "bg");
    assert c.buckets[0].name == "le" && c.buckets[1].name == "gt";
    assert "bytes"[0] == 'b' && "bg"[0] == 'b' && "le"[0] == 'l' && "gt"[0] == 'g' && |"bytes"| != |"bg"|;
  }
}
