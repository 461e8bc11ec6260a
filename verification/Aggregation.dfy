/** Summing profiles by component and label: `aggregate` and the grouping by condition of the
    diagnostic summary. */
module Aggregation {
  import opened Measurements

  datatype Record = Record(component: string, profile: Profile)

  /** component -> label -> total */
  type Totals = map<string, Profile>

  function Max(a: nat, b: nat): nat { if a < b then b else a }

  function AddMeasure(a: Measure, b: Measure): Measure {
    Measure(a.calls + b.calls, a.units + b.units, a.totalNs + b.totalNs,
            Max(a.maxNs, b.maxNs),
            Buckets(a.buckets.b0 + b.buckets.b0, a.buckets.b1 + b.buckets.b1, a.buckets.b2 + b.buckets.b2,
                    a.buckets.b3 + b.buckets.b3, a.buckets.b4 + b.buckets.b4))
  }

  function MergeLabel(a: Profile, b: Profile, name: string): Measure
    requires name in a || name in b
  {
    if name in a && name in b then AddMeasure(a[name], b[name]) else if name in a then a[name] else b[name]
  }

  function MergeLabels(a: Profile, b: Profile): Profile {
    map name | name in a.Keys + b.Keys :: MergeLabel(a, b, name)
  }

  function Labels(t: Totals, component: string): Profile {
    if component in t then t[component] else map[]
  }

  /** Adding up two aggregates. */
  function Merge(a: Totals, b: Totals): Totals {
    map c | c in a.Keys + b.Keys :: MergeLabels(Labels(a, c), Labels(b, c))
  }

  function Single(r: Record): Totals {
    map[r.component := r.profile]
  }

  /** The aggregate of a list of records. */
  function Agg(records: seq<Record>): Totals {
    if records == [] then map[]
    else Merge(Agg(records[..|records| - 1]), Single(records[|records| - 1]))
  }

  // ----- aggregates form a commutative monoid --------------------------------------------------------

  lemma AddZero(a: Measure)
    ensures AddMeasure(a, Zero()) == a && AddMeasure(Zero(), a) == a
  {}

  lemma AddCommutes(a: Measure, b: Measure)
    ensures AddMeasure(a, b) == AddMeasure(b, a)
  {}

  lemma AddAssociative(a: Measure, b: Measure, c: Measure)
    ensures AddMeasure(AddMeasure(a, b), c) == AddMeasure(a, AddMeasure(b, c))
  {}

  lemma MergeLabelsCommutes(a: Profile, b: Profile)
    ensures MergeLabels(a, b) == MergeLabels(b, a)
  {
    forall name | name in a.Keys + b.Keys ensures MergeLabels(a, b)[name] == MergeLabels(b, a)[name] {
      if name in a && name in b {
        AddCommutes(a[name], b[name]);
      }
    }
  }

  lemma MergeLabelsAssociative(a: Profile, b: Profile, c: Profile)
    ensures MergeLabels(MergeLabels(a, b), c) == MergeLabels(a, MergeLabels(b, c))
  {
    var l, r := MergeLabels(MergeLabels(a, b), c), MergeLabels(a, MergeLabels(b, c));
    assert l.Keys == r.Keys;
    forall name | name in l ensures l[name] == r[name] {
      if name in a && name in b && name in c {
        AddAssociative(a[name], b[name], c[name]);
      }
    }
  }

  lemma MergeLabelsEmpty(a: Profile)
    ensures MergeLabels(a, map[]) == a && MergeLabels(map[], a) == a
  {
    assert MergeLabels(a, map[]).Keys == a.Keys == MergeLabels(map[], a).Keys;
  }

  lemma LabelsMerged(a: Totals, b: Totals, c: string)
    ensures Labels(Merge(a, b), c) == MergeLabels(Labels(a, c), Labels(b, c))
  {}

  lemma MergeCommutes(a: Totals, b: Totals)
    ensures Merge(a, b) == Merge(b, a)
  {
    forall c | c in a.Keys + b.Keys ensures Merge(a, b)[c] == Merge(b, a)[c] {
      MergeLabelsCommutes(Labels(a, c), Labels(b, c));
    }
  }

  lemma MergeAssociative(a: Totals, b: Totals, c: Totals)
    ensures Merge(Merge(a, b), c) == Merge(a, Merge(b, c))
  {
    var l, r := Merge(Merge(a, b), c), Merge(a, Merge(b, c));
    assert l.Keys == r.Keys;
    forall k | k in l ensures l[k] == r[k] {
      MergeAssociativeAt(a, b, c, k);
    }
  }

  lemma MergeAssociativeAt(a: Totals, b: Totals, c: Totals, k: string)
    ensures Labels(Merge(Merge(a, b), c), k) == Labels(Merge(a, Merge(b, c)), k)
  {
    LabelsMerged(a, b, k);
    LabelsMerged(b, c, k);
    LabelsMerged(Merge(a, b), c, k);
    LabelsMerged(a, Merge(b, c), k);
    MergeLabelsAssociative(Labels(a, k), Labels(b, k), Labels(c, k));
  }

  lemma MergeEmpty(a: Totals)
    ensures Merge(a, map[]) == a && Merge(map[], a) == a
  {
    forall k | k in a ensures Merge(a, map[])[k] == a[k] && Merge(map[], a)[k] == a[k] {
      MergeLabelsEmpty(a[k]);
    }
  }

  /** Aggregating a concatenation adds up the aggregates. */
  lemma {:induction false} AggConcat(xs: seq<Record>, ys: seq<Record>)
    ensures Agg(xs + ys) == Merge(Agg(xs), Agg(ys))
    decreases |ys|
  {
    if ys == [] {
      assert xs + ys == xs;
      MergeEmpty(Agg(xs));
    } else {
      var init, last := ys[..|ys| - 1], ys[|ys| - 1];
      assert (xs + ys)[..|xs + ys| - 1] == xs + init;
      AggConcat(xs, init);
      MergeAssociative(Agg(xs), Agg(init), Single(last));
    }
  }

  // ----- what an aggregate holds ----------------------------------------------------------------------

  /** One counter of one label, summed over the records of a component. */
  function SumOf(records: seq<Record>, component: string, name: string, f: nat): nat
    requires f < 8
  {
    if records == [] then 0
    else
      var r := records[|records| - 1];
      SumOf(records[..|records| - 1], component, name, f)
      + (if r.component == component then Counter(Get(r.profile, name), f) else 0)
  }

  function MaxOf(records: seq<Record>, component: string, name: string): nat {
    if records == [] then 0
    else
      var r := records[|records| - 1];
      Max(MaxOf(records[..|records| - 1], component, name),
          if r.component == component then Get(r.profile, name).maxNs else 0)
  }

  lemma MergedCounter(a: Profile, b: Profile, name: string, f: nat)
    requires f < 8
    ensures Counter(Get(MergeLabels(a, b), name), f) == Counter(Get(a, name), f) + Counter(Get(b, name), f)
    ensures Get(MergeLabels(a, b), name).maxNs == Max(Get(a, name).maxNs, Get(b, name).maxNs)
  {}

  /** The aggregate holds exactly the sums of the work counters and the largest maximum of every
      component and label. */
  lemma {:induction false} AggregateMeaning(records: seq<Record>, component: string, name: string, f: nat)
    requires f < 8
    ensures Counter(Get(Labels(Agg(records), component), name), f) == SumOf(records, component, name, f)
    ensures Get(Labels(Agg(records), component), name).maxNs == MaxOf(records, component, name)
  {
    if records != [] {
      var init, r := records[..|records| - 1], records[|records| - 1];
      AggregateMeaning(init, component, name, f);
      LabelsMerged(Agg(init), Single(r), component);
      MergedCounter(Labels(Agg(init), component), Labels(Single(r), component), name, f);
    }
  }

  // ----- the loop of aggregate ------------------------------------------------------------------------

  /** Adds the labels of one profile to the totals of its component. */
  method AddProfile(labels: Profile, profile: Profile) returns (labels': Profile)
    ensures labels' == MergeLabels(labels, profile)
  {
    labels' := labels;
    var rest := profile.Keys;
    while rest != {}
      invariant rest <= profile.Keys
      invariant labels'.Keys == labels.Keys + (profile.Keys - rest)
      invariant forall name :: name in labels' && name !in labels ==> name in profile && name !in rest
      invariant forall name :: name in labels' ==>
                  labels'[name] == if name in rest || name !in profile then labels[name] else MergeLabel(labels, profile, name)
      decreases rest
    {
      var name :| name in rest;
      var total := if name in labels' then labels'[name] else Zero();
      AddZero(profile[name]);
      labels' := labels'[name := AddMeasure(total, profile[name])];
      rest := rest - {name};
    }
    assert labels'.Keys == labels.Keys + profile.Keys;
  }

  method Aggregate(records: seq<Record>) returns (result: Totals)
    ensures result == Agg(records)
  {
    result := map[];
    for i := 0 to |records|
      invariant result == Agg(records[..i])
    {
      var r := records[i];
      assert records[..i + 1][..i] == records[..i];
      var labels := AddProfile(if r.component in result then result[r.component] else map[], r.profile);
      AddedRecord(result, r);
      result := result[r.component := labels];
    }
    assert records[..|records|] == records;
  }

  lemma AddedRecord(result: Totals, r: Record)
    ensures Merge(result, Single(r)) == result[r.component := MergeLabels(Labels(result, r.component), r.profile)]
  {
    forall c | c in result && c != r.component ensures Merge(result, Single(r))[c] == result[c] {
      MergeLabelsEmpty(result[c]);
    }
  }

  // ----- grouping by condition -------------------------------------------------------------------------

  datatype Trial = Trial(condition: string, records: seq<Record>)

  /** The records of the trials whose condition is in `conditions`, in trial order. */
  function Select(trials: seq<Trial>, conditions: set<string>): seq<Record> {
    if trials == [] then []
    else
      var last := |trials| - 1;
      Select(trials[..last], conditions) + (if trials[last].condition in conditions then trials[last].records else [])
  }

  function Conditions(trials: seq<Trial>): set<string> {
    set i | 0 <= i < |trials| :: trials[i].condition
  }

  lemma SelectSnoc(trials: seq<Trial>, conditions: set<string>)
    requires trials != []
    ensures var last := |trials| - 1;
            Agg(Select(trials, conditions)) ==
              if trials[last].condition in conditions
              then Merge(Agg(Select(trials[..last], conditions)), Agg(trials[last].records))
              else Agg(Select(trials[..last], conditions))
  {
    var last := |trials| - 1;
    AggConcat(Select(trials[..last], conditions), trials[last].records);
    assert Select(trials[..last], conditions) + [] == Select(trials[..last], conditions);
  }

  lemma MergeSwap(a: Totals, b: Totals, c: Totals)
    ensures Merge(Merge(a, b), c) == Merge(Merge(a, c), b)
  {
    MergeAssociative(a, b, c);
    MergeCommutes(b, c);
    MergeAssociative(a, c, b);
  }

  /** Separating one condition from the others only regroups the sum, however the trials of the
      conditions are interleaved. */
  lemma {:induction false} SelectSplit(trials: seq<Trial>, rest: set<string>, c: string)
    requires c !in rest
    ensures Agg(Select(trials, rest + {c})) == Merge(Agg(Select(trials, rest)), Agg(Select(trials, {c})))
  {
    if trials == [] {
      MergeEmpty(Agg(Select(trials, rest)));
    } else {
      var init, t := trials[..|trials| - 1], trials[|trials| - 1];
      SelectSplit(init, rest, c);
      SelectSnoc(trials, rest + {c});
      SelectSnoc(trials, rest);
      SelectSnoc(trials, {c});
      if t.condition == c {
        MergeAssociative(Agg(Select(init, rest)), Agg(Select(init, {c})), Agg(t.records));
      } else if t.condition in rest {
        MergeSwap(Agg(Select(init, rest)), Agg(Select(init, {c})), Agg(t.records));
      }
    }
  }

  /** The sum of the aggregates of the listed conditions. */
  function MergeAll(trials: seq<Trial>, conditions: seq<string>): Totals {
    if conditions == [] then map[]
    else
      var last := |conditions| - 1;
      Merge(MergeAll(trials, conditions[..last]), Agg(Select(trials, {conditions[last]})))
  }

  predicate Unique(s: seq<string>) {
    forall i, j :: 0 <= i < j < |s| ==> s[i] != s[j]
  }

  lemma {:induction false} MergeAllSelects(trials: seq<Trial>, conditions: seq<string>)
    requires Unique(conditions)
    ensures MergeAll(trials, conditions) == Agg(Select(trials, set c | c in conditions))
  {
    if conditions == [] {
      SelectNothing(trials);
      assert (set c | c in conditions) == {};
    } else {
      var last := |conditions| - 1;
      var init, c := conditions[..last], conditions[last];
      MergeAllSelects(trials, init);
      var rest := set d | d in init;
      assert (set d | d in conditions) == rest + {c} by {
        assert conditions == init + [c];
      }
      assert c !in rest;
      SelectSplit(trials, rest, c);
    }
  }

  lemma {:induction false} SelectNothing(trials: seq<Trial>)
    ensures Select(trials, {}) == []
  {
    if trials != [] {
      SelectNothing(trials[..|trials| - 1]);
    }
  }

  function AllRecords(trials: seq<Trial>): seq<Record> {
    if trials == [] then [] else AllRecords(trials[..|trials| - 1]) + trials[|trials| - 1].records
  }

  lemma {:induction false} SelectEverything(trials: seq<Trial>, conditions: set<string>)
    requires Conditions(trials) <= conditions
    ensures Select(trials, conditions) == AllRecords(trials)
  {
    if trials != [] {
      var last := |trials| - 1;
      assert trials[last].condition in Conditions(trials);
      forall c | c in Conditions(trials[..last]) ensures c in Conditions(trials) {
        var i :| 0 <= i < last && trials[..last][i].condition == c;
        assert trials[i].condition == c;
      }
      SelectEverything(trials[..last], conditions);
    }
  }

  /** For any grouping of the trials by condition, the per-condition aggregates add up to the
      aggregate of all records. */
  lemma GroupingPreservesTotals(trials: seq<Trial>, conditions: seq<string>)
    requires Unique(conditions) && Conditions(trials) <= set c | c in conditions
    ensures MergeAll(trials, conditions) == Agg(AllRecords(trials))
  {
    MergeAllSelects(trials, conditions);
    SelectEverything(trials, set c | c in conditions);
  }

  function Lookup(grouped: map<string, seq<Record>>, c: string): seq<Record> {
    if c in grouped then grouped[c] else []
  }

  /** `grouped` holds the records of each condition of the trials. */
  ghost predicate IsGrouping(trials: seq<Trial>, grouped: map<string, seq<Record>>) {
    && grouped.Keys == Conditions(trials)
    && forall c :: Lookup(grouped, c) == Select(trials, {c})
  }

  lemma GroupStep(trials: seq<Trial>, grouped: map<string, seq<Record>>, t: Trial)
    requires IsGrouping(trials, grouped)
    ensures IsGrouping(trials + [t], grouped[t.condition := Lookup(grouped, t.condition) + t.records])
    ensures AllRecords(trials + [t]) == AllRecords(trials) + t.records
  {
    var next := trials + [t];
    assert next[..|next| - 1] == trials;
    assert Conditions(next) == Conditions(trials) + {t.condition} by {
      assert next[|trials|].condition == t.condition;
      forall c | c in Conditions(trials) ensures c in Conditions(next) {
        var i :| 0 <= i < |trials| && trials[i].condition == c;
        assert next[i].condition == c;
      }
    }
    var grouped' := grouped[t.condition := Lookup(grouped, t.condition) + t.records];
    forall c ensures Lookup(grouped', c) == Select(next, {c}) {
      assert Lookup(grouped, c) == Select(trials, {c});
    }
  }

  /** The grouping loop of the summary. */
  method Group(trials: seq<Trial>) returns (grouped: map<string, seq<Record>>, all: seq<Record>)
    ensures all == AllRecords(trials)
    ensures IsGrouping(trials, grouped)
  {
    grouped, all := map[], [];
    for i := 0 to |trials|
      invariant all == AllRecords(trials[..i])
      invariant IsGrouping(trials[..i], grouped)
    {
      var t := trials[i];
      assert trials[..i + 1] == trials[..i] + [t];
      GroupStep(trials[..i], grouped, t);
      var before := if t.condition in grouped then grouped[t.condition] else [];
      grouped := grouped[t.condition := before + t.records];
      all := all + t.records;
    }
    assert trials[..|trials|] == trials;
  }

  // ----- the summary of a batch ----------------------------------------------------------------------------

  /** The listed totals added up. */
  function MergeListed(totals: map<string, Totals>, order: seq<string>): Totals
    requires forall i :: 0 <= i < |order| ==> order[i] in totals
  {
    if order == [] then map[] else Merge(MergeListed(totals, order[..|order| - 1]), totals[order[|order| - 1]])
  }

  /** The aggregate of each condition's records. */
  method AggregateEach(grouped: map<string, seq<Record>>) returns (totals: map<string, Totals>)
    ensures totals.Keys == grouped.Keys && forall c :: c in grouped ==> totals[c] == Agg(grouped[c])
  {
    totals := map[];
    var rest := grouped.Keys;
    while rest != {}
      invariant rest <= grouped.Keys && totals.Keys == grouped.Keys - rest
      invariant forall c :: c in totals ==> totals[c] == Agg(grouped[c])
      decreases rest
    {
      var c :| c in rest;
      var total := Aggregate(grouped[c]);
      totals := totals[c := total];
      rest := rest - {c};
    }
  }

  /** `conditions` and `total` of the summary. */
  ghost predicate Summarizes(trials: seq<Trial>, conditions: map<string, Totals>, total: Totals) {
    && conditions.Keys == Conditions(trials)
    && (forall c :: c in conditions ==> conditions[c] == Agg(Select(trials, {c})))
    && total == Agg(AllRecords(trials))
  }

  /** The totals of the conditions, added up in any order, are the total. */
  lemma ConditionsAddUp(trials: seq<Trial>, conditions: map<string, Totals>, total: Totals, order: seq<string>)
    requires Summarizes(trials, conditions, total) && Unique(order) && (set c | c in order) == conditions.Keys
    ensures (forall i :: 0 <= i < |order| ==> order[i] in conditions) && MergeListed(conditions, order) == total
  {
    forall i | 0 <= i < |order| ensures order[i] in conditions {
      assert order[i] in order;
    }
    ListedIsAll(trials, conditions, order);
    GroupingPreservesTotals(trials, order);
  }

  lemma {:induction false} ListedIsAll(trials: seq<Trial>, conditions: map<string, Totals>, order: seq<string>)
    requires forall i :: 0 <= i < |order| ==> order[i] in conditions
    requires forall c :: c in conditions ==> conditions[c] == Agg(Select(trials, {c}))
    ensures MergeListed(conditions, order) == MergeAll(trials, order)
  {
    if order != [] {
      ListedIsAll(trials, conditions, order[..|order| - 1]);
    }
  }

  /** The grouping loop and the aggregates that follow it. */
  method SummarizeTrials(trials: seq<Trial>) returns (conditions: map<string, Totals>, total: Totals)
    ensures Summarizes(trials, conditions, total)
  {
    var grouped, all := Group(trials);
    conditions := AggregateEach(grouped);
    total := Aggregate(all);
    forall c | c in conditions ensures conditions[c] == Agg(Select(trials, {c})) {
      assert Lookup(grouped, c) == Select(trials, {c});
    }
  }

  // ----- what the reported totals mean -----------------------------------------------------------------------

  /** A counter summed over the trials whose condition is in `conditions`. */
  function TrialSum(trials: seq<Trial>, conditions: set<string>, component: string, name: string, f: nat): nat
    requires f < 8
  {
    if trials == [] then 0
    else
      var t := trials[|trials| - 1];
      TrialSum(trials[..|trials| - 1], conditions, component, name, f)
      + if t.condition in conditions then SumOf(t.records, component, name, f) else 0
  }

  function TrialMax(trials: seq<Trial>, conditions: set<string>, component: string, name: string): nat {
    if trials == [] then 0
    else
      var t := trials[|trials| - 1];
      Max(TrialMax(trials[..|trials| - 1], conditions, component, name),
          if t.condition in conditions then MaxOf(t.records, component, name) else 0)
  }

  lemma {:induction false} SumOfConcat(xs: seq<Record>, ys: seq<Record>, component: string, name: string, f: nat)
    requires f < 8
    ensures SumOf(xs + ys, component, name, f) == SumOf(xs, component, name, f) + SumOf(ys, component, name, f)
    ensures MaxOf(xs + ys, component, name) == Max(MaxOf(xs, component, name), MaxOf(ys, component, name))
    decreases |ys|
  {
    if ys == [] {
      assert xs + ys == xs;
    } else {
      SumOfConcat(xs, ys[..|ys| - 1], component, name, f);
      assert (xs + ys)[..|xs + ys| - 1] == xs + ys[..|ys| - 1];
    }
  }

  lemma {:induction false} SelectedSum(trials: seq<Trial>, conditions: set<string>, component: string, name: string, f: nat)
    requires f < 8
    ensures SumOf(Select(trials, conditions), component, name, f) == TrialSum(trials, conditions, component, name, f)
    ensures MaxOf(Select(trials, conditions), component, name) == TrialMax(trials, conditions, component, name)
  {
    if trials != [] {
      var init, t := trials[..|trials| - 1], trials[|trials| - 1];
      SelectedSum(init, conditions, component, name, f);
      SumOfConcat(Select(init, conditions), if t.condition in conditions then t.records else [], component, name, f);
    }
  }

  /** Every counter of a reported total is the sum of that counter over the trials it is about, and the maximum their
      maximum: those of the condition, or all. */
  lemma SummaryMeaning(trials: seq<Trial>, conditions: map<string, Totals>, total: Totals,
                       c: string, component: string, name: string, f: nat)
    requires Summarizes(trials, conditions, total) && f < 8
    ensures c in conditions ==>
              && Counter(Get(Labels(conditions[c], component), name), f) == TrialSum(trials, {c}, component, name, f)
              && Get(Labels(conditions[c], component), name).maxNs == TrialMax(trials, {c}, component, name)
    ensures var all := Conditions(trials);
            && Counter(Get(Labels(total, component), name), f) == TrialSum(trials, all, component, name, f)
            && Get(Labels(total, component), name).maxNs == TrialMax(trials, all, component, name)
  {
    AggregateMeaning(Select(trials, {c}), component, name, f);
    SelectedSum(trials, {c}, component, name, f);
    AggregateMeaning(AllRecords(trials), component, name, f);
    SelectEverything(trials, Conditions(trials));
    SelectedSum(trials, Conditions(trials), component, name, f);
  }

  /** A label is in the aggregate of a component exactly when some record of the component has it. */
  lemma {:induction false} PresentExactly(records: seq<Record>, component: string, name: string)
    ensures name in Labels(Agg(records), component) <==>
              exists i :: 0 <= i < |records| && records[i].component == component && name in records[i].profile
  {
    if records != [] {
      var init, r := records[..|records| - 1], records[|records| - 1];
      PresentExactly(init, component, name);
      LabelsMerged(Agg(init), Single(r), component);
      if name in Labels(Agg(init), component) {
        var i :| 0 <= i < |init| && init[i].component == component && name in init[i].profile;
        assert records[i] == init[i];
      }
      if i :| 0 <= i < |records| && records[i].component == component && name in records[i].profile {
        assert i < |init| ==> init[i] == records[i];
      }
    }
  }
}
