/** `summarize_batch` of the diagnostics: every trial's log, then the totals. */
module Diagnostics {
  import opened Wrappers
  import opened Measurements
  import opened ProfileLog
  import opened ProfileOrder
  import opened PhaseIntervals
  import opened PhaseAccounting
  import opened Aggregation

  /** What all trials of a batch have in common: the profile owners of the subject, the rounds, and the counters
      of the host, which fail when the totals do not fit what the trial's condition enables. */
  datatype Protocol = Protocol(owners: set<string>, rounds: nat, host: (Totals, bool) -> Result<map<string, nat>>)

  /** A trial of the batch: its condition, whether it succeeded, its log, the order of its cells, and whether its
      condition enables writeback on the host. */
  datatype TrialLog = TrialLog(
    condition: string, valid: bool, lines: seq<Line>, phaseLines: seq<PhaseLine>, cells: seq<string>,
    hostWriteback: bool)

  predicate Native(t: TrialLog) { t.condition == "native" }

  /** The profile instances a trial must have. */
  function Instances(t: TrialLog, owners: set<string>): multiset<string> {
    if Native(t) then multiset{} else multiset(owners)
  }

  function RecordsOf(reports: seq<FinalReport>): seq<Record> {
    seq(|reports|, i requires 0 <= i < |reports| => Record(reports[i].key.component, reports[i].profile))
  }

  // ----- one trial -----------------------------------------------------------------------------------------

  /** What the log of a trial says. */
  datatype Findings = Findings(
    finals: map<Key, Profile>, reports: seq<FinalReport>, phases: Phases, mounted: set<Key>)

  /** The findings are those of the log. */
  ghost predicate Found(t: TrialLog, p: Protocol, x: Findings) {
    && Acceptable(t.lines, Instances(t, p.owners)) && AreFinals(t.lines, x.finals) && SortedReports(x.finals, x.reports)
    && RecordsOk(t.phaseLines, |t.phaseLines|, Scope(p.owners, x.finals.Keys))
    && Gathered(t.phaseLines, |t.phaseLines|, x.phases, x.mounted)
  }

  /** Only a native trial may lack phase records, present ones have no defect, and the totals are in order. */
  ghost predicate Passes(t: TrialLog, p: Protocol, x: Findings) {
    && (if x.phases == map[] then Native(t) else !Defective(x.phases, x.mounted, x.finals, Slots(t.cells, p.rounds)))
    && p.host(Agg(RecordsOf(x.reports)), t.hostWriteback).Ok?
  }

  /** A trial that is summarized. */
  ghost predicate TrialOk(t: TrialLog, p: Protocol, x: Findings) {
    t.valid && Found(t, p, x) && Passes(t, p, x)
  }

  ghost predicate Accepted(t: TrialLog, p: Protocol) {
    exists x :: TrialOk(t, p, x)
  }

  lemma FinalUnique(log: seq<Line>, expected: multiset<string>, key: Key, a: Profile, b: Profile)
    requires Acceptable(log, expected)
    requires IsReport(log, |log|, key, true, a) && IsReport(log, |log|, key, true, b)
    ensures a == b
  {
    var i :| 0 <= i < |log| && log[i] == Report(key, true, a);
    var j :| 0 <= j < |log| && log[j] == Report(key, true, b);
    FinalIsUniqueAndLast(log, expected, i, j);
  }

  lemma FinalsUnique(log: seq<Line>, expected: multiset<string>, a: map<Key, Profile>, b: map<Key, Profile>)
    requires Acceptable(log, expected) && AreFinals(log, a) && AreFinals(log, b)
    ensures a == b
  {
    assert a.Keys == b.Keys;
    forall key | key in a ensures a[key] == b[key] {
      FinalUnique(log, expected, key, a[key], b[key]);
    }
  }

  /** An accepted log of a trial has one identity of every owner and no other; a native trial has none. */
  lemma OneInstanceEach(t: TrialLog, p: Protocol, c: string)
    requires Acceptable(t.lines, Instances(t, p.owners))
    ensures var keys := OfComponent(StartedKeys(t.lines, |t.lines|), c);
            && (!Native(t) && c in p.owners ==> exists k :: k in keys && forall j :: j in keys ==> j == k)
            && (Native(t) || c !in p.owners ==> keys == {})
  {
    var keys := OfComponent(StartedKeys(t.lines, |t.lines|), c);
    assert |keys| == Instances(t, p.owners)[c];
    if |keys| == 1 {
      OnlyOne(keys);
    }
  }

  lemma OnlyOne(keys: set<Key>)
    requires |keys| == 1
    ensures exists k :: k in keys && forall j :: j in keys ==> j == k
  {
    var k :| k in keys;
    var rest := keys - {k};
    assert |rest| == 0;
    assert forall j :: j in keys ==> j == k || j in rest;
  }

  function KeysOf(reports: seq<FinalReport>): (keys: seq<Key>)
    ensures |keys| == |reports| && forall i :: 0 <= i < |keys| ==> keys[i] == reports[i].key
  {
    seq(|reports|, i requires 0 <= i < |reports| => reports[i].key)
  }

  lemma KeysOfReports(finals: map<Key, Profile>, reports: seq<FinalReport>)
    requires SortedReports(finals, reports)
    ensures SortedKeys(KeysOf(reports)) && forall k :: k in KeysOf(reports) <==> k in finals
  {
    forall k | k in finals ensures k in KeysOf(reports) {
      var i :| 0 <= i < |reports| && reports[i].key == k;
      assert KeysOf(reports)[i] == k;
    }
  }

  lemma ReportsUnique(finals: map<Key, Profile>, a: seq<FinalReport>, b: seq<FinalReport>)
    requires SortedReports(finals, a) && SortedReports(finals, b)
    ensures a == b
  {
    KeysOfReports(finals, a);
    KeysOfReports(finals, b);
    SortedUnique(KeysOf(a), KeysOf(b));
    forall i | 0 <= i < |a| ensures a[i] == b[i] {
      assert KeysOf(a)[i] == KeysOf(b)[i];
    }
  }

  lemma GatheredUnique(lines: seq<PhaseLine>, p: Phases, m: set<Key>, q: Phases, n: set<Key>)
    requires Gathered(lines, |lines|, p, m) && Gathered(lines, |lines|, q, n)
    ensures p == q && (p != map[] ==> m == n)
  {
    forall token | token in p ensures token in q && p[token] == q[token] && m == n {
      RecordIn(lines, token, p, m, q, n);
    }
    forall token | token in q ensures token in p {
      RecordIn(lines, token, q, n, p, m);
    }
    if p != map[] {
      var token :| token in p;
    }
  }

  lemma RecordIn(lines: seq<PhaseLine>, token: nat, p: Phases, m: set<Key>, q: Phases, n: set<Key>)
    requires Gathered(lines, |lines|, p, m) && Gathered(lines, |lines|, q, n) && token in p
    ensures token in q && p[token] == q[token] && m == n
  {
    assert HasRecord(lines, |lines|, token);
    var i :| 0 <= i < |lines| && lines[i].Phase? && lines[i].token == token;
    assert Held(lines[i], p, m) && Held(lines[i], q, n);
  }

  /** A log has one set of findings. */
  lemma FoundUnique(t: TrialLog, p: Protocol, x: Findings, y: Findings)
    requires Found(t, p, x) && Found(t, p, y)
    ensures x.finals == y.finals && x.reports == y.reports && x.phases == y.phases
    ensures x.phases != map[] ==> x.mounted == y.mounted
  {
    FinalsUnique(t.lines, Instances(t, p.owners), x.finals, y.finals);
    ReportsUnique(x.finals, x.reports, y.reports);
    GatheredUnique(t.phaseLines, x.phases, x.mounted, y.phases, y.mounted);
  }

  /** Findings that do not pass mean that no findings do. */
  lemma Rejected(t: TrialLog, p: Protocol, x: Findings)
    requires Found(t, p, x) && !Passes(t, p, x)
    ensures !Accepted(t, p)
  {
    forall y | TrialOk(t, p, y) ensures false {
      FoundUnique(t, p, x, y);
    }
  }

  lemma RecordsRejected(t: TrialLog, p: Protocol, finals: map<Key, Profile>)
    requires Acceptable(t.lines, Instances(t, p.owners)) && AreFinals(t.lines, finals)
    requires !RecordsOk(t.phaseLines, |t.phaseLines|, Scope(p.owners, finals.Keys))
    ensures !Accepted(t, p)
  {
    forall y | TrialOk(t, p, y) ensures false {
      FinalsUnique(t.lines, Instances(t, p.owners), finals, y.finals);
    }
  }

  lemma LogRejected(t: TrialLog, p: Protocol)
    requires !t.valid || !Acceptable(t.lines, Instances(t, p.owners))
    ensures !Accepted(t, p)
  {
  }

  lemma Passing(t: TrialLog, p: Protocol, x: Findings)
    requires t.valid && Found(t, p, x) && Passes(t, p, x)
    ensures TrialOk(t, p, x) && Accepted(t, p)
  {
    assert TrialOk(t, p, x);
  }

  /** What the summary says of a trial: its condition, its final reports, its rows and the counters of the host. */
  datatype TrialReport = TrialReport(
    condition: string, reports: seq<FinalReport>, rows: seq<PhaseRow>, counters: map<string, nat>)

  /** `collect_phases` on the finals of a trial. */
  method FindPhases(t: TrialLog, p: Protocol, finals: map<Key, Profile>, reports: seq<FinalReport>)
    returns (rows: Result<seq<PhaseRow>>, ghost x: Findings)
    requires p.owners != {}
    requires Acceptable(t.lines, Instances(t, p.owners)) && AreFinals(t.lines, finals) && SortedReports(finals, reports)
    ensures rows.Ok? ==> Found(t, p, x) && x.reports == reports
    ensures rows.Ok? ==> (rows.value == [] <==> x.phases == map[])
    ensures rows.Ok? && x.phases != map[] ==>
              && !Defective(x.phases, x.mounted, x.finals, Slots(t.cells, p.rounds))
              && ListedRows(x.phases, x.mounted, t.cells, p.rounds, rows.value)
    ensures rows.Err? ==> !Accepted(t, p)
  {
    ghost var phases, mounted;
    rows, phases, mounted := CollectRows(t.phaseLines, p.owners, finals, t.cells, p.rounds);
    x := Findings(finals, reports, phases, mounted);
    if rows.Err? {
      if RecordsOk(t.phaseLines, |t.phaseLines|, Scope(p.owners, finals.Keys)) {
        Rejected(t, p, x);
      } else {
        RecordsRejected(t, p, finals);
      }
    }
  }

  /** The rest of a turn, once the final reports are known. */
  method JudgeTrial(t: TrialLog, p: Protocol, finals: map<Key, Profile>) returns (r: Result<TrialReport>, ghost x: Findings)
    requires p.owners != {} && t.valid
    requires Acceptable(t.lines, Instances(t, p.owners)) && AreFinals(t.lines, finals)
    ensures r.Ok? ==> TrialOk(t, p, x) && IsReportOf(t, p, x, r.value)
    ensures r.Err? ==> !Accepted(t, p)
  {
    var reports := ListFinals(finals);
    var rows;
    rows, x := FindPhases(t, p, finals, reports);
    if rows.Err? {
      return Err, x;
    }
    var components := Aggregate(RecordsOf(reports));
    var counters := p.host(components, t.hostWriteback);
    if (!Native(t) && rows.value == []) || counters.Err? {
      Rejected(t, p, x);
      return Err, x;
    }
    Passing(t, p, x);
    r := Ok(TrialReport(t.condition, reports, rows.value, counters.value));
  }

  /** The report says what the findings do: the list of final reports, the rows of the phases and the counters. */
  ghost predicate IsReportOf(t: TrialLog, p: Protocol, x: Findings, report: TrialReport) {
    && report.condition == t.condition && report.reports == x.reports
    && p.host(Agg(RecordsOf(x.reports)), t.hostWriteback) == Ok(report.counters)
    && if x.phases == map[] then report.rows == [] else ListedRows(x.phases, x.mounted, t.cells, p.rounds, report.rows)
  }

  /** One turn of the loop of `summarize_batch`. */
  method CollectTrial(t: TrialLog, p: Protocol) returns (r: Result<TrialReport>, ghost x: Findings)
    requires p.owners != {}
    ensures r.Ok? ==> TrialOk(t, p, x) && IsReportOf(t, p, x, r.value)
    ensures r.Err? ==> !Accepted(t, p)
  {
    x := Findings(map[], [], map[], {});
    if !t.valid {
      LogRejected(t, p);
      return Err, x;
    }
    var finals := CollectProfiles(t.lines, Instances(t, p.owners));
    if finals.Err? {
      LogRejected(t, p);
      return Err, x;
    }
    r, x := JudgeTrial(t, p, finals.value);
  }

  // ----- the batch -----------------------------------------------------------------------------------------

  datatype Summary = Summary(trials: seq<TrialReport>, conditions: map<string, Totals>, total: Totals)

  /** Trials with what was found in their logs, last one outermost. */
  datatype Judged = Nothing | Judged(before: Judged, t: TrialLog, x: Findings)

  ghost predicate All(j: Judged, ok: (TrialLog, Findings) -> bool) {
    j.Judged? ==> All(j.before, ok) && ok(j.t, j.x)
  }

  function TrialsOf(j: Judged): seq<TrialLog> {
    if j.Nothing? then [] else TrialsOf(j.before) + [j.t]
  }

  /** The records of every trial under its condition. */
  function Reported(j: Judged): seq<Trial> {
    if j.Nothing? then [] else Reported(j.before) + [Trial(j.t.condition, RecordsOf(j.x.reports))]
  }

  ghost function OkIn(p: Protocol): (TrialLog, Findings) -> bool {
    (t: TrialLog, x: Findings) => TrialOk(t, p, x)
  }

  ghost function AcceptedIn(p: Protocol): TrialLog -> bool {
    (t: TrialLog) => Accepted(t, p)
  }

  /** The report is that of the findings of the trial. */
  ghost predicate ReportedFrom(t: TrialLog, p: Protocol, report: TrialReport) {
    exists x :: TrialOk(t, p, x) && IsReportOf(t, p, x, report)
  }

  ghost function ReportedIn(p: Protocol): (TrialLog, TrialReport) -> bool {
    (t: TrialLog, report: TrialReport) => ReportedFrom(t, p, report)
  }

  /** The three predicates stand for those of the protocol. */
  ghost predicate Stand(ok: (TrialLog, Findings) -> bool, accepted: TrialLog -> bool,
                        reported: (TrialLog, TrialReport) -> bool, p: Protocol) {
    && (forall t, x {:trigger TrialOk(t, p, x)} :: TrialOk(t, p, x) ==> ok(t, x))
    && (forall t {:trigger Accepted(t, p)} :: Accepted(t, p) <==> accepted(t))
    && (forall t, report {:trigger ReportedFrom(t, p, report)} :: ReportedFrom(t, p, report) ==> reported(t, report))
  }

  method NextTrial(t: TrialLog, p: Protocol, ghost ok: (TrialLog, Findings) -> bool, ghost accepted: TrialLog -> bool,
                   ghost reported: (TrialLog, TrialReport) -> bool)
    returns (r: Result<TrialReport>, ghost x: Findings)
    requires p.owners != {} && Stand(ok, accepted, reported, p)
    ensures r.Ok? ==> ok(t, x) && reported(t, r.value) && r.value.reports == x.reports
    ensures r.Ok? <==> accepted(t)
  {
    r, x := CollectTrial(t, p);
    if r.Ok? {
      Passing(t, p, x);
      assert ReportedFrom(t, p, r.value);
    }
  }

  /** The loop over the trials: it fails at the first one that is not accepted. */
  method CollectTrials(trials: seq<TrialLog>, p: Protocol, ghost ok: (TrialLog, Findings) -> bool,
                       ghost accepted: TrialLog -> bool, ghost reported: (TrialLog, TrialReport) -> bool)
    returns (r: Result<seq<TrialReport>>, found: seq<Trial>, ghost j: Judged)
    requires p.owners != {} && Stand(ok, accepted, reported, p)
    ensures r.Ok? <==> forall i :: 0 <= i < |trials| ==> accepted(trials[i])
    ensures r.Ok? ==> |r.value| == |trials| && forall i :: 0 <= i < |trials| ==> reported(trials[i], r.value[i])
    ensures r.Ok? ==> All(j, ok) && TrialsOf(j) == trials && found == Reported(j)
  {
    var reports: seq<TrialReport> := [];
    found, j := [], Nothing;
    for i := 0 to |trials|
      invariant forall k :: 0 <= k < i ==> accepted(trials[k])
      invariant |reports| == i && forall k :: 0 <= k < i ==> reported(trials[k], reports[k])
      invariant All(j, ok) && TrialsOf(j) == trials[..i] && found == Reported(j)
    {
      var report;
      ghost var x;
      report, x := NextTrial(trials[i], p, ok, accepted, reported);
      if report.Err? {
        return Err, found, j;
      }
      reports := reports + [report.value];
      found := found + [Trial(trials[i].condition, RecordsOf(report.value.reports))];
      j := Judged(j, trials[i], x);
    }
    r := Ok(reports);
  }

  /** Fails if and only if some trial is not accepted. Otherwise every trial is reported as its log says, and the totals
      are those of all final reports, and of the final reports of each condition. */
  method SummarizeBatch(trials: seq<TrialLog>, p: Protocol) returns (r: Result<Summary>, ghost j: Judged)
    requires p.owners != {}
    ensures r.Ok? <==> forall i :: 0 <= i < |trials| ==> AcceptedIn(p)(trials[i])
    ensures r.Ok? ==>
              && |r.value.trials| == |trials|
              && forall i :: 0 <= i < |trials| ==> ReportedIn(p)(trials[i], r.value.trials[i])
    ensures r.Ok? ==> All(j, OkIn(p)) && TrialsOf(j) == trials
    ensures r.Ok? ==> Summarizes(Reported(j), r.value.conditions, r.value.total)
  {
    var reports, found;
    reports, found, j := CollectTrials(trials, p, OkIn(p), AcceptedIn(p), ReportedIn(p));
    if reports.Err? {
      return Err, j;
    }
    var conditions, total := SummarizeTrials(found);
    r := Ok(Summary(reports.value, conditions, total));
  }

  // ----- the subject ---------------------------------------------------------------------------------------

  const OWNERS: set<string> := {"virtio-fs-protocol", "virtio-fs-dispatch", "virtio-fs-overlay", "overlay-core"}

  const HOST_COUNTERS: set<string> := {
    "host_writeback_enabled", "host_writeback_accepted_requests", "host_writeback_accepted_bytes",
    "host_writeback_backing_batches", "host_writeback_backing_bytes", "host_writeback_backing_errors",
    "host_writeback_queue_sessions", "host_writeback_queue_peak_bytes_sum", "host_writeback_queue_peak_tasks_sum",
    "host_writeback_queue_batches", "host_writeback_queue_tasks", "host_writeback_reserve_wait_count",
    "host_writeback_reserve_wait_ns"}

  /** `host_writeback`: what was accepted has reached the backing store, or nothing was to be. */
  predicate HostOk(components: Totals, enabled: bool) {
    var overlay := Labels(components, "virtio-fs-overlay");
    if !enabled then Get(overlay, "host_writeback_enabled").units == 0
    else
      && HOST_COUNTERS <= overlay.Keys
      && Get(overlay, "host_writeback_enabled").units == 1
      && Get(overlay, "host_writeback_accepted_bytes").units == Get(overlay, "host_writeback_backing_bytes").units
      && Get(overlay, "host_writeback_accepted_requests").units == Get(overlay, "host_writeback_queue_tasks").units
      && Get(overlay, "host_writeback_backing_batches").units == Get(overlay, "host_writeback_queue_batches").units
      && Get(overlay, "host_writeback_backing_errors").units == 0
  }

  /** The host's counters of a trial: the units of the overlay's labels that begin with `host_writeback_`. */
  function HostCounters(components: Totals): map<string, nat> {
    var overlay := Labels(components, "virtio-fs-overlay");
    map name | name in overlay && "host_writeback_" <= name :: overlay[name].units
  }

  function HostWriteback(components: Totals, enabled: bool): Result<map<string, nat>> {
    if HostOk(components, enabled) then Ok(HostCounters(components)) else Err
  }

  /** The protocol of the frozen subject: four owners and the host's writeback counters. */
  function Subject(rounds: nat): (p: Protocol)
    ensures p.owners != {}
  {
    assert "overlay-core" in OWNERS;
    Protocol(OWNERS, rounds, HostWriteback)
  }

  /** A counter of the trial's overlay reports, added up. */
  function HostSum(x: Findings, name: string): nat {
    SumOf(RecordsOf(x.reports), "virtio-fs-overlay", name, 1)
  }

  /** In an accepted trial, summed over all of its overlay reports: without writeback on the host nothing was enabled;
      with it, it was enabled once, no write failed, and everything accepted went through the queue and reached the
      backing store. */
  lemma HostBalances(t: TrialLog, rounds: nat, x: Findings)
    requires TrialOk(t, Subject(rounds), x)
    ensures HostSum(x, "host_writeback_enabled") == if t.hostWriteback then 1 else 0
    ensures t.hostWriteback ==>
              && HostSum(x, "host_writeback_backing_errors") == 0
              && HostSum(x, "host_writeback_accepted_bytes") == HostSum(x, "host_writeback_backing_bytes")
              && HostSum(x, "host_writeback_accepted_requests") == HostSum(x, "host_writeback_queue_tasks")
              && HostSum(x, "host_writeback_backing_batches") == HostSum(x, "host_writeback_queue_batches")
  {
    var components := Agg(RecordsOf(x.reports));
    HostIsOk(components, t.hostWriteback, rounds);
    HostMeans(x, "host_writeback_enabled");
    HostMeans(x, "host_writeback_backing_errors");
    HostMeans(x, "host_writeback_accepted_bytes");
    HostMeans(x, "host_writeback_backing_bytes");
    HostMeans(x, "host_writeback_accepted_requests");
    HostMeans(x, "host_writeback_queue_tasks");
    HostMeans(x, "host_writeback_backing_batches");
    HostMeans(x, "host_writeback_queue_batches");
  }

  lemma HostIsOk(components: Totals, enabled: bool, rounds: nat)
    requires Subject(rounds).host(components, enabled).Ok?
    ensures HostOk(components, enabled)
  {
  }

  lemma HostMeans(x: Findings, name: string)
    ensures Get(Labels(Agg(RecordsOf(x.reports)), "virtio-fs-overlay"), name).units == HostSum(x, name)
  {
    AggregateMeaning(RecordsOf(x.reports), "virtio-fs-overlay", name, 1);
  }

  /** The host's counters of a trial: one for every label of its overlay reports that begins with `host_writeback_`, and
      each is the sum over those reports. */
  lemma HostReported(t: TrialLog, rounds: nat, x: Findings, report: TrialReport, name: string)
    requires IsReportOf(t, Subject(rounds), x, report)
    ensures name in report.counters <==>
              && "host_writeback_" <= name
              && exists i :: 0 <= i < |x.reports| && HasLabel(x.reports[i], "virtio-fs-overlay", name)
    ensures name in report.counters ==> report.counters[name] == HostSum(x, name)
  {
    var records := RecordsOf(x.reports);
    HostMeans(x, name);
    PresentExactly(records, "virtio-fs-overlay", name);
    if i :| 0 <= i < |records| && records[i].component == "virtio-fs-overlay" && name in records[i].profile {
      assert HasLabel(x.reports[i], "virtio-fs-overlay", name);
    }
    if i :| 0 <= i < |x.reports| && HasLabel(x.reports[i], "virtio-fs-overlay", name) {
      assert records[i].component == "virtio-fs-overlay";
    }
    CountersAre(Agg(records), t.hostWriteback, rounds, report.counters);
  }

  predicate HasLabel(report: FinalReport, component: string, name: string) {
    report.key.component == component && name in report.profile
  }

  lemma CountersAre(components: Totals, enabled: bool, rounds: nat, counters: map<string, nat>)
    requires Subject(rounds).host(components, enabled) == Ok(counters)
    ensures counters == HostCounters(components)
  {
  }

  // ----- what the summary adds up ------------------------------------------------------------------------------

  /** A counter summed over the reports of a component. */
  function ReportSum(reports: seq<FinalReport>, component: string, name: string, f: nat): nat
    requires f < 8
  {
    if reports == [] then 0
    else
      var last := reports[|reports| - 1];
      ReportSum(reports[..|reports| - 1], component, name, f)
      + if last.key.component == component then Counter(Get(last.profile, name), f) else 0
  }

  lemma {:induction false} RecordsSum(reports: seq<FinalReport>, component: string, name: string, f: nat)
    requires f < 8
    ensures SumOf(RecordsOf(reports), component, name, f) == ReportSum(reports, component, name, f)
  {
    if reports != [] {
      var init := reports[..|reports| - 1];
      RecordsSum(init, component, name, f);
      assert RecordsOf(reports)[..|init|] == RecordsOf(init);
    }
  }

  /** A counter summed over the final reports of the trials whose condition is in `conditions`. */
  function BatchSum(j: Judged, conditions: set<string>, component: string, name: string, f: nat): nat
    requires f < 8
  {
    if j.Nothing? then 0
    else
      BatchSum(j.before, conditions, component, name, f)
      + if j.t.condition in conditions then ReportSum(j.x.reports, component, name, f) else 0
  }

  lemma {:induction false} BatchAdds(j: Judged, conditions: set<string>, component: string, name: string, f: nat)
    requires f < 8
    ensures TrialSum(Reported(j), conditions, component, name, f) == BatchSum(j, conditions, component, name, f)
  {
    if j.Judged? {
      BatchAdds(j.before, conditions, component, name, f);
      RecordsSum(j.x.reports, component, name, f);
      var last := Trial(j.t.condition, RecordsOf(j.x.reports));
      assert Reported(j)[..|Reported(j)| - 1] == Reported(j.before);
      assert Reported(j)[|Reported(j)| - 1] == last;
    }
  }

  /** Every counter of the summary is the sum of that counter over the final reports of the trials it is about. */
  lemma SummaryAdds(j: Judged, summary: Summary, c: string, component: string, name: string, f: nat)
    requires Summarizes(Reported(j), summary.conditions, summary.total) && f < 8
    ensures c in summary.conditions ==>
              Counter(Get(Labels(summary.conditions[c], component), name), f) == BatchSum(j, {c}, component, name, f)
    ensures Counter(Get(Labels(summary.total, component), name), f)
         == BatchSum(j, Conditions(Reported(j)), component, name, f)
  {
    SummaryMeaning(Reported(j), summary.conditions, summary.total, c, component, name, f);
    BatchAdds(j, {c}, component, name, f);
    BatchAdds(j, Conditions(Reported(j)), component, name, f);
  }
}
