/** Cell intervals between phase tokens: the token schedule of the guest and `collect_phases` and
    `corrected_counts` of the diagnostics. */
module PhaseIntervals {
  import opened Wrappers
  import opened Bits
  import opened Measurements
  import opened ProfileLog

  // ----- the token schedule -----------------------------------------------------------------------

  /** The position of a cell in the run, counted over all rounds. */
  function Slot(cells: nat, round: nat, index: nat): nat
    requires 1 <= round
  {
    (round - 1) * cells + index
  }

  /** The guest's loop over rounds and cells, with the two markers of each cell: it emits exactly
      1, 2, ..., 2 * cells * rounds in order. */
  method EmitTokens(cells: nat, rounds: nat) returns (tokens: seq<nat>)
    ensures |tokens| == 2 * (cells * rounds)
    ensures forall i :: 0 <= i < |tokens| ==> tokens[i] == i + 1
  {
    tokens := [];
    for round := 1 to rounds + 1
      invariant |tokens| == 2 * ((round - 1) * cells)
      invariant forall i :: 0 <= i < |tokens| ==> tokens[i] == i + 1
    {
      for index := 0 to cells
        invariant |tokens| == 2 * ((round - 1) * cells + index)
        invariant forall i :: 0 <= i < |tokens| ==> tokens[i] == i + 1
      {
        var token := 2 * ((round - 1) * cells + index) + 1;
        tokens := tokens + [token];
        tokens := tokens + [token + 1];
      }
      assert (round - 1) * cells + cells == round * cells;
    }
    assert rounds * cells == cells * rounds;
  }

  function RoundOf(cells: nat, slot: nat): nat
    requires 0 < cells
  {
    slot / cells + 1
  }

  function IndexOf(cells: nat, slot: nat): nat
    requires 0 < cells
  {
    slot % cells
  }

  /** Slots and (round, index) pairs correspond one to one, so each cell owns its two tokens. */
  lemma SlotsPairUp(cells: nat, rounds: nat, round: nat, index: nat, slot: nat)
    requires 0 < cells
    ensures 1 <= round <= rounds && index < cells ==>
              && Slot(cells, round, index) < cells * rounds
              && RoundOf(cells, Slot(cells, round, index)) == round
              && IndexOf(cells, Slot(cells, round, index)) == index
    ensures slot < cells * rounds ==>
              && 1 <= RoundOf(cells, slot) <= rounds && IndexOf(cells, slot) < cells
              && Slot(cells, RoundOf(cells, slot), IndexOf(cells, slot)) == slot
  {
    if 1 <= round <= rounds && index < cells {
      SlotBelow(cells, rounds, round, index);
      assert Slot(cells, round, index) == cells * (round - 1) + index;
      DivModUnique(Slot(cells, round, index), cells, round - 1, index);
    }
    if slot < cells * rounds {
      assert slot == cells * (slot / cells) + slot % cells;
      QuotientBelow(slot, cells, rounds);
      assert (slot / cells) * cells == cells * (slot / cells);
    }
  }

  lemma SlotBelow(cells: nat, rounds: nat, round: nat, index: nat)
    requires 1 <= round <= rounds && index < cells
    ensures Slot(cells, round, index) < cells * rounds
  {
  }

  lemma QuotientBelow(slot: nat, cells: nat, rounds: nat)
    requires 0 < cells && slot < cells * rounds
    ensures slot / cells < rounds
  {
  }

  // ----- phase records ------------------------------------------------------------------------------

  datatype Snapshot = Snapshot(key: Key, final: bool, profile: Profile)

  /** A phase line after parsing: `BadPhase` is one whose record is invalid. */
  datatype PhaseLine = Phase(token: nat, snapshots: seq<Snapshot>) | BadPhase | NotPhase

  type Phases = map<nat, map<Key, Profile>>

  function Keys(snapshots: seq<Snapshot>): set<Key> {
    set i | 0 <= i < |snapshots| :: snapshots[i].key
  }

  predicate Distinct(snapshots: seq<Snapshot>) {
    forall i, j :: 0 <= i < j < |snapshots| ==> snapshots[i].key != snapshots[j].key
  }

  function ComponentsOf(keys: set<Key>): set<string> {
    set k | k in keys :: k.component
  }

  function ToMap(snapshots: seq<Snapshot>): map<Key, Profile> {
    if snapshots == [] then map[]
    else ToMap(snapshots[..|snapshots| - 1])[snapshots[|snapshots| - 1].key := snapshots[|snapshots| - 1].profile]
  }

  lemma KeysSnoc(snapshots: seq<Snapshot>)
    requires snapshots != []
    ensures var last := |snapshots| - 1; Keys(snapshots) == Keys(snapshots[..last]) + {snapshots[last].key}
  {
  }

  lemma {:induction false} ToMapKeys(snapshots: seq<Snapshot>)
    ensures ToMap(snapshots).Keys == Keys(snapshots)
  {
    if snapshots != [] {
      ToMapKeys(snapshots[..|snapshots| - 1]);
      KeysSnoc(snapshots);
    }
  }

  lemma {:induction false} ToMapCorrect(snapshots: seq<Snapshot>)
    requires Distinct(snapshots)
    ensures ToMap(snapshots).Keys == Keys(snapshots)
    ensures forall i :: 0 <= i < |snapshots| ==>
              snapshots[i].key in ToMap(snapshots) && ToMap(snapshots)[snapshots[i].key] == snapshots[i].profile
  {
    ToMapKeys(snapshots);
    if snapshots != [] {
      var last := |snapshots| - 1;
      ToMapCorrect(snapshots[..last]);
      assert forall i :: 0 <= i < last ==> snapshots[..last][i] == snapshots[i];
    }
  }

  /** What a valid record must cover: `components` are the four profile owners of the subject, and
      `registered` the identities with a final report. */
  datatype Scope = Scope(components: set<string>, registered: set<Key>)

  /** One record covers each component once, by registered identities, and no snapshot in it is
      final. */
  predicate RecordOk(line: PhaseLine, scope: Scope)
    requires line.Phase?
  {
    && 0 < line.token
    && |line.snapshots| == |scope.components| && Distinct(line.snapshots)
    && ComponentsOf(Keys(line.snapshots)) == scope.components
    && Keys(line.snapshots) <= scope.registered
    && forall i :: 0 <= i < |line.snapshots| ==> !line.snapshots[i].final
  }

  function Members(s: seq<string>): set<string> { set x | x in s }

  lemma {:induction false} MembersBound(s: seq<string>)
    ensures |Members(s)| <= |s|
  {
    if s != [] {
      var init, last := s[..|s| - 1], s[|s| - 1];
      MembersBound(init);
      assert s == init + [last];
      assert Members(s) == Members(init) + {last};
    }
  }

  /** As many different members as positions: no two positions agree. */
  lemma NoRepeats(s: seq<string>, i: nat, j: nat)
    requires |Members(s)| == |s| && i < j < |s|
    ensures s[i] != s[j]
  {
    if s[i] == s[j] {
      var rest := s[..j] + s[j + 1..];
      assert rest[i] == s[i];
      forall x | x in s ensures x in rest {
        var k :| 0 <= k < |s| && s[k] == x;
        assert k < j ==> rest[k] == x;
        assert k > j ==> rest[k - 1] == x;
      }
      assert Members(s) == Members(rest) by {
        assert forall x :: x in rest ==> x in s;
      }
      MembersBound(rest);
    }
  }

  function ComponentList(snapshots: seq<Snapshot>): (r: seq<string>)
    ensures |r| == |snapshots| && forall i :: 0 <= i < |r| ==> r[i] == snapshots[i].key.component
  {
    seq(|snapshots|, i requires 0 <= i < |snapshots| => snapshots[i].key.component)
  }

  lemma ListedComponents(snapshots: seq<Snapshot>)
    ensures Members(ComponentList(snapshots)) == ComponentsOf(Keys(snapshots))
  {
    forall c | c in ComponentsOf(Keys(snapshots)) ensures c in ComponentList(snapshots) {
      var k :| k in Keys(snapshots) && k.component == c;
      var i :| 0 <= i < |snapshots| && snapshots[i].key == k;
      assert ComponentList(snapshots)[i] == c;
    }
  }

  /** A valid record has exactly one snapshot of every owner, none of anything else, and none is final. */
  lemma OneSnapshotEach(line: PhaseLine, scope: Scope)
    requires line.Phase? && RecordOk(line, scope)
    ensures forall i :: 0 <= i < |line.snapshots| ==>
              line.snapshots[i].key.component in scope.components && !line.snapshots[i].final
    ensures forall c :: c in scope.components ==>
              exists i :: 0 <= i < |line.snapshots| && line.snapshots[i].key.component == c
    ensures forall i, j :: 0 <= i < j < |line.snapshots| ==>
              line.snapshots[i].key.component != line.snapshots[j].key.component
  {
    var s := ComponentList(line.snapshots);
    ListedComponents(line.snapshots);
    forall i | 0 <= i < |s| ensures s[i] in scope.components {
      assert s[i] in Members(s);
    }
    forall c | c in scope.components
      ensures exists i :: 0 <= i < |line.snapshots| && line.snapshots[i].key.component == c
    {
      assert c in Members(s);
      var i :| 0 <= i < |s| && s[i] == c;
      assert line.snapshots[i].key.component == c;
    }
    forall i, j | 0 <= i < j < |s| ensures s[i] != s[j] {
      NoRepeats(s, i, j);
    }
  }

  /** The first `n` lines hold valid records with distinct tokens and one set of identities. */
  ghost predicate RecordsOk(lines: seq<PhaseLine>, n: nat, scope: Scope)
    requires n <= |lines|
  {
    && (forall i :: 0 <= i < n ==> !lines[i].BadPhase?)
    && (forall i :: 0 <= i < n && lines[i].Phase? ==> RecordOk(lines[i], scope))
    && (forall i, j :: 0 <= i < j < n ==> Compatible(lines[i], lines[j]))
  }

  predicate Compatible(a: PhaseLine, b: PhaseLine) {
    a.Phase? && b.Phase? ==> a.token != b.token && Keys(a.snapshots) == Keys(b.snapshots)
  }

  /** `phases` holds exactly the records of the first `n` lines, all over the identities `mounted`. */
  ghost predicate Gathered(lines: seq<PhaseLine>, n: nat, phases: Phases, mounted: set<Key>)
    requires n <= |lines|
  {
    && (forall i :: 0 <= i < n ==> Held(lines[i], phases, mounted))
    && (forall token :: token in phases ==> HasRecord(lines, n, token))
  }

  predicate Held(line: PhaseLine, phases: Phases, mounted: set<Key>) {
    line.Phase? ==>
      line.token in phases && phases[line.token] == ToMap(line.snapshots) && Keys(line.snapshots) == mounted
  }

  ghost predicate HasRecord(lines: seq<PhaseLine>, n: nat, token: nat)
    requires n <= |lines|
  {
    exists i :: 0 <= i < n && lines[i].Phase? && lines[i].token == token
  }

  /** The state of the first loop of collect_phases after `n` lines. */
  ghost predicate Reading(lines: seq<PhaseLine>, n: nat, scope: Scope, phases: Phases, mounted: Option<set<Key>>) {
    && n <= |lines| && RecordsOk(lines, n, scope)
    && (mounted.None? <==> phases == map[]) && Gathered(lines, n, phases, Mounted(mounted))
  }

  function Mounted(mounted: Option<set<Key>>): set<Key> {
    if mounted.Some? then mounted.value else {}
  }

  /** Why a line ends the loop with an error. */
  predicate Refused(line: PhaseLine, scope: Scope, phases: Phases, mounted: Option<set<Key>>) {
    || line.BadPhase?
    || (line.Phase? && (line.token in phases || !RecordOk(line, scope)
                        || (mounted.Some? && mounted.value != Keys(line.snapshots))))
  }

  /** The first loop of collect_phases. */
  method ReadPhases(lines: seq<PhaseLine>, scope: Scope) returns (r: Result<(Phases, set<Key>)>)
    ensures r.Ok? <==> RecordsOk(lines, |lines|, scope)
    ensures r.Ok? ==> Gathered(lines, |lines|, r.value.0, r.value.1)
  {
    var phases: Phases := map[];
    var mounted: Option<set<Key>> := None;
    for n := 0 to |lines|
      invariant Reading(lines, n, scope, phases, mounted)
    {
      var line := lines[n];
      if line.NotPhase? {
        ReadSkip(lines, n, scope, phases, mounted);
        continue;
      }
      if Refused(line, scope, phases, mounted) {
        ReadRefused(lines, n, scope, phases, mounted);
        return Err;
      }
      ReadRecord(lines, n, scope, phases, mounted);
      mounted := Some(Keys(line.snapshots));
      phases := phases[line.token := ToMap(line.snapshots)];
    }
    return Ok((phases, Mounted(mounted)));
  }

  lemma ReadSkip(lines: seq<PhaseLine>, n: nat, scope: Scope, phases: Phases, mounted: Option<set<Key>>)
    requires n < |lines| && lines[n].NotPhase? && Reading(lines, n, scope, phases, mounted)
    ensures Reading(lines, n + 1, scope, phases, mounted)
  {
    RecordsSkip(lines, n, scope);
    GatheredSkip(lines, n, phases, Mounted(mounted));
  }

  lemma RecordsSkip(lines: seq<PhaseLine>, n: nat, scope: Scope)
    requires n < |lines| && lines[n].NotPhase? && RecordsOk(lines, n, scope)
    ensures RecordsOk(lines, n + 1, scope)
  {
  }

  lemma GatheredSkip(lines: seq<PhaseLine>, n: nat, phases: Phases, mounted: set<Key>)
    requires n < |lines| && lines[n].NotPhase? && Gathered(lines, n, phases, mounted)
    ensures Gathered(lines, n + 1, phases, mounted)
  {
    forall token | token in phases ensures HasRecord(lines, n + 1, token) {
      assert HasRecord(lines, n, token);
    }
  }

  lemma ReadRefused(lines: seq<PhaseLine>, n: nat, scope: Scope, phases: Phases, mounted: Option<set<Key>>)
    requires n < |lines| && Reading(lines, n, scope, phases, mounted) && Refused(lines[n], scope, phases, mounted)
    ensures !RecordsOk(lines, |lines|, scope)
  {
  }

  lemma ReadRecord(lines: seq<PhaseLine>, n: nat, scope: Scope, phases: Phases, mounted: Option<set<Key>>)
    requires n < |lines| && lines[n].Phase? && Reading(lines, n, scope, phases, mounted)
    requires !Refused(lines[n], scope, phases, mounted)
    ensures var ids := Keys(lines[n].snapshots);
            Reading(lines, n + 1, scope, phases[lines[n].token := ToMap(lines[n].snapshots)], Some(ids))
  {
    var ids := Keys(lines[n].snapshots);
    forall i | 0 <= i < n ensures Held(lines[i], phases, ids) {
      assert Held(lines[i], phases, Mounted(mounted));
    }
    RecordsAdd(lines, n, scope, phases, ids);
    HeldAdd(lines, n, phases, ids);
  }

  lemma RecordsAdd(lines: seq<PhaseLine>, n: nat, scope: Scope, phases: Phases, ids: set<Key>)
    requires n < |lines| && lines[n].Phase? && RecordsOk(lines, n, scope) && RecordOk(lines[n], scope)
    requires lines[n].token !in phases && ids == Keys(lines[n].snapshots)
    requires forall i :: 0 <= i < n ==> Held(lines[i], phases, ids)
    ensures RecordsOk(lines, n + 1, scope)
  {
  }

  lemma HeldAdd(lines: seq<PhaseLine>, n: nat, phases: Phases, ids: set<Key>)
    requires n < |lines| && lines[n].Phase? && lines[n].token !in phases && ids == Keys(lines[n].snapshots)
    requires Gathered(lines, n, phases, ids)
    ensures Gathered(lines, n + 1, phases[lines[n].token := ToMap(lines[n].snapshots)], ids)
  {
  }

  // ----- corrected counts --------------------------------------------------------------------------

  datatype Counts = Counts(calls: nat, units: nat)

  /** What the marker itself adds to an interval of a component. */
  function MarkerCounts(component: string): map<string, Counts> {
    if component == "virtio-fs-protocol" then map["IOCTL" := Counts(1, 0), "request_bytes" := Counts(0, 80)]
    else if component == "virtio-fs-dispatch" then map["direct_requests" := Counts(0, 1)]
    else map[]
  }

  function Plain(raw: map<string, Interval>): map<string, Counts> {
    map name | name in raw :: Counts(raw[name].calls, raw[name].units)
  }

  predicate HasMarker(component: string, raw: map<string, Interval>) {
    forall name :: name in MarkerCounts(component) ==>
      && name in raw
      && MarkerCounts(component)[name].calls <= raw[name].calls
      && MarkerCounts(component)[name].units <= raw[name].units
  }

  /** The corrected counts and the marker counts add up to the interval. */
  ghost predicate AddsUp(component: string, raw: map<string, Interval>, counts: map<string, Counts>) {
    && counts.Keys == raw.Keys
    && forall name :: name in raw ==>
         var marker := if name in MarkerCounts(component) then MarkerCounts(component)[name] else Counts(0, 0);
         && counts[name].calls + marker.calls == raw[name].calls
         && counts[name].units + marker.units == raw[name].units
  }

  /** What the marker's own request costs: one call of IOCTL and 80 bytes in the protocol, one direct request in the
      dispatcher, and nothing elsewhere. */
  predicate MarkerSeen(component: string, raw: map<string, Interval>) {
    && (component == "virtio-fs-protocol" ==>
          && "IOCTL" in raw && 1 <= raw["IOCTL"].calls
          && "request_bytes" in raw && 80 <= raw["request_bytes"].units)
    && (component == "virtio-fs-dispatch" ==> "direct_requests" in raw && 1 <= raw["direct_requests"].units)
  }

  function MarkerCalls(component: string, name: string): nat {
    if component == "virtio-fs-protocol" && name == "IOCTL" then 1 else 0
  }

  function MarkerUnits(component: string, name: string): nat {
    if component == "virtio-fs-protocol" && name == "request_bytes" then 80
    else if component == "virtio-fs-dispatch" && name == "direct_requests" then 1
    else 0
  }

  lemma MarkerIs(component: string, raw: map<string, Interval>)
    ensures HasMarker(component, raw) <==> MarkerSeen(component, raw)
  {
    assert component == "virtio-fs-protocol" ==>
             "IOCTL" in MarkerCounts(component) && "request_bytes" in MarkerCounts(component);
    assert component == "virtio-fs-dispatch" ==> "direct_requests" in MarkerCounts(component);
  }

  /** Subtracts the marker's counts one by one. */
  method SubtractMarker(component: string, raw: map<string, Interval>) returns (r: Result<map<string, Counts>>)
    ensures r.Ok? <==> HasMarker(component, raw)
    ensures r.Ok? ==> AddsUp(component, raw, r.value)
  {
    var result := Plain(raw);
    var markers := MarkerCounts(component);
    var rest := markers.Keys;
    while rest != {}
      invariant rest <= markers.Keys && result.Keys == raw.Keys
      invariant forall name :: name in markers && name !in rest ==>
                  name in raw && markers[name].calls <= raw[name].calls && markers[name].units <= raw[name].units
      invariant forall name :: name in raw ==>
                  var marker := if name in markers && name !in rest then markers[name] else Counts(0, 0);
                  && result[name].calls + marker.calls == raw[name].calls
                  && result[name].units + marker.units == raw[name].units
      decreases rest
    {
      var name :| name in rest;
      var amount := markers[name];
      if name !in result || result[name].calls < amount.calls || result[name].units < amount.units {
        return Err;
      }
      result := result[name := Counts(result[name].calls - amount.calls, result[name].units - amount.units)];
      rest := rest - {name};
    }
    return Ok(result);
  }

  lemma CorrectionIs(component: string, raw: map<string, Interval>, counts: map<string, Counts>, name: string)
    requires AddsUp(component, raw, counts) && name in raw
    ensures counts[name].calls + MarkerCalls(component, name) == raw[name].calls
    ensures counts[name].units + MarkerUnits(component, name) == raw[name].units
  {
  }

  /** `corrected_counts`: an error exactly when a marker counter is missing. */
  method CorrectedCounts(component: string, raw: map<string, Interval>) returns (r: Result<map<string, Counts>>)
    ensures r.Ok? <==> MarkerSeen(component, raw)
    ensures r.Ok? <==> HasMarker(component, raw)
    ensures r.Ok? ==> AddsUp(component, raw, r.value)
    ensures r.Ok? ==> forall name :: name in raw ==>
              && r.value[name].calls + MarkerCalls(component, name) == raw[name].calls
              && r.value[name].units + MarkerUnits(component, name) == raw[name].units
  {
    r := SubtractMarker(component, raw);
    MarkerIs(component, raw);
    if r.Ok? {
      forall name | name in raw
        ensures r.value[name].calls + MarkerCalls(component, name) == raw[name].calls
        ensures r.value[name].units + MarkerUnits(component, name) == raw[name].units
      {
        CorrectionIs(component, raw, r.value, name);
      }
    }
  }

  // ----- the timeline --------------------------------------------------------------------------------

  /** Every token from 1 to `last` has a snapshot of exactly the mounted identities. */
  ghost predicate Covers(phases: Phases, mounted: set<Key>, last: nat) {
    && (forall token :: token in phases <==> 1 <= token <= last)
    && (forall token :: token in phases ==> phases[token].Keys == mounted)
  }

  /** The counters of an identity never decrease from token to token, nor to its final report. */
  ghost predicate Ascending(phases: Phases, last: nat, key: Key, final: Profile)
    requires forall token :: 1 <= token <= last ==> token in phases && key in phases[token]
    requires 1 <= last
  {
    && (forall token :: 1 <= token < last ==> Step(phases, token, key))
    && Monotone(phases[last][key], final)
  }

  ghost predicate Step(phases: Phases, token: nat, key: Key)
    requires token in phases && token + 1 in phases && key in phases[token] && key in phases[token + 1]
  {
    Monotone(phases[token][key], phases[token + 1][key])
  }

  method CheckIdentity(phases: Phases, last: nat, key: Key, final: Profile) returns (ok: bool)
    requires forall token :: 1 <= token <= last ==> token in phases && key in phases[token]
    requires 1 <= last
    ensures ok <==> Ascending(phases, last, key, final)
  {
    for token := 1 to last
      invariant forall t :: 1 <= t < token ==> Step(phases, t, key)
    {
      var d := Delta(phases[token][key], phases[token + 1][key]);
      if d.Err? {
        assert !Step(phases, token, key);
        return false;
      }
    }
    var d := Delta(phases[last][key], final);
    return d.Ok?;
  }

  method CheckTimeline(phases: Phases, mounted: set<Key>, last: nat, finals: map<Key, Profile>) returns (ok: bool)
    requires Covers(phases, mounted, last) && 1 <= last && mounted <= finals.Keys
    ensures ok <==> forall key :: key in mounted ==> Ascending(phases, last, key, finals[key])
  {
    var rest := mounted;
    while rest != {}
      invariant rest <= mounted
      invariant forall key :: key in mounted - rest ==> Ascending(phases, last, key, finals[key])
      decreases rest
    {
      var key :| key in rest;
      ok := CheckIdentity(phases, last, key, finals[key]);
      if !ok {
        return;
      }
      rest := rest - {key};
    }
    ok := true;
  }

  // ----- rows ----------------------------------------------------------------------------------------

  datatype Row = Row(id: string, round: nat, beforeToken: nat, afterToken: nat, raw: map<string, Interval>, counts: map<string, Counts>)

  /** The row of an identity for the cell between two consecutive tokens. */
  ghost predicate RowOk(phases: Phases, key: Key, round: nat, id: string, token: nat, row: Row)
    requires token in phases && token + 1 in phases && key in phases[token] && key in phases[token + 1]
  {
    && row.id == id && row.round == round && row.beforeToken == token && row.afterToken == token + 1
    && IsDelta(phases[token][key], phases[token + 1][key], row.raw)
    && HasMarker(key.component, row.raw) && AddsUp(key.component, row.raw, row.counts)
  }

  ghost predicate CellOk(phases: Phases, mounted: set<Key>, round: nat, id: string, token: nat, rows: map<Key, Row>)
    requires token in phases && token + 1 in phases
    requires phases[token].Keys == mounted && phases[token + 1].Keys == mounted
  {
    && rows.Keys == mounted
    && forall key :: key in mounted ==> RowOk(phases, key, round, id, token, rows[key])
  }

  /** Why a cell has no rows: a counter decreased, or the marker's own counts are missing. */
  ghost predicate CellFails(phases: Phases, mounted: set<Key>, token: nat)
    requires token in phases && token + 1 in phases
    requires phases[token].Keys == mounted && phases[token + 1].Keys == mounted
  {
    exists key :: key in mounted && KeyFails(phases[token][key], phases[token + 1][key], key.component)
  }

  ghost predicate KeyFails(before: Profile, after: Profile, component: string) {
    !Monotone(before, after) || exists raw :: IsDelta(before, after, raw) && !HasMarker(component, raw)
  }

  method CellRows(phases: Phases, mounted: set<Key>, round: nat, id: string, token: nat) returns (r: Result<map<Key, Row>>)
    requires token in phases && token + 1 in phases
    requires phases[token].Keys == mounted && phases[token + 1].Keys == mounted
    ensures r.Ok? ==> CellOk(phases, mounted, round, id, token, r.value)
    ensures r.Err? ==> CellFails(phases, mounted, token)
  {
    var rest := mounted;
    var rows: map<Key, Row> := map[];
    while rest != {}
      invariant rest <= mounted && rows.Keys == mounted - rest
      invariant forall key :: key in rows ==> RowOk(phases, key, round, id, token, rows[key])
      decreases rest
    {
      var key :| key in rest;
      var raw := Delta(phases[token][key], phases[token + 1][key]);
      if raw.Err? {
        assert KeyFails(phases[token][key], phases[token + 1][key], key.component);
        return Err;
      }
      var counts := CorrectedCounts(key.component, raw.value);
      if counts.Err? {
        assert KeyFails(phases[token][key], phases[token + 1][key], key.component);
        return Err;
      }
      rows := rows[key := Row(id, round, token, token + 1, raw.value, counts.value)];
      rest := rest - {key};
    }
    return Ok(rows);
  }

  /** The rows of the cells in run order. */
  type Table = seq<map<Key, Row>>

  /** Slot `slot` of the table belongs to its own round and cell and lies between its own tokens. */
  ghost predicate EntryOk(phases: Phases, mounted: set<Key>, cells: seq<string>, slot: nat, rows: map<Key, Row>)
    requires 0 < |cells|
  {
    var token := 2 * slot + 1;
    && token in phases && token + 1 in phases
    && phases[token].Keys == mounted && phases[token + 1].Keys == mounted
    && CellOk(phases, mounted, RoundOf(|cells|, slot), cells[IndexOf(|cells|, slot)], token, rows)
  }

  ghost predicate Entries(phases: Phases, mounted: set<Key>, cells: seq<string>, table: Table)
    requires 0 < |cells|
  {
    forall slot :: 0 <= slot < |table| ==> EntryOk(phases, mounted, cells, slot, table[slot])
  }

  lemma EntriesSnoc(phases: Phases, mounted: set<Key>, cells: seq<string>, table: Table, rows: map<Key, Row>)
    requires 0 < |cells| && Entries(phases, mounted, cells, table) && EntryOk(phases, mounted, cells, |table|, rows)
    ensures Entries(phases, mounted, cells, table + [rows])
  {}

  /** The rows of one cell, for the slot that is next in the table. */
  method NextCell(phases: Phases, mounted: set<Key>, id: string, round: nat, token: nat, ghost slot: nat)
    returns (rows: Result<map<Key, Row>>)
    requires CoversSlot(phases, mounted, slot) && token == 2 * slot + 1
    ensures rows.Ok? ==> CellOk(phases, mounted, round, id, 2 * slot + 1, rows.value)
    ensures rows.Err? ==> SlotFails(phases, mounted, slot)
  {
    rows := CellRows(phases, mounted, round, id, token);
  }

  /** The token before a cell. */
  method TokenBefore(cells: nat, round: nat, index: nat, ghost slot: nat) returns (token: nat)
    requires 1 <= round && slot == Slot(cells, round, index)
    ensures token == 2 * slot + 1
  {
    token := 2 * ((round - 1) * cells + index) + 1;
  }

  /** Both tokens of the slot have a record of all mounted identities. */
  predicate CoversSlot(phases: Phases, mounted: set<Key>, slot: nat) {
    && 2 * slot + 1 in phases && 2 * slot + 1 + 1 in phases
    && phases[2 * slot + 1].Keys == mounted && phases[2 * slot + 1 + 1].Keys == mounted
  }

  /** The rows of the next cell go to the end of the table. */
  lemma AddEntry(
    phases: Phases, mounted: set<Key>, cells: seq<string>, rounds: nat, round: nat, index: nat, table: Table,
    rows: map<Key, Row>)
    requires 1 <= round <= rounds && index < |cells| && Built(phases, mounted, cells, table, round, index)
    requires CoversSlot(phases, mounted, |table|)
    requires CellOk(phases, mounted, round, cells[index], 2 * |table| + 1, rows)
    ensures Built(phases, mounted, cells, table + [rows], round, index + 1)
  {
    SlotOfCell(|cells|, rounds, round, index, |table|);
    EntryFromCell(phases, mounted, cells, |table|, round, index, rows);
    EntriesSnoc(phases, mounted, cells, table, rows);
  }

  lemma SlotOfCell(cells: nat, rounds: nat, round: nat, index: nat, slot: nat)
    requires 1 <= round <= rounds && index < cells && slot == (round - 1) * cells + index
    ensures slot < cells * rounds && RoundOf(cells, slot) == round && IndexOf(cells, slot) == index
  {
    SlotsPairUp(cells, rounds, round, index, 0);
  }

  lemma TokenCovered(phases: Phases, mounted: set<Key>, slots: nat, slot: nat)
    requires Covers(phases, mounted, 2 * slots) && slot < slots
    ensures CoversSlot(phases, mounted, slot)
  {}

  lemma EntryFromCell(
    phases: Phases, mounted: set<Key>, cells: seq<string>, slot: nat, round: nat, index: nat, rows: map<Key, Row>)
    requires CoversSlot(phases, mounted, slot) && index < |cells|
    requires RoundOf(|cells|, slot) == round && IndexOf(|cells|, slot) == index
    requires CellOk(phases, mounted, round, cells[index], 2 * slot + 1, rows)
    ensures EntryOk(phases, mounted, cells, slot, rows)
  {}

  ghost predicate SlotFails(phases: Phases, mounted: set<Key>, slot: nat) {
    var token := 2 * slot + 1;
    && token in phases && token + 1 in phases
    && phases[token].Keys == mounted && phases[token + 1].Keys == mounted
    && CellFails(phases, mounted, token)
  }

  method BuildTable(phases: Phases, mounted: set<Key>, cells: seq<string>, rounds: nat) returns (r: Result<Table>)
    requires Covers(phases, mounted, 2 * (|cells| * rounds)) && 0 < |cells|
    ensures r.Ok? ==> |r.value| == |cells| * rounds && Entries(phases, mounted, cells, r.value)
    ensures r.Err? ==> exists slot :: 0 <= slot < |cells| * rounds && SlotFails(phases, mounted, slot)
  {
    var table: Table := [];
    for round := 1 to rounds + 1
      invariant Built(phases, mounted, cells, table, round, 0)
    {
      for index := 0 to |cells|
        invariant Built(phases, mounted, cells, table, round, index)
      {
        var next := BuildNext(phases, mounted, cells, rounds, round, index, table);
        if next.Err? {
          return Err;
        }
        table := next.value;
      }
      RoundBuilt(phases, mounted, cells, table, round);
    }
    AllBuilt(phases, mounted, cells, table, rounds);
    return Ok(table);
  }

  /** Adds the rows of cell `index` of the round to the table. */
  method BuildNext(
    phases: Phases, mounted: set<Key>, cells: seq<string>, rounds: nat, round: nat, index: nat, table: Table)
    returns (r: Result<Table>)
    requires Covers(phases, mounted, 2 * (|cells| * rounds)) && 1 <= round <= rounds && index < |cells|
    requires Built(phases, mounted, cells, table, round, index)
    ensures r.Ok? ==> Built(phases, mounted, cells, r.value, round, index + 1)
    ensures r.Err? ==> |table| < |cells| * rounds && SlotFails(phases, mounted, |table|)
  {
    NextSlot(phases, mounted, cells, rounds, round, index, table);
    var token := TokenBefore(|cells|, round, index, |table|);
    var rows := NextCell(phases, mounted, cells[index], round, token, |table|);
    if rows.Err? {
      return Err;
    }
    AddEntry(phases, mounted, cells, rounds, round, index, table, rows.value);
    r := Ok(table + [rows.value]);
  }

  /** The table before cell `index` of the round. */
  ghost predicate Built(phases: Phases, mounted: set<Key>, cells: seq<string>, table: Table, round: nat, index: nat)
    requires 0 < |cells|
  {
    1 <= round && |table| == Slot(|cells|, round, index) && Entries(phases, mounted, cells, table)
  }

  lemma NextSlot(
    phases: Phases, mounted: set<Key>, cells: seq<string>, rounds: nat, round: nat, index: nat, table: Table)
    requires Covers(phases, mounted, 2 * (|cells| * rounds)) && 1 <= round <= rounds && index < |cells|
    requires Built(phases, mounted, cells, table, round, index)
    ensures |table| < |cells| * rounds && CoversSlot(phases, mounted, |table|)
  {
    SlotOfCell(|cells|, rounds, round, index, |table|);
    TokenCovered(phases, mounted, |cells| * rounds, |table|);
  }

  lemma RoundBuilt(phases: Phases, mounted: set<Key>, cells: seq<string>, table: Table, round: nat)
    requires 0 < |cells| && Built(phases, mounted, cells, table, round, |cells|)
    ensures Built(phases, mounted, cells, table, round + 1, 0)
  {
    assert (round - 1) * |cells| + |cells| == round * |cells|;
  }

  lemma AllBuilt(phases: Phases, mounted: set<Key>, cells: seq<string>, table: Table, rounds: nat)
    requires 0 < |cells| && Built(phases, mounted, cells, table, rounds + 1, 0)
    ensures |table| == |cells| * rounds && Entries(phases, mounted, cells, table)
  {
    assert rounds * |cells| == |cells| * rounds;
  }
}
