/** `collect_phases` as a whole, and what its rows add up to. */
module PhaseAccounting {
  import opened Wrappers
  import opened Measurements
  import opened ProfileLog
  import opened PhaseIntervals
  import ProfileOrder

  /** What an accepted log with phase records establishes. */
  ghost predicate Accounted(
    phases: Phases, mounted: set<Key>, finals: map<Key, Profile>, cells: seq<string>, rounds: nat, table: Table)
  {
    && 0 < |cells| && 1 <= 2 * (|cells| * rounds)
    && Covers(phases, mounted, 2 * (|cells| * rounds))
    && mounted <= finals.Keys
    && (forall key :: key in mounted ==> Ascending(phases, 2 * (|cells| * rounds), key, finals[key]))
    && |table| == |cells| * rounds && Entries(phases, mounted, cells, table)
  }

  lemma GatheredCovers(lines: seq<PhaseLine>, scope: Scope, phases: Phases, mounted: set<Key>, token: nat)
    requires RecordsOk(lines, |lines|, scope) && Gathered(lines, |lines|, phases, mounted) && token in phases
    ensures phases[token].Keys == mounted && mounted <= scope.registered
  {
    assert HasRecord(lines, |lines|, token);
    var i :| 0 <= i < |lines| && lines[i].Phase? && lines[i].token == token;
    assert Held(lines[i], phases, mounted) && RecordOk(lines[i], scope);
    ToMapCorrect(lines[i].snapshots);
  }

  function Range(last: nat): (r: set<nat>)
    ensures forall token: nat :: token in r <==> 1 <= token <= last
  {
    if last == 0 then {} else Range(last - 1) + {last}
  }

  /** The cells of all rounds. */
  function Slots(cells: seq<string>, rounds: nat): nat { |cells| * rounds }

  /** Why valid records are rejected: missing or extra tokens, a counter that decreases between tokens
      or exceeds its final report, or a cell without the marker's own counts. */
  ghost predicate Defective(phases: Phases, mounted: set<Key>, finals: map<Key, Profile>, slots: nat) {
    || phases.Keys != Range(2 * slots)
    || (exists key :: key in mounted && KeyDefective(phases, mounted, finals, slots, key))
    || (exists slot :: 0 <= slot < slots && SlotFails(phases, mounted, slot))
  }

  ghost predicate KeyDefective(phases: Phases, mounted: set<Key>, finals: map<Key, Profile>, slots: nat, key: Key) {
    && Covers(phases, mounted, 2 * slots) && 1 <= 2 * slots && key in mounted && key in finals
    && !Ascending(phases, 2 * slots, key, finals[key])
  }

  /** No phase records give no rows; otherwise the records must cover all tokens, be ordered in time,
      not exceed the final reports and contain the markers, and each cell of each round gets the rows
      between its own two tokens. */
  method CollectPhases(
    lines: seq<PhaseLine>, components: set<string>, finals: map<Key, Profile>, cells: seq<string>, rounds: nat)
    returns (r: Result<Table>, ghost phases: Phases, ghost mounted: set<Key>)
    ensures r.Ok? ==> RecordsOk(lines, |lines|, Scope(components, finals.Keys))
    ensures r.Ok? ==> Gathered(lines, |lines|, phases, mounted)
    ensures r.Ok? ==> if phases == map[] then r.value == [] else Accounted(phases, mounted, finals, cells, rounds, r.value)
    ensures RecordsOk(lines, |lines|, Scope(components, finals.Keys)) ==> Gathered(lines, |lines|, phases, mounted)
    ensures RecordsOk(lines, |lines|, Scope(components, finals.Keys)) ==>
              (r.Err? <==> phases != map[] && Defective(phases, mounted, finals, |cells| * rounds))
  {
    phases, mounted := map[], {};
    var scope := Scope(components, finals.Keys);
    var read := ReadPhases(lines, scope);
    if read.Err? {
      return Err, phases, mounted;
    }
    var found, ids := read.value.0, read.value.1;
    phases, mounted := found, ids;
    if found == map[] {
      return Ok([]), phases, mounted;
    }
    forall token | token in found ensures found[token].Keys == ids && ids <= finals.Keys {
      GatheredCovers(lines, scope, found, ids, token);
    }
    r := Account(found, ids, finals, cells, rounds);
  }

  /** The checks and the rows for gathered records. */
  method Account(phases: Phases, mounted: set<Key>, finals: map<Key, Profile>, cells: seq<string>, rounds: nat)
    returns (r: Result<Table>)
    requires phases != map[] && forall token :: token in phases ==> phases[token].Keys == mounted && mounted <= finals.Keys
    ensures r.Ok? ==> Accounted(phases, mounted, finals, cells, rounds, r.value)
    ensures r.Err? <==> Defective(phases, mounted, finals, |cells| * rounds)
  {
    var last := 2 * (|cells| * rounds);
    if phases.Keys != Range(last) {
      return Err;
    }
    CoversSome(phases, mounted, last);
    var ok := CheckTimeline(phases, mounted, last, finals);
    if !ok {
      ghost var key :| key in mounted && !Ascending(phases, last, key, finals[key]);
      assert KeyDefective(phases, mounted, finals, |cells| * rounds, key);
      return Err;
    }
    CellsExist(|cells|, rounds);
    r := BuildTable(phases, mounted, cells, rounds);
    if r.Ok? {
      AccountedIsSound(phases, mounted, finals, cells, rounds, r.value);
    }
  }

  /** Accounted records have none of the defects that are rejected. */
  lemma AccountedIsSound(
    phases: Phases, mounted: set<Key>, finals: map<Key, Profile>, cells: seq<string>, rounds: nat, table: Table)
    requires Accounted(phases, mounted, finals, cells, rounds, table)
    ensures !Defective(phases, mounted, finals, |cells| * rounds)
  {
    forall slot | 0 <= slot < |cells| * rounds ensures !SlotFails(phases, mounted, slot) {
      assert EntryOk(phases, mounted, cells, slot, table[slot]);
      EntrySound(phases, mounted, cells, slot, table[slot]);
    }
  }

  lemma EntrySound(phases: Phases, mounted: set<Key>, cells: seq<string>, slot: nat, rows: map<Key, Row>)
    requires 0 < |cells| && EntryOk(phases, mounted, cells, slot, rows)
    ensures !SlotFails(phases, mounted, slot)
  {
    var token := 2 * slot + 1;
    forall key | key in mounted ensures !KeyFails(phases[token][key], phases[token + 1][key], key.component) {
      RowSound(phases[token][key], phases[token + 1][key], key.component, rows[key].raw);
    }
  }

  lemma RowSound(before: Profile, after: Profile, component: string, raw: map<string, Interval>)
    requires IsDelta(before, after, raw) && HasMarker(component, raw)
    ensures !KeyFails(before, after, component)
  {
  }

  lemma CoversSome(phases: Phases, mounted: set<Key>, last: nat)
    requires phases != map[] && phases.Keys == Range(last)
    requires forall token :: token in phases ==> phases[token].Keys == mounted
    ensures Covers(phases, mounted, last) && 1 <= last && 1 in phases
  {
    var token :| token in phases;
  }

  lemma CellsExist(cells: nat, rounds: nat)
    requires 1 <= 2 * (cells * rounds)
    ensures 0 < cells && 0 < rounds
  {}

  // ----- the rows in their order ------------------------------------------------------------------------

  /** The row of an identity in a slot: it names the slot's cell and round, and its counts are the growth between the
      slot's own tokens. */
  ghost predicate SlotRow(phases: Phases, cells: seq<string>, slot: nat, key: Key, row: ProfileOrder.PhaseRow)
    requires cells != []
  {
    var token := 2 * slot + 1;
    && token in phases && token + 1 in phases && key in phases[token] && key in phases[token + 1]
    && row.key == key
    && RowOk(phases, key, RoundOf(|cells|, slot), cells[IndexOf(|cells|, slot)], token, row.row)
  }

  /** Row `i` is that of identity `i mod m` in slot `i div m`. */
  ghost predicate ListedRow(phases: Phases, keys: seq<Key>, cells: seq<string>, i: nat, row: ProfileOrder.PhaseRow)
    requires keys != [] && cells != []
  {
    SlotRow(phases, cells, i / |keys|, keys[i % |keys|], row)
  }

  ghost predicate SortsTo(mounted: set<Key>, keys: seq<Key>) {
    ProfileOrder.SortedKeys(keys) && forall k :: k in keys <==> k in mounted
  }

  /** The rows of an accepted log: slot by slot, and in a slot by identity. */
  ghost predicate ListedRows(phases: Phases, mounted: set<Key>, cells: seq<string>, rounds: nat,
                             list: seq<ProfileOrder.PhaseRow>) {
    exists keys :: SortsTo(mounted, keys) && ListedBy(phases, keys, cells, rounds, list)
  }

  ghost predicate ListedBy(phases: Phases, keys: seq<Key>, cells: seq<string>, rounds: nat,
                           list: seq<ProfileOrder.PhaseRow>) {
    && keys != [] && cells != [] && |list| == (|cells| * rounds) * |keys|
    && forall i :: 0 <= i < |list| ==> ListedRow(phases, keys, cells, i, list[i])
  }

  lemma EntryRow(phases: Phases, mounted: set<Key>, cells: seq<string>, slot: nat, rows: map<Key, Row>, key: Key)
    requires cells != [] && EntryOk(phases, mounted, cells, slot, rows) && key in mounted
    ensures key in rows && SlotRow(phases, cells, slot, key, ProfileOrder.PhaseRow(key, rows[key]))
  {
  }

  lemma RowIsListed(phases: Phases, mounted: set<Key>, cells: seq<string>, table: Table, keys: seq<Key>, i: nat,
                    row: ProfileOrder.PhaseRow)
    requires keys != [] && cells != [] && Entries(phases, mounted, cells, table)
    requires ProfileOrder.ListsRow(table, keys, |table|, i, row) && keys[i % |keys|] in mounted
    ensures ListedRow(phases, keys, cells, i, row)
  {
    var slot := i / |keys|;
    EntryRow(phases, mounted, cells, slot, table[slot], keys[i % |keys|]);
  }

  /** The table of an accepted log as a list. */
  method ListAccounted(table: Table, cells: seq<string>, rounds: nat,
                       ghost phases: Phases, ghost mounted: set<Key>, ghost finals: map<Key, Profile>)
    returns (list: seq<ProfileOrder.PhaseRow>)
    requires mounted != {} && Accounted(phases, mounted, finals, cells, rounds, table)
    ensures list != [] && ListedRows(phases, mounted, cells, rounds, list)
  {
    forall slot | 0 <= slot < |table| ensures table[slot].Keys == mounted {
      assert EntryOk(phases, mounted, cells, slot, table[slot]);
    }
    ghost var keys;
    list, keys := ProfileOrder.ListRows(table, table[0].Keys);
    forall i | 0 <= i < |list| ensures ListedRow(phases, keys, cells, i, list[i]) {
      assert keys[i % |keys|] in keys;
      RowIsListed(phases, mounted, cells, table, keys, i, list[i]);
    }
    assert ListedBy(phases, keys, cells, rounds, list);
    SomeRows(|table|, |keys|);
  }

  lemma SomeRows(slots: nat, keys: nat)
    requires 1 <= slots && 1 <= keys
    ensures 1 <= slots * keys
  {
  }

  lemma MountedSome(lines: seq<PhaseLine>, scope: Scope, phases: Phases, mounted: set<Key>)
    requires RecordsOk(lines, |lines|, scope) && Gathered(lines, |lines|, phases, mounted) && phases != map[]
    requires scope.components != {}
    ensures mounted != {}
  {
    var token :| token in phases;
    assert HasRecord(lines, |lines|, token);
    var i :| 0 <= i < |lines| && lines[i].Phase? && lines[i].token == token;
    assert Held(lines[i], phases, mounted) && RecordOk(lines[i], scope);
    assert ComponentsOf({}) == {};
  }

  /** `collect_phases` with the list it returns. The list is empty exactly when there are no phase records. */
  method CollectRows(
    lines: seq<PhaseLine>, components: set<string>, finals: map<Key, Profile>, cells: seq<string>, rounds: nat)
    returns (r: Result<seq<ProfileOrder.PhaseRow>>, ghost phases: Phases, ghost mounted: set<Key>)
    requires components != {}
    ensures r.Ok? ==> RecordsOk(lines, |lines|, Scope(components, finals.Keys))
    ensures r.Ok? ==> if phases == map[] then r.value == [] else r.value != []
    ensures r.Ok? && phases != map[] ==> ListedRows(phases, mounted, cells, rounds, r.value)
    ensures RecordsOk(lines, |lines|, Scope(components, finals.Keys)) ==>
              && Gathered(lines, |lines|, phases, mounted)
              && (r.Err? <==> phases != map[] && Defective(phases, mounted, finals, Slots(cells, rounds)))
  {
    var table;
    table, phases, mounted := CollectPhases(lines, components, finals, cells, rounds);
    if table.Err? {
      return Err, phases, mounted;
    }
    if table.value == [] {
      return Ok([]), phases, mounted;
    }
    MountedSome(lines, Scope(components, finals.Keys), phases, mounted);
    var list := ListAccounted(table.value, cells, rounds, phases, mounted, finals);
    r := Ok(list);
  }

  // ----- what the rows add up to ----------------------------------------------------------------------

  function IntervalCounter(i: Interval, f: nat): nat
    requires f < 8
  {
    if f == 0 then i.calls else if f == 1 then i.units else if f == 2 then i.totalNs else Bucket(i.buckets, f - 3)
  }

  function RowCounter(rows: map<Key, Row>, key: Key, name: string, f: nat): nat
    requires f < 8
  {
    if key in rows && name in rows[key].raw then IntervalCounter(rows[key].raw[name], f) else 0
  }

  /** The sum of one counter of one identity over the first `n` cells. */
  function Total(table: Table, n: nat, key: Key, name: string, f: nat): nat
    requires n <= |table| && f < 8
  {
    if n == 0 then 0 else Total(table, n - 1, key, name, f) + RowCounter(table[n - 1], key, name, f)
  }

  lemma MonotoneCounter(a: Profile, b: Profile, name: string, f: nat)
    requires Monotone(a, b) && f < 8
    ensures Counter(Get(a, name), f) <= Counter(Get(b, name), f)
  {
    assert Below(Get(a, name), Get(b, name));
  }

  /** A row's counter is exactly the growth between its two tokens. */
  lemma RowGrowth(phases: Phases, mounted: set<Key>, cells: seq<string>, slot: nat, rows: map<Key, Row>, key: Key, name: string, f: nat)
    requires 0 < |cells| && EntryOk(phases, mounted, cells, slot, rows) && key in mounted && f < 8
    ensures RowGrows(phases, slot, rows, key, name, f)
  {
    var before, after := phases[2 * slot + 1][key], phases[2 * slot + 1 + 1][key];
    assert IsDelta(before, after, rows[key].raw);
    DeltaGrowth(before, after, rows[key].raw, name, f);
  }

  lemma DeltaGrowth(before: Profile, after: Profile, d: map<string, Interval>, name: string, f: nat)
    requires IsDelta(before, after, d) && f < 8
    ensures Counter(Get(before, name), f) + (if name in d then IntervalCounter(d[name], f) else 0)
         == Counter(Get(after, name), f)
  {
  }

  /** A counter before the first token (zero) and at each token. */
  function At(phases: Phases, token: nat, key: Key, name: string, f: nat): nat
    requires f < 8
  {
    if token in phases && key in phases[token] then Counter(Get(phases[token][key], name), f) else 0
  }

  /** The counter grows by the row's counter in the slot. */
  predicate RowGrows(phases: Phases, slot: nat, rows: map<Key, Row>, key: Key, name: string, f: nat)
    requires f < 8
  {
    At(phases, 2 * slot + 1, key, name, f) + RowCounter(rows, key, name, f) == At(phases, 2 * slot + 2, key, name, f)
  }

  /** The counter does not shrink from a token to the next. */
  predicate TokenGrows(phases: Phases, token: nat, key: Key, name: string, f: nat)
    requires f < 8
  {
    At(phases, token, key, name, f) <= At(phases, token + 1, key, name, f)
  }

  lemma TokenGrowth(
    phases: Phases, mounted: set<Key>, finals: map<Key, Profile>, cells: seq<string>, rounds: nat, table: Table,
    token: nat, key: Key, name: string, f: nat)
    requires Accounted(phases, mounted, finals, cells, rounds, table) && key in mounted && f < 8
    requires 1 <= token < 2 * |table|
    ensures TokenGrows(phases, token, key, name, f)
  {
    assert token in phases && token + 1 in phases;
    assert Ascending(phases, 2 * (|cells| * rounds), key, finals[key]);
    assert Step(phases, token, key);
    MonotoneCounter(phases[token][key], phases[token + 1][key], name, f);
  }

  lemma {:induction false} TotalBelowToken(phases: Phases, table: Table, n: nat, key: Key, name: string, f: nat)
    requires f < 8 && n <= |table|
    requires forall slot :: 0 <= slot < n ==> RowGrows(phases, slot, table[slot], key, name, f)
    requires forall token :: 1 <= token < 2 * n ==> TokenGrows(phases, token, key, name, f)
    ensures n > 0 ==> Total(table, n, key, name, f) <= At(phases, 2 * n, key, name, f)
  {
    if n > 0 {
      TotalBelowToken(phases, table, n - 1, key, name, f);
      assert RowGrows(phases, n - 1, table[n - 1], key, name, f);
      assert 2 * (n - 1) + 2 == 2 * n;
      assert n > 1 ==> TokenGrows(phases, 2 * (n - 1), key, name, f);
    }
  }

  /** Each identity's interval counters, summed over all cells of all rounds, stay within its final
      counters. */
  lemma IntervalsWithinFinal(
    phases: Phases, mounted: set<Key>, finals: map<Key, Profile>, cells: seq<string>, rounds: nat, table: Table,
    key: Key, name: string, f: nat)
    requires Accounted(phases, mounted, finals, cells, rounds, table) && key in mounted && f < 8
    ensures Total(table, |table|, key, name, f) <= Counter(Get(finals[key], name), f)
  {
    forall slot | 0 <= slot < |table| ensures RowGrows(phases, slot, table[slot], key, name, f) {
      RowGrowth(phases, mounted, cells, slot, table[slot], key, name, f);
    }
    forall token | 1 <= token < 2 * |table| ensures TokenGrows(phases, token, key, name, f) {
      TokenGrowth(phases, mounted, finals, cells, rounds, table, token, key, name, f);
    }
    TotalBelowToken(phases, table, |table|, key, name, f);
    LastBelowFinal(phases, mounted, 2 * |table|, key, finals[key], name, f);
  }

  lemma LastBelowFinal(phases: Phases, mounted: set<Key>, last: nat, key: Key, final: Profile, name: string, f: nat)
    requires Covers(phases, mounted, last) && key in mounted && 1 <= last && f < 8
    requires Ascending(phases, last, key, final)
    ensures At(phases, last, key, name, f) <= Counter(Get(final, name), f)
  {
    MonotoneCounter(phases[last][key], final, name, f);
  }
}
