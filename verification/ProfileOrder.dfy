/** The order in which final reports and rows are listed: identities as tuples of pid, component and instance. */
module ProfileOrder {
  import opened Wrappers
  import opened Bits
  import opened Measurements
  import opened ProfileLog
  import opened PhaseIntervals

  // ----- the order ----------------------------------------------------------------------------------------

  /** Strings compare by their first difference, and a proper prefix comes first. */
  predicate StringBelow(a: string, b: string) {
    b != [] && (a == [] || a[0] < b[0] || (a[0] == b[0] && StringBelow(a[1..], b[1..])))
  }

  predicate KeyBelow(a: Key, b: Key) {
    || a.pid < b.pid
    || (a.pid == b.pid && StringBelow(a.component, b.component))
    || (a.pid == b.pid && a.component == b.component && a.instance < b.instance)
  }

  lemma {:induction false} StringTotal(a: string, b: string)
    ensures a == b || StringBelow(a, b) || StringBelow(b, a)
    ensures !(StringBelow(a, b) && StringBelow(b, a)) && (a == b ==> !StringBelow(a, b))
  {
    if a != [] && b != [] {
      StringTotal(a[1..], b[1..]);
      assert a == [a[0]] + a[1..] && b == [b[0]] + b[1..];
    }
  }

  lemma {:induction false} StringTransitive(a: string, b: string, c: string)
    requires StringBelow(a, b) && StringBelow(b, c)
    ensures StringBelow(a, c)
  {
    if a != [] && a[0] == b[0] == c[0] {
      StringTransitive(a[1..], b[1..], c[1..]);
    }
  }

  lemma KeyTotal(a: Key, b: Key)
    ensures a == b || KeyBelow(a, b) || KeyBelow(b, a)
    ensures !(KeyBelow(a, b) && KeyBelow(b, a)) && (a == b ==> !KeyBelow(a, b))
  {
    StringTotal(a.component, b.component);
  }

  lemma KeyTransitive(a: Key, b: Key, c: Key)
    requires KeyBelow(a, b) && KeyBelow(b, c)
    ensures KeyBelow(a, c)
  {
    if StringBelow(a.component, b.component) && StringBelow(b.component, c.component) {
      StringTransitive(a.component, b.component, c.component);
    }
  }

  // ----- sorted identities ---------------------------------------------------------------------------------

  predicate SortedKeys(list: seq<Key>) {
    forall i, j :: 0 <= i < j < |list| ==> KeyBelow(list[i], list[j])
  }

  function Insert(list: seq<Key>, key: Key): seq<Key> {
    if list == [] || KeyBelow(list[|list| - 1], key) then list + [key]
    else Insert(list[..|list| - 1], key) + [list[|list| - 1]]
  }

  lemma {:induction false} InsertMembers(list: seq<Key>, key: Key)
    ensures forall k :: k in Insert(list, key) <==> k == key || k in list
  {
    if list != [] && !KeyBelow(list[|list| - 1], key) {
      InsertMembers(list[..|list| - 1], key);
      assert list == list[..|list| - 1] + [list[|list| - 1]];
    }
  }

  lemma {:induction false} InsertInOrder(list: seq<Key>, key: Key)
    requires SortedKeys(list) && key !in list
    ensures SortedKeys(Insert(list, key))
  {
    if list != [] {
      var last := list[|list| - 1];
      KeyTotal(last, key);
      if KeyBelow(last, key) {
        forall i | 0 <= i < |list| - 1 ensures KeyBelow(list[i], key) {
          KeyTransitive(list[i], last, key);
        }
      } else {
        var init := list[..|list| - 1];
        InsertInOrder(init, key);
        InsertMembers(init, key);
        forall k | k in Insert(init, key) ensures KeyBelow(k, last) {
          if k != key {
            var i :| 0 <= i < |init| && init[i] == k;
          }
        }
      }
    }
  }

  /** sorted(keys) */
  method SortKeys(keys: set<Key>) returns (list: seq<Key>)
    ensures SortedKeys(list) && forall k :: k in list <==> k in keys
  {
    var rest := keys;
    list := [];
    while rest != {}
      invariant rest <= keys && SortedKeys(list) && forall k :: k in list <==> k in keys - rest
      decreases rest
    {
      var key :| key in rest;
      InsertInOrder(list, key);
      InsertMembers(list, key);
      list := Insert(list, key);
      rest := rest - {key};
    }
  }

  /** In a sorted list the identities of a process stand together, and within it those of a component, by rising
      instance. */
  lemma SortedGroups(list: seq<Key>, i: nat, j: nat, k: nat)
    requires SortedKeys(list) && i < j < k < |list| && list[i].pid == list[k].pid
    ensures list[j].pid == list[i].pid
    ensures list[i].component == list[k].component ==>
              list[j].component == list[i].component && list[i].instance < list[j].instance < list[k].instance
  {
    assert KeyBelow(list[i], list[j]) && KeyBelow(list[j], list[k]);
    StringTotal(list[i].component, list[j].component);
  }

  /** A set of identities has one sorted list. */
  lemma {:induction false} SortedUnique(a: seq<Key>, b: seq<Key>)
    requires SortedKeys(a) && SortedKeys(b) && forall k :: k in a <==> k in b
    ensures a == b
  {
    if a != [] {
      assert a[|a| - 1] in b;
      assert b[|b| - 1] in a;
      LastIsSame(a, b);
      var a', b' := a[..|a| - 1], b[..|b| - 1];
      forall k ensures k in a' <==> k in b' {
        WithoutLast(a, k);
        WithoutLast(b, k);
      }
      SortedUnique(a', b');
      assert a == a' + [a[|a| - 1]] && b == b' + [b[|b| - 1]];
    } else {
      if b != [] {
        HasMember(b);
      }
    }
  }

  lemma HasMember(a: seq<Key>)
    requires a != []
    ensures exists k :: k in a
  {
    assert a[0] in a;
  }

  lemma LastIsSame(a: seq<Key>, b: seq<Key>)
    requires SortedKeys(a) && SortedKeys(b) && a != [] && b != [] && a[|a| - 1] in b && b[|b| - 1] in a
    ensures a[|a| - 1] == b[|b| - 1]
  {
    var x, y := a[|a| - 1], b[|b| - 1];
    var i :| 0 <= i < |b| && b[i] == x;
    var j :| 0 <= j < |a| && a[j] == y;
    assert i < |b| - 1 ==> KeyBelow(x, y);
    assert j < |a| - 1 ==> KeyBelow(y, x);
    KeyTotal(x, y);
  }

  lemma WithoutLast(a: seq<Key>, k: Key)
    requires SortedKeys(a) && a != []
    ensures k in a[..|a| - 1] <==> k in a && k != a[|a| - 1]
  {
    KeyTotal(k, k);
    if k in a[..|a| - 1] {
      var i :| 0 <= i < |a| - 1 && a[i] == k;
      assert KeyBelow(a[i], a[|a| - 1]);
    }
  }

  // ----- the lists -----------------------------------------------------------------------------------------------

  datatype FinalReport = FinalReport(key: Key, profile: Profile)

  /** The final report of every identity, sorted by identity. */
  ghost predicate SortedReports(finals: map<Key, Profile>, list: seq<FinalReport>) {
    && (forall i, j :: 0 <= i < j < |list| ==> KeyBelow(list[i].key, list[j].key))
    && (forall i :: 0 <= i < |list| ==> list[i].key in finals && list[i].profile == finals[list[i].key])
    && (forall key :: key in finals ==> exists i :: 0 <= i < |list| && list[i].key == key)
  }

  /** `collect_profiles`: accepts exactly the acceptable logs and lists the final reports in order of identity. */
  method CollectSorted(log: seq<Line>, expected: multiset<string>)
    returns (r: Result<seq<FinalReport>>, ghost finals: map<Key, Profile>)
    ensures r.Ok? <==> Acceptable(log, expected)
    ensures r.Ok? ==> AreFinals(log, finals) && SortedReports(finals, r.value)
  {
    finals := map[];
    var collected := CollectProfiles(log, expected);
    if collected.Err? {
      return Err, finals;
    }
    finals := collected.value;
    var list := ListFinals(collected.value);
    r := Ok(list);
  }

  method ListFinals(finals: map<Key, Profile>) returns (list: seq<FinalReport>)
    ensures SortedReports(finals, list)
  {
    var keys := SortKeys(finals.Keys);
    list := [];
    for i := 0 to |keys|
      invariant |list| == i
      invariant forall j :: 0 <= j < i ==> keys[j] in finals && list[j] == FinalReport(keys[j], finals[keys[j]])
    {
      assert keys[i] in keys;
      list := list + [FinalReport(keys[i], finals[keys[i]])];
    }
    ListsAll(keys, finals, list);
  }

  lemma ListsAll(keys: seq<Key>, finals: map<Key, Profile>, list: seq<FinalReport>)
    requires SortedKeys(keys) && (forall k :: k in keys <==> k in finals) && |list| == |keys|
    requires forall j :: 0 <= j < |keys| ==> keys[j] in finals && list[j] == FinalReport(keys[j], finals[keys[j]])
    ensures SortedReports(finals, list)
  {
    forall key | key in finals ensures exists i :: 0 <= i < |list| && list[i].key == key {
      assert key in keys;
      var i :| 0 <= i < |keys| && keys[i] == key;
      assert list[i].key == key;
    }
  }

  datatype PhaseRow = PhaseRow(key: Key, row: Row)

  /** Row `i` is that of identity `i mod m`, in order of identity, in cell `i div m`. */
  ghost predicate ListsTable(table: Table, keys: seq<Key>, cells: nat, list: seq<PhaseRow>)
    requires keys != [] && cells <= |table|
  {
    && |list| == cells * |keys|
    && forall i :: 0 <= i < |list| ==> ListsRow(table, keys, cells, i, list[i])
  }

  ghost predicate ListsRow(table: Table, keys: seq<Key>, cells: nat, i: nat, row: PhaseRow)
    requires keys != [] && cells <= |table|
  {
    var slot, key := i / |keys|, keys[i % |keys|];
    slot < cells && key in table[slot] && row == PhaseRow(key, table[slot][key])
  }

  /** The rows of the table as `collect_phases` lists them: cell by cell, and in a cell by identity. */
  method ListRows(table: Table, mounted: set<Key>) returns (list: seq<PhaseRow>, ghost keys: seq<Key>)
    requires mounted != {} && forall slot :: 0 <= slot < |table| ==> table[slot].Keys == mounted
    ensures SortedKeys(keys) && (forall k :: k in keys <==> k in mounted) && keys != []
    ensures ListsTable(table, keys, |table|, list)
  {
    var order := SortKeys(mounted);
    keys := order;
    assert order != [] by {
      var key :| key in mounted;
      assert key in order;
    }
    list := [];
    for slot := 0 to |table|
      invariant ListsTable(table, order, slot, list)
    {
      ghost var before := list;
      for j := 0 to |order|
        invariant |list| == slot * |order| + j
        invariant forall i :: 0 <= i < |list| ==> ListsRow(table, order, slot + 1, i, list[i])
      {
        assert order[j] in order;
        DivModUnique(slot * |order| + j, |order|, slot, j);
        list := list + [PhaseRow(order[j], table[slot][order[j]])];
      }
    }
  }
}
