/** The single-pass acceptor of profile logs: `collect_profiles` of the diagnostics. */
module ProfileLog {
  import opened Wrappers
  import opened Measurements

  datatype Key = Key(pid: nat, component: string, instance: nat)

  /** A log line after parsing. `Malformed` is a startup or report line whose record is invalid;
      `Other` is any line the acceptor ignores. */
  datatype Line =
    | Start(key: Key)
    | Report(key: Key, final: bool, profile: Profile)
    | Malformed
    | Other

  // ----- what an acceptable log is ----------------------------------------------------------------

  predicate Started(log: seq<Line>, n: nat, key: Key)
    requires n <= |log|
  {
    exists i :: 0 <= i < n && log[i] == Start(key)
  }

  predicate Finished(log: seq<Line>, n: nat, key: Key)
    requires n <= |log|
  {
    exists i :: 0 <= i < n && log[i].Report? && log[i].key == key && log[i].final
  }

  /** Two reports of one identity in this order: the first is not final, and no counter decreases
      from the first to the second. */
  ghost predicate InOrder(a: Line, b: Line) {
    a.Report? && b.Report? && a.key == b.key ==> !a.final && Monotone(a.profile, b.profile)
  }

  /** The first `n` lines are well formed, starts are unique and precede reports, and the reports of
      an identity are pairwise, not just adjacently, in order. */
  ghost predicate Consistent(log: seq<Line>, n: nat)
    requires n <= |log|
  {
    && (forall i :: 0 <= i < n ==> !log[i].Malformed?)
    && (forall i, j :: 0 <= i < j < n && log[i].Start? && log[j].Start? ==> log[i].key != log[j].key)
    && (forall j :: 0 <= j < n && log[j].Report? ==> Started(log, j, log[j].key))
    && (forall i, j :: 0 <= i < j < n ==> InOrder(log[i], log[j]))
  }

  function OfComponent(keys: set<Key>, component: string): set<Key> {
    set k | k in keys && k.component == component
  }

  /** The number of identities of each component. */
  ghost predicate Inventory(keys: set<Key>, counts: multiset<string>) {
    forall component: string :: |OfComponent(keys, component)| == counts[component]
  }

  ghost function StartedKeys(log: seq<Line>, n: nat): set<Key>
    requires n <= |log|
  {
    set i | 0 <= i < n && log[i].Start? :: log[i].key
  }

  /** The log is consistent, every started identity has a final report, and the startup inventory is
      the expected one. */
  ghost predicate Acceptable(log: seq<Line>, expected: multiset<string>) {
    && Consistent(log, |log|)
    && (forall key :: key in StartedKeys(log, |log|) ==> Finished(log, |log|, key))
    && Inventory(StartedKeys(log, |log|), expected)
  }

  // ----- the acceptor's state -----------------------------------------------------------------------

  /** `registered`, `previous` and `final` after `n` lines. */
  ghost predicate Tracks(
    log: seq<Line>, n: nat, registered: set<Key>, previous: map<Key, Profile>, final: map<Key, Profile>)
    requires n <= |log|
  {
    && Consistent(log, n)
    && registered == StartedKeys(log, n)
    && Remembers(log, n, registered, previous, final)
  }

  /** `previous` holds the last report of each identity and `final` those that were final. */
  ghost predicate Remembers(
    log: seq<Line>, n: nat, registered: set<Key>, previous: map<Key, Profile>, final: map<Key, Profile>)
    requires n <= |log|
  {
    && final.Keys <= previous.Keys <= registered
    && (forall key :: key in final ==> final[key] == previous[key])
    && (forall i :: 0 <= i < n && log[i].Report? ==> ReportTracked(log[i], previous, final))
    && (forall key :: key in previous ==> IsReport(log, n, key, key in final, previous[key]))
  }

  ghost predicate ReportTracked(line: Line, previous: map<Key, Profile>, final: map<Key, Profile>)
    requires line.Report?
  {
    && line.key in previous && Monotone(line.profile, previous[line.key])
    && (line.final ==> line.key in final)
  }

  ghost predicate IsReport(log: seq<Line>, n: nat, key: Key, final: bool, profile: Profile)
    requires n <= |log|
  {
    exists i :: 0 <= i < n && log[i] == Report(key, final, profile)
  }

  lemma StartedStep(log: seq<Line>, n: nat)
    requires n < |log|
    ensures StartedKeys(log, n + 1) == StartedKeys(log, n) + (if log[n].Start? then {log[n].key} else {})
  {}

  /** A line that is not a report, and not a repeated start, keeps the log consistent. */
  lemma ConsistentStep(log: seq<Line>, n: nat)
    requires n < |log| && Consistent(log, n)
    requires log[n].Other? || (log[n].Start? && log[n].key !in StartedKeys(log, n))
    ensures Consistent(log, n + 1)
  {
    forall i | 0 <= i < n && log[i].Start? ensures log[i].key in StartedKeys(log, n) {}
  }

  lemma RemembersStep(
    log: seq<Line>, n: nat, registered: set<Key>, registered': set<Key>, previous: map<Key, Profile>, final: map<Key, Profile>)
    requires n < |log| && Remembers(log, n, registered, previous, final) && !log[n].Report? && registered <= registered'
    ensures Remembers(log, n + 1, registered', previous, final)
  {
  }

  lemma TracksStart(log: seq<Line>, n: nat, registered: set<Key>, previous: map<Key, Profile>, final: map<Key, Profile>)
    requires n < |log| && Tracks(log, n, registered, previous, final) && log[n].Start? && log[n].key !in registered
    ensures Tracks(log, n + 1, registered + {log[n].key}, previous, final)
  {
    StartedStep(log, n);
    ConsistentStep(log, n);
    RemembersStep(log, n, registered, registered + {log[n].key}, previous, final);
  }

  lemma TracksOther(log: seq<Line>, n: nat, registered: set<Key>, previous: map<Key, Profile>, final: map<Key, Profile>)
    requires n < |log| && Tracks(log, n, registered, previous, final) && log[n].Other?
    ensures Tracks(log, n + 1, registered, previous, final)
  {
    StartedStep(log, n);
    ConsistentStep(log, n);
    RemembersStep(log, n, registered, registered, previous, final);
  }

  /** A report that follows a non-final, smaller report of its identity is in order with all. */
  lemma ReportConsistent(log: seq<Line>, n: nat, registered: set<Key>, previous: map<Key, Profile>, final: map<Key, Profile>)
    requires n < |log| && Tracks(log, n, registered, previous, final) && log[n].Report?
    requires log[n].key in registered && log[n].key !in final
    requires log[n].key in previous ==> Monotone(previous[log[n].key], log[n].profile)
    ensures Consistent(log, n + 1)
  {
    var key := log[n].key;
    assert Started(log, n, key) by {
      var i :| 0 <= i < n && log[i].Start? && log[i].key == key;
      assert log[i] == Start(key);
    }
    forall i | 0 <= i < n ensures InOrder(log[i], log[n]) {
      if log[i].Report? && log[i].key == key {
        assert ReportTracked(log[i], previous, final);
        ReportFollows(log[i], log[n], previous, final);
      }
    }
    ConsistentWith(log, n);
  }

  lemma ConsistentWith(log: seq<Line>, n: nat)
    requires n < |log| && Consistent(log, n) && log[n].Report? && Started(log, n, log[n].key)
    requires forall i :: 0 <= i < n ==> InOrder(log[i], log[n])
    ensures Consistent(log, n + 1)
  {
  }

  /** A report above the last one of its identity is above all of them. */
  lemma ReportFollows(a: Line, b: Line, previous: map<Key, Profile>, final: map<Key, Profile>)
    requires a.Report? && b.Report? && a.key == b.key && a.key !in final
    requires ReportTracked(a, previous, final)
    requires a.key in previous ==> Monotone(previous[a.key], b.profile)
    ensures InOrder(a, b)
  {
    MonotoneTransitive(a.profile, previous[a.key], b.profile);
  }

  lemma RemembersReport(
    log: seq<Line>, n: nat, registered: set<Key>, previous: map<Key, Profile>, final: map<Key, Profile>,
    final': map<Key, Profile>)
    requires n < |log| && Remembers(log, n, registered, previous, final) && log[n].Report?
    requires log[n].key in registered && log[n].key !in final
    requires log[n].key in previous ==> Monotone(previous[log[n].key], log[n].profile)
    requires final' == if log[n].final then final[log[n].key := log[n].profile] else final
    ensures Remembers(log, n + 1, registered, previous[log[n].key := log[n].profile], final')
  {
    var key, profile := log[n].key, log[n].profile;
    var previous' := previous[key := profile];
    forall i | 0 <= i < n + 1 && log[i].Report? ensures ReportTracked(log[i], previous', final') {
      if i < n {
        assert ReportTracked(log[i], previous, final);
        if log[i].key == key {
          MonotoneTransitive(log[i].profile, previous[key], profile);
        }
      } else {
        MonotoneReflexive(profile);
      }
    }
    forall k | k in previous' ensures IsReport(log, n + 1, k, k in final', previous'[k]) {
      if k == key {
        assert log[n] == Report(key, key in final', profile);
      } else {
        assert IsReport(log, n, k, k in final, previous[k]);
      }
    }
  }

  lemma TracksReport(log: seq<Line>, n: nat, registered: set<Key>, previous: map<Key, Profile>, final: map<Key, Profile>)
    requires n < |log| && Tracks(log, n, registered, previous, final) && log[n].Report?
    requires log[n].key in registered && log[n].key !in final
    requires log[n].key in previous ==> Monotone(previous[log[n].key], log[n].profile)
    ensures var key, profile := log[n].key, log[n].profile;
            Tracks(log, n + 1, registered, previous[key := profile],
                   if log[n].final then final[key := profile] else final)
  {
    var final' := if log[n].final then final[log[n].key := log[n].profile] else final;
    ReportConsistent(log, n, registered, previous, final);
    StartedStep(log, n);
    RemembersReport(log, n, registered, previous, final, final');
  }

  /** A line the acceptor rejects makes the whole log inconsistent. */
  lemma RejectedLine(log: seq<Line>, n: nat, registered: set<Key>, previous: map<Key, Profile>, final: map<Key, Profile>)
    requires n < |log| && Tracks(log, n, registered, previous, final)
    requires
      || log[n].Malformed?
      || (log[n].Start? && log[n].key in registered)
      || (log[n].Report? && log[n].key !in registered)
      || (log[n].Report? && log[n].key in final)
      || (log[n].Report? && log[n].key in previous && !Monotone(previous[log[n].key], log[n].profile))
    ensures !Consistent(log, |log|)
  {
  }

  // ----- the inventory ----------------------------------------------------------------------------

  /** Counter(key[1] for key in registered) */
  method CountComponents(keys: set<Key>) returns (observed: multiset<string>)
    ensures Inventory(keys, observed)
  {
    var rest := keys;
    observed := multiset{};
    assert Inventory({}, observed);
    assert keys - rest == {};
    while rest != {}
      invariant rest <= keys && Inventory(keys - rest, observed)
      decreases rest
    {
      var key :| key in rest;
      InventoryStep(keys - rest, observed, key);
      assert keys - (rest - {key}) == (keys - rest) + {key};
      observed := observed + multiset{key.component};
      rest := rest - {key};
    }
    assert keys - rest == keys;
  }

  lemma InventoryStep(keys: set<Key>, counts: multiset<string>, key: Key)
    requires Inventory(keys, counts) && key !in keys
    ensures Inventory(keys + {key}, counts + multiset{key.component})
  {
    forall c: string
      ensures |OfComponent(keys + {key}, c)| == (counts + multiset{key.component})[c]
    {
      if c == key.component {
        assert OfComponent(keys + {key}, c) == OfComponent(keys, c) + {key};
      } else {
        assert OfComponent(keys + {key}, c) == OfComponent(keys, c);
      }
    }
  }

  lemma InventoryUnique(keys: set<Key>, a: multiset<string>, b: multiset<string>)
    requires Inventory(keys, a) && Inventory(keys, b)
    ensures a == b
  {
  }

  // ----- collect_profiles ---------------------------------------------------------------------------

  /** The final report of each identity. */
  ghost predicate AreFinals(log: seq<Line>, finals: map<Key, Profile>) {
    && finals.Keys == StartedKeys(log, |log|)
    && forall key :: key in finals ==> IsReport(log, |log|, key, true, finals[key])
  }

  /** Accepts a log exactly when it is acceptable, and then returns the final report of every
      identity. */
  method CollectProfiles(log: seq<Line>, expected: multiset<string>) returns (r: Result<map<Key, Profile>>)
    ensures r.Ok? <==> Acceptable(log, expected)
    ensures r.Ok? ==> AreFinals(log, r.value)
  {
    var registered: set<Key> := {};
    var previous: map<Key, Profile> := map[];
    var final: map<Key, Profile> := map[];
    for n := 0 to |log|
      invariant Tracks(log, n, registered, previous, final)
    {
      var line := log[n];
      match line {
        case Malformed =>
          RejectedLine(log, n, registered, previous, final);
          return Err;
        case Other =>
          TracksOther(log, n, registered, previous, final);
        case Start(key) =>
          if key in registered {
            RejectedLine(log, n, registered, previous, final);
            return Err;
          }
          TracksStart(log, n, registered, previous, final);
          registered := registered + {key};
        case Report(key, isFinal, profile) =>
          if key !in registered || key in final {
            RejectedLine(log, n, registered, previous, final);
            return Err;
          }
          if key in previous {
            var d := Delta(previous[key], profile);
            if d.Err? {
              RejectedLine(log, n, registered, previous, final);
              return Err;
            }
          }
          TracksReport(log, n, registered, previous, final);
          previous := previous[key := profile];
          if isFinal {
            final := final[key := profile];
          }
      }
    }
    r := Conclude(log, registered, previous, final, expected);
  }

  /** The checks after the loop. */
  method Conclude(
    ghost log: seq<Line>, registered: set<Key>, ghost previous: map<Key, Profile>, final: map<Key, Profile>,
    expected: multiset<string>)
    returns (r: Result<map<Key, Profile>>)
    requires Tracks(log, |log|, registered, previous, final)
    ensures r.Ok? <==> Acceptable(log, expected)
    ensures r.Ok? ==> AreFinals(log, r.value)
  {
    FinalsAreFinished(log, registered, previous, final);
    if final.Keys != registered {
      return Err;
    }
    var observed := CountComponents(registered);
    if observed != expected {
      if Inventory(registered, expected) {
        InventoryUnique(registered, observed, expected);
      }
      return Err;
    }
    r := Ok(final);
  }

  lemma FinalsAreFinished(log: seq<Line>, registered: set<Key>, previous: map<Key, Profile>, final: map<Key, Profile>)
    requires Tracks(log, |log|, registered, previous, final)
    ensures forall key :: Finished(log, |log|, key) <==> key in final
    ensures forall key :: key in final ==> IsReport(log, |log|, key, true, final[key])
  {
  }

  /** In an acceptable log each identity has exactly one final report and it is its last report. */
  lemma FinalIsUniqueAndLast(log: seq<Line>, expected: multiset<string>, i: nat, j: nat)
    requires Acceptable(log, expected) && i < |log| && j < |log|
    requires log[i].Report? && log[j].Report? && log[i].key == log[j].key && log[i].final
    ensures j <= i && (log[j].final ==> i == j)
    ensures Monotone(log[j].profile, log[i].profile)
  {
  }
}
