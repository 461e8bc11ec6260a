/** The per-phase counters of the guest payload and their sums. */
module PhaseStats {

  datatype Stats = Stats(
    writeOps: nat, readOps: nat, bytesWritten: nat, bytesRead: nat,
    filesCreated: nat, acceptedCloses: nat, periodicFsyncs: nat, periodicFsyncNs: nat,
    appliedBarriers: nat, finalFsyncs: nat, finalCloses: nat,
    filesVerified: nat, bytesVerified: nat)

  const ZeroStats: Stats := Stats(0, 0, 0, 0, 0, 0, 0, 0, 0, 0, 0, 0, 0)

  function Add(a: Stats, b: Stats): Stats {
    Stats(a.writeOps + b.writeOps, a.readOps + b.readOps,
          a.bytesWritten + b.bytesWritten, a.bytesRead + b.bytesRead,
          a.filesCreated + b.filesCreated, a.acceptedCloses + b.acceptedCloses,
          a.periodicFsyncs + b.periodicFsyncs, a.periodicFsyncNs + b.periodicFsyncNs,
          a.appliedBarriers + b.appliedBarriers, a.finalFsyncs + b.finalFsyncs,
          a.finalCloses + b.finalCloses, a.filesVerified + b.filesVerified,
          a.bytesVerified + b.bytesVerified)
  }

  /** Sum of the entries whose flag is set. */
  function SumWhere(values: seq<Stats>, chosen: seq<bool>): Stats
    requires |values| == |chosen|
  {
    if values == [] then ZeroStats
    else
      var last := |values| - 1;
      var rest := SumWhere(values[..last], chosen[..last]);
      if chosen[last] then Add(rest, values[last]) else rest
  }

  lemma AddSwap(a: Stats, b: Stats, c: Stats)
    ensures Add(Add(a, b), c) == Add(Add(a, c), b)
  {}

  /** Choosing one more entry adds exactly that entry, wherever it is. */
  lemma {:induction false} SumWhereChoose(values: seq<Stats>, chosen: seq<bool>, w: nat)
    requires |values| == |chosen| && w < |values| && !chosen[w]
    ensures SumWhere(values, chosen[w := true]) == Add(SumWhere(values, chosen), values[w])
  {
    var last := |values| - 1;
    if w == last {
      assert chosen[w := true][..last] == chosen[..last];
    } else {
      assert chosen[w := true][..last] == chosen[..last][w := true];
      SumWhereChoose(values[..last], chosen[..last], w);
      AddSwap(SumWhere(values[..last], chosen[..last]), values[w], values[last]);
    }
  }

  /** Entries that are not chosen do not matter. */
  lemma {:induction false} SumWhereAgree(values: seq<Stats>, values': seq<Stats>, chosen: seq<bool>)
    requires |values| == |chosen| == |values'|
    requires forall i :: 0 <= i < |chosen| && chosen[i] ==> values[i] == values'[i]
    ensures SumWhere(values, chosen) == SumWhere(values', chosen)
  {
    if values != [] {
      var last := |values| - 1;
      SumWhereAgree(values[..last], values'[..last], chosen[..last]);
    }
  }

  function Sum(values: seq<Stats>): Stats {
    if values == [] then ZeroStats
    else Add(Sum(values[..|values| - 1]), values[|values| - 1])
  }

  lemma {:induction false} SumWhereNone(values: seq<Stats>, chosen: seq<bool>)
    requires |values| == |chosen|
    requires forall i :: 0 <= i < |chosen| ==> !chosen[i]
    ensures SumWhere(values, chosen) == ZeroStats
  {
    if values != [] {
      SumWhereNone(values[..|values| - 1], chosen[..|values| - 1]);
    }
  }

  lemma {:induction false} SumWhereAll(values: seq<Stats>, chosen: seq<bool>)
    requires |values| == |chosen|
    requires forall i :: 0 <= i < |chosen| ==> chosen[i]
    ensures SumWhere(values, chosen) == Sum(values)
  {
    if values != [] {
      SumWhereAll(values[..|values| - 1], chosen[..|values| - 1]);
    }
  }
}
