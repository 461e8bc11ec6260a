/** The result row of a cell in the writeback payload, the validator of such rows, and the room the
    accepted plans leave in 64-bit counters. */
module Rows {
  import opened Wrappers
  import opened Files
  import opened Chunks
  import opened Plan
  import opened PhaseStats
  import opened Contents
  import opened WorkerSession
  import opened OutputTree
  import Bits

  datatype Boundary = NoAuxiliaryFlush | WritebackDrain | ReopenEachFile | ReadOnly

  datatype Row = Row(
    workload: Workload, block: nat, workers: nat, bytesPerWorker: nat,
    appliedMeasured: bool, appliedBarriers: nat, appliedBoundary: Boundary, fsyncBoundary: Boundary,
    finalFsyncs: nat, finalCloses: nat, directoryFsyncs: nat,
    acceptedNs: nat, appliedNs: nat, fsyncNs: nat, closeNs: nat, dirsyncNs: nat, totalNs: nat)

  /** Readings of the monotonic clock; the writeback payload takes no reading between Accepted and Sync. */
  datatype Clock = Clock(started: nat, accepted: nat, synced: nat, closed: nat, finished: nat)

  predicate Monotonic(t: Clock) {
    t.started <= t.accepted <= t.synced <= t.closed <= t.finished
  }

  predicate BytesAgree(cell: Cell, stats: Stats) {
    && stats.bytesVerified == cell.bytes * cell.workers
    && stats.bytesWritten + stats.bytesRead == cell.bytes * cell.workers
  }

  /** The directory syncs of a cell: its workers, the round, the cell, the output and the workspace. */
  function DirectorySyncs(cell: Cell): nat {
    if cell.workload.Read? then 0 else cell.workers + 4
  }

  /** Opens and syncs the directories of a round; in the output that the round leaves all of them are there. */
  method SyncDirectories(output: map<string, Node>, cell: Cell, round: nat) returns (r: Result<nat>)
    requires Usable(cell) && 1 <= round
    ensures cell.id in output && output[cell.id] == Dir(CellMembers(cell, round)) ==> r == Ok(DirectorySyncs(cell))
  {
    if cell.workload.Read? {
      return Ok(0);
    }
    var name := RoundName(cell, round);
    if cell.id !in output || !output[cell.id].Dir? || name !in output[cell.id].members
       || !output[cell.id].members[name].Dir? {
      RoundIsThere(cell, round);
      return Err;
    }
    var workers := output[cell.id].members[name].members;
    RoundIsThere(cell, round);
    var synced := 0;
    for w := 0 to cell.workers
      invariant synced == w
    {
      WorkerPlace(cell, PatternRound(cell, round), w);
      if WorkerName(w) !in workers || !workers[WorkerName(w)].Dir? {
        return Err;
      }
      synced := synced + 1;
    }
    r := Ok(synced + 4);
  }

  lemma RoundIsThere(cell: Cell, round: nat)
    requires Usable(cell) && 1 <= round
    ensures var members := CellMembers(cell, round);
            RoundName(cell, round) in members && members[RoundName(cell, round)] == RoundNode(cell, round)
  {
    CellIs(CellMembers(cell, round), cell, round);
    RoundsHoldAt(CellMembers(cell, round), cell, round, round - 1);
  }

  /** Whether the validator can pass the row of a cell: the exact condition. */
  predicate Passable(cell: Cell)
    requires 0 < cell.block
  {
    cell.workload.Stream? || (cell.workload.Smallfiles? && cell.bytes % cell.block == 0)
  }

  /** Laid end to end from the start, the reported durations reach each reading of the clock. */
  predicate TellsTime(row: Row, t: Clock) {
    && t.started + row.acceptedNs == t.accepted
    && t.accepted + row.appliedNs + row.fsyncNs == t.synced
    && t.synced + row.closeNs == t.closed
    && t.closed + row.dirsyncNs == t.finished
    && t.started + row.totalNs == t.finished
  }

  /** The row names its cell, and counts what its files and directories make necessary. */
  predicate TellsCell(row: Row, cell: Cell)
    requires Usable(cell)
  {
    var files := cell.workers * FilesPerWorker(cell);
    && row.workload == cell.workload && row.block == cell.block && row.workers == cell.workers
    && row.bytesPerWorker == cell.bytes
    && row.finalFsyncs == (if cell.workload.Read? then 0 else files) && row.finalCloses == files
    && row.directoryFsyncs == (if cell.workload.Read? then 0 else cell.workers + 4)
    && !row.appliedMeasured && row.appliedBarriers == 0 && row.appliedNs == 0 && row.appliedBoundary == NoAuxiliaryFlush
    && row.fsyncBoundary == (if cell.workload.Smallfiles? then ReopenEachFile
                             else if cell.workload.Read? then ReadOnly else WritebackDrain)
  }

  lemma RowTells(cell: Cell, ns: nat, t: Clock)
    requires Usable(cell) && Monotonic(t)
    ensures var row := RowOf(cell, TimesStats(cell.workers, cell, false, ns), DirectorySyncs(cell), t);
            TellsTime(row, t) && TellsCell(row, cell)
  {
    FinalCounts(cell, ns);
    if cell.workload.Read? {
      TimesProduct(cell.workers, 0);
    }
  }

  /** The row of a cell: its counters for all workers, its directory syncs and the clock's differences. */
  ghost predicate IsRowOf(row: Row, cell: Cell, t: Clock)
    requires Usable(cell) && Monotonic(t)
    ensures IsRowOf(row, cell, t) ==> row.block == cell.block
  {
    exists ns :: row == RowOf(cell, TimesStats(cell.workers, cell, false, ns), DirectorySyncs(cell), t)
  }

  /** A round of a cell in the writeback payload, from its place in the output to its row: whatever the clock reads,
      the row has the counters of the cell, and the validator passes it if and only if the cell is a stream, or small
      files whose size the block divides. */
  method RunAndReport(output: map<string, Node>, cell: Cell, round: nat, t: Clock)
    returns (r: Result<(map<string, Node>, Row)>)
    requires Usable(cell) && 1 <= cell.workers && 1 <= round && Monotonic(t)
    ensures Before(output, cell, round) ==>
              && r.Ok? && r.value.0 == output[cell.id := Dir(CellMembers(cell, round))]
              && TellsTime(r.value.1, t) && TellsCell(r.value.1, cell)
              && IsRowOf(r.value.1, cell, t) && (ValidateRow(r.value.1) <==> Passable(cell))
  {
    var ran := RunCell(output, cell, round, false);
    if ran.Err? {
      return Err;
    }
    var stats := ran.value.1;
    var synced := SyncDirectories(ran.value.0, cell, round);
    if synced.Err? {
      return Err;
    }
    RunsReport(cell, false, stats.periodicFsyncNs);
    if stats.bytesVerified != cell.bytes * cell.workers
       || stats.bytesWritten + stats.bytesRead != cell.bytes * cell.workers {
      return Err;
    }
    if synced.value == DirectorySyncs(cell) {
      ValidRows(cell, stats.periodicFsyncNs, t);
      RowTells(cell, stats.periodicFsyncNs, t);
    }
    r := Ok((ran.value.0, RowOf(cell, stats, synced.value, t)));
  }

  function RowOf(cell: Cell, stats: Stats, synced: nat, t: Clock): Row
    requires Monotonic(t)
  {
    Row(workload := cell.workload, block := cell.block, workers := cell.workers, bytesPerWorker := cell.bytes,
        appliedMeasured := false, appliedBarriers := stats.appliedBarriers, appliedBoundary := NoAuxiliaryFlush,
        fsyncBoundary := match cell.workload
                         case Smallfiles => ReopenEachFile
                         case Read => ReadOnly
                         case Stream => WritebackDrain,
        finalFsyncs := stats.finalFsyncs, finalCloses := stats.finalCloses,
        directoryFsyncs := synced,
        acceptedNs := t.accepted - t.started, appliedNs := t.accepted - t.accepted, fsyncNs := t.synced - t.accepted,
        closeNs := t.closed - t.synced, dirsyncNs := t.finished - t.closed, totalNs := t.finished - t.started)
  }

  predicate ValidateRow(row: Row)
    requires 0 < row.block
  {
    var files := row.workers * (if row.workload.Smallfiles? then row.bytesPerWorker / row.block else 1);
    && !row.appliedMeasured && row.appliedNs == 0 && row.appliedBarriers == 0
    && row.appliedBoundary == NoAuxiliaryFlush
    && row.totalNs == row.acceptedNs + row.appliedNs + row.fsyncNs + row.closeNs + row.dirsyncNs
    && row.finalFsyncs == files && row.finalCloses == files && row.directoryFsyncs == row.workers + 4
    && (row.workload.Stream? ==> row.fsyncBoundary == WritebackDrain)
  }

  /** What a valid row says beside its cell and its four measured times is decided by them: no other total, no other
      count and no other boundary of a stream passes. */
  lemma ValidRowDetermined(a: Row, b: Row)
    requires 0 < a.block && ValidateRow(a) && a.workload == b.workload && a.block == b.block
    requires a.workers == b.workers && a.bytesPerWorker == b.bytesPerWorker && a.acceptedNs == b.acceptedNs
    requires a.fsyncNs == b.fsyncNs && a.closeNs == b.closeNs && a.dirsyncNs == b.dirsyncNs
    ensures ValidateRow(b) <==>
              b == a || (!a.workload.Stream? && b == a.(fsyncBoundary := b.fsyncBoundary))
  {
  }

  /** A valid row exists for every cell and all times. */
  lemma SomeRowIsValid(workload: Workload, block: nat, workers: nat, bytes: nat, accepted: nat, fsync: nat, close: nat,
                       dirsync: nat)
    requires 0 < block
    ensures exists row: Row ::
              && row.workload == workload && row.block == block && row.workers == workers && row.bytesPerWorker == bytes
              && row.acceptedNs == accepted && row.fsyncNs == fsync && row.closeNs == close && row.dirsyncNs == dirsync
              && ValidateRow(row)
  {
    var files := workers * (if workload.Smallfiles? then bytes / block else 1);
    var row := Row(workload, block, workers, bytes, false, 0, NoAuxiliaryFlush, WritebackDrain, files, files, workers + 4,
                   accepted, 0, fsync, close, dirsync, accepted + fsync + close + dirsync);
    assert ValidateRow(row);
  }

  /** Every cell of a run reports a row: its byte counts add up. */
  lemma RunsReport(cell: Cell, applied: bool, ns: nat)
    requires Usable(cell)
    ensures BytesAgree(cell, TimesStats(cell.workers, cell, applied, ns))
  {
    TimesProduct(cell.workers, cell.bytes);
    TimesProduct(cell.workers, 0);
  }

  /** Files that a worker syncs and closes at the end. */
  lemma FinalCounts(cell: Cell, ns: nat)
    requires Usable(cell)
    ensures var stats := TimesStats(cell.workers, cell, false, ns);
            && stats.appliedBarriers == 0
            && stats.finalCloses == cell.workers * FilesPerWorker(cell)
            && (!cell.workload.Read? ==> stats.finalFsyncs == cell.workers * FilesPerWorker(cell))
  {
    TimesProduct(cell.workers, FilesPerWorker(cell));
    TimesProduct(cell.workers, 0);
  }

  /** The validator passes the row of a cell exactly for streams and for small files of whole blocks: it counts
      whole blocks where the payload writes a shorter last file, and it wants directory syncs that a read cell
      does not make. */
  lemma ValidRows(cell: Cell, ns: nat, t: Clock)
    requires Usable(cell) && 1 <= cell.workers && Monotonic(t)
    ensures ValidateRow(RowOf(cell, TimesStats(cell.workers, cell, false, ns), DirectorySyncs(cell), t)) <==> Passable(cell)
  {
    FinalCounts(cell, ns);
    RowDecided(cell, TimesStats(cell.workers, cell, false, ns), t);
    if cell.workload.Smallfiles? {
      CeilFloor(cell.bytes, cell.block);
      SameFactor(cell.workers, Count(cell), cell.bytes / cell.block);
    }
  }

  /** Files per worker as the validator counts them. */
  function WholeFiles(cell: Cell): nat
    requires 0 < cell.block
  {
    if cell.workload.Smallfiles? then cell.bytes / cell.block else 1
  }

  lemma RowDecided(cell: Cell, stats: Stats, t: Clock)
    requires 0 < cell.block && Monotonic(t) && stats.appliedBarriers == 0
    ensures ValidateRow(RowOf(cell, stats, DirectorySyncs(cell), t))
       <==> !cell.workload.Read? && stats.finalFsyncs == stats.finalCloses == cell.workers * WholeFiles(cell)
  {
  }

  lemma CeilFloor(length: nat, block: nat)
    requires 0 < block
    ensures CeilDiv(length, block) == length / block <==> length % block == 0
  {
    var q, rest := length / block, length % block;
    assert length == block * q + rest;
    if rest == 0 {
      Bits.DivModUnique(length + block - 1, block, q, block - 1);
    } else {
      Bits.DivModUnique(length + block - 1, block, q + 1, rest - 1);
    }
  }

  lemma SameFactor(k: nat, a: nat, b: nat)
    requires 1 <= k
    ensures k * a == k * b <==> a == b
  {
  }

  lemma Positive(a: nat, b: nat)
    requires 1 <= a && 1 <= b
    ensures a <= a * b && b <= a * b
  {
  }

  /** One worker writes 4097 bytes in files of 4096: two files, of which the validator expects one. */
  function ShortLastFile(): Cell { Cell("short-last-file", Smallfiles, 4096, 1, 4097, 0) }

  function ReadOnce(): Cell { Cell("read-once", Read, 4096, 1, 4096, 0) }

  /** Cells the parser accepts whose rows the validator rejects. */
  lemma RejectedRows(ns: nat, t: Clock)
    requires Monotonic(t)
    ensures CellOk(ShortLastFile()) && CellOk(ReadOnce())
    ensures forall cell :: cell == ShortLastFile() || cell == ReadOnce() ==>
              !ValidateRow(RowOf(cell, TimesStats(cell.workers, cell, false, ns), DirectorySyncs(cell), t))
  {
    ValidRows(ShortLastFile(), ns, t);
    ValidRows(ReadOnce(), ns, t);
  }

  // ----- no overflow -----------------------------------------------------------------------------------------

  const MAX_ROUNDS: nat := 16

  lemma Product(a: nat, b: nat, c: nat)
    requires a <= b
    ensures a * c <= b * c
  {
  }

  lemma CeilAtMost(length: nat, block: nat)
    requires 0 < block
    ensures CeilDiv(length, block) <= length
  {
    CeilBounds(length, block);
    var c := CeilDiv(length, block);
    if c >= 2 {
      Positive(c - 1, block);
    }
  }

  /** No operation count of a cell exceeds its 512 MiB, and neither does the end of any chunk. */
  lemma CellFits(cell: Cell, i: nat)
    requires CellOk(cell) && i < Count(cell)
    ensures Count(cell) * cell.workers <= MAX_CELL_BYTES
    ensures i * cell.block < Upto(cell.bytes, cell.block, i + 1) <= MAX_CELL_BYTES
  {
    ChunkBounds(cell.bytes, cell.block, i);
    BytesBound(cell);
    CeilAtMost(cell.bytes, cell.block);
    Product(Count(cell), cell.bytes, cell.workers);
  }

  lemma RoundFits(cell: Cell)
    requires CellOk(cell)
    ensures RoundBytes(cell) <= MAX_CELL_BYTES && RoundFiles(cell) <= MAX_FILES
  {
    TimesProduct(cell.workers, cell.bytes);
    TimesProduct(cell.workers, FilesPerWorker(cell));
  }

  /** The totals of a verified run and the markers of its phases fit in 64 bits with room to spare. */
  lemma {:induction false} TotalsFit(cells: seq<Cell>, n: nat, rounds: nat)
    requires CellsOk(cells) && n <= |cells| && forall i :: 0 <= i < |cells| ==> CellOk(cells[i])
    requires rounds <= MAX_ROUNDS
    ensures TotalBytes(cells, n, rounds) <= n * 16 * 512 * 1024 * 1024
    ensures TotalFiles(cells, n, rounds) <= n * 16 * 65536
  {
    if n > 0 {
      TotalsFit(cells, n - 1, rounds);
      var cell := cells[n - 1];
      RoundFits(cell);
      TimesProduct(rounds, RoundBytes(cell));
      TimesProduct(rounds, RoundFiles(cell));
      Product(rounds, MAX_ROUNDS, RoundBytes(cell));
      Product(rounds, MAX_ROUNDS, RoundFiles(cell));
    }
  }

  lemma RunFits(cells: seq<Cell>, rounds: nat, round: nat, index: nat)
    requires CellsOk(cells) && forall i :: 0 <= i < |cells| ==> CellOk(cells[i])
    requires |cells| <= MAX_CELLS && 1 <= round <= rounds <= MAX_ROUNDS && index < |cells|
    ensures TotalBytes(cells, |cells|, rounds) <= 0x200_0000_0000
    ensures TotalFiles(cells, |cells|, rounds) <= 0x1000_0000
    ensures 2 * ((round - 1) * |cells| + index) + 2 <= 8192
  {
    TotalsFit(cells, |cells|, rounds);
    Product(round - 1, 15, |cells|);
  }
}
