/** The output tree of a whole run: what the rounds write, and the verifier that accepts exactly that. */
module OutputTree {
  import opened Wrappers
  import opened Bytes
  import opened Decimal
  import opened Chunks
  import opened Files
  import opened Plan
  import opened PhaseStats
  import opened Contents
  import opened WorkerSession
  import Bits

  // ----- the expected tree ---------------------------------------------------------------------------------

  function WorkerName(worker: nat): string { "w" + Padded(worker, 3) }

  function RoundName(cell: Cell, round: nat): string {
    if cell.workload.Read? then "readset" else NumberedRound(round)
  }

  function NumberedRound(round: nat): string { "r" + Padded(round, 2) }

  function WorkerNode(cell: Cell, patternRound: nat): nat -> Node
    requires Usable(cell)
  {
    (worker: nat) => Dir(WorkerMembers(cell, Data(cell, worker, patternRound)))
  }

  function RoundNode(cell: Cell, round: nat): Node
    requires Usable(cell)
  {
    Dir(Indexed(cell.workers, WorkerName, WorkerNode(cell, PatternRound(cell, round))))
  }

  /** Name of round `i + 1`. */
  function RoundAt(i: nat): string { NumberedRound(i + 1) }

  function RoundNodes(cell: Cell): nat -> Node
    requires Usable(cell)
  {
    (i: nat) => RoundNode(cell, i + 1)
  }

  /** A cell's directory after `rounds` rounds. */
  function CellMembers(cell: Cell, rounds: nat): map<string, Node>
    requires Usable(cell)
  {
    if cell.workload.Read? then map["readset" := RoundNode(cell, 1)]
    else Indexed(rounds, RoundAt, RoundNodes(cell))
  }

  predicate CellsOk(cells: seq<Cell>) {
    UniqueIds(cells) && forall i :: 0 <= i < |cells| ==> Usable(cells[i])
  }

  function CellNames(cells: seq<Cell>): nat -> string {
    (i: nat) => if i < |cells| then cells[i].id else ""
  }

  function CellNodes(cells: seq<Cell>, rounds: nat): nat -> Node
    requires CellsOk(cells)
  {
    (i: nat) => if i < |cells| then Dir(CellMembers(cells[i], rounds)) else Other
  }

  /** curves-output after a complete run. */
  function Expected(cells: seq<Cell>, rounds: nat): map<string, Node>
    requires CellsOk(cells)
  {
    Indexed(|cells|, CellNames(cells), CellNodes(cells, rounds))
  }

  lemma WorkerNamesDistinct(n: nat)
    ensures Distinct(n, WorkerName)
  {
    forall i: nat, j: nat | WorkerName(i) == WorkerName(j) ensures i == j {
      assert WorkerName(i)[1..] == Padded(i, 3) && WorkerName(j)[1..] == Padded(j, 3);
      PaddedInjective(i, j, 3);
    }
  }

  lemma RoundNamesDistinct(n: nat)
    ensures Distinct(n, RoundAt)
  {
    forall i: nat, j: nat | RoundAt(i) == RoundAt(j) ensures i == j {
      assert RoundAt(i)[1..] == Padded(i + 1, 2) && RoundAt(j)[1..] == Padded(j + 1, 2);
      PaddedInjective(i + 1, j + 1, 2);
    }
  }

  lemma CellNamesDistinct(cells: seq<Cell>)
    requires UniqueIds(cells)
    ensures Distinct(|cells|, CellNames(cells))
  {
  }

  // ----- the verifier ---------------------------------------------------------------------------------------

  /** `x` added `n` times. */
  function Times(n: nat, x: nat): nat { if n == 0 then 0 else Times(n - 1, x) + x }

  lemma {:induction false} TimesProduct(n: nat, x: nat)
    ensures Times(n, x) == n * x
  {
    if n > 0 {
      TimesProduct(n - 1, x);
      assert n * x == (n - 1) * x + x;
    }
  }

  /** Files of one worker. */
  function FilesPerWorker(cell: Cell): nat
    requires Usable(cell)
  {
    if cell.workload.Smallfiles? then Count(cell) else 1
  }

  method VerifyWorker(node: Node, cell: Cell, data: seq<Byte>) returns (ok: bool, files: nat)
    requires Usable(cell) && |data| == cell.bytes
    ensures ok <==> node == Dir(WorkerMembers(cell, data))
    ensures ok ==> files == FilesPerWorker(cell)
  {
    files := 0;
    if !node.Dir? {
      return false, 0;
    }
    var members := node.members;
    if cell.workload.Smallfiles? {
      var count := Count(cell);
      SmallNamesDistinct(count);
      IndexedIs(members, count, SmallName, SmallNode(data, cell.block));
      if members.Keys != Names(count, SmallName) {
        return false, 0;
      }
      for i := 0 to count
        invariant files == i
        invariant Holds(members, i, SmallName, SmallNode(data, cell.block))
      {
        HoldsAt(members, count, SmallName, SmallNode(data, cell.block), i);
        var same := VerifyFile(members, SmallName(i), Chunk(data, cell.block, i));
        if !same {
          return false, 0;
        }
        files := files + 1;
      }
      ok := true;
    } else {
      if members.Keys != {"data.bin"} {
        return false, 0;
      }
      ok := VerifyFile(members, "data.bin", data);
      files := 1;
    }
  }

  /** The verifier of a round before worker `w`. */
  ghost predicate WorkersVerified(members: map<string, Node>, cell: Cell, key: nat, w: nat, files: nat, bytes: nat)
    requires Usable(cell)
  {
    && Holds(members, w, WorkerName, WorkerNode(cell, key))
    && files == Times(w, FilesPerWorker(cell)) && bytes == Times(w, cell.bytes)
  }

  /** Checks worker `w` in its round's directory. */
  method VerifyWorkerAt(members: map<string, Node>, cell: Cell, key: nat, w: nat) returns (ok: bool, files: nat)
    requires Usable(cell) && WorkerName(w) in members
    ensures ok <==> members[WorkerName(w)] == WorkerNode(cell, key)(w)
    ensures ok ==> files == FilesPerWorker(cell)
  {
    var data := Generate(cell, w, key);
    ok, files := VerifyWorker(members[WorkerName(w)], cell, data);
  }

  /** The first `n` names are there. */
  predicate Present(members: map<string, Node>, n: nat, name: nat -> string) {
    n == 0 || (Present(members, n - 1, name) && name(n - 1) in members)
  }

  lemma {:induction false} PresentAt(members: map<string, Node>, n: nat, name: nat -> string, i: nat)
    requires Present(members, n, name) && i < n
    ensures name(i) in members
  {
    if i < n - 1 {
      PresentAt(members, n - 1, name, i);
    }
  }

  lemma {:induction false} PresentAll(members: map<string, Node>, n: nat, name: nat -> string)
    requires forall i: nat :: i < n ==> name(i) in members
    ensures Present(members, n, name)
  {
    if n > 0 {
      PresentAll(members, n - 1, name);
    }
  }

  lemma NamesPresent(members: map<string, Node>, n: nat, name: nat -> string)
    requires members.Keys == Names(n, name)
    ensures Present(members, n, name)
  {
    forall i: nat | i < n ensures name(i) in members {
      assert name(i) in Names(n, name);
    }
    PresentAll(members, n, name);
  }

  /** Checks the workers of a round one by one. */
  method VerifyWorkers(members: map<string, Node>, cell: Cell, key: nat) returns (ok: bool, files: nat, bytes: nat)
    requires Usable(cell) && Present(members, cell.workers, WorkerName)
    ensures ok <==> Holds(members, cell.workers, WorkerName, WorkerNode(cell, key))
    ensures ok ==> files == Times(cell.workers, FilesPerWorker(cell)) && bytes == Times(cell.workers, cell.bytes)
  {
    files, bytes := 0, 0;
    for w := 0 to cell.workers
      invariant WorkersVerified(members, cell, key, w, files, bytes)
    {
      HoldsAt(members, cell.workers, WorkerName, WorkerNode(cell, key), w);
      PresentAt(members, cell.workers, WorkerName, w);
      var same, found := VerifyWorkerAt(members, cell, key, w);
      if !same {
        return false, 0, 0;
      }
      WorkerVerified(members, cell, key, w, files, bytes);
      files, bytes := files + found, bytes + cell.bytes;
    }
    ok := true;
  }

  method VerifyRound(node: Node, cell: Cell, round: nat) returns (ok: bool, files: nat, bytes: nat)
    requires Usable(cell)
    ensures ok <==> node == RoundNode(cell, round)
    ensures ok ==> files == Times(cell.workers, FilesPerWorker(cell)) && bytes == Times(cell.workers, cell.bytes)
  {
    if !node.Dir? {
      return false, 0, 0;
    }
    var key := PatternRound(cell, round);
    RoundIs(node.members, cell, key);
    if node.members.Keys != Names(cell.workers, WorkerName) {
      return false, 0, 0;
    }
    NamesPresent(node.members, cell.workers, WorkerName);
    ok, files, bytes := VerifyWorkers(node.members, cell, key);
  }

  lemma RoundIs(members: map<string, Node>, cell: Cell, key: nat)
    requires Usable(cell)
    ensures members == Indexed(cell.workers, WorkerName, WorkerNode(cell, key))
       <==> members.Keys == Names(cell.workers, WorkerName)
            && Holds(members, cell.workers, WorkerName, WorkerNode(cell, key))
  {
    WorkerNamesDistinct(cell.workers);
    IndexedIs(members, cell.workers, WorkerName, WorkerNode(cell, key));
  }

  lemma WorkerVerified(members: map<string, Node>, cell: Cell, key: nat, w: nat, files: nat, bytes: nat)
    requires Usable(cell) && WorkersVerified(members, cell, key, w, files, bytes)
    requires WorkerName(w) in members && members[WorkerName(w)] == WorkerNode(cell, key)(w)
    ensures WorkersVerified(members, cell, key, w + 1, files + FilesPerWorker(cell), bytes + cell.bytes)
  {
  }

  /** The first `n` rounds of the cell are in place. */
  predicate RoundsHold(members: map<string, Node>, cell: Cell, n: nat)
    requires Usable(cell)
  {
    n == 0 || (RoundsHold(members, cell, n - 1)
               && RoundName(cell, n) in members && members[RoundName(cell, n)] == RoundNode(cell, n))
  }

  lemma {:induction false} RoundsHoldAt(members: map<string, Node>, cell: Cell, n: nat, i: nat)
    requires Usable(cell) && i < n
    ensures RoundsHold(members, cell, n) ==>
              RoundName(cell, i + 1) in members && members[RoundName(cell, i + 1)] == RoundNode(cell, i + 1)
  {
    if i < n - 1 {
      RoundsHoldAt(members, cell, n - 1, i);
    }
  }

  lemma {:induction false} NumberedRoundsHold(members: map<string, Node>, cell: Cell, n: nat)
    requires Usable(cell) && !cell.workload.Read?
    ensures RoundsHold(members, cell, n) <==> Holds(members, n, RoundAt, RoundNodes(cell))
  {
    if n > 0 {
      NumberedRoundsHold(members, cell, n - 1);
    }
  }

  lemma {:induction false} ReadRoundsHold(members: map<string, Node>, cell: Cell, n: nat)
    requires Usable(cell) && cell.workload.Read? && 1 <= n
    ensures RoundsHold(members, cell, n) <==> "readset" in members && members["readset"] == RoundNode(cell, 1)
  {
    if n > 1 {
      ReadRoundsHold(members, cell, n - 1);
    } else {
      assert RoundsHold(members, cell, 0);
    }
  }

  function RoundSet(cell: Cell, rounds: nat): set<string> {
    if cell.workload.Read? then {"readset"} else Names(rounds, RoundAt)
  }

  lemma CellIs(members: map<string, Node>, cell: Cell, rounds: nat)
    requires Usable(cell) && 1 <= rounds
    ensures members == CellMembers(cell, rounds)
        <==> members.Keys == RoundSet(cell, rounds) && RoundsHold(members, cell, rounds)
  {
    if cell.workload.Read? {
      ReadRoundsHold(members, cell, rounds);
    } else {
      RoundNamesDistinct(rounds);
      IndexedIs(members, rounds, RoundAt, RoundNodes(cell));
      NumberedRoundsHold(members, cell, rounds);
    }
  }

  lemma RoundNamed(cell: Cell, rounds: nat, i: nat)
    requires i < rounds
    ensures RoundName(cell, i + 1) in RoundSet(cell, rounds)
  {
    assert RoundAt(i) in Names(rounds, RoundAt);
  }

  /** Files and bytes of one round of a cell. */
  function RoundFiles(cell: Cell): nat
    requires Usable(cell)
  {
    Times(cell.workers, FilesPerWorker(cell))
  }

  function RoundBytes(cell: Cell): nat { Times(cell.workers, cell.bytes) }

  /** The verifier of a cell before round `i + 1`. */
  ghost predicate RoundsVerified(members: map<string, Node>, cell: Cell, i: nat, files: nat, bytes: nat)
    requires Usable(cell)
  {
    && RoundsHold(members, cell, i)
    && files == Times(i, RoundFiles(cell)) && bytes == Times(i, RoundBytes(cell))
  }

  lemma RoundVerified(members: map<string, Node>, cell: Cell, i: nat, files: nat, bytes: nat)
    requires Usable(cell) && RoundsVerified(members, cell, i, files, bytes)
    requires RoundName(cell, i + 1) in members && members[RoundName(cell, i + 1)] == RoundNode(cell, i + 1)
    ensures RoundsVerified(members, cell, i + 1, files + RoundFiles(cell), bytes + RoundBytes(cell))
  {
  }

  /** Checks the rounds of a cell one by one. */
  method VerifyRounds(members: map<string, Node>, cell: Cell, rounds: nat) returns (ok: bool, files: nat, bytes: nat)
    requires Usable(cell) && forall round: nat :: 1 <= round <= rounds ==> RoundName(cell, round) in members
    ensures ok <==> RoundsHold(members, cell, rounds)
    ensures ok ==> files == Times(rounds, RoundFiles(cell)) && bytes == Times(rounds, RoundBytes(cell))
  {
    files, bytes := 0, 0;
    for i := 0 to rounds
      invariant RoundsVerified(members, cell, i, files, bytes)
    {
      RoundsHoldAt(members, cell, rounds, i);
      var same, found, checked := VerifyRound(members[RoundName(cell, i + 1)], cell, i + 1);
      if !same {
        return false, 0, 0;
      }
      RoundVerified(members, cell, i, files, bytes);
      files, bytes := files + found, bytes + checked;
    }
    ok := true;
  }

  /** A read set is checked again in every round, against the same bytes. */
  method VerifyCell(node: Node, cell: Cell, rounds: nat) returns (ok: bool, files: nat, bytes: nat)
    requires Usable(cell) && 1 <= rounds
    ensures ok <==> node == Dir(CellMembers(cell, rounds))
    ensures ok ==> files == Times(rounds, RoundFiles(cell)) && bytes == Times(rounds, RoundBytes(cell))
  {
    if !node.Dir? {
      return false, 0, 0;
    }
    CellIs(node.members, cell, rounds);
    if node.members.Keys != RoundSet(cell, rounds) {
      return false, 0, 0;
    }
    forall round: nat | 1 <= round <= rounds ensures RoundName(cell, round) in node.members {
      RoundNamed(cell, rounds, round - 1);
    }
    ok, files, bytes := VerifyRounds(node.members, cell, rounds);
  }

  /** Files and bytes over all rounds of the first `n` cells. */
  function TotalFiles(cells: seq<Cell>, n: nat, rounds: nat): nat
    requires CellsOk(cells) && n <= |cells|
  {
    if n == 0 then 0 else TotalFiles(cells, n - 1, rounds) + Times(rounds, RoundFiles(cells[n - 1]))
  }

  function TotalBytes(cells: seq<Cell>, n: nat, rounds: nat): nat
    requires n <= |cells|
  {
    if n == 0 then 0 else TotalBytes(cells, n - 1, rounds) + Times(rounds, RoundBytes(cells[n - 1]))
  }

  lemma CellPlace(cells: seq<Cell>, rounds: nat, i: nat)
    requires CellsOk(cells) && i < |cells|
    ensures CellNames(cells)(i) == cells[i].id
    ensures CellNodes(cells, rounds)(i) == Dir(CellMembers(cells[i], rounds))
  {
  }

  method VerifyCellAt(members: map<string, Node>, cells: seq<Cell>, rounds: nat, i: nat)
    returns (ok: bool, files: nat, bytes: nat)
    requires CellsOk(cells) && 1 <= rounds && i < |cells| && CellNames(cells)(i) in members
    ensures ok <==> members[CellNames(cells)(i)] == CellNodes(cells, rounds)(i)
    ensures ok ==> files == Times(rounds, RoundFiles(cells[i])) && bytes == Times(rounds, RoundBytes(cells[i]))
  {
    CellPlace(cells, rounds, i);
    ok, files, bytes := VerifyCell(members[cells[i].id], cells[i], rounds);
  }

  /** Checks cell `i` and counts it. */
  method VerifyNextCell(members: map<string, Node>, cells: seq<Cell>, rounds: nat, i: nat, files: nat, bytes: nat)
    returns (ok: bool, files': nat, bytes': nat)
    requires CellsOk(cells) && 1 <= rounds && i < |cells| && CellNames(cells)(i) in members
    requires CellsVerified(members, cells, rounds, i, files, bytes)
    ensures ok ==> CellsVerified(members, cells, rounds, i + 1, files', bytes')
    ensures !ok ==> !Holds(members, |cells|, CellNames(cells), CellNodes(cells, rounds))
  {
    HoldsAt(members, |cells|, CellNames(cells), CellNodes(cells, rounds), i);
    var same, found, checked := VerifyCellAt(members, cells, rounds, i);
    if !same {
      return false, 0, 0;
    }
    CellVerified(members, cells, rounds, i, files, bytes);
    return true, files + found, bytes + checked;
  }

  /** Checks the cells one by one. */
  method VerifyCells(members: map<string, Node>, cells: seq<Cell>, rounds: nat) returns (ok: bool, files: nat, bytes: nat)
    requires CellsOk(cells) && 1 <= rounds && Present(members, |cells|, CellNames(cells))
    ensures ok <==> Holds(members, |cells|, CellNames(cells), CellNodes(cells, rounds))
    ensures ok ==> files == TotalFiles(cells, |cells|, rounds) && bytes == TotalBytes(cells, |cells|, rounds)
  {
    ok, files, bytes := true, 0, 0;
    for i := 0 to |cells|
      invariant ok && CellsVerified(members, cells, rounds, i, files, bytes)
    {
      PresentAt(members, |cells|, CellNames(cells), i);
      ok, files, bytes := VerifyNextCell(members, cells, rounds, i, files, bytes);
      if !ok {
        return false, 0, 0;
      }
    }
  }

  /** Accepts exactly the complete output of the plan. */
  method VerifyOutputs(output: Option<Node>, cells: seq<Cell>, rounds: nat) returns (ok: bool, files: nat, bytes: nat)
    requires CellsOk(cells) && 1 <= rounds
    ensures ok <==> output == Some(Dir(Expected(cells, rounds)))
    ensures ok ==> files == TotalFiles(cells, |cells|, rounds) && bytes == TotalBytes(cells, |cells|, rounds)
  {
    if output.None? || !output.value.Dir? {
      return false, 0, 0;
    }
    var members := output.value.members;
    ExpectedIs(members, cells, rounds);
    if members.Keys != Names(|cells|, CellNames(cells)) {
      return false, 0, 0;
    }
    NamesPresent(members, |cells|, CellNames(cells));
    ok, files, bytes := VerifyCells(members, cells, rounds);
  }

  /** The verifier before cell `i`. */
  ghost predicate CellsVerified(members: map<string, Node>, cells: seq<Cell>, rounds: nat, i: nat, files: nat, bytes: nat)
    requires CellsOk(cells)
  {
    && i <= |cells| && Holds(members, i, CellNames(cells), CellNodes(cells, rounds))
    && files == TotalFiles(cells, i, rounds) && bytes == TotalBytes(cells, i, rounds)
  }

  lemma CellVerified(members: map<string, Node>, cells: seq<Cell>, rounds: nat, i: nat, files: nat, bytes: nat)
    requires CellsOk(cells) && i < |cells| && CellsVerified(members, cells, rounds, i, files, bytes)
    requires CellNames(cells)(i) in members && members[CellNames(cells)(i)] == CellNodes(cells, rounds)(i)
    ensures CellsVerified(members, cells, rounds, i + 1, files + Times(rounds, RoundFiles(cells[i])),
                          bytes + Times(rounds, RoundBytes(cells[i])))
  {
  }

  lemma ExpectedIs(members: map<string, Node>, cells: seq<Cell>, rounds: nat)
    requires CellsOk(cells)
    ensures members == Expected(cells, rounds)
       <==> members.Keys == Names(|cells|, CellNames(cells))
            && Holds(members, |cells|, CellNames(cells), CellNodes(cells, rounds))
  {
    CellNamesDistinct(cells);
    IndexedIs(members, |cells|, CellNames(cells), CellNodes(cells, rounds));
  }

  // ----- the run ------------------------------------------------------------------------------------------------

  /** A cell's place in the output before round `round`. */
  ghost predicate Before(output: map<string, Node>, cell: Cell, round: nat)
    requires Usable(cell)
  {
    if round == 1 then cell.id !in output
    else 1 < round && cell.id in output && output[cell.id] == Dir(CellMembers(cell, round - 1))
  }

  function Lookup(members: map<string, Node>, name: string): Option<Node> {
    if name in members then Some(members[name]) else None
  }

  /** The counters of `n` workers. */
  function TimesStats(n: nat, cell: Cell, applied: bool, ns: nat): Stats
    requires Usable(cell)
  {
    var one := WorkerStats(cell, applied, 0);
    Stats(Times(n, one.writeOps), Times(n, one.readOps), Times(n, one.bytesWritten), Times(n, one.bytesRead),
          Times(n, one.filesCreated), Times(n, one.acceptedCloses), Times(n, one.periodicFsyncs), ns,
          Times(n, one.appliedBarriers), Times(n, one.finalFsyncs), Times(n, one.finalCloses),
          Times(n, one.filesVerified), Times(n, one.bytesVerified))
  }

  lemma OneMoreWorker(n: nat, cell: Cell, applied: bool, ns: nat, stats: Stats)
    requires Usable(cell) && stats == WorkerStats(cell, applied, stats.periodicFsyncNs)
    ensures Add(TimesStats(n, cell, applied, ns), stats)
         == TimesStats(n + 1, cell, applied, ns + stats.periodicFsyncNs)
  {
  }

  /** The round's directory before its workers are prepared. */
  function RoundStart(cell: Cell, round: nat): map<string, Node>
    requires Usable(cell)
  {
    if Reuses(cell, round) then RoundNode(cell, round).members else map[]
  }

  /** The round's directory after `w` workers. */
  function RoundAfter(cell: Cell, round: nat, w: nat): map<string, Node>
    requires Usable(cell)
  {
    if Reuses(cell, round) then RoundNode(cell, round).members
    else Indexed(w, WorkerName, WorkerNode(cell, PatternRound(cell, round)))
  }

  /** Worker `w` succeeds in the directory its predecessors leave, and adds its own. */
  method RunOne(members: map<string, Node>, cell: Cell, round: nat, w: nat, applied: bool)
    returns (r: Result<(map<string, Node>, Stats)>)
    requires Usable(cell) && w < cell.workers
    ensures r.Ok? ==> r.value.1 == WorkerStats(cell, applied, r.value.1.periodicFsyncNs)
    ensures members == RoundAfter(cell, round, w) ==> r.Ok? && r.value.0 == RoundAfter(cell, round, w + 1)
  {
    var key := PatternRound(cell, round);
    WorkerPlace(cell, key, w);
    var name := WorkerName(w);
    var data := Generate(cell, w, key);
    var done := RunWorker(cell, data, round, Lookup(members, name), applied);
    if done.Err? {
      return Err;
    }
    r := Ok((members[name := Dir(done.value.0)], done.value.1));
  }

  /** Runs every worker of a cell in the round's directory. */
  method RunWorkers(start: map<string, Node>, cell: Cell, round: nat, applied: bool)
    returns (r: Result<(map<string, Node>, Stats)>)
    requires Usable(cell)
    ensures r.Ok? ==> r.value.1 == TimesStats(cell.workers, cell, applied, r.value.1.periodicFsyncNs)
    ensures start == RoundStart(cell, round) ==> r.Ok? && Dir(r.value.0) == RoundNode(cell, round)
  {
    var members, stats := start, ZeroStats;
    for w := 0 to cell.workers
      invariant stats == TimesStats(w, cell, applied, stats.periodicFsyncNs)
      invariant start == RoundStart(cell, round) ==> members == RoundAfter(cell, round, w)
    {
      var done := RunOne(members, cell, round, w, applied);
      if done.Err? {
        return Err;
      }
      OneMoreWorker(w, cell, applied, stats.periodicFsyncNs, done.value.1);
      members, stats := done.value.0, Add(stats, done.value.1);
    }
    r := Ok((members, stats));
  }

  lemma WorkerPlace(cell: Cell, key: nat, w: nat)
    requires Usable(cell) && w < cell.workers
    ensures WorkerName(w) !in Indexed(w, WorkerName, WorkerNode(cell, key))
    ensures var all := Indexed(cell.workers, WorkerName, WorkerNode(cell, key));
            WorkerName(w) in all && all[WorkerName(w)] == Dir(WorkerMembers(cell, Data(cell, w, key)))
  {
    WorkerNamesDistinct(cell.workers);
    IndexedFree(w, cell.workers, WorkerName, WorkerNode(cell, key));
    IndexedAt(cell.workers, WorkerName, WorkerNode(cell, key), w);
  }

  /** One round of a cell: in its place it succeeds, and the cell's directory gains that round. */
  method RunCell(output: map<string, Node>, cell: Cell, round: nat, applied: bool)
    returns (r: Result<(map<string, Node>, Stats)>)
    requires Usable(cell) && 1 <= round
    ensures r.Ok? ==> r.value.1 == TimesStats(cell.workers, cell, applied, r.value.1.periodicFsyncNs)
    ensures Before(output, cell, round) ==>
              r.Ok? && r.value.0 == output[cell.id := Dir(CellMembers(cell, round))]
  {
    var cellMembers: map<string, Node> := map[];
    if round == 1 {
      if cell.id in output {
        return Err;
      }
    } else {
      if cell.id !in output || !output[cell.id].Dir? {
        return Err;
      }
      cellMembers := output[cell.id].members;
    }
    var name := RoundName(cell, round);
    CellRoundPlace(cell, round);
    var start: map<string, Node> := map[];
    if round == 1 || !cell.workload.Read? {
      if name in cellMembers {
        return Err;
      }
    } else {
      if name !in cellMembers || !cellMembers[name].Dir? {
        return Err;
      }
      start := cellMembers[name].members;
    }
    var done := RunWorkers(start, cell, round, applied);
    if done.Err? {
      return Err;
    }
    r := Ok((output[cell.id := Dir(cellMembers[name := Dir(done.value.0)])], done.value.1));
  }

  /** A cell's directory before a round: empty, or what the earlier rounds left. */
  function CellStart(cell: Cell, round: nat): map<string, Node>
    requires Usable(cell) && 1 <= round
  {
    if round == 1 then map[] else CellMembers(cell, round - 1)
  }

  lemma CellRoundPlace(cell: Cell, round: nat)
    requires Usable(cell) && 1 <= round
    ensures CellStart(cell, round)[RoundName(cell, round) := RoundNode(cell, round)] == CellMembers(cell, round)
    ensures if Reuses(cell, round)
            then Lookup(CellStart(cell, round), RoundName(cell, round)) == Some(RoundNode(cell, round))
            else RoundName(cell, round) !in CellStart(cell, round)
  {
    if !cell.workload.Read? {
      RoundNamesDistinct(round);
      IndexedFree(round - 1, round, RoundAt, RoundNodes(cell));
    }
  }

  // Progress through the rounds, for any numbered members that each round rewrites in turn.

  /** Member `key` after `rounds` rounds. */
  ghost predicate At(output: map<string, Node>, key: string, j: nat, node: (nat, nat) -> Node, rounds: nat) {
    if rounds == 0 then key !in output else key in output && output[key] == node(j, rounds)
  }

  /** Rounds that member `j` has had when round `done + 1` reaches member `i`. */
  function RoundsAt(j: nat, i: nat, done: nat): nat { if j < i then done + 1 else done }

  /** `done` rounds are complete, and the next one has reached member `i`. */
  ghost predicate Progress(output: map<string, Node>, n: nat, name: nat -> string, node: (nat, nat) -> Node,
                           done: nat, i: nat) {
    && (forall j: nat :: j < n ==> At(output, name(j), j, node, RoundsAt(j, i, done)))
    && output.Keys <= Names(n, name)
  }

  lemma ProgressStep(output: map<string, Node>, n: nat, name: nat -> string, node: (nat, nat) -> Node,
                     done: nat, i: nat)
    requires Distinct(n, name) && i < n && Progress(output, n, name, node, done, i)
    ensures Progress(output[name(i) := node(i, done + 1)], n, name, node, done, i + 1)
  {
  }

  lemma ProgressRound(output: map<string, Node>, n: nat, name: nat -> string, node: (nat, nat) -> Node, done: nat)
    requires Progress(output, n, name, node, done, n)
    ensures Progress(output, n, name, node, done + 1, 0)
  {
  }

  lemma ProgressDone(output: map<string, Node>, n: nat, name: nat -> string, node: (nat, nat) -> Node, done: nat,
                     final: nat -> Node)
    requires Distinct(n, name) && 1 <= done && Progress(output, n, name, node, done, 0)
    requires forall j: nat :: j < n ==> final(j) == node(j, done)
    ensures output == Indexed(n, name, final)
  {
    forall j: nat | j < n ensures name(j) in output && output[name(j)] == final(j) {
      assert At(output, name(j), j, node, RoundsAt(j, 0, done));
    }
    HoldsAll(output, n, name, final);
    IndexedIs(output, n, name, final);
  }

  function CellAt(cells: seq<Cell>): (nat, nat) -> Node
    requires CellsOk(cells)
  {
    (i: nat, rounds: nat) => if i < |cells| then Dir(CellMembers(cells[i], rounds)) else Other
  }

  /** One step of the run: cell `i` of the round after `done`. */
  method RunNext(output: map<string, Node>, cells: seq<Cell>, done: nat, i: nat, applied: bool)
    returns (r: Result<(map<string, Node>, Stats)>)
    requires CellsOk(cells) && i < |cells|
    requires Progress(output, |cells|, CellNames(cells), CellAt(cells), done, i)
    ensures r.Ok? && Progress(r.value.0, |cells|, CellNames(cells), CellAt(cells), done, i + 1)
    ensures r.value.1 == TimesStats(cells[i].workers, cells[i], applied, r.value.1.periodicFsyncNs)
  {
    CellNamesDistinct(cells);
    ProgressStep(output, |cells|, CellNames(cells), CellAt(cells), done, i);
    assert CellNames(cells)(i) == cells[i].id;
    assert At(output, cells[i].id, i, CellAt(cells), RoundsAt(i, i, done));
    r := RunCell(output, cells[i], done + 1, applied);
  }

  /** A result row: its round, its cell and its counters. */
  datatype Entry = Entry(round: nat, cell: Cell, stats: Stats)

  /** Row `k` of a run is cell `k mod |cells|` of round `k div |cells| + 1`, with that cell's counters. */
  predicate RowOk(row: Entry, k: nat, cells: seq<Cell>, applied: bool)
    requires CellsOk(cells) && cells != []
  {
    && row.round == k / |cells| + 1 && row.cell == cells[k % |cells|]
    && row.stats == TimesStats(row.cell.workers, row.cell, applied, row.stats.periodicFsyncNs)
  }

  /** The rows of `done` whole rounds and `i` cells of the next. */
  ghost predicate RowsUpto(rows: seq<Entry>, cells: seq<Cell>, applied: bool, done: nat, i: nat)
    requires CellsOk(cells) && cells != []
  {
    |rows| == done * |cells| + i && forall k :: 0 <= k < |rows| ==> RowOk(rows[k], k, cells, applied)
  }

  lemma AddRow(rows: seq<Entry>, cells: seq<Cell>, applied: bool, done: nat, i: nat, stats: Stats)
    requires CellsOk(cells) && i < |cells| && RowsUpto(rows, cells, applied, done, i)
    requires stats == TimesStats(cells[i].workers, cells[i], applied, stats.periodicFsyncNs)
    ensures RowsUpto(rows + [Entry(done + 1, cells[i], stats)], cells, applied, done, i + 1)
  {
    Bits.DivModUnique(|rows|, |cells|, done, i);
    assert RowOk(Entry(done + 1, cells[i], stats), |rows|, cells, applied);
  }

  lemma RowsRound(rows: seq<Entry>, cells: seq<Cell>, applied: bool, done: nat)
    requires CellsOk(cells) && cells != [] && RowsUpto(rows, cells, applied, done, |cells|)
    ensures RowsUpto(rows, cells, applied, done + 1, 0)
  {
    assert (done + 1) * |cells| == done * |cells| + |cells|;
  }

  /** The run before cell `i` of round `done + 1`. */
  ghost predicate Running(output: map<string, Node>, rows: seq<Entry>, cells: seq<Cell>, applied: bool,
                          done: nat, i: nat)
    requires CellsOk(cells) && cells != []
  {
    && Progress(output, |cells|, CellNames(cells), CellAt(cells), done, i)
    && RowsUpto(rows, cells, applied, done, i)
  }

  lemma RoundDone(output: map<string, Node>, rows: seq<Entry>, cells: seq<Cell>, applied: bool, done: nat)
    requires CellsOk(cells) && cells != [] && Running(output, rows, cells, applied, done, |cells|)
    ensures Running(output, rows, cells, applied, done + 1, 0)
  {
    ProgressRound(output, |cells|, CellNames(cells), CellAt(cells), done);
    RowsRound(rows, cells, applied, done);
  }

  lemma RunDone(output: map<string, Node>, rows: seq<Entry>, cells: seq<Cell>, applied: bool, rounds: nat)
    requires CellsOk(cells) && cells != [] && 1 <= rounds && Running(output, rows, cells, applied, rounds, 0)
    ensures output == Expected(cells, rounds)
  {
    CellNamesDistinct(cells);
    ProgressDone(output, |cells|, CellNames(cells), CellAt(cells), rounds, CellNodes(cells, rounds));
  }

  /** From a fresh directory the whole run succeeds, leaves exactly the expected tree and reports every cell
      of every round in order. */
  method Run(cells: seq<Cell>, rounds: nat, applied: bool) returns (r: Result<map<string, Node>>, rows: seq<Entry>)
    requires CellsOk(cells) && cells != [] && 1 <= rounds
    ensures r == Ok(Expected(cells, rounds))
    ensures RowsUpto(rows, cells, applied, rounds, 0)
  {
    var output: map<string, Node> := map[];
    rows := [];
    for done := 0 to rounds
      invariant Running(output, rows, cells, applied, done, 0)
    {
      for i := 0 to |cells|
        invariant Running(output, rows, cells, applied, done, i)
      {
        var next := RunNext(output, cells, done, i, applied);
        if next.Err? {
          return Err, rows;
        }
        AddRow(rows, cells, applied, done, i, next.value.1);
        output := next.value.0;
        rows := rows + [Entry(done + 1, cells[i], next.value.1)];
      }
      RoundDone(output, rows, cells, applied, done);
    }
    RunDone(output, rows, cells, applied, rounds);
    r := Ok(output);
  }

  /** The verifier accepts what any run leaves. */
  method RunThenVerify(cells: seq<Cell>, rounds: nat, applied: bool) returns (ok: bool, files: nat, bytes: nat)
    requires CellsOk(cells) && cells != [] && 1 <= rounds
    ensures ok && files == TotalFiles(cells, |cells|, rounds) && bytes == TotalBytes(cells, |cells|, rounds)
  {
    var output, rows := Run(cells, rounds, applied);
    ok, files, bytes := VerifyOutputs(Some(Dir(output.value)), cells, rounds);
  }
}
