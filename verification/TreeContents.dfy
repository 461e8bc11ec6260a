/** What is found in the output tree: whose bytes, and how many. */
module TreeContents {
  import opened Wrappers
  import opened Bytes
  import opened Chunks
  import opened Files
  import opened Plan
  import opened PhaseStats
  import opened Contents
  import opened WorkerSession
  import opened OutputTree
  import Pattern

  // ----- a worker's place in the tree -------------------------------------------------------------------------

  /** The members of the directory `name`, if there is one. */
  function Enter(members: map<string, Node>, name: string): Option<map<string, Node>> {
    if name in members && members[name].Dir? then Some(members[name].members) else None
  }

  /** The directory `cell/round/worker`. */
  function Visit(output: map<string, Node>, cell: string, round: string, worker: string): Option<map<string, Node>> {
    match Enter(output, cell)
    case None => None
    case Some(rounds) =>
      match Enter(rounds, round)
      case None => None
      case Some(workers) => Enter(workers, worker)
  }

  /** The contents of the small files, one after the other in the order of their numbers. */
  function Joined(members: map<string, Node>, n: nat): seq<Byte> {
    if n == 0 then []
    else
      var name := SmallName(n - 1);
      Joined(members, n - 1) + if name in members && members[name].File? then members[name].content else []
  }

  /** The bytes a worker's directory holds. */
  function Written(cell: Cell, members: map<string, Node>): seq<Byte> {
    if cell.workload.Smallfiles? then Joined(members, |members|)
    else if HasData(members) then members["data.bin"].content
    else []
  }

  /** The bytes found at a worker of the cell in a round, if its directory is there. */
  function FoundAt(output: map<string, Node>, cell: Cell, round: nat, worker: nat): Option<seq<Byte>> {
    match Visit(output, cell.id, RoundName(cell, round), WorkerName(worker))
    case None => None
    case Some(members) => Some(Written(cell, members))
  }

  lemma EntersCell(cells: seq<Cell>, rounds: nat, i: nat)
    requires CellsOk(cells) && i < |cells|
    ensures Enter(Expected(cells, rounds), cells[i].id) == Some(CellMembers(cells[i], rounds))
  {
    CellNamesDistinct(cells);
    IndexedAt(|cells|, CellNames(cells), CellNodes(cells, rounds), i);
  }

  lemma EntersRound(cell: Cell, rounds: nat, round: nat)
    requires Usable(cell) && 1 <= round <= rounds
    ensures Enter(CellMembers(cell, rounds), RoundName(cell, round)) == Some(RoundNode(cell, round).members)
  {
    if !cell.workload.Read? {
      RoundNamesDistinct(rounds);
      IndexedAt(rounds, RoundAt, RoundNodes(cell), round - 1);
    }
  }

  lemma EntersWorker(cell: Cell, round: nat, w: nat)
    requires Usable(cell) && w < cell.workers
    ensures Enter(RoundNode(cell, round).members, WorkerName(w))
         == Some(WorkerMembers(cell, Data(cell, w, PatternRound(cell, round))))
  {
    WorkerPlace(cell, PatternRound(cell, round), w);
  }

  lemma NextChunk(data: seq<Byte>, block: nat, i: nat)
    requires 0 < block && i < CeilDiv(|data|, block)
    ensures data[..Upto(|data|, block, i)] + Chunk(data, block, i) == data[..Upto(|data|, block, i + 1)]
  {
    ChunkBounds(|data|, block, i);
  }

  /** Small file `i` of a worker is in place. */
  lemma SmallFileAt(data: seq<Byte>, block: nat, count: nat, i: nat)
    requires i < count
    ensures var members := SmallFiles(data, block, count);
            SmallName(i) in members && members[SmallName(i)] == File(Chunk(data, block, i))
  {
    SmallNamesDistinct(count);
    IndexedAt(count, SmallName, SmallNode(data, block), i);
  }

  lemma {:induction false} JoinedIs(data: seq<Byte>, block: nat, n: nat)
    requires 0 < block && n <= CeilDiv(|data|, block)
    ensures Joined(SmallFiles(data, block, CeilDiv(|data|, block)), n) == data[..Upto(|data|, block, n)]
  {
    if n > 0 {
      JoinedIs(data, block, n - 1);
      SmallFileAt(data, block, CeilDiv(|data|, block), n - 1);
      NextChunk(data, block, n - 1);
    }
  }

  lemma WrittenIs(cell: Cell, data: seq<Byte>)
    requires 0 < cell.block && |data| == cell.bytes
    ensures Written(cell, WorkerMembers(cell, data)) == data
  {
    if cell.workload.Smallfiles? {
      SmallNamesDistinct(Count(cell));
      IndexedCount(Count(cell), SmallName, SmallNode(data, cell.block));
      JoinedIs(data, cell.block, Count(cell));
      AllChunks(|data|, cell.block);
      assert data[..|data|] == data;
    }
  }

  /** Every worker's bytes are in the tree, in its own place. */
  lemma FoundIs(cells: seq<Cell>, rounds: nat, i: nat, round: nat, w: nat)
    requires CellsOk(cells) && i < |cells| && 1 <= round <= rounds && w < cells[i].workers
    ensures FoundAt(Expected(cells, rounds), cells[i], round, w)
         == Some(Data(cells[i], w, PatternRound(cells[i], round)))
  {
    EntersCell(cells, rounds, i);
    EntersRound(cells[i], rounds, round);
    EntersWorker(cells[i], round, w);
    WrittenIs(cells[i], Data(cells[i], w, PatternRound(cells[i], round)));
  }

  /** Workers are numbered in 64 bits. */
  predicate Numbered(cell: Cell) { cell.workers < Pattern.WORD }

  /** In the tree of every plan, two workers of a round have left different words everywhere. */
  lemma WorkersLeaveDifferent(cells: seq<Cell>, rounds: nat, i: nat, round: nat, w: nat, w': nat)
    requires CellsOk(cells) && i < |cells| && Numbered(cells[i]) && 1 <= round <= rounds
    requires w < cells[i].workers && w' < cells[i].workers && w != w'
    ensures var tree := Expected(cells, rounds);
            var a, b := FoundAt(tree, cells[i], round, w), FoundAt(tree, cells[i], round, w');
            a.Some? && b.Some? && |a.value| == |b.value| == cells[i].bytes && WordsDiffer(a.value, b.value)
  {
    FoundIs(cells, rounds, i, round, w);
    FoundIs(cells, rounds, i, round, w');
    WorkersWriteDifferent(cells[i], w, w', PatternRound(cells[i], round));
  }

  /** In the tree of every plan, a worker that writes has left different words everywhere in two rounds. */
  lemma RoundsLeaveDifferent(cells: seq<Cell>, rounds: nat, i: nat, round: nat, round': nat, w: nat)
    requires CellsOk(cells) && i < |cells| && !cells[i].workload.Read? && w < cells[i].workers
    requires 1 <= round <= rounds < Pattern.WORD && 1 <= round' <= rounds && round != round'
    ensures var tree := Expected(cells, rounds);
            var a, b := FoundAt(tree, cells[i], round, w), FoundAt(tree, cells[i], round', w);
            a.Some? && b.Some? && |a.value| == |b.value| == cells[i].bytes && WordsDiffer(a.value, b.value)
  {
    FoundIs(cells, rounds, i, round, w);
    FoundIs(cells, rounds, i, round', w);
    RoundsWriteDifferent(cells[i], w, round, round');
  }

  /** No two full words that a worker has left are equal. */
  lemma WordsLeaveDifferent(cells: seq<Cell>, rounds: nat, i: nat, round: nat, w: nat, k: nat, k': nat)
    requires CellsOk(cells) && i < |cells| && 1 <= round <= rounds && w < cells[i].workers
    requires cells[i].bytes <= Pattern.WORD && k != k' && 8 * k + 8 <= cells[i].bytes && 8 * k' + 8 <= cells[i].bytes
    ensures var a := FoundAt(Expected(cells, rounds), cells[i], round, w);
            a.Some? && WordAt(a.value, k) != WordAt(a.value, k')
  {
    FoundIs(cells, rounds, i, round, w);
    var data := Data(cells[i], w, PatternRound(cells[i], round));
    Pattern.WordsDistinct(WorkerSeed(cells[i], w, PatternRound(cells[i], round)), k, k', data);
  }

  // ----- weighing a tree ------------------------------------------------------------------------------------------

  /** The sum of `f` over the members. */
  ghost function Weigh(m: map<string, Node>, f: Node -> nat): nat
    decreases |m|
  {
    if m == map[] then 0
    else
      var name :| name in m;
      f(m[name]) + Weigh(m - {name}, f)
  }

  /** It does not matter which member is taken first. */
  lemma {:induction false} WeighFirst(m: map<string, Node>, f: Node -> nat, name: string)
    requires name in m
    ensures Weigh(m, f) == f(m[name]) + Weigh(m - {name}, f)
    decreases |m|
  {
    var first :| first in m && Weigh(m, f) == f(m[first]) + Weigh(m - {first}, f);
    if first != name {
      WeighFirst(m - {first}, f, name);
      WeighFirst(m - {name}, f, first);
      assert m - {first} - {name} == m - {name} - {first};
    }
  }

  lemma WeighAdded(m: map<string, Node>, f: Node -> nat, name: string, node: Node)
    requires name !in m
    ensures Weigh(m[name := node], f) == Weigh(m, f) + f(node)
  {
    WeighFirst(m[name := node], f, name);
    assert m[name := node] - {name} == m;
  }

  function SumTo(n: nat, g: nat -> nat): nat { if n == 0 then 0 else SumTo(n - 1, g) + g(n - 1) }

  lemma {:induction false} WeighIndexed(n: nat, name: nat -> string, node: nat -> Node, f: Node -> nat)
    requires Distinct(n, name)
    ensures Weigh(Indexed(n, name, node), f) == SumTo(n, (i: nat) => f(node(i)))
  {
    if n > 0 {
      WeighIndexed(n - 1, name, node, f);
      IndexedFree(n - 1, n, name, node);
      WeighAdded(Indexed(n - 1, name, node), f, name(n - 1), node(n - 1));
    }
  }

  lemma {:induction false} SumToSame(n: nat, g: nat -> nat, x: nat)
    requires forall i: nat :: i < n ==> g(i) == x
    ensures SumTo(n, g) == Times(n, x)
  {
    if n > 0 {
      SumToSame(n - 1, g, x);
    }
  }

  /** The sum of `leaf` over all files at most `depth` directories down. */
  ghost function Measure(node: Node, depth: nat, leaf: seq<Byte> -> nat): nat
    decreases depth, 0
  {
    match node
    case File(content) => leaf(content)
    case Dir(members) => if depth == 0 then 0 else Weigh(members, Level(depth - 1, leaf))
    case Other => 0
  }

  ghost function Level(depth: nat, leaf: seq<Byte> -> nat): Node -> nat
    decreases depth, 1
  {
    (node: Node) => Measure(node, depth, leaf)
  }

  function OneFile(): seq<Byte> -> nat { (content: seq<Byte>) => 1 }

  function Length(): seq<Byte> -> nat { (content: seq<Byte>) => |content| }

  // ----- what the verifier counts -----------------------------------------------------------------------------------

  lemma ChunkLength(data: seq<Byte>, block: nat, i: nat)
    requires 0 < block && i < CeilDiv(|data|, block)
    ensures |Chunk(data, block, i)| == Upto(|data|, block, i + 1) - Upto(|data|, block, i)
  {
    ChunkBounds(|data|, block, i);
  }

  function ChunkSizes(data: seq<Byte>, block: nat): nat -> nat {
    (i: nat) => |Chunk(data, block, i)|
  }

  lemma UptoStarts(length: nat, block: nat)
    ensures Upto(length, block, 0) == 0
  {
  }

  lemma {:induction false} ChunkLengths(data: seq<Byte>, block: nat, n: nat)
    requires 0 < block && n <= CeilDiv(|data|, block)
    ensures SumTo(n, ChunkSizes(data, block)) == Upto(|data|, block, n)
  {
    UptoStarts(|data|, block);
    if n > 0 {
      ChunkLengths(data, block, n - 1);
      ChunkLength(data, block, n - 1);
    }
  }

  lemma {:induction false} SumToEqual(n: nat, g: nat -> nat, h: nat -> nat)
    requires forall i: nat :: i < n ==> g(i) == h(i)
    ensures SumTo(n, g) == SumTo(n, h)
  {
    if n > 0 {
      SumToEqual(n - 1, g, h);
    }
  }

  lemma WeighOne(name: string, node: Node, f: Node -> nat)
    ensures Weigh(map[name := node], f) == f(node)
  {
    WeighAdded(map[], f, name, node);
    assert map[][name := node] == map[name := node];
  }

  /** The files and bytes of a worker's directory. */
  lemma WorkerMeasures(cell: Cell, data: seq<Byte>)
    requires Usable(cell) && |data| == cell.bytes
    ensures Measure(Dir(WorkerMembers(cell, data)), 1, OneFile()) == FilesPerWorker(cell)
    ensures Measure(Dir(WorkerMembers(cell, data)), 1, Length()) == cell.bytes
  {
    if cell.workload.Smallfiles? {
      var n, node := Count(cell), SmallNode(data, cell.block);
      SmallNamesDistinct(n);
      WeighIndexed(n, SmallName, node, Level(0, OneFile()));
      SumToSame(n, (i: nat) => Level(0, OneFile())(node(i)), 1);
      TimesProduct(n, 1);
      WeighIndexed(n, SmallName, node, Level(0, Length()));
      SumToEqual(n, (i: nat) => Level(0, Length())(node(i)), ChunkSizes(data, cell.block));
      ChunkLengths(data, cell.block, n);
      AllChunks(|data|, cell.block);
    } else {
      WeighOne("data.bin", File(data), Level(0, OneFile()));
      WeighOne("data.bin", File(data), Level(0, Length()));
    }
  }

  /** Members of equal measure. */
  lemma IndexedMeasures(n: nat, name: nat -> string, node: nat -> Node, depth: nat, leaf: seq<Byte> -> nat, x: nat)
    requires Distinct(n, name) && forall i: nat :: i < n ==> Measure(node(i), depth, leaf) == x
    ensures Measure(Dir(Indexed(n, name, node)), depth + 1, leaf) == Times(n, x)
  {
    WeighIndexed(n, name, node, Level(depth, leaf));
    SumToSame(n, (i: nat) => Level(depth, leaf)(node(i)), x);
  }

  lemma RoundMeasures(cell: Cell, round: nat)
    requires Usable(cell)
    ensures Measure(RoundNode(cell, round), 2, OneFile()) == RoundFiles(cell)
    ensures Measure(RoundNode(cell, round), 2, Length()) == RoundBytes(cell)
  {
    var key := PatternRound(cell, round);
    WorkerNamesDistinct(cell.workers);
    forall w: nat | w < cell.workers
      ensures Measure(WorkerNode(cell, key)(w), 1, OneFile()) == FilesPerWorker(cell)
      ensures Measure(WorkerNode(cell, key)(w), 1, Length()) == cell.bytes
    {
      WorkerMeasures(cell, Data(cell, w, key));
    }
    IndexedMeasures(cell.workers, WorkerName, WorkerNode(cell, key), 1, OneFile(), FilesPerWorker(cell));
    IndexedMeasures(cell.workers, WorkerName, WorkerNode(cell, key), 1, Length(), cell.bytes);
  }

  /** How often the verifier reads a cell's directory: a read set in every round. */
  function Readings(cell: Cell, rounds: nat): nat { if cell.workload.Read? then rounds else 1 }

  lemma CellMeasures(cell: Cell, rounds: nat)
    requires Usable(cell)
    ensures var node := Dir(CellMembers(cell, rounds));
            && Times(Readings(cell, rounds), Measure(node, 3, OneFile())) == Times(rounds, RoundFiles(cell))
            && Times(Readings(cell, rounds), Measure(node, 3, Length())) == Times(rounds, RoundBytes(cell))
  {
    if cell.workload.Read? {
      RoundMeasures(cell, 1);
      WeighOne("readset", RoundNode(cell, 1), Level(2, OneFile()));
      WeighOne("readset", RoundNode(cell, 1), Level(2, Length()));
    } else {
      RoundNamesDistinct(rounds);
      forall i: nat | i < rounds
        ensures Measure(RoundNodes(cell)(i), 2, OneFile()) == RoundFiles(cell)
        ensures Measure(RoundNodes(cell)(i), 2, Length()) == RoundBytes(cell)
      {
        RoundMeasures(cell, i + 1);
      }
      IndexedMeasures(rounds, RoundAt, RoundNodes(cell), 2, OneFile(), RoundFiles(cell));
      IndexedMeasures(rounds, RoundAt, RoundNodes(cell), 2, Length(), RoundBytes(cell));
      TimesOnce(Measure(Dir(CellMembers(cell, rounds)), 3, OneFile()));
      TimesOnce(Measure(Dir(CellMembers(cell, rounds)), 3, Length()));
    }
  }

  lemma TimesOnce(x: nat)
    ensures Times(1, x) == x
  {
    assert Times(0, x) == 0;
  }

  /** What is found in the first `n` cells of a tree, each cell as often as the verifier reads it. */
  ghost function Inspected(tree: map<string, Node>, cells: seq<Cell>, rounds: nat, n: nat, leaf: seq<Byte> -> nat): nat
    requires n <= |cells|
  {
    if n == 0 then 0
    else
      var cell := cells[n - 1];
      Inspected(tree, cells, rounds, n - 1, leaf)
      + if cell.id in tree then Times(Readings(cell, rounds), Measure(tree[cell.id], 3, leaf)) else 0
  }

  /** The totals that the verifier reports are those of the files in the tree. */
  lemma {:induction false} TotalsAreFound(cells: seq<Cell>, rounds: nat, n: nat)
    requires CellsOk(cells) && n <= |cells|
    ensures Inspected(Expected(cells, rounds), cells, rounds, n, OneFile()) == TotalFiles(cells, n, rounds)
    ensures Inspected(Expected(cells, rounds), cells, rounds, n, Length()) == TotalBytes(cells, n, rounds)
  {
    if n > 0 {
      TotalsAreFound(cells, rounds, n - 1);
      EntersCell(cells, rounds, n - 1);
      CellMeasures(cells[n - 1], rounds);
    }
  }

  // ----- what the workers count -------------------------------------------------------------------------------------

  /** The counters of a worker are those of the directory it leaves: every byte written or read once and verified once,
      every small file created, synced and closed once, and as many operations as blocks cover the data. */
  lemma CountersMatchDirectory(cell: Cell, data: seq<Byte>, applied: bool, ns: nat)
    requires Usable(cell) && |data| == cell.bytes
    ensures var s, node := WorkerStats(cell, applied, ns), Dir(WorkerMembers(cell, data));
            var files, bytes, ops := Measure(node, 1, OneFile()), Measure(node, 1, Length()), s.writeOps + s.readOps;
            && s.filesVerified == files && s.bytesVerified == bytes && s.finalCloses == files
            && (ops - 1) * cell.block < bytes <= ops * cell.block
            && (cell.workload.Read? ==> s.bytesRead == bytes && s.bytesWritten == s.writeOps == s.finalFsyncs == 0)
            && (!cell.workload.Read? ==> s.bytesWritten == bytes && s.bytesRead == s.readOps == 0 && s.finalFsyncs == files)
            && s.filesCreated == s.acceptedCloses == (if cell.workload.Smallfiles? then files else 0)
            && s.appliedBarriers == (if applied && cell.workload.Stream? then files else 0)
  {
    WorkerMeasures(cell, data);
    CeilBounds(cell.bytes, cell.block);
  }

  /** A session's own verification passes only when its directory holds exactly its data; among small files there is
      then nothing else, and a reader has read it all. */
  lemma VerifiedMeansWritten(cell: Cell, data: seq<Byte>, v: View)
    requires Usable(cell) && |data| == cell.bytes && Passes(cell, data, v)
    ensures Written(cell, v.members) == data
    ensures cell.workload.Smallfiles? ==> |v.members| == FilesPerWorker(cell)
    ensures cell.workload.Read? ==> v.observed == data
  {
    if cell.workload.Smallfiles? {
      WrittenIs(cell, data);
      SmallNamesDistinct(Count(cell));
      IndexedCount(Count(cell), SmallName, SmallNode(data, cell.block));
    }
  }

  /** A worker that writes syncs once for every `syncEvery` writes, and not at all if that is zero. */
  lemma PeriodicSyncs(cell: Cell, applied: bool, ns: nat)
    requires Usable(cell) && !cell.workload.Read?
    ensures var s := WorkerStats(cell, applied, ns);
            if cell.syncEvery == 0 then s.periodicFsyncs == 0
            else s.periodicFsyncs * cell.syncEvery <= s.writeOps < (s.periodicFsyncs + 1) * cell.syncEvery
  {
    if cell.syncEvery != 0 {
      QuotientBounds(Count(cell), cell.syncEvery);
    }
  }

  lemma QuotientBounds(a: nat, b: nat)
    requires 0 < b
    ensures (a / b) * b <= a < (a / b + 1) * b
  {
    assert a == b * (a / b) + a % b;
  }
}
