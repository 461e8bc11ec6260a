/** One worker of a cell: its directory, its phases and its counters. Operating-system calls succeed
    here; the failures modelled are the ones the payload itself checks for. */
module WorkerSession {
  import opened Wrappers
  import opened Bits
  import opened Bytes
  import opened Chunks
  import opened Files
  import opened Plan
  import opened PhaseStats
  import PhaseTeam

  const PREPARE_BLOCK: nat := 1024 * 1024

  /** Chunks a worker handles. */
  function Count(cell: Cell): nat
    requires 0 < cell.block
  {
    CeilDiv(cell.bytes, cell.block)
  }

  /** The counters after `i` of the measured chunks; `ns` is the time spent in periodic fsyncs. */
  function AcceptedStats(cell: Cell, i: nat, ns: nat): Stats
    requires 0 < cell.block
  {
    var bytes := Upto(cell.bytes, cell.block, i);
    if cell.workload.Read? then ZeroStats.(readOps := i, bytesRead := bytes)
    else
      var files := if cell.workload.Smallfiles? then i else 0;
      ZeroStats.(writeOps := i, bytesWritten := bytes, filesCreated := files, acceptedCloses := files,
        periodicFsyncs := if cell.syncEvery == 0 then 0 else i / cell.syncEvery, periodicFsyncNs := ns)
  }

  function AppliedStats(cell: Cell): Stats {
    ZeroStats.(appliedBarriers := if cell.workload.Stream? then 1 else 0)
  }

  function SyncStats(cell: Cell): Stats
    requires 0 < cell.block
  {
    match cell.workload
    case Read => ZeroStats
    case Stream => ZeroStats.(finalFsyncs := 1)
    case Smallfiles => ZeroStats.(finalFsyncs := Count(cell), finalCloses := Count(cell))
  }

  function CloseStats(cell: Cell): Stats {
    ZeroStats.(finalCloses := if cell.workload.Smallfiles? then 0 else 1)
  }

  function VerifyStats(cell: Cell): Stats
    requires 0 < cell.block
  {
    ZeroStats.(filesVerified := if cell.workload.Smallfiles? then Count(cell) else 1, bytesVerified := cell.bytes)
  }

  /** What a worker's directory holds once its data is written. */
  function WorkerMembers(cell: Cell, data: seq<Byte>): map<string, Node>
    requires 0 < cell.block
  {
    if cell.workload.Smallfiles? then SmallFiles(data, cell.block, Count(cell))
    else map["data.bin" := File(data)]
  }

  predicate HasData(members: map<string, Node>) {
    "data.bin" in members && members["data.bin"].File?
  }

  /** The session after `i` of the measured chunks. */
  ghost predicate AcceptedUpto(cell: Cell, data: seq<Byte>, start: map<string, Node>, i: nat,
                               members: map<string, Node>, observed: seq<Byte>)
    requires 0 < cell.block
  {
    var done := Upto(|data|, cell.block, i);
    match cell.workload
    case Stream => members == start["data.bin" := File(data[..done])]
    case Smallfiles => members == SmallFiles(data, cell.block, i)
    case Read =>
      && members == start && HasData(start) && |observed| == |data|
      && done <= |start["data.bin"].content| && observed[..done] == start["data.bin"].content[..done]
  }

  lemma UptoStart(cell: Cell, data: seq<Byte>, start: map<string, Node>, observed: seq<Byte>)
    requires 0 < cell.block
    requires cell.workload.Stream? ==> HasData(start) && start["data.bin"].content == []
    requires cell.workload.Smallfiles? ==> start == map[]
    requires cell.workload.Read? ==> HasData(start) && |observed| == |data|
    ensures AcceptedUpto(cell, data, start, 0, start, observed)
  {
  }

  /** One periodic fsync for every `k` chunks. */
  lemma FsyncStep(i: nat, k: nat)
    requires 0 < k
    ensures (i + 1) / k == i / k + (if (i + 1) % k == 0 then 1 else 0)
  {
    var q, r := i / k, i % k;
    assert i == q * k + r;
    if r + 1 < k {
      DivModUnique(i + 1, k, q, r + 1);
    } else {
      assert (q + 1) * k == q * k + k;
      DivModUnique(i + 1, k, q + 1, 0);
    }
  }

  /** A pread comes up short exactly when the file ends before the chunk does. */
  lemma ShortRead(content: seq<Byte>, data: seq<Byte>, block: nat, i: nat)
    requires 0 < block && i < CeilDiv(|data|, block)
    requires |ReadAt(content, |Chunk(data, block, i)|, i * block)| != |Chunk(data, block, i)|
    ensures |content| < |data|
  {
    ChunkBounds(|data|, block, i);
  }

  lemma ReadStep(cell: Cell, data: seq<Byte>, start: map<string, Node>, i: nat, observed: seq<Byte>)
    requires 0 < cell.block && i < CeilDiv(|data|, cell.block) && cell.workload.Read?
    requires AcceptedUpto(cell, data, start, i, start, observed)
    requires |ReadAt(start["data.bin"].content, |Chunk(data, cell.block, i)|, i * cell.block)|
          == |Chunk(data, cell.block, i)|
    ensures var offset, count := i * cell.block, |Chunk(data, cell.block, i)|;
            && offset + count <= |observed|
            && AcceptedUpto(cell, data, start, i + 1, start,
                 observed[..offset] + ReadAt(start["data.bin"].content, count, offset) + observed[offset + count..])
  {
    ChunkBounds(|data|, cell.block, i);
    var content := start["data.bin"].content;
    var offset, count := i * cell.block, |Chunk(data, cell.block, i)|;
    assert offset + count == Upto(|data|, cell.block, i + 1);
    var got := ReadAt(content, count, offset);
    var next := observed[..offset] + got + observed[offset + count..];
    assert content[..offset + count] == content[..offset] + got;
    assert next[..offset + count] == observed[..offset] + got;
  }

  lemma StreamStep(data: seq<Byte>, block: nat, i: nat)
    requires 0 < block && i < CeilDiv(|data|, block)
    ensures WriteAt(data[..Upto(|data|, block, i)], Chunk(data, block, i), i * block)
         == data[..Upto(|data|, block, i + 1)]
  {
    ChunkBounds(|data|, block, i);
  }

  method CountRead(cell: Cell, ghost data: seq<Byte>, i: nat, stats: Stats, got: nat) returns (next: Stats)
    requires 0 < cell.block && |data| == cell.bytes && i < Count(cell) && cell.workload.Read?
    requires stats == AcceptedStats(cell, i, stats.periodicFsyncNs) && got == |Chunk(data, cell.block, i)|
    ensures next == AcceptedStats(cell, i + 1, next.periodicFsyncNs)
  {
    ChunkBounds(|data|, cell.block, i);
    next := stats.(readOps := stats.readOps + 1, bytesRead := stats.bytesRead + got);
  }

  /** Counts one write, its periodic fsync if one is due, and the close of a small file. */
  method CountWrite(cell: Cell, ghost data: seq<Byte>, i: nat, stats: Stats, written: nat) returns (next: Stats)
    requires 0 < cell.block && |data| == cell.bytes && i < Count(cell) && !cell.workload.Read?
    requires stats == AcceptedStats(cell, i, stats.periodicFsyncNs) && written == |Chunk(data, cell.block, i)|
    ensures next == AcceptedStats(cell, i + 1, next.periodicFsyncNs)
  {
    ChunkBounds(|data|, cell.block, i);
    next := stats.(writeOps := stats.writeOps + 1, bytesWritten := stats.bytesWritten + written);
    if cell.syncEvery != 0 {
      FsyncStep(i, cell.syncEvery);
      if (i + 1) % cell.syncEvery == 0 {
        var elapsed: nat :| 0 <= elapsed;
        next := next.(periodicFsyncNs := next.periodicFsyncNs + elapsed, periodicFsyncs := next.periodicFsyncs + 1);
      }
    }
    if cell.workload.Smallfiles? {
      next := next.(filesCreated := next.filesCreated + 1, acceptedCloses := next.acceptedCloses + 1);
    }
  }

  // ----- one phase of a session, as a relation ------------------------------------------------------------

  /** What a session holds: the members of its directory, what it has read, and whether its file is open. */
  datatype View = View(members: map<string, Node>, observed: seq<Byte>, open: bool)

  predicate ViewOk(cell: Cell, data: seq<Byte>, v: View) {
    && 0 < cell.block && |data| == cell.bytes && v.open == !cell.workload.Smallfiles?
    && (v.open ==> HasData(v.members)) && (cell.workload.Read? ==> |v.observed| == |data|)
  }

  /** A session as it is prepared, before anything is measured. */
  predicate Fresh(cell: Cell, data: seq<Byte>, v: View) {
    && ViewOk(cell, data, v)
    && (cell.workload.Stream? ==> v.members == map["data.bin" := File([])])
    && (cell.workload.Smallfiles? ==> v.members == map[])
  }

  /** When a phase may be asked for. */
  predicate Ready(cell: Cell, data: seq<Byte>, v: View, phase: PhaseTeam.Phase) {
    && 0 < cell.block && |data| == cell.bytes
    && match phase
       case Accepted => Fresh(cell, data, v)
       case Applied => ViewOk(cell, data, v)
       case Sync => ViewOk(cell, data, v)
       case Close => true
       case Verify => true
  }

  predicate AllWritten(cell: Cell, members: map<string, Node>)
    requires 0 < cell.block
  {
    cell.workload.Smallfiles? ==> forall i: nat :: i < Count(cell) ==> SmallName(i) in members
  }

  /** What the session's own verification accepts: the exact directory of small files, or a data file with the right
      bytes, whatever lies beside it. */
  predicate Passes(cell: Cell, data: seq<Byte>, v: View)
    requires 0 < cell.block
  {
    if cell.workload.Smallfiles? then v.members == WorkerMembers(cell, data)
    else
      && (cell.workload.Read? ==> v.observed == data)
      && "data.bin" in v.members && v.members["data.bin"] == File(data)
  }

  /** The measured phase turns `v` into `v'` with these counters. */
  predicate Measured(cell: Cell, data: seq<Byte>, v: View, stats: Stats, v': View)
    requires Fresh(cell, data, v)
  {
    && stats == AcceptedStats(cell, Count(cell), stats.periodicFsyncNs) && v'.open == v.open
    && (!cell.workload.Read? ==> v'.members == WorkerMembers(cell, data) && v'.observed == v.observed)
    && (cell.workload.Read? ==>
          && v'.members == v.members && |data| <= |v.members["data.bin"].content|
          && v'.observed == v.members["data.bin"].content[..|data|])
  }

  lemma AcceptedAll(cell: Cell, data: seq<Byte>, v: View, v': View, stats: Stats)
    requires Fresh(cell, data, v) && AcceptedUpto(cell, data, v.members, Count(cell), v'.members, v'.observed)
    requires stats == AcceptedStats(cell, Count(cell), stats.periodicFsyncNs) && v'.open == v.open
    requires !cell.workload.Read? ==> v'.observed == v.observed
    ensures Measured(cell, data, v, stats, v')
  {
    AllChunks(|data|, cell.block);
    assert data[..|data|] == data;
    assert cell.workload.Read? ==> v'.observed[..|data|] == v'.observed;
  }

  /** The outcome of a phase. */
  predicate Executes(cell: Cell, data: seq<Byte>, v: View, phase: PhaseTeam.Phase, r: Result<Stats>, v': View)
    requires Ready(cell, data, v, phase)
  {
    match phase
    case Accepted =>
      && (r.Ok? <==> (cell.workload.Read? ==> |data| <= |v.members["data.bin"].content|))
      && (r.Ok? ==> Measured(cell, data, v, r.value, v'))
    case Applied => r == Ok(AppliedStats(cell)) && v' == v
    case Sync => r == (if AllWritten(cell, v.members) then Ok(SyncStats(cell)) else Err) && v' == v
    case Close => r == Ok(ZeroStats.(finalCloses := if v.open then 1 else 0)) && v' == v.(open := false)
    case Verify => r == (if Passes(cell, data, v) then Ok(VerifyStats(cell)) else Err) && v' == v
  }

  /** A session does not notice another member beside its data file, although the directory is then not the one the
      whole output must have. */
  lemma NeighbourPasses(cell: Cell, data: seq<Byte>, name: string, node: Node)
    requires 0 < cell.block && |data| == cell.bytes && !cell.workload.Smallfiles? && name != "data.bin"
    ensures var members := WorkerMembers(cell, data)[name := node];
            Passes(cell, data, View(members, data, true)) && members != WorkerMembers(cell, data)
  {
    assert name in WorkerMembers(cell, data)[name := node] && name !in WorkerMembers(cell, data);
  }

  class Session {
    const cell: Cell
    const data: seq<Byte>
    var members: map<string, Node>
    var observed: seq<Byte>
    var open: bool

    ghost function Now(): View
      reads this
    {
      View(members, observed, open)
    }

    ghost predicate Valid()
      reads this
    {
      ViewOk(cell, data, Now())
    }

    /** A session as `Prepare` leaves it. */
    ghost predicate Prepared()
      reads this
    {
      Fresh(cell, data, Now())
    }

    constructor (cell: Cell, data: seq<Byte>, members: map<string, Node>)
      requires 0 < cell.block && |data| == cell.bytes
      requires !cell.workload.Smallfiles? ==> HasData(members)
      ensures this.cell == cell && this.data == data && this.members == members && Valid()
      ensures observed == if cell.workload.Read? then Zeros(cell.bytes) else []
    {
      this.cell := cell;
      this.data := data;
      this.members := members;
      this.observed := if cell.workload.Read? then Zeros(cell.bytes) else [];
      this.open := !cell.workload.Smallfiles?;
    }

    // ----- the phases ---------------------------------------------------------------------------------

    /** Reads chunk `i`; a short read is an error. */
    method ReadChunk(i: nat, ghost start: map<string, Node>) returns (r: Result<nat>)
      requires Valid() && cell.workload.Read? && i < Count(cell)
      requires AcceptedUpto(cell, data, start, i, members, observed)
      modifies this`observed
      ensures r.Err? ==> |members["data.bin"].content| < |data|
      ensures r.Ok? ==> r.value == |Chunk(data, cell.block, i)| && Valid()
      ensures r.Ok? ==> AcceptedUpto(cell, data, start, i + 1, members, observed)
    {
      var count, offset := |Chunk(data, cell.block, i)|, i * cell.block;
      var got := ReadAt(members["data.bin"].content, count, offset);
      if |got| != count {
        ShortRead(members["data.bin"].content, data, cell.block, i);
        return Err;
      }
      ReadStep(cell, data, start, i, observed);
      observed := observed[..offset] + got + observed[offset + count..];
      r := Ok(count);
    }

    /** Writes chunk `i` to its own new file or at its place in the data file. */
    method WriteChunk(i: nat, ghost start: map<string, Node>) returns (r: Result<nat>)
      requires Valid() && !cell.workload.Read? && i < Count(cell)
      requires AcceptedUpto(cell, data, start, i, members, observed)
      modifies this`members
      ensures r.Ok? && r.value == |Chunk(data, cell.block, i)| && Valid()
      ensures AcceptedUpto(cell, data, start, i + 1, members, observed)
    {
      var bytes := Chunk(data, cell.block, i);
      ChunkBounds(|data|, cell.block, i);
      if cell.workload.Smallfiles? {
        SmallNamesDistinct(i + 1);
        IndexedFree(i, i + 1, SmallName, SmallNode(data, cell.block));
        if SmallName(i) in members {
          return Err;
        }
        assert WriteAt([], bytes, 0) == bytes;
        members := members[SmallName(i) := File(WriteAt([], bytes, 0))];
      } else {
        StreamStep(data, cell.block, i);
        members := members["data.bin" := File(WriteAt(members["data.bin"].content, bytes, i * cell.block))];
      }
      r := Ok(|bytes|);
    }

    /** The measured phase fails exactly when a read comes up short. */
    method Accepted() returns (r: Result<Stats>)
      requires Prepared()
      modifies this`members, this`observed
      ensures r.Ok? <==> (cell.workload.Read? ==> |data| <= |old(members)["data.bin"].content|)
      ensures r.Ok? ==> Measured(cell, data, old(Now()), r.value, Now())
    {
      var stats := ZeroStats;
      ghost var start := members;
      UptoStart(cell, data, start, observed);
      for i := 0 to Count(cell)
        invariant Valid() && AcceptedUpto(cell, data, start, i, members, observed)
        invariant !cell.workload.Read? ==> observed == old(observed)
        invariant stats == AcceptedStats(cell, i, stats.periodicFsyncNs)
      {
        if cell.workload.Read? {
          var got := ReadChunk(i, start);
          if got.Err? {
            return Err;
          }
          stats := CountRead(cell, data, i, stats, got.value);
        } else {
          var written := WriteChunk(i, start);
          if written.Err? {
            return Err;
          }
          stats := CountWrite(cell, data, i, stats, written.value);
        }
      }
      AcceptedAll(cell, data, old(Now()), Now(), stats);
      r := Ok(stats);
    }

    /** The dup and close that flush what was written before. */
    method Applied() returns (stats: Stats)
      requires Valid()
      ensures stats == AppliedStats(cell)
    {
      stats := ZeroStats;
      if cell.workload.Stream? {
        stats := stats.(appliedBarriers := 1);
      }
    }

    /** Every file written is synced: the open one, or each small file reopened. */
    method Sync() returns (r: Result<Stats>)
      requires Valid()
      ensures r == if AllWritten(cell, members) then Ok(SyncStats(cell)) else Err
    {
      var stats := ZeroStats;
      match cell.workload {
        case Read =>
        case Stream => stats := stats.(finalFsyncs := 1);
        case Smallfiles =>
          for i := 0 to CeilDiv(|data|, cell.block)
            invariant stats == ZeroStats.(finalFsyncs := i, finalCloses := i)
            invariant forall j: nat :: j < i ==> SmallName(j) in members
          {
            if SmallName(i) !in members {
              return Err;
            }
            stats := stats.(finalFsyncs := stats.finalFsyncs + 1);
            stats := stats.(finalCloses := stats.finalCloses + 1);
          }
      }
      r := Ok(stats);
    }

    method Close() returns (stats: Stats)
      modifies this`open
      ensures stats == ZeroStats.(finalCloses := if old(open) then 1 else 0) && !open
    {
      stats := ZeroStats;
      if open {
        open := false;
        stats := stats.(finalCloses := 1);
      }
    }

    /** Small files are accepted exactly when the directory holds them and nothing else; the member count
        alone rules out anything else. A single data file is compared, and what was read with it. */
    method Verify() returns (r: Result<Stats>)
      requires 0 < cell.block && |data| == cell.bytes
      ensures r == if Passes(cell, data, Now()) then Ok(VerifyStats(cell)) else Err
    {
      var stats := ZeroStats;
      if cell.workload.Smallfiles? {
        SmallNamesDistinct(Count(cell));
        for i := 0 to Count(cell)
          invariant stats == ZeroStats.(filesVerified := i)
          invariant Holds(members, i, SmallName, SmallNode(data, cell.block))
        {
          IndexedAt(Count(cell), SmallName, SmallNode(data, cell.block), i);
          var ok := VerifyFile(members, SmallName(i), Chunk(data, cell.block, i));
          if !ok {
            return Err;
          }
          stats := stats.(filesVerified := stats.filesVerified + 1);
        }
        IndexedDecided(members, Count(cell), SmallName, SmallNode(data, cell.block));
        if |members| != CeilDiv(|data|, cell.block) {
          return Err;
        }
      } else {
        if cell.workload.Read? && observed != data {
          return Err;
        }
        var ok := VerifyFile(members, "data.bin", data);
        if !ok {
          return Err;
        }
        stats := stats.(filesVerified := 1);
      }
      r := Ok(stats.(bytesVerified := |data|));
    }

    /** The phase a worker is told to execute. */
    method Execute(phase: PhaseTeam.Phase) returns (r: Result<Stats>)
      requires Ready(cell, data, Now(), phase)
      modifies this
      ensures Executes(cell, data, old(Now()), phase, r, Now())
    {
      match phase {
        case Accepted => r := Accepted();
        case Applied =>
          var stats := Applied();
          r := Ok(stats);
        case Sync => r := Sync();
        case Close =>
          var stats := Close();
          r := Ok(stats);
        case Verify => r := Verify();
      }
    }
  }

  // ----- a worker from preparation to verification -------------------------------------------------------

  /** What a worker finds in place of its directory: nothing, or the read set of an earlier round. */
  predicate Reuses(cell: Cell, round: nat) { cell.workload.Read? && round != 1 }

  method WriteReadSet(data: seq<Byte>) returns (content: seq<Byte>)
    ensures content == data
  {
    content := [];
    for i := 0 to CeilDiv(|data|, PREPARE_BLOCK)
      invariant content == data[..Upto(|data|, PREPARE_BLOCK, i)]
    {
      StreamStep(data, PREPARE_BLOCK, i);
      content := WriteAt(content, Chunk(data, PREPARE_BLOCK, i), i * PREPARE_BLOCK);
    }
    AllChunks(|data|, PREPARE_BLOCK);
  }

  method Prepare(cell: Cell, data: seq<Byte>, round: nat, existing: Option<Node>) returns (r: Result<Session>)
    requires 0 < cell.block && |data| == cell.bytes
    ensures r.Ok? <==>
              if Reuses(cell, round) then existing.Some? && existing.value.Dir? && HasData(existing.value.members)
              else existing.None?
    ensures r.Ok? ==> fresh(r.value) && r.value.cell == cell && r.value.data == data && r.value.Prepared()
    ensures r.Ok? ==> r.value.observed == if cell.workload.Read? then Zeros(cell.bytes) else []
    ensures r.Ok? && cell.workload.Read? ==>
              r.value.members == if round == 1 then map["data.bin" := File(data)] else existing.value.members
  {
    var members: map<string, Node> := map[];
    match cell.workload {
      case Smallfiles =>
        if existing.Some? {
          return Err;
        }
      case Stream =>
        if existing.Some? {
          return Err;
        }
        members := map["data.bin" := File([])];
      case Read =>
        if round == 1 {
          if existing.Some? {
            return Err;
          }
          var content := WriteReadSet(data);
          members := map["data.bin" := File(content)];
        } else {
          if existing.None? || !existing.value.Dir? || !HasData(existing.value.members) {
            return Err;
          }
          members := existing.value.members;
        }
    }
    var session := new Session(cell, data, members);
    r := Ok(session);
  }

  /** A worker's counters for a whole cell, in closed form. */
  function WorkerStats(cell: Cell, applied: bool, ns: nat): Stats
    requires 0 < cell.block
  {
    var chunks := Count(cell);
    var reading, small := cell.workload.Read?, cell.workload.Smallfiles?;
    Stats(writeOps := if reading then 0 else chunks,
          readOps := if reading then chunks else 0,
          bytesWritten := if reading then 0 else cell.bytes,
          bytesRead := if reading then cell.bytes else 0,
          filesCreated := if small then chunks else 0,
          acceptedCloses := if small then chunks else 0,
          periodicFsyncs := if reading || cell.syncEvery == 0 then 0 else chunks / cell.syncEvery,
          periodicFsyncNs := if reading then 0 else ns,
          appliedBarriers := if applied && cell.workload.Stream? then 1 else 0,
          finalFsyncs := if reading then 0 else if small then chunks else 1,
          finalCloses := if small then chunks else 1,
          filesVerified := if small then chunks else 1,
          bytesVerified := cell.bytes)
  }

  lemma PhasesAddUp(cell: Cell, applied: bool, ns: nat)
    requires 0 < cell.block
    ensures
      var measured := AcceptedStats(cell, Count(cell), ns);
      var flushed := if applied then Add(measured, AppliedStats(cell)) else measured;
      Add(Add(Add(flushed, SyncStats(cell)), CloseStats(cell)), VerifyStats(cell)) == WorkerStats(cell, applied, ns)
  {
    AllChunks(cell.bytes, cell.block);
  }

  /** A worker succeeds exactly when it starts from nothing, or for a later read round from the same data;
      its directory then holds exactly its data. `applied` is whether the payload has the Applied phase. */
  method RunWorker(cell: Cell, data: seq<Byte>, round: nat, existing: Option<Node>, applied: bool)
    returns (r: Result<(map<string, Node>, Stats)>)
    requires 0 < cell.block && |data| == cell.bytes
    ensures r.Ok? <==>
              if Reuses(cell, round)
              then existing.Some? && existing.value.Dir? && "data.bin" in existing.value.members
                   && existing.value.members["data.bin"] == File(data)
              else existing.None?
    ensures r.Ok? ==> r.value.0 == if Reuses(cell, round) then existing.value.members else WorkerMembers(cell, data)
    ensures r.Ok? ==> r.value.1 == WorkerStats(cell, applied, r.value.1.periodicFsyncNs)
  {
    var prepared := Prepare(cell, data, round, existing);
    if prepared.Err? {
      return Err;
    }
    var session := prepared.value;
    ghost var content := if cell.workload.Read? then session.members["data.bin"].content else [];
    var measured := session.Accepted();
    if measured.Err? {
      return Err;
    }
    assert cell.workload.Read? ==> |data| <= |content| && session.observed == content[..|data|];
    assert content == data ==> content[..|data|] == data;
    var stats := measured.value;
    ghost var ns := stats.periodicFsyncNs;
    if applied {
      var flushed := session.Applied();
      stats := Add(stats, flushed);
    }
    AllSynced(cell, data);
    var synced := session.Sync();
    if synced.Err? {
      return Err;
    }
    stats := Add(stats, synced.value);
    var closed := session.Close();
    stats := Add(stats, closed);
    var verified := session.Verify();
    if verified.Err? {
      return Err;
    }
    stats := Add(stats, verified.value);
    PhasesAddUp(cell, applied, ns);
    r := Ok((session.members, stats));
  }

  lemma AllSynced(cell: Cell, data: seq<Byte>)
    requires 0 < cell.block
    ensures cell.workload.Smallfiles? ==> forall i: nat :: i < Count(cell) ==> SmallName(i) in WorkerMembers(cell, data)
  {
    SmallNamesDistinct(Count(cell));
    forall i: nat | i < Count(cell) ensures SmallName(i) in SmallFiles(data, cell.block, Count(cell)) {
      IndexedAt(Count(cell), SmallName, SmallNode(data, cell.block), i);
    }
  }
}
