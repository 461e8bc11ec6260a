/** The bytes of a worker: generated from the cell, the worker and the round. */
module Contents {
  import opened Bytes
  import opened Plan
  import Pattern

  /** What the run needs of a cell; every cell the parser accepts has it. */
  predicate Usable(cell: Cell) { IdOk(cell.id) && 0 < cell.block }

  function IdBytes(id: string): seq<Byte>
    requires IdOk(id)
  {
    seq(|id|, i requires 0 <= i < |id| => assert PathSafe(id[i]); id[i] as int)
  }

  /** A read set is written once, so its pattern does not depend on the round. */
  function PatternRound(cell: Cell, round: nat): nat {
    if cell.workload.Read? then 0 else round
  }

  function WorkerSeed(cell: Cell, worker: nat, patternRound: nat): Pattern.U64
    requires IdOk(cell.id)
  {
    Pattern.Seed(IdBytes(cell.id), worker, patternRound)
  }

  function Data(cell: Cell, worker: nat, patternRound: nat): (data: seq<Byte>)
    requires IdOk(cell.id)
    ensures |data| == cell.bytes
  {
    Pattern.Content(WorkerSeed(cell, worker, patternRound), cell.bytes)
  }

  /** What `pattern` returns for the worker's seed. */
  method Generate(cell: Cell, worker: nat, patternRound: nat) returns (data: seq<Byte>)
    requires IdOk(cell.id)
    ensures data == Data(cell, worker, patternRound)
  {
    var bytes := Pattern.FillPattern(WorkerSeed(cell, worker, patternRound), cell.bytes);
    data := bytes[..];
  }

  // ----- who differs -------------------------------------------------------------------------------------------

  /** The data differ at every full word. */
  ghost predicate WordsDiffer(a: seq<Byte>, b: seq<Byte>) {
    forall k: nat {:trigger WordAt(a, k)} :: 8 * k + 8 <= |a| && 8 * k + 8 <= |b| ==> WordAt(a, k) != WordAt(b, k)
  }

  function WordAt(data: seq<Byte>, k: nat): seq<Byte> {
    if 8 * k + 8 <= |data| then data[8 * k..8 * k + 8] else []
  }

  /** Two workers of a cell write different words everywhere, in any one round. */
  lemma WorkersWriteDifferent(cell: Cell, w: nat, w': nat, round: nat)
    requires IdOk(cell.id) && w != w' && w + 1 < Pattern.WORD && w' + 1 < Pattern.WORD
    ensures WordsDiffer(Data(cell, w, round), Data(cell, w', round))
  {
    var a, b, id := Data(cell, w, round), Data(cell, w', round), IdBytes(cell.id);
    forall k: nat | 8 * k + 8 <= |a| && 8 * k + 8 <= |b| ensures WordAt(a, k) != WordAt(b, k) {
      Pattern.WorkersDiffer(id, w, w', round, k, a, b);
    }
  }

  /** A worker writes different words everywhere in two rounds. */
  lemma RoundsWriteDifferent(cell: Cell, w: nat, round: nat, round': nat)
    requires IdOk(cell.id) && round != round' && round < Pattern.WORD && round' < Pattern.WORD
    ensures WordsDiffer(Data(cell, w, round), Data(cell, w, round'))
  {
    var a, b, id := Data(cell, w, round), Data(cell, w, round'), IdBytes(cell.id);
    forall k: nat | 8 * k + 8 <= |a| && 8 * k + 8 <= |b| ensures WordAt(a, k) != WordAt(b, k) {
      Pattern.RoundsDiffer(id, w, round, round', k, a, b);
    }
  }

  /** Cells whose names differ in one character write different words everywhere, for the same worker and round. */
  lemma CellsWriteDifferent(a: Cell, b: Cell, i: nat, w: nat, round: nat)
    requires IdOk(a.id) && IdOk(b.id) && |a.id| == |b.id| && i < |a.id| && a.id[i] != b.id[i]
    requires forall j :: 0 <= j < |a.id| && j != i ==> a.id[j] == b.id[j]
    ensures WordsDiffer(Data(a, w, round), Data(b, w, round))
  {
    var x, y := Data(a, w, round), Data(b, w, round);
    Pattern.FnvOneByte(IdBytes(a.id), IdBytes(b.id), i);
    forall k: nat | 8 * k + 8 <= |x| && 8 * k + 8 <= |y| ensures WordAt(x, k) != WordAt(y, k) {
      Pattern.CellsDiffer(IdBytes(a.id), IdBytes(b.id), w, round, k, x, y);
    }
  }
}
