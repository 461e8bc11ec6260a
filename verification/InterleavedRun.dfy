/** The whole run with every round interleaved: what it leaves, and that it can be. */
module InterleavedRun {
  import opened Wrappers
  import opened Files
  import opened Plan
  import opened PhaseStats
  import PhaseTeam
  import opened Contents
  import opened WorkerSession
  import opened OutputTree
  import opened InterleavedRound
  import opened RoundProgress
  import opened Histories
  import Bits

  // ----- one round of a cell ---------------------------------------------------------------------------------

  /** A schedule of the round in the directory `start`: the sessions are prepared from what lies there, and the
      round comes to its end. */
  ghost predicate RoundRuns(cell: Cell, round: nat, applied: bool, start: map<string, Node>, x: Schedule)
    requires Usable(cell)
  {
    && SessionSteps(cell, PatternRound(cell, round), x.trace, x.states, x.views)
    && (forall w :: 0 <= w < cell.workers ==>
          PreparedView(cell, Data(cell, w, PatternRound(cell, round)), round, Lookup(start, WorkerName(w)))
            == Some(x.views[0][w]))
    && Finished(Last(x), applied)
  }

  /** The round's directory at the end: every worker's directory replaces what lay in its place. */
  function RoundEnd(start: map<string, Node>, x: Schedule): map<string, Node>
    requires x.views != []
  {
    start + RoundDirectory(x.views[|x.views| - 1]).members
  }

  /** In the right place the sessions begin where the script starts. */
  lemma PreparedRight(cell: Cell, round: nat, applied: bool, w: nat)
    requires Usable(cell) && w < cell.workers
    ensures var data := Data(cell, w, PatternRound(cell, round));
            PreparedView(cell, data, round, Lookup(RoundStart(cell, round), WorkerName(w)))
              == Some(After(cell, data, applied, 0))
  {
    WorkerPlace(cell, PatternRound(cell, round), w);
  }

  lemma RightIsSchedule(cell: Cell, round: nat, applied: bool, x: Schedule)
    requires Usable(cell) && RoundRuns(cell, round, applied, RoundStart(cell, round), x)
    ensures IsSchedule(cell, PatternRound(cell, round), applied, x)
  {
    forall w | 0 <= w < cell.workers
      ensures x.views[0][w] == After(cell, Data(cell, w, PatternRound(cell, round)), applied, 0)
    {
      PreparedRight(cell, round, applied, w);
    }
  }

  lemma ScheduleIsRight(cell: Cell, round: nat, applied: bool, x: Schedule)
    requires Usable(cell) && IsSchedule(cell, PatternRound(cell, round), applied, x) && Finished(Last(x), applied)
    ensures RoundRuns(cell, round, applied, RoundStart(cell, round), x)
  {
    forall w | 0 <= w < cell.workers
      ensures PreparedView(cell, Data(cell, w, PatternRound(cell, round)), round,
                           Lookup(RoundStart(cell, round), WorkerName(w))) == Some(x.views[0][w])
    {
      PreparedRight(cell, round, applied, w);
    }
  }

  /** Workers that find their own directories replace them by the same. */
  lemma SameEnd(cell: Cell, round: nat, members: map<string, Node>)
    requires Usable(cell) && Dir(members) == RoundNode(cell, round)
    ensures Dir(RoundStart(cell, round) + members) == RoundNode(cell, round)
  {
  }

  /** Every schedule of the round leaves the same directory. */
  lemma RoundEndRight(cell: Cell, round: nat, applied: bool, x: Schedule)
    requires Usable(cell) && RoundRuns(cell, round, applied, RoundStart(cell, round), x)
    ensures Dir(RoundEnd(RoundStart(cell, round), x)) == RoundNode(cell, round)
  {
    RightIsSchedule(cell, round, applied, x);
    RoundLeaves(cell, round, applied, x.trace, x.states, x.views);
    SameEnd(cell, round, RoundDirectory(x.views[|x.views| - 1]).members);
  }

  /** Every schedule of the round returns the same counters. */
  lemma RoundTotalRight(cell: Cell, round: nat, applied: bool, x: Schedule)
    requires Usable(cell) && RoundRuns(cell, round, applied, RoundStart(cell, round), x)
    ensures Last(x).returned != []
    ensures var total := Returned(Last(x).returned);
            total == TimesStats(cell.workers, cell, applied, total.periodicFsyncNs)
  {
    RightIsSchedule(cell, round, applied, x);
    RoundReturns(cell, round, applied, x.trace, x.states, x.views);
  }

  // ----- one cell in the output --------------------------------------------------------------------------------

  /** The directory of the cell as a round finds it, if it may begin. */
  function Found(output: map<string, Node>, cell: Cell, round: nat): Option<map<string, Node>> {
    if round == 1 then if cell.id in output then None else Some(map[])
    else if cell.id in output && output[cell.id].Dir? then Some(output[cell.id].members) else None
  }

  /** The directory of the round as its workers find it, if they may begin. */
  function FoundRound(members: map<string, Node>, cell: Cell, round: nat): Option<map<string, Node>> {
    var node := Lookup(members, RoundName(cell, round));
    if !Reuses(cell, round) then if node.None? then Some(map[]) else None
    else if node.Some? && node.value.Dir? then Some(node.value.members) else None
  }

  /** `run_cell` under some schedule: the output it leaves and the row it reports. */
  ghost predicate CellRuns(output: map<string, Node>, cell: Cell, round: nat, applied: bool,
                           output': map<string, Node>, row: Entry)
    requires Usable(cell)
  {
    && Found(output, cell, round).Some?
    && var members := Found(output, cell, round).value;
    && FoundRound(members, cell, round).Some?
    && var start := FoundRound(members, cell, round).value;
    exists x :: RoundRuns(cell, round, applied, start, x) && CellEnds(output, members, cell, round, start, x, output', row)
  }

  ghost predicate CellEnds(output: map<string, Node>, members: map<string, Node>, cell: Cell, round: nat,
                           start: map<string, Node>, x: Schedule, output': map<string, Node>, row: Entry) {
    && x.views != [] && x.states != [] && Last(x).returned != []
    && output' == output[cell.id := Dir(members[RoundName(cell, round) := Dir(RoundEnd(start, x))])]
    && row == Entry(round, cell, Returned(Last(x).returned))
  }

  lemma FoundRight(output: map<string, Node>, cell: Cell, round: nat)
    requires Usable(cell) && 1 <= round && Before(output, cell, round)
    ensures Found(output, cell, round) == Some(CellStart(cell, round))
    ensures FoundRound(CellStart(cell, round), cell, round) == Some(RoundStart(cell, round))
  {
    CellRoundPlace(cell, round);
  }

  /** Whatever the schedule, a cell in its place gains exactly that round and reports its counters. */
  lemma CellLeaves(output: map<string, Node>, cell: Cell, round: nat, applied: bool,
                   output': map<string, Node>, row: Entry)
    requires Usable(cell) && 1 <= round && Before(output, cell, round)
    requires CellRuns(output, cell, round, applied, output', row)
    ensures output' == output[cell.id := Dir(CellMembers(cell, round))]
    ensures row == Entry(round, cell, TimesStats(cell.workers, cell, applied, row.stats.periodicFsyncNs))
  {
    FoundRight(output, cell, round);
    var members, start := CellStart(cell, round), RoundStart(cell, round);
    var x :| RoundRuns(cell, round, applied, start, x) && CellEnds(output, members, cell, round, start, x, output', row);
    RoundEndRight(cell, round, applied, x);
    RoundTotalRight(cell, round, applied, x);
    CellRoundPlace(cell, round);
  }

  /** A cell in its place can be run. */
  lemma CellCanRun(output: map<string, Node>, cell: Cell, round: nat, applied: bool)
    returns (output': map<string, Node>, row: Entry)
    requires Usable(cell) && 1 <= round && Before(output, cell, round)
    ensures CellRuns(output, cell, round, applied, output', row)
  {
    FoundRight(output, cell, round);
    var x := RoundCanFinish(cell, PatternRound(cell, round), applied);
    ScheduleIsRight(cell, round, applied, x);
    RoundTotalRight(cell, round, applied, x);
    var members, start := CellStart(cell, round), RoundStart(cell, round);
    output' := output[cell.id := Dir(members[RoundName(cell, round) := Dir(RoundEnd(start, x))])];
    row := Entry(round, cell, Returned(Last(x).returned));
    assert CellEnds(output, members, cell, round, start, x, output', row);
  }

  /** Whatever lies in the output, a cell that runs overwrites nothing: other cells stay, earlier rounds stay, and only a
      read set that is used again may be rewritten. */
  lemma NothingOverwritten(output: map<string, Node>, cell: Cell, round: nat, applied: bool,
                           output': map<string, Node>, row: Entry)
    requires Usable(cell) && CellRuns(output, cell, round, applied, output', row)
    ensures forall name :: name in output && name != cell.id ==> name in output' && output'[name] == output[name]
    ensures round == 1 ==> cell.id !in output
    ensures cell.id in output ==>
              && output[cell.id].Dir? && cell.id in output' && output'[cell.id].Dir?
              && forall name :: name in output[cell.id].members && !(Reuses(cell, round) && name == RoundName(cell, round)) ==>
                   name in output'[cell.id].members && output'[cell.id].members[name] == output[cell.id].members[name]
  {
    var members := Found(output, cell, round).value;
    var start := FoundRound(members, cell, round).value;
    var x :| RoundRuns(cell, round, applied, start, x) && CellEnds(output, members, cell, round, start, x, output', row);
  }

  // ----- the run -------------------------------------------------------------------------------------------------

  /** Cell `i` of round `done + 1`, under any schedule. */
  ghost function CellStep(cells: seq<Cell>, applied: bool): Relation<map<string, Node>, Entry>
    requires CellsOk(cells)
  {
    (output: map<string, Node>, done: nat, i: nat, output': map<string, Node>, row: Entry) =>
      i < |cells| && CellRuns(output, cells[i], done + 1, applied, output', row)
  }

  /** The output when round `done + 1` has reached cell `i`. */
  ghost function Reached(cells: seq<Cell>): (map<string, Node>, nat, nat) -> bool
    requires CellsOk(cells)
  {
    (output: map<string, Node>, done: nat, i: nat) =>
      Progress(output, |cells|, CellNames(cells), CellAt(cells), done, i)
  }

  /** The row of cell `i` in round `done + 1`. */
  ghost function IsRow(cells: seq<Cell>, applied: bool): (Entry, nat, nat) -> bool
    requires CellsOk(cells)
  {
    (row: Entry, done: nat, i: nat) =>
      && i < |cells| && row.round == done + 1 && row.cell == cells[i]
      && row.stats == TimesStats(cells[i].workers, cells[i], applied, row.stats.periodicFsyncNs)
  }

  /** A run from an empty output: every cell of every round in order, each under any schedule. */
  ghost predicate IsRunOf(h: History<map<string, Node>, Entry>, cells: seq<Cell>, applied: bool)
    requires CellsOk(cells)
  {
    RunOf(h, map[], |cells|, CellStep(cells, applied))
  }

  lemma PlaceOfNext(output: map<string, Node>, cells: seq<Cell>, done: nat, i: nat)
    requires CellsOk(cells) && i < |cells| && Reached(cells)(output, done, i)
    ensures Before(output, cells[i], done + 1)
  {
    assert CellNames(cells)(i) == cells[i].id;
    assert At(output, cells[i].id, i, CellAt(cells), RoundsAt(i, i, done));
  }

  lemma NextOutput(output: map<string, Node>, cells: seq<Cell>, done: nat, i: nat)
    requires CellsOk(cells) && i < |cells| && Reached(cells)(output, done, i)
    ensures ReachedNext(output[cells[i].id := Dir(CellMembers(cells[i], done + 1))], |cells|, done, i, Reached(cells))
  {
    CellNamesDistinct(cells);
    assert CellNames(cells)(i) == cells[i].id;
    ProgressStep(output, |cells|, CellNames(cells), CellAt(cells), done, i);
    if i + 1 == |cells| {
      var output' := output[cells[i].id := Dir(CellMembers(cells[i], done + 1))];
      ProgressRound(output', |cells|, CellNames(cells), CellAt(cells), done);
    }
  }

  lemma NextCell(output: map<string, Node>, cells: seq<Cell>, applied: bool, done: nat, i: nat,
                 output': map<string, Node>, row: Entry)
    requires CellsOk(cells) && i < |cells| && Reached(cells)(output, done, i)
    requires CellRuns(output, cells[i], done + 1, applied, output', row)
    ensures ReachedNext(output', |cells|, done, i, Reached(cells)) && IsRow(cells, applied)(row, done, i)
  {
    PlaceOfNext(output, cells, done, i);
    CellLeaves(output, cells[i], done + 1, applied, output', row);
    NextOutput(output, cells, done, i);
  }

  lemma CellsKeep(cells: seq<Cell>, applied: bool)
    requires CellsOk(cells)
    ensures Keeps(|cells|, CellStep(cells, applied), Reached(cells), IsRow(cells, applied))
  {
    var step, reached, right := CellStep(cells, applied), Reached(cells), IsRow(cells, applied);
    forall x: map<string, Node>, done: nat, i: nat, y: map<string, Node>, row: Entry
      | i < |cells| && reached(x, done, i) && step(x, done, i, y, row)
      ensures ReachedNext(y, |cells|, done, i, reached) && right(row, done, i)
    {
      NextCell(x, cells, applied, done, i, y, row);
    }
  }

  lemma RunIsStep(output: map<string, Node>, cells: seq<Cell>, applied: bool, done: nat, i: nat,
                  output': map<string, Node>, row: Entry)
    requires CellsOk(cells) && i < |cells| && CellRuns(output, cells[i], done + 1, applied, output', row)
    ensures Possible(CellStep(cells, applied), output, done, i)
  {
    assert CellStep(cells, applied)(output, done, i, output', row);
  }

  lemma CellPossible(output: map<string, Node>, cells: seq<Cell>, applied: bool, done: nat, i: nat)
    requires CellsOk(cells) && i < |cells| && Before(output, cells[i], done + 1)
    ensures Possible(CellStep(cells, applied), output, done, i)
  {
    var output', row := CellCanRun(output, cells[i], done + 1, applied);
    RunIsStep(output, cells, applied, done, i, output', row);
  }

  lemma CellsCanStep(cells: seq<Cell>, applied: bool)
    requires CellsOk(cells)
    ensures CanStep(|cells|, CellStep(cells, applied), Reached(cells))
  {
    forall x: map<string, Node>, done: nat, i: nat | i < |cells| && Reached(cells)(x, done, i)
      ensures Possible(CellStep(cells, applied), x, done, i)
    {
      PlaceOfNext(x, cells, done, i);
      CellPossible(x, cells, applied, done, i);
    }
  }

  lemma NothingRun(cells: seq<Cell>)
    requires CellsOk(cells)
    ensures Reached(cells)(map[], 0, 0)
  {
  }

  /** The whole run: with any schedule for every cell of every round, the output is exactly the expected tree. */
  lemma AnyRunLeaves(h: History<map<string, Node>, Entry>, cells: seq<Cell>, rounds: nat, applied: bool)
    requires CellsOk(cells) && cells != [] && 1 <= rounds
    requires IsRunOf(h, cells, applied) && |RowsOf(h)| == rounds * |cells|
    ensures Left(h) == Expected(cells, rounds)
  {
    NothingRun(cells);
    CellsKeep(cells, applied);
    RunReaches(h, map[], |cells|, CellStep(cells, applied), Reached(cells), IsRow(cells, applied));
    PositionIs(h, |cells|);
    Bits.DivModUnique(|RowsOf(h)|, |cells|, rounds, 0);
    CellNamesDistinct(cells);
    ProgressDone(Left(h), |cells|, CellNames(cells), CellAt(cells), rounds, CellNodes(cells, rounds));
  }

  /** And every cell of every round has reported its counters, in order. */
  lemma AnyRunReports(h: History<map<string, Node>, Entry>, cells: seq<Cell>, rounds: nat, applied: bool)
    requires CellsOk(cells) && cells != []
    requires IsRunOf(h, cells, applied) && |RowsOf(h)| == rounds * |cells|
    ensures RowsUpto(RowsOf(h), cells, applied, rounds, 0)
  {
    NothingRun(cells);
    CellsKeep(cells, applied);
    forall k | 0 <= k < |RowsOf(h)| ensures RowOk(RowsOf(h)[k], k, cells, applied) {
      RowsAreRight(h, map[], |cells|, CellStep(cells, applied), Reached(cells), IsRow(cells, applied), k);
    }
  }

  /** There is such a run, however many rounds are asked for. */
  lemma SomeRunExists(cells: seq<Cell>, rounds: nat, applied: bool) returns (h: History<map<string, Node>, Entry>)
    requires CellsOk(cells) && cells != []
    ensures IsRunOf(h, cells, applied) && |RowsOf(h)| == rounds * |cells|
  {
    NothingRun(cells);
    CellsKeep(cells, applied);
    CellsCanStep(cells, applied);
    h := SomeRun(map[], |cells|, CellStep(cells, applied), Reached(cells), IsRow(cells, applied), rounds * |cells|);
  }

  /** The final verifier accepts what any run leaves, and counts its files and bytes. */
  method VerifyAnyRun(output: map<string, Node>, cells: seq<Cell>, rounds: nat, applied: bool,
                      ghost h: History<map<string, Node>, Entry>)
    returns (ok: bool, files: nat, bytes: nat)
    requires CellsOk(cells) && cells != [] && 1 <= rounds
    requires IsRunOf(h, cells, applied) && |RowsOf(h)| == rounds * |cells| && output == Left(h)
    ensures ok && files == TotalFiles(cells, |cells|, rounds) && bytes == TotalBytes(cells, |cells|, rounds)
  {
    AnyRunLeaves(h, cells, rounds, applied);
    ok, files, bytes := VerifyOutputs(Some(Dir(output)), cells, rounds);
  }
}
