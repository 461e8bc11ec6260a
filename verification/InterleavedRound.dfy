/** One round of a cell as the team runs it, with a session behind each worker. */
module InterleavedRound {
  import opened Wrappers
  import opened Bytes
  import opened Chunks
  import opened Files
  import opened Plan
  import opened PhaseStats
  import opened PhaseTeam
  import TeamInvariant
  import TeamTheorems
  import opened Contents
  import opened WorkerSession
  import opened OutputTree

  // Any schedule of coordinator and workers may run, and each worker's session executes the phases the worker is
  // told to. Whatever the interleaving, the round leaves the directory that running the workers one after the
  // other leaves, and returns counters that add up to the same total.

  /** The phases of a cell; the writeback payload has no Applied phase. */
  function Script(applied: bool): seq<Phase> {
    if applied then [Accepted, Applied, Sync, Close, Verify] else [Accepted, Sync, Close, Verify]
  }

  // ----- a session through the script ------------------------------------------------------------------------

  /** A session before or after its measured phase, and before or after its file is closed. */
  function ViewAt(cell: Cell, data: seq<Byte>, measured: bool, closed: bool): View
    requires 0 < cell.block
  {
    View(match cell.workload
         case Read => map["data.bin" := File(data)]
         case Stream => map["data.bin" := File(if measured then data else [])]
         case Smallfiles => if measured then SmallFiles(data, cell.block, Count(cell)) else map[],
         if !cell.workload.Read? then [] else if measured then data else Zeros(|data|),
         !cell.workload.Smallfiles? && !closed)
  }

  /** The session after the first `k` phases of the script. */
  function After(cell: Cell, data: seq<Byte>, applied: bool, k: nat): View
    requires 0 < cell.block
  {
    ViewAt(cell, data, 1 <= k, |Script(applied)| - 1 <= k)
  }

  /** The counters of a phase, apart from the time of periodic fsyncs. */
  function Base(cell: Cell, phase: Phase): Stats
    requires 0 < cell.block
  {
    match phase
    case Accepted => AcceptedStats(cell, Count(cell), 0)
    case Applied => AppliedStats(cell)
    case Sync => SyncStats(cell)
    case Close => CloseStats(cell)
    case Verify => VerifyStats(cell)
  }

  predicate IsBase(cell: Cell, phase: Phase, stats: Stats)
    requires 0 < cell.block
  {
    stats == Base(cell, phase).(periodicFsyncNs := stats.periodicFsyncNs)
  }

  /** The phase finds the session ready, succeeds whatever the clock says, and leaves `next`. */
  ghost predicate Moves(cell: Cell, data: seq<Byte>, v: View, phase: Phase, next: View)
    requires 0 < cell.block
  {
    && Ready(cell, data, v, phase) && Executes(cell, data, v, phase, Ok(Base(cell, phase)), next)
    && forall r, v' :: Executes(cell, data, v, phase, r, v') ==> r.Ok? && v' == next && IsBase(cell, phase, r.value)
  }

  lemma AcceptedMoves(cell: Cell, data: seq<Byte>)
    requires 0 < cell.block && |data| == cell.bytes
    ensures Moves(cell, data, ViewAt(cell, data, false, false), Accepted, ViewAt(cell, data, true, false))
  {
    assert data[..|data|] == data;
  }

  lemma AppliedMoves(cell: Cell, data: seq<Byte>)
    requires 0 < cell.block && |data| == cell.bytes
    ensures var v := ViewAt(cell, data, true, false); Moves(cell, data, v, Applied, v)
  {
  }

  lemma SyncMoves(cell: Cell, data: seq<Byte>)
    requires 0 < cell.block && |data| == cell.bytes
    ensures var v := ViewAt(cell, data, true, false); Moves(cell, data, v, Sync, v)
  {
    AllSynced(cell, data);
    assert AllWritten(cell, ViewAt(cell, data, true, false).members);
  }

  lemma CloseMoves(cell: Cell, data: seq<Byte>)
    requires 0 < cell.block && |data| == cell.bytes
    ensures Moves(cell, data, ViewAt(cell, data, true, false), Close, ViewAt(cell, data, true, true))
  {
  }

  lemma VerifyMoves(cell: Cell, data: seq<Byte>)
    requires 0 < cell.block && |data| == cell.bytes
    ensures var v := ViewAt(cell, data, true, true); Moves(cell, data, v, Verify, v)
  {
    assert Passes(cell, data, ViewAt(cell, data, true, true));
  }

  /** Phase `k` of the script moves the session on by that phase: no session fails of its own. */
  lemma ScriptMoves(cell: Cell, data: seq<Byte>, applied: bool, k: nat)
    requires 0 < cell.block && |data| == cell.bytes && k < |Script(applied)|
    ensures Moves(cell, data, After(cell, data, applied, k), Script(applied)[k], After(cell, data, applied, k + 1))
  {
    match Script(applied)[k]
    case Accepted => AcceptedMoves(cell, data);
    case Applied => AppliedMoves(cell, data);
    case Sync => SyncMoves(cell, data);
    case Close => CloseMoves(cell, data);
    case Verify => VerifyMoves(cell, data);
  }

  /** What preparing a worker makes of the member it finds: nothing if that is not what the round needs. */
  function PreparedView(cell: Cell, data: seq<Byte>, round: nat, existing: Option<Node>): Option<View>
    requires 0 < cell.block
  {
    if !Reuses(cell, round) then if existing.None? then Some(ViewAt(cell, data, false, false)) else None
    else if existing.Some? && existing.value.Dir? && HasData(existing.value.members)
    then Some(View(existing.value.members, Zeros(cell.bytes), true))
    else None
  }

  /** Preparing a worker, whatever lies in its place: its data is what `pattern` returns for its seed. */
  method PrepareWorker(cell: Cell, worker: nat, round: nat, existing: Option<Node>) returns (r: Result<Session>)
    requires Usable(cell)
    ensures var view := PreparedView(cell, Data(cell, worker, PatternRound(cell, round)), round, existing);
            && (r.Ok? <==> view.Some?)
            && (r.Ok? ==> fresh(r.value) && r.value.cell == cell && r.value.Now() == view.value)
    ensures r.Ok? ==> r.value.data == Data(cell, worker, PatternRound(cell, round))
  {
    var data := Generate(cell, worker, PatternRound(cell, round));
    r := Prepare(cell, data, round, existing);
  }

  // ----- schedules with sessions -------------------------------------------------------------------------------

  predicate Completes(a: Action, w: nat) {
    a.Work? && a.worker == w && a.action.Complete?
  }

  predicate Faults(a: Action, w: nat) {
    a.Work? && a.worker == w && a.action.Crash?
  }

  /** What a step does to the session of worker `w`: completing a phase executes it, a fault leaves anything behind,
      and no other step touches it. */
  ghost predicate SessionStep(cell: Cell, data: seq<Byte>, s: State, a: Action, w: nat, v: View, v': View)
    requires Enabled(s, a)
  {
    if Completes(a, w) then
      Ready(cell, data, v, s.workers[w].place.phase) ==>
        Executes(cell, data, v, s.workers[w].place.phase, Ok(a.action.stats), v')
    else Faults(a, w) || v' == v
  }

  /** A schedule of the team with the sessions of its workers beside every state. */
  ghost predicate SessionSteps(cell: Cell, key: nat, trace: seq<Action>, states: seq<State>, views: seq<seq<View>>)
    requires Usable(cell)
  {
    && IsRun(cell.workers, trace, states)
    && |views| == |states| && (forall i :: 0 <= i < |views| ==> |views[i]| == cell.workers)
    && forall i, w :: 0 <= i < |trace| && 0 <= w < cell.workers ==>
         SessionStep(cell, Data(cell, w, key), states[i], trace[i], w, views[i][w], views[i + 1][w])
  }

  /** A schedule whose sessions begin where the script starts. */
  ghost predicate SessionRun(cell: Cell, key: nat, applied: bool, trace: seq<Action>, states: seq<State>, views: seq<seq<View>>)
    requires Usable(cell)
  {
    && SessionSteps(cell, key, trace, states, views)
    && forall w :: 0 <= w < cell.workers ==> views[0][w] == After(cell, Data(cell, w, key), applied, 0)
  }

  /** The coordinator has published no more than the script, in order. */
  predicate OnScript(s: State, applied: bool) {
    s.issued <= Script(applied)
  }

  /** What worker `w` has done agrees with its session. */
  ghost predicate Agrees(cell: Cell, data: seq<Byte>, applied: bool, k: Worker, v: View)
    requires 0 < cell.block
  {
    && |k.finished| <= |Script(applied)|
    && (forall j :: 0 <= j < |k.finished| ==> IsBase(cell, Script(applied)[j], k.finished[j]))
    && (!k.failed ==> v == After(cell, data, applied, |k.finished|))
  }

  /** A step that does not complete a phase of `w` leaves what `w` has finished. */
  lemma FinishedKept(s: State, a: Action, w: nat)
    requires Enabled(s, a) && w < |s.workers| && !Completes(a, w)
    ensures |Next(s, a).workers| == |s.workers| && Next(s, a).workers[w].finished == s.workers[w].finished
    ensures s.workers[w].failed ==> Next(s, a).workers[w].failed
    ensures Faults(a, w) ==> Next(s, a).workers[w].failed
  {
  }

  /** A worker in the middle of a phase is in the next one of the script. */
  lemma RunningNext(s: State, w: nat, applied: bool)
    requires TeamInvariant.WorkersOk(s) && w < |s.workers| && s.workers[w].place.Running? && OnScript(s, applied)
    ensures var k := s.workers[w];
            !k.failed && |k.finished| < |Script(applied)| && k.place.phase == Script(applied)[|k.finished|]
  {
    assert TeamInvariant.WorkerOk(s.workers[w], s.issued, s.command.stopping);
  }

  lemma CompletesNext(s: State, a: Action, w: nat)
    requires Enabled(s, a) && w < |s.workers| && Completes(a, w)
    ensures s.workers[w].place.Running? && |Next(s, a).workers| == |s.workers|
    ensures Next(s, a).workers[w].finished == s.workers[w].finished + [a.action.stats]
    ensures Next(s, a).workers[w].failed == s.workers[w].failed
  {
  }

  lemma StepAgrees(cell: Cell, data: seq<Byte>, applied: bool, s: State, a: Action, w: nat, v: View, v': View)
    requires 0 < cell.block && |data| == cell.bytes
    requires TeamInvariant.WorkersOk(s) && Enabled(s, a) && w < |s.workers| && OnScript(s, applied)
    requires Agrees(cell, data, applied, s.workers[w], v) && SessionStep(cell, data, s, a, w, v, v')
    ensures |Next(s, a).workers| == |s.workers| && Agrees(cell, data, applied, Next(s, a).workers[w], v')
  {
    if Completes(a, w) {
      CompletesNext(s, a, w);
      RunningNext(s, w, applied);
      ScriptMoves(cell, data, applied, |s.workers[w].finished|);
    } else {
      FinishedKept(s, a, w);
    }
  }

  lemma IssuedStep(s: State, a: Action)
    requires Enabled(s, a)
    ensures s.issued <= Next(s, a).issued
  {
  }

  /** What has been published stays published. */
  lemma {:induction false} IssuedGrows(n: nat, trace: seq<Action>, states: seq<State>, i: nat, j: nat)
    requires IsRun(n, trace, states) && i <= j < |states|
    ensures states[i].issued <= states[j].issued
    decreases j
  {
    if i < j {
      IssuedGrows(n, trace, states, i, j - 1);
      assert Enabled(states[j - 1], trace[j - 1]);
      IssuedStep(states[j - 1], trace[j - 1]);
    }
  }

  lemma StartAgrees(cell: Cell, data: seq<Byte>, applied: bool, n: nat, w: nat)
    requires 0 < cell.block && w < n
    ensures Agrees(cell, data, applied, Init(n).workers[w], After(cell, data, applied, 0))
  {
  }

  /** In every schedule each worker's session is where the worker's finished phases put it. */
  lemma {:induction false} RunAgrees(
    cell: Cell, key: nat, applied: bool, trace: seq<Action>, states: seq<State>, views: seq<seq<View>>, i: nat, w: nat)
    requires Usable(cell) && SessionRun(cell, key, applied, trace, states, views)
    requires i < |states| && w < cell.workers && OnScript(states[|states| - 1], applied)
    ensures |states[i].workers| == cell.workers
    ensures Agrees(cell, Data(cell, w, key), applied, states[i].workers[w], views[i][w])
  {
    RunOnScript(cell.workers, trace, states, applied, i);
    if i == 0 {
      StartAgrees(cell, Data(cell, w, key), applied, cell.workers, w);
    } else {
      RunAgrees(cell, key, applied, trace, states, views, i - 1, w);
      RunAgreesStep(cell, key, applied, trace, states, views, i - 1, w);
    }
  }

  lemma RunAgreesStep(
    cell: Cell, key: nat, applied: bool, trace: seq<Action>, states: seq<State>, views: seq<seq<View>>, i: nat, w: nat)
    requires Usable(cell) && SessionRun(cell, key, applied, trace, states, views)
    requires i < |trace| && w < cell.workers && OnScript(states[|states| - 1], applied)
    requires |states[i].workers| == cell.workers
    requires Agrees(cell, Data(cell, w, key), applied, states[i].workers[w], views[i][w])
    ensures |states[i + 1].workers| == cell.workers
    ensures Agrees(cell, Data(cell, w, key), applied, states[i + 1].workers[w], views[i + 1][w])
  {
    RunOnScript(cell.workers, trace, states, applied, i);
    var data := Data(cell, w, key);
    assert SessionStep(cell, data, states[i], trace[i], w, views[i][w], views[i + 1][w]);
    StepAgrees(cell, data, applied, states[i], trace[i], w, views[i][w], views[i + 1][w]);
  }

  /** No session fails of its own: a worker in the middle of a phase finds its session ready for it, and the phase
      can only succeed. */
  lemma RunningSucceeds(
    cell: Cell, key: nat, applied: bool, trace: seq<Action>, states: seq<State>, views: seq<seq<View>>, i: nat, w: nat)
    requires Usable(cell) && SessionRun(cell, key, applied, trace, states, views)
    requires i < |states| && w < cell.workers && OnScript(states[|states| - 1], applied)
    ensures |states[i].workers| == cell.workers
    ensures var place := states[i].workers[w].place;
            place.Running? ==> exists next :: Moves(cell, Data(cell, w, key), views[i][w], place.phase, next)
  {
    RunAgrees(cell, key, applied, trace, states, views, i, w);
    if states[i].workers[w].place.Running? {
      RunOnScript(cell.workers, trace, states, applied, i);
      RunningMoves(cell, Data(cell, w, key), applied, states[i], w, views[i][w]);
    }
  }

  lemma RunningMoves(cell: Cell, data: seq<Byte>, applied: bool, s: State, w: nat, v: View)
    requires 0 < cell.block && |data| == cell.bytes && TeamInvariant.WorkersOk(s) && OnScript(s, applied)
    requires w < |s.workers| && s.workers[w].place.Running? && Agrees(cell, data, applied, s.workers[w], v)
    ensures exists next :: Moves(cell, data, v, s.workers[w].place.phase, next)
  {
    RunningNext(s, w, applied);
    ScriptMoves(cell, data, applied, |s.workers[w].finished|);
  }

  lemma RunOnScript(n: nat, trace: seq<Action>, states: seq<State>, applied: bool, i: nat)
    requires IsRun(n, trace, states) && i < |states| && OnScript(states[|states| - 1], applied)
    ensures |states[i].workers| == n && TeamInvariant.WorkersOk(states[i]) && OnScript(states[i], applied)
  {
    TeamInvariant.RunInv(n, trace, states, i);
    IssuedGrows(n, trace, states, i, |states| - 1);
  }

  // ----- what the round leaves and returns ---------------------------------------------------------------------

  /** The round is over: all phases of the script are published and collected. */
  predicate Finished(s: State, applied: bool) {
    s.coordinator.Idle? && s.issued == Script(applied)
  }

  function NodeOf(views: seq<View>): nat -> Node {
    (w: nat) => if w < |views| then Dir(views[w].members) else Other
  }

  /** The round's directory: one member for each worker. */
  function RoundDirectory(views: seq<View>): Node {
    Dir(Indexed(|views|, WorkerName, NodeOf(views)))
  }

  /** A finished worker has run the whole script and has not failed. */
  lemma WorkerFinished(s: State, applied: bool, w: nat)
    requires TeamInvariant.Inv(s) && Finished(s, applied) && w < |s.workers|
    ensures |s.workers[w].finished| == |Script(applied)| && !s.workers[w].failed
  {
    assert TeamInvariant.WorkerOk(s.workers[w], s.issued, s.command.stopping);
    assert TeamInvariant.RoundWorker(s, w);
  }

  lemma SessionFinished(
    cell: Cell, key: nat, applied: bool, trace: seq<Action>, states: seq<State>, views: seq<seq<View>>, w: nat)
    requires Usable(cell) && SessionRun(cell, key, applied, trace, states, views)
    requires Finished(states[|states| - 1], applied) && w < cell.workers
    ensures views[|states| - 1][w].members == WorkerMembers(cell, Data(cell, w, key))
  {
    var last := |states| - 1;
    TeamInvariant.RunInv(cell.workers, trace, states, last);
    RunAgrees(cell, key, applied, trace, states, views, last, w);
    WorkerFinished(states[last], applied, w);
  }

  /** Every schedule that finishes the round leaves exactly the round's directory. */
  lemma RoundLeaves(
    cell: Cell, round: nat, applied: bool, trace: seq<Action>, states: seq<State>, views: seq<seq<View>>)
    requires Usable(cell) && SessionRun(cell, PatternRound(cell, round), applied, trace, states, views)
    requires Finished(states[|states| - 1], applied)
    ensures RoundDirectory(views[|states| - 1]) == RoundNode(cell, round)
  {
    var key, last := PatternRound(cell, round), views[|states| - 1];
    forall w: nat | w < cell.workers ensures NodeOf(last)(w) == WorkerNode(cell, key)(w) {
      SessionFinished(cell, key, applied, trace, states, views, w);
    }
    IndexedSame(cell.workers, WorkerName, NodeOf(last), WorkerNode(cell, key));
  }

  lemma {:induction false} IndexedSame(n: nat, name: nat -> string, a: nat -> Node, b: nat -> Node)
    requires forall i: nat :: i < n ==> a(i) == b(i)
    ensures Indexed(n, name, a) == Indexed(n, name, b)
  {
    if n > 0 {
      IndexedSame(n - 1, name, a, b);
    }
  }

  // ----- the counters ------------------------------------------------------------------------------------------

  const COUNTERS: nat := 12

  /** Counter `f` of the twelve; the thirteenth field is a measured time. */
  function Field(s: Stats, f: nat): nat
    requires f < COUNTERS
  {
    match f
    case 0 => s.writeOps
    case 1 => s.readOps
    case 2 => s.bytesWritten
    case 3 => s.bytesRead
    case 4 => s.filesCreated
    case 5 => s.acceptedCloses
    case 6 => s.periodicFsyncs
    case 7 => s.appliedBarriers
    case 8 => s.finalFsyncs
    case 9 => s.finalCloses
    case 10 => s.filesVerified
    case _ => s.bytesVerified
  }

  lemma FieldAdd(a: Stats, b: Stats, f: nat)
    requires f < COUNTERS
    ensures Field(Add(a, b), f) == Field(a, f) + Field(b, f)
  {
  }

  lemma FieldZero(f: nat)
    requires f < COUNTERS
    ensures Field(ZeroStats, f) == 0
  {
  }

  lemma FieldsDetermine(a: Stats, b: Stats)
    requires a.periodicFsyncNs == b.periodicFsyncNs && forall f: nat :: f < COUNTERS ==> Field(a, f) == Field(b, f)
    ensures a == b
  {
    assert Field(a, 0) == Field(b, 0) && Field(a, 1) == Field(b, 1) && Field(a, 2) == Field(b, 2);
    assert Field(a, 3) == Field(b, 3) && Field(a, 4) == Field(b, 4) && Field(a, 5) == Field(b, 5);
    assert Field(a, 6) == Field(b, 6) && Field(a, 7) == Field(b, 7) && Field(a, 8) == Field(b, 8);
    assert Field(a, 9) == Field(b, 9) && Field(a, 10) == Field(b, 10) && Field(a, 11) == Field(b, 11);
  }

  lemma {:induction false} TimesSum(n: nat, x: nat, y: nat)
    ensures Times(n, x + y) == Times(n, x) + Times(n, y)
  {
    if n > 0 {
      TimesSum(n - 1, x, y);
    }
  }

  lemma {:induction false} TimesZero(n: nat)
    ensures Times(n, 0) == 0
  {
    if n > 0 {
      TimesZero(n - 1);
    }
  }

  function Fields(values: seq<Stats>, f: nat): (r: seq<nat>)
    requires f < COUNTERS
    ensures |r| == |values| && forall i :: 0 <= i < |r| ==> r[i] == Field(values[i], f)
  {
    seq(|values|, i requires 0 <= i < |values| => Field(values[i], f))
  }

  function Total(xs: seq<nat>): nat {
    if xs == [] then 0 else Total(xs[..|xs| - 1]) + xs[|xs| - 1]
  }

  /** A counter of a sum is the sum of the counters. */
  lemma {:induction false} FieldOfSum(values: seq<Stats>, f: nat)
    requires f < COUNTERS
    ensures Field(Sum(values), f) == Total(Fields(values, f))
  {
    if values == [] {
      FieldZero(f);
    } else {
      var init := values[..|values| - 1];
      FieldOfSum(init, f);
      FieldAdd(Sum(init), values[|values| - 1], f);
      assert Fields(values, f)[..|init|] == Fields(init, f);
    }
  }

  lemma {:induction false} TotalOfSame(xs: seq<nat>, x: nat)
    requires forall i :: 0 <= i < |xs| ==> xs[i] == x
    ensures Total(xs) == Times(|xs|, x)
  {
    if xs != [] {
      TotalOfSame(xs[..|xs| - 1], x);
    }
  }

  lemma {:induction false} TotalTimes(n: nat, xs: seq<nat>, ys: seq<nat>)
    requires |xs| == |ys| && forall i :: 0 <= i < |xs| ==> xs[i] == Times(n, ys[i])
    ensures Total(xs) == Times(n, Total(ys))
  {
    if xs == [] {
      TimesZero(n);
    } else {
      var last := |xs| - 1;
      TotalTimes(n, xs[..last], ys[..last]);
      TimesSum(n, Total(ys[..last]), ys[last]);
    }
  }

  /** N workers in closed form. */
  lemma FieldTimes(n: nat, cell: Cell, applied: bool, ns: nat, f: nat)
    requires Usable(cell) && f < COUNTERS
    ensures Field(TimesStats(n, cell, applied, ns), f) == Times(n, Field(WorkerStats(cell, applied, 0), f))
  {
  }

  /** What `run_cell` adds up: the results of the phases, which follow the result of the start. */
  function Returned(returned: seq<Stats>): Stats
    requires returned != []
  {
    Sum(returned[1..])
  }

  /** The counters of the phases, one by one. */
  function Bases(cell: Cell, applied: bool): (bases: seq<Stats>)
    requires 0 < cell.block
    ensures |bases| == |Script(applied)| && forall k :: 0 <= k < |bases| ==> bases[k] == Base(cell, Script(applied)[k])
  {
    var measured, flushed := Base(cell, Accepted), Base(cell, Applied);
    var rest := [Base(cell, Sync), Base(cell, Close), Base(cell, Verify)];
    if applied then [measured, flushed] + rest else [measured] + rest
  }

  /** The result of phase `k` is N times its counters. */
  lemma PhaseReturns(
    cell: Cell, key: nat, applied: bool, trace: seq<Action>, states: seq<State>, views: seq<seq<View>>, k: nat, f: nat)
    requires Usable(cell) && SessionRun(cell, key, applied, trace, states, views) && f < COUNTERS
    requires OnScript(states[|states| - 1], applied) && 1 <= k < |states[|states| - 1].returned| && k <= |Script(applied)|
    ensures Field(states[|states| - 1].returned[k], f) == Times(cell.workers, Field(Base(cell, Script(applied)[k - 1]), f))
  {
    var n, last, phase := cell.workers, |states| - 1, Script(applied)[k - 1];
    TeamTheorems.CollectReturnsTheSum(n, trace, states, last, k);
    var values := seq(n, w requires 0 <= w < n => states[last].workers[w].finished[k - 1]);
    forall w | 0 <= w < n ensures Field(values[w], f) == Field(Base(cell, phase), f) {
      RunAgrees(cell, key, applied, trace, states, views, last, w);
      FieldOfBase(cell, phase, values[w], f);
    }
    FieldOfSum(values, f);
    TotalOfSame(Fields(values, f), Field(Base(cell, phase), f));
  }

  lemma FieldOfBase(cell: Cell, phase: Phase, stats: Stats, f: nat)
    requires 0 < cell.block && f < COUNTERS && IsBase(cell, phase, stats)
    ensures Field(stats, f) == Field(Base(cell, phase), f)
  {
  }

  /** The phases of the script add up to a worker's counters. */
  lemma PhaseFieldsAddUp(cell: Cell, applied: bool, f: nat)
    requires 0 < cell.block && f < COUNTERS
    ensures Field(Base(cell, Accepted), f) + (if applied then Field(Base(cell, Applied), f) else 0)
            + Field(Base(cell, Sync), f) + Field(Base(cell, Close), f) + Field(Base(cell, Verify), f)
         == Field(WorkerStats(cell, applied, 0), f)
  {
    AllChunks(cell.bytes, cell.block);
  }

  lemma ScriptAddsUp(cell: Cell, applied: bool, f: nat)
    requires 0 < cell.block && f < COUNTERS
    ensures Total(Fields(Bases(cell, applied), f)) == Field(WorkerStats(cell, applied, 0), f)
  {
    PhaseFieldsAddUp(cell, applied, f);
    var xs := Fields(Bases(cell, applied), f);
    if applied {
      TotalOfFive(xs);
      assert xs[0] == Field(Base(cell, Accepted), f) && xs[1] == Field(Base(cell, Applied), f);
      assert xs[2] == Field(Base(cell, Sync), f) && xs[3] == Field(Base(cell, Close), f);
    } else {
      TotalOfFour(xs);
      assert xs[0] == Field(Base(cell, Accepted), f) && xs[1] == Field(Base(cell, Sync), f);
      assert xs[2] == Field(Base(cell, Close), f);
    }
  }

  lemma TotalOfFour(xs: seq<nat>)
    requires |xs| == 4
    ensures Total(xs) == xs[0] + xs[1] + xs[2] + xs[3]
  {
    var a, b, c := xs[..1], xs[..2], xs[..3];
    assert Total(a[..0]) == 0;
    assert Total(a) == xs[0];
    assert b[..1] == a && Total(b) == Total(a) + xs[1];
    assert c[..2] == b && Total(c) == Total(b) + xs[2];
  }

  lemma TotalOfFive(xs: seq<nat>)
    requires |xs| == 5
    ensures Total(xs) == xs[0] + xs[1] + xs[2] + xs[3] + xs[4]
  {
    TotalOfFour(xs[..4]);
  }

  /** Every schedule that finishes the round returns results that add up to N times the counters of one worker. */
  lemma RoundReturns(
    cell: Cell, round: nat, applied: bool, trace: seq<Action>, states: seq<State>, views: seq<seq<View>>)
    requires Usable(cell) && SessionRun(cell, PatternRound(cell, round), applied, trace, states, views)
    requires Finished(states[|states| - 1], applied)
    ensures |states[|states| - 1].returned| == |Script(applied)| + 1
    ensures var total := Returned(states[|states| - 1].returned);
            total == TimesStats(cell.workers, cell, applied, total.periodicFsyncNs)
  {
    var n, last, script := cell.workers, states[|states| - 1], Script(applied);
    ReturnedCount(n, trace, states, applied);
    var total := Returned(last.returned);
    forall f: nat | f < COUNTERS
      ensures Field(total, f) == Field(TimesStats(n, cell, applied, total.periodicFsyncNs), f)
    {
      RoundReturnsField(cell, PatternRound(cell, round), applied, trace, states, views, f);
      FieldTimes(n, cell, applied, total.periodicFsyncNs, f);
    }
    FieldsDetermine(total, TimesStats(n, cell, applied, total.periodicFsyncNs));
  }

  lemma RoundReturnsField(
    cell: Cell, key: nat, applied: bool, trace: seq<Action>, states: seq<State>, views: seq<seq<View>>, f: nat)
    requires Usable(cell) && SessionRun(cell, key, applied, trace, states, views) && f < COUNTERS
    requires Finished(states[|states| - 1], applied)
    requires |states[|states| - 1].returned| == |Script(applied)| + 1
    ensures Field(Returned(states[|states| - 1].returned), f)
         == Times(cell.workers, Field(WorkerStats(cell, applied, 0), f))
  {
    var n, results, bases := cell.workers, states[|states| - 1].returned[1..], Bases(cell, applied);
    var xs, ys := Fields(results, f), Fields(bases, f);
    forall k | 0 <= k < |xs| ensures xs[k] == Times(n, ys[k]) {
      PhaseReturns(cell, key, applied, trace, states, views, k + 1, f);
    }
    FieldOfSum(results, f);
    TotalTimes(n, xs, ys);
    ScriptAddsUp(cell, applied, f);
  }

  lemma ReturnedCount(n: nat, trace: seq<Action>, states: seq<State>, applied: bool)
    requires IsRun(n, trace, states) && Finished(states[|states| - 1], applied)
    ensures |states[|states| - 1].returned| == |Script(applied)| + 1
  {
    TeamInvariant.RunInv(n, trace, states, |states| - 1);
  }
}
