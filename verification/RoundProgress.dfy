/** From every fault-free point of a round some schedule finishes it. */
module RoundProgress {
  import opened Wrappers
  import Bytes
  import opened PhaseStats
  import opened PhaseTeam
  import opened TeamInvariant
  import TeamTheorems
  import opened Plan
  import WorkerSession
  import opened Contents
  import opened InterleavedRound

  // ----- a state on its way ----------------------------------------------------------------------------------

  /** No fault has happened, and the coordinator follows the script. */
  predicate OnTrack(s: State, applied: bool) {
    && Active(s) && OnScript(s, applied) && s.failure.None?
    && (forall w :: 0 <= w < |s.workers| ==> !s.workers[w].failed)
    && (Before(s) ==> |s.issued| < |Script(applied)| && s.coordinator.phase == Script(applied)[|s.issued|])
  }

  /** The phases still to be published, the coordinator's place within the current one, and the steps left there. */
  function Stage(c: Coordinator): nat {
    match c
    case Spawning => 6
    case Publishing(_, Bumped) => 5
    case Publishing(_, Notified) => 4
    case Collecting(_, _) => 3
    case Idle => 2
    case Publishing(_, Entered) => 1
    case _ => 0
  }

  function Inner(s: State): nat {
    if s.coordinator.Spawning? then if s.spawned <= |s.workers| then |s.workers| - s.spawned else 0
    else TeamTheorems.Rank(s)
  }

  /** State `t` is closer to the end of the script than `s`. */
  predicate Closer(t: State, s: State) {
    || |s.issued| < |t.issued|
    || (|s.issued| == |t.issued| && Stage(t.coordinator) < Stage(s.coordinator))
    || (|s.issued| == |t.issued| && Stage(t.coordinator) == Stage(s.coordinator) && Inner(t) < Inner(s))
  }

  /** A step that brings the round closer to its end, with the counters of the phase it completes. */
  ghost predicate Advances(cell: Cell, applied: bool, s: State, a: Action)
    requires 0 < cell.block
  {
    && Enabled(s, a) && !TeamTheorems.IsFault(a)
    && (a.Work? && a.action.Complete? ==> a.action.stats == Base(cell, s.workers[a.worker].place.phase))
    && OnTrack(Next(s, a), applied) && Closer(Next(s, a), s)
  }

  // ----- the step, by the place of the coordinator -----------------------------------------------------------

  lemma Calm(s: State, a: Action)
    requires Inv(s) && Enabled(s, a) && !TeamTheorems.IsFault(a) && s.failure.None?
    requires forall w :: 0 <= w < |s.workers| ==> !s.workers[w].failed
    ensures Next(s, a).failure.None?
    ensures forall w :: 0 <= w < |Next(s, a).workers| ==> !Next(s, a).workers[w].failed
  {
    TeamTheorems.FaultFreeStep(s, a);
  }

  lemma SpawnAdvances(cell: Cell, applied: bool, s: State) returns (a: Action)
    requires 0 < cell.block && Inv(s) && OnTrack(s, applied) && s.coordinator.Spawning?
    ensures Advances(cell, applied, s, a)
  {
    a := if s.spawned < |s.workers| then Spawn else SpawnDone;
    Calm(s, a);
  }

  lemma PublishAdvances(cell: Cell, applied: bool, s: State) returns (a: Action)
    requires 0 < cell.block && Inv(s) && OnTrack(s, applied) && s.coordinator.Publishing?
    ensures Advances(cell, applied, s, a)
  {
    a := match s.coordinator.publish
         case Entered => SetPhase
         case PhaseSet => BumpGeneration
         case Bumped => NotifyPhase
         case Notified => LeavePhase;
    Calm(s, a);
    if a.BumpGeneration? {
      assert Script(applied)[..|s.issued| + 1] == Next(s, a).issued;
    }
  }

  /** A worker's step, with the counters its phase has. */
  lemma WorkerAdvances(cell: Cell, applied: bool, s: State, w: nat, act: WorkerAction) returns (a: Action)
    requires 0 < cell.block && Inv(s) && OnTrack(s, applied) && (s.coordinator.Idle? || s.coordinator.Collecting?)
    requires WorkerEnabled(s, w, act) && !act.SpuriousWake? && !act.Crash?
    ensures Advances(cell, applied, s, a)
  {
    var chosen := if act.Complete? then Complete(Base(cell, s.workers[w].place.phase)) else act;
    a := Work(w, chosen);
    Calm(s, a);
    TeamTheorems.WorkerStepLowersRank(s, w, chosen);
  }

  lemma IdleAdvances(cell: Cell, applied: bool, s: State) returns (a: Action)
    requires 0 < cell.block && Inv(s) && OnTrack(s, applied) && s.coordinator.Idle? && !Finished(s, applied)
    ensures Advances(cell, applied, s, a)
  {
    if s.holder.Free? {
      a := EnterPhase(Script(applied)[|s.issued|]);
      Calm(s, a);
    } else {
      a := WorkerAdvances(cell, applied, s, s.holder.worker, Test);
    }
  }

  /** Without a failed worker a receive is accepted. */
  lemma ReceiveAdvances(cell: Cell, applied: bool, s: State)
    requires 0 < cell.block && Inv(s) && OnTrack(s, applied) && s.coordinator.Collecting? && Enabled(s, Receive)
    ensures Advances(cell, applied, s, Receive)
  {
    Calm(s, Receive);
    TeamTheorems.CollectStep(s, Receive);
  }

  lemma DoneAdvances(cell: Cell, applied: bool, s: State)
    requires 0 < cell.block && Inv(s) && OnTrack(s, applied) && s.coordinator.Collecting? && Enabled(s, CollectDone)
    ensures Advances(cell, applied, s, CollectDone)
  {
    Calm(s, CollectDone);
  }

  lemma WaitAdvances(cell: Cell, applied: bool, s: State) returns (a: Action)
    requires 0 < cell.block && Inv(s) && OnTrack(s, applied) && s.coordinator.Collecting?
    requires s.coordinator.collector.received < |s.workers| && s.channel == []
    ensures Advances(cell, applied, s, a)
  {
    NotClosed(s);
    var w :| 0 <= w < |s.workers| && Unfinished(s, w);
    var v, act := TeamTheorems.SomeWorkerMoves(s, w);
    a := WorkerAdvances(cell, applied, s, v, act);
  }

  lemma CollectAdvances(cell: Cell, applied: bool, s: State) returns (a: Action)
    requires 0 < cell.block && Inv(s) && OnTrack(s, applied) && s.coordinator.Collecting?
    ensures Advances(cell, applied, s, a)
  {
    if s.coordinator.collector.received >= |s.workers| {
      a := CollectDone;
      DoneAdvances(cell, applied, s);
    } else if s.channel != [] {
      a := Receive;
      ReceiveAdvances(cell, applied, s);
    } else {
      a := WaitAdvances(cell, applied, s);
    }
  }

  /** Until the round is finished, some step without a fault brings it closer to its end. */
  lemma SomeStepAdvances(cell: Cell, applied: bool, s: State) returns (a: Action)
    requires 0 < cell.block && Inv(s) && OnTrack(s, applied) && !Finished(s, applied)
    ensures Advances(cell, applied, s, a)
  {
    match s.coordinator
    case Spawning => a := SpawnAdvances(cell, applied, s);
    case Collecting(_, _) => a := CollectAdvances(cell, applied, s);
    case Idle => a := IdleAdvances(cell, applied, s);
    case Publishing(_, _) => a := PublishAdvances(cell, applied, s);
  }

  // ----- schedules ---------------------------------------------------------------------------------------------

  /** A schedule with the states and the sessions beside it. */
  datatype Schedule = Schedule(trace: seq<Action>, states: seq<State>, views: seq<seq<WorkerSession.View>>)

  ghost predicate IsSchedule(cell: Cell, key: nat, applied: bool, x: Schedule)
    requires Usable(cell)
  {
    SessionRun(cell, key, applied, x.trace, x.states, x.views)
  }

  function Last(x: Schedule): State
    requires x.states != []
  {
    x.states[|x.states| - 1]
  }

  predicate Extends(y: Schedule, x: Schedule) {
    x.trace <= y.trace && x.states <= y.states && x.views <= y.views
  }

  /** The sessions after a step: a completed phase moves its session on, the others stay. */
  function ViewsAfter(cell: Cell, key: nat, applied: bool, s: State, a: Action, views: seq<WorkerSession.View>)
    : (r: seq<WorkerSession.View>)
    requires Usable(cell) && |views| == |s.workers|
    ensures |r| == |views|
  {
    seq(|views|, w requires 0 <= w < |views| =>
      if Completes(a, w) then After(cell, Data(cell, w, key), applied, |s.workers[w].finished| + 1)
      else views[w])
  }

  /** A worker that completes the phase it is in moves its session on by that phase. */
  lemma PhaseFollows(cell: Cell, data: seq<Bytes.Byte>, applied: bool, s: State, w: nat, v: WorkerSession.View)
    requires 0 < cell.block && |data| == cell.bytes && WorkersOk(s) && OnScript(s, applied)
    requires w < |s.workers| && s.workers[w].place.Running? && Agrees(cell, data, applied, s.workers[w], v)
    ensures var k := s.workers[w];
            && WorkerSession.Ready(cell, data, v, k.place.phase)
            && WorkerSession.Executes(cell, data, v, k.place.phase, Ok(Base(cell, k.place.phase)),
                                      After(cell, data, applied, |k.finished| + 1))
  {
    RunningNext(s, w, applied);
    ScriptMoves(cell, data, applied, |s.workers[w].finished|);
  }

  lemma SessionFollows(cell: Cell, key: nat, applied: bool, s: State, a: Action, w: nat, views: seq<WorkerSession.View>)
    requires Usable(cell) && WorkersOk(s) && OnTrack(s, applied)
    requires Advances(cell, applied, s, a) && w < |s.workers| == |views|
    requires Agrees(cell, Data(cell, w, key), applied, s.workers[w], views[w])
    ensures SessionStep(cell, Data(cell, w, key), s, a, w, views[w],
                        ViewsAfter(cell, key, applied, s, a, views)[w])
  {
    if Completes(a, w) {
      PhaseFollows(cell, Data(cell, w, key), applied, s, w, views[w]);
    }
  }

  /** A schedule and one more step. */
  lemma StepsSnoc(cell: Cell, key: nat, x: Schedule, a: Action, views: seq<WorkerSession.View>)
    requires Usable(cell) && SessionSteps(cell, key, x.trace, x.states, x.views)
    requires Enabled(Last(x), a) && |views| == cell.workers
    requires forall w :: 0 <= w < cell.workers ==>
               SessionStep(cell, Data(cell, w, key), Last(x), a, w, x.views[|x.views| - 1][w], views[w])
    ensures SessionSteps(cell, key, x.trace + [a], x.states + [Next(Last(x), a)], x.views + [views])
  {
  }

  lemma OneStep(cell: Cell, key: nat, applied: bool, x: Schedule, a: Action) returns (y: Schedule)
    requires Usable(cell) && IsSchedule(cell, key, applied, x) && OnTrack(Last(x), applied)
    requires Advances(cell, applied, Last(x), a)
    ensures IsSchedule(cell, key, applied, y) && Extends(y, x) && Last(y) == Next(Last(x), a)
  {
    var last := |x.states| - 1;
    RunOnScript(cell.workers, x.trace, x.states, applied, last);
    var views := ViewsAfter(cell, key, applied, Last(x), a, x.views[last]);
    y := Schedule(x.trace + [a], x.states + [Next(Last(x), a)], x.views + [views]);
    forall w | 0 <= w < cell.workers
      ensures SessionStep(cell, Data(cell, w, key), Last(x), a, w, x.views[last][w], views[w])
    {
      RunAgrees(cell, key, applied, x.trace, x.states, x.views, last, w);
      SessionFollows(cell, key, applied, Last(x), a, w, x.views[last]);
    }
    StepsSnoc(cell, key, x, a, views);
  }

  /** Every schedule without a fault so far can be continued to the end of the round. */
  lemma {:induction false} CanFinish(cell: Cell, key: nat, applied: bool, x: Schedule) returns (y: Schedule)
    requires Usable(cell) && IsSchedule(cell, key, applied, x) && OnTrack(Last(x), applied)
    ensures IsSchedule(cell, key, applied, y) && Extends(y, x) && Finished(Last(y), applied)
    decreases |Script(applied)| - |Last(x).issued|, Stage(Last(x).coordinator), Inner(Last(x))
  {
    if Finished(Last(x), applied) {
      y := x;
    } else {
      RunInv(cell.workers, x.trace, x.states, |x.states| - 1);
      var a := SomeStepAdvances(cell, applied, Last(x));
      var next := OneStep(cell, key, applied, x, a);
      y := CanFinish(cell, key, applied, next);
    }
  }

  /** The schedule before its first step. */
  function Start(cell: Cell, key: nat, applied: bool): Schedule
    requires Usable(cell)
  {
    Schedule([], [Init(cell.workers)],
             [seq(cell.workers, w requires 0 <= w < cell.workers =>
                    After(cell, Data(cell, w, key), applied, 0))])
  }

  /** Every round has a schedule that finishes it. */
  lemma RoundCanFinish(cell: Cell, key: nat, applied: bool) returns (x: Schedule)
    requires Usable(cell)
    ensures IsSchedule(cell, key, applied, x) && Finished(Last(x), applied)
  {
    x := CanFinish(cell, key, applied, Start(cell, key, applied));
  }
}
