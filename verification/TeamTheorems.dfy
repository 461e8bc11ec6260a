/** What the worker team guarantees in every run. */
module TeamTheorems {
  import opened Wrappers
  import opened PhaseStats
  import opened PhaseTeam
  import opened TeamInvariant

  // ----- phases --------------------------------------------------------------------------

  /** Each worker has executed exactly the published phases, in order, without skip, repeat or
      stale phase, and its generation is the coordinator's or one less. */
  lemma WorkersFollowPhases(n: nat, trace: seq<Action>, states: seq<State>, i: nat, w: nat)
    requires IsRun(n, trace, states) && i < |states| && w < n
    ensures |states[i].workers| == n
    ensures var s := states[i]; var k := s.workers[w];
            && s.command.generation == |s.issued|
            && k.generation <= s.command.generation <= k.generation + 1
            && k.started == s.issued[..k.generation]
            && |k.finished| <= |k.started| <= |k.finished| + 1
  {
    RunInv(n, trace, states, i);
    assert WorkerOk(states[i].workers[w], states[i].issued, states[i].command.stopping);
  }

  /** The barrier: whoever has started phase k + 1, everyone has finished phase k. */
  lemma NobodyRunsAhead(n: nat, trace: seq<Action>, states: seq<State>, i: nat, u: nat, v: nat, k: nat)
    requires IsRun(n, trace, states) && i < |states| && u < n && v < n
    ensures |states[i].workers| == n
    ensures k + 1 <= |states[i].workers[u].started| ==> k <= |states[i].workers[v].finished|
  {
    RunInv(n, trace, states, i);
    assert WorkerOk(states[i].workers[u], states[i].issued, states[i].command.stopping);
  }

  /** A successful `collect` of phase k means that all workers completed phase k, and it
      returned exactly the sum of their statistics. */
  lemma CollectReturnsTheSum(n: nat, trace: seq<Action>, states: seq<State>, i: nat, k: nat)
    requires IsRun(n, trace, states) && i < |states| && 1 <= k < |states[i].returned|
    ensures |states[i].workers| == n
    ensures forall w :: 0 <= w < n ==> k <= |states[i].workers[w].finished|
    ensures states[i].returned[k] == Sum(seq(n, w requires 0 <= w < n => states[i].workers[w].finished[k - 1]))
  {
    RunInv(n, trace, states, i);
    var s := states[i];
    assert Accounted(s, k);
    assert Results(s.workers, k) == seq(n, w requires 0 <= w < n => s.workers[w].finished[k - 1]);
  }

  // ----- failures ------------------------------------------------------------------------

  /** The duplicate/unexpected check and the closed-channel error of `collect` never fire,
      whatever the workers do: a failed call names a worker that failed. */
  lemma FailuresAreReal(n: nat, trace: seq<Action>, states: seq<State>, i: nat)
    requires IsRun(n, trace, states) && i < |states|
    ensures states[i].failure != Some(UnexpectedCompletion) && states[i].failure != Some(ChannelClosed)
    ensures states[i].failure.Some? && states[i].failure.value.WorkerFailed? ==>
              var w := states[i].failure.value.worker;
              w < |states[i].workers| && states[i].workers[w].failed
  {
    RunInv(n, trace, states, i);
  }

  predicate IsFault(a: Action) {
    a.SpawnFails? || (a.Work? && a.action.Crash?)
  }

  /** Without faults nothing fails. */
  lemma {:induction false} FaultFree(n: nat, trace: seq<Action>, states: seq<State>, i: nat)
    requires IsRun(n, trace, states) && i < |states|
    requires forall j :: 0 <= j < |trace| ==> !IsFault(trace[j])
    ensures states[i].failure.None?
    ensures forall w :: 0 <= w < |states[i].workers| ==> !states[i].workers[w].failed
  {
    if i > 0 {
      FaultFree(n, trace, states, i - 1);
      RunInv(n, trace, states, i - 1);
      RunInv(n, trace, states, i);
      var s, a := states[i - 1], trace[i - 1];
      assert Enabled(s, a) && !IsFault(a);
      FaultFreeStep(s, a);
    }
  }

  lemma FaultFreeStep(s: State, a: Action)
    requires Inv(s) && Enabled(s, a) && !IsFault(a) && s.failure.None?
    requires forall w :: 0 <= w < |s.workers| ==> !s.workers[w].failed
    ensures Next(s, a).failure.None?
    ensures forall w :: 0 <= w < |Next(s, a).workers| ==> !Next(s, a).workers[w].failed
  {
    FaultFreeWorkers(s, a);
    StepKeepsInv(s, a);
    OnlyWorkersFail(Next(s, a));
    SpawnNotFailed(s, a);
  }

  /** Without a fault no worker fails. */
  lemma FaultFreeWorkers(s: State, a: Action)
    requires Enabled(s, a) && !IsFault(a)
    requires forall w :: 0 <= w < |s.workers| ==> !s.workers[w].failed
    ensures forall w :: 0 <= w < |Next(s, a).workers| ==> !Next(s, a).workers[w].failed
  {
  }

  lemma OnlyWorkersFail(s: State)
    requires FailureOk(s) && forall w :: 0 <= w < |s.workers| ==> !s.workers[w].failed
    ensures s.failure.None? || s.failure == Some(SpawnFailed)
  {
  }

  lemma SpawnNotFailed(s: State, a: Action)
    requires Enabled(s, a) && !IsFault(a) && s.failure.None?
    ensures Next(s, a).failure != Some(SpawnFailed)
  {
  }

  // ----- progress ------------------------------------------------------------------------

  /** A step other than a spurious wakeup. */
  predicate Proper(a: Action) {
    !(a.Work? && a.action.SpuriousWake?)
  }

  /** A worker that holds the mutex, wants it, or is outside the wait can move without a fault, or the holder can. */
  lemma SomeWorkerMoves(s: State, w: nat) returns (v: nat, a: WorkerAction)
    requires Inv(s) && w < |s.workers| && !s.holder.HeldByCoordinator?
    requires !s.workers[w].place.Waiting? && !s.workers[w].place.Exited? && !s.workers[w].place.Unspawned?
    ensures WorkerEnabled(s, v, a) && !a.SpuriousWake? && !a.Crash?
  {
    v := w;
    match s.workers[w].place
    case Starting => a := SendReady;
    case Running(_) => a := Complete(ZeroStats);
    case Crashed => a := SendFailure;
    case Locked => a := Test;
    case Unlocked =>
      if s.holder.Free? {
        a := Acquire;
      } else {
        v := s.holder.worker;
        a := Test;
      }
  }

  /** While `collect` waits, an event is pending or some worker can step without a fault: no wakeup is lost. */
  lemma CollectNeverStuck(n: nat, trace: seq<Action>, states: seq<State>, i: nat)
    requires IsRun(n, trace, states) && i < |states|
    requires states[i].coordinator.Collecting?
    ensures
      || Enabled(states[i], CollectDone)
      || Enabled(states[i], Receive)
      || exists w, a :: WorkerEnabled(states[i], w, a) && !a.SpuriousWake? && !a.Crash?
  {
    RunInv(n, trace, states, i);
    var s := states[i];
    if s.coordinator.collector.received < |s.workers| && s.channel == [] {
      NotClosed(s);
      var w :| 0 <= w < |s.workers| && Unfinished(s, w);
      var v, a := SomeWorkerMoves(s, w);
    }
  }

  ghost predicate CanMove(s: State) {
    exists a :: Enabled(s, a) && Proper(a) && !IsFault(a)
  }

  lemma Moves(s: State, a: Action)
    requires Enabled(s, a) && Proper(a) && !IsFault(a)
    ensures CanMove(s)
  {}

  lemma TeardownCanMove(s: State)
    requires Inv(s) && (s.coordinator.Dropping? || s.coordinator.Stopping? || s.coordinator.Joining?)
    ensures CanMove(s)
  {
    match s.coordinator
    case Dropping => Moves(s, if s.holder.Free? then EnterDrop else Work(s.holder.worker, Test));
    case Stopping(stop) =>
      Moves(s, match stop case StopEntered => SetStopping case StopSet => NotifyStopping case StopNotified => LeaveDrop);
    case Joining(next) =>
      if next < s.spawned && !s.workers[next].place.Exited? {
        var v, a := SomeWorkerMoves(s, next);
        Moves(s, Work(v, a));
      } else {
        Moves(s, if next < s.spawned then Join else JoinDone);
      }
  }

  /** No deadlock: until the team is gone a proper step that is no fault is enabled. */
  lemma NeverStuck(n: nat, trace: seq<Action>, states: seq<State>, i: nat)
    requires IsRun(n, trace, states) && i < |states|
    requires !states[i].coordinator.Gone?
    ensures CanMove(states[i])
  {
    RunInv(n, trace, states, i);
    var s := states[i];
    match s.coordinator
    case Spawning => Moves(s, if s.spawned < |s.workers| then Spawn else SpawnDone);
    case Collecting(_, _) =>
      CollectNeverStuck(n, trace, states, i);
      if Enabled(s, CollectDone) {
        Moves(s, CollectDone);
      } else if Enabled(s, Receive) {
        Moves(s, Receive);
      } else {
        var w, a :| WorkerEnabled(s, w, a) && !a.SpuriousWake? && !a.Crash?;
        Moves(s, Work(w, a));
      }
    case Idle => Moves(s, BeginDrop);
    case Publishing(_, at) =>
      Moves(s, match at case Entered => SetPhase case PhaseSet => BumpGeneration
                        case Bumped => NotifyPhase case Notified => LeavePhase);
    case _ => TeardownCanMove(s);
  }

  // ----- termination ----------------------------------------------------------------------

  /** How far a worker is from being parked, counting the event it will send. */
  function WorkerRank(k: Worker, generation: nat): nat {
    match k.place
    case Unspawned => 0
    case Starting => 4
    case Unlocked => if k.generation < generation then 6 else 2
    case Locked => if k.generation < generation then 5 else 1
    case Waiting => 0
    case Running(_) => 4
    case Crashed => 2
    case Exited => 0
  }

  function SumRank(ws: seq<Worker>, generation: nat): nat {
    if ws == [] then 0 else SumRank(ws[..|ws| - 1], generation) + WorkerRank(ws[|ws| - 1], generation)
  }

  lemma {:induction false} SumRankUpdate(ws: seq<Worker>, generation: nat, w: nat, k: Worker)
    requires w < |ws|
    ensures SumRank(ws[w := k], generation) + WorkerRank(ws[w], generation)
         == SumRank(ws, generation) + WorkerRank(k, generation)
  {
    var last := |ws| - 1;
    if w == last {
      assert ws[w := k][..last] == ws[..last];
    } else {
      assert ws[w := k][..last] == ws[..last][w := k];
      SumRankUpdate(ws[..last], generation, w, k);
    }
  }

  function Rank(s: State): nat {
    SumRank(s.workers, s.command.generation) + |s.channel|
  }

  /** Every worker step but a spurious wakeup lowers the worker's own rank by more than what it sends. */
  lemma WorkerRankDrops(s: State, w: nat, a: WorkerAction)
    requires s.command.generation == |s.issued| && WorkerEnabled(s, w, a) && !a.SpuriousWake?
    requires WorkerOk(s.workers[w], s.issued, s.command.stopping) && |s.issued| <= Sent(s.workers[w])
    ensures var s' := WorkerStep(s, w, a);
            && |s'.workers| == |s.workers| && s'.workers == s.workers[w := s'.workers[w]]
            && s'.command == s.command
            && WorkerRank(s'.workers[w], s.command.generation) + |s'.channel|
                 < WorkerRank(s.workers[w], s.command.generation) + |s.channel|
  {
  }

  /** Every worker step but a spurious wakeup brings the round closer to its end. */
  lemma WorkerStepLowersRank(s: State, w: nat, a: WorkerAction)
    requires Inv(s) && WorkerEnabled(s, w, a) && !a.SpuriousWake?
    ensures Rank(WorkerStep(s, w, a)) < Rank(s)
  {
    assert WorkerOk(s.workers[w], s.issued, s.command.stopping);
    WorkerRankDrops(s, w, a);
    RankDrops(s, WorkerStep(s, w, a), w);
  }

  lemma RankDrops(s: State, s': State, w: nat)
    requires w < |s.workers| == |s'.workers| && s'.workers == s.workers[w := s'.workers[w]]
    requires s'.command == s.command
    requires WorkerRank(s'.workers[w], s.command.generation) + |s'.channel|
           < WorkerRank(s.workers[w], s.command.generation) + |s.channel|
    ensures Rank(s') < Rank(s)
  {
    SumRankUpdate(s.workers, s.command.generation, w, s'.workers[w]);
  }

  /** A spurious wakeup raises the rank by two: a waiting worker has nothing to do and goes back to waiting. */
  lemma SpuriousWakeRank(s: State, w: nat)
    requires Inv(s) && s.coordinator.Collecting? && WorkerEnabled(s, w, SpuriousWake)
    ensures Rank(WorkerStep(s, w, SpuriousWake)) == Rank(s) + 2
  {
    SumRankUpdate(s.workers, s.command.generation, w, s.workers[w].(place := Unlocked));
  }

  lemma CollectStep(s: State, a: Action)
    requires Inv(s) && s.coordinator.Collecting? && Enabled(s, a) && Next(s, a).coordinator.Collecting?
    ensures Rank(Next(s, a)) + 1 <= Rank(s) + if Proper(a) then 0 else 3
  {
    if a.Work? {
      if a.action.SpuriousWake? {
        SpuriousWakeRank(s, a.worker);
      } else {
        WorkerStepLowersRank(s, a.worker, a.action);
      }
    }
  }

  function SpuriousWakes(trace: seq<Action>): nat {
    if trace == [] then 0
    else SpuriousWakes(trace[..|trace| - 1]) + (if Proper(trace[|trace| - 1]) then 0 else 1)
  }

  /** The states from `i` to `j` are all inside `collect`. */
  predicate StaysCollecting(states: seq<State>, i: nat, j: nat)
    requires i <= j < |states|
  {
    states[j].coordinator.Collecting? && (i < j ==> StaysCollecting(states, i, j - 1))
  }

  /** `collect` ends: over any stretch of any schedule that stays inside it, the number of steps is bounded by
      the rank where it began and three for every spurious wakeup. */
  lemma {:induction false} CollectTerminates(n: nat, trace: seq<Action>, states: seq<State>, i: nat, j: nat)
    requires IsRun(n, trace, states) && i <= j < |states| && StaysCollecting(states, i, j)
    ensures Rank(states[j]) + (j - i) <= Rank(states[i]) + 3 * SpuriousWakes(trace[i..j])
    decreases j
  {
    if i < j {
      CollectTerminates(n, trace, states, i, j - 1);
      CollectRunStep(n, trace, states, j - 1);
      SpuriousSnoc(trace, i, j);
    }
  }

  lemma SpuriousSnoc(trace: seq<Action>, i: nat, j: nat)
    requires i < j <= |trace|
    ensures SpuriousWakes(trace[i..j]) == SpuriousWakes(trace[i..j - 1]) + if Proper(trace[j - 1]) then 0 else 1
  {
    assert trace[i..j][..j - 1 - i] == trace[i..j - 1];
  }

  lemma CollectRunStep(n: nat, trace: seq<Action>, states: seq<State>, i: nat)
    requires IsRun(n, trace, states) && i < |trace|
    requires states[i].coordinator.Collecting? && states[i + 1].coordinator.Collecting?
    ensures Rank(states[i + 1]) + 1 <= Rank(states[i]) + if Proper(trace[i]) then 0 else 3
  {
    RunInv(n, trace, states, i);
    assert Enabled(states[i], trace[i]);
    CollectStep(states[i], trace[i]);
  }

  predicate TearingDown(s: State) {
    (s.coordinator.Stopping? && s.coordinator.stop.StopNotified?) || s.coordinator.Joining? || s.coordinator.Gone?
  }

  function TeardownRank(s: State): nat {
    Rank(s) + match s.coordinator
              case Joining(next) => 1 + (if next <= s.spawned then s.spawned - next else 0)
              case Gone => 0
              case _ => 2 + s.spawned
  }

  lemma TeardownStep(s: State, a: Action)
    requires Inv(s) && TearingDown(s) && Enabled(s, a)
    ensures TearingDown(Next(s, a)) && TeardownRank(Next(s, a)) < TeardownRank(s)
  {
    if a.Work? {
      assert !NotifyPending(s);
      WorkerStepLowersRank(s, a.worker, a.action);
    }
  }

  /** After `drop` has notified, at most `TeardownRank` more steps of any kind are possible;
      with NeverStuck, every schedule therefore ends with the team gone. */
  lemma {:induction false} TeardownTerminates(n: nat, trace: seq<Action>, states: seq<State>, i: nat, j: nat)
    requires IsRun(n, trace, states) && i <= j < |states| && TearingDown(states[i])
    ensures TearingDown(states[j]) && TeardownRank(states[j]) + (j - i) <= TeardownRank(states[i])
    decreases j
  {
    if i < j {
      TeardownTerminates(n, trace, states, i, j - 1);
      TeardownRunStep(n, trace, states, j - 1);
    }
  }

  lemma TeardownRunStep(n: nat, trace: seq<Action>, states: seq<State>, i: nat)
    requires IsRun(n, trace, states) && i < |trace| && TearingDown(states[i])
    ensures TearingDown(states[i + 1]) && TeardownRank(states[i + 1]) < TeardownRank(states[i])
  {
    RunInv(n, trace, states, i);
    assert Enabled(states[i], trace[i]);
    TeardownStep(states[i], trace[i]);
  }

  /** When the team is gone every thread that was spawned has exited. */
  lemma GoneMeansExited(n: nat, trace: seq<Action>, states: seq<State>, i: nat)
    requires IsRun(n, trace, states) && i < |states| && states[i].coordinator.Gone?
    ensures |states[i].workers| == n
    ensures forall w :: 0 <= w < n ==> states[i].workers[w].place.Exited? || states[i].workers[w].place.Unspawned?
  {
    RunInv(n, trace, states, i);
  }

  lemma StoppedStep(s: State, a: Action, w: nat)
    requires Enabled(s, a) && s.command.stopping && StopVisible(s.coordinator) && w < |s.workers|
    ensures Next(s, a).command.stopping && |Next(s, a).workers| == |s.workers|
    ensures Next(s, a).workers[w].started == s.workers[w].started
  {
  }

  /** Once `stopping` is set no worker starts another phase: it exits after at most the phase
      it is in. */
  lemma {:induction false} NoPhaseAfterStop(
    n: nat, trace: seq<Action>, states: seq<State>, i: nat, j: nat, w: nat)
    requires IsRun(n, trace, states) && i <= j < |states| && states[i].command.stopping && w < n
    ensures |states[i].workers| == n == |states[j].workers|
    ensures states[j].command.stopping && states[j].workers[w].started == states[i].workers[w].started
    decreases j
  {
    if i < j {
      NoPhaseAfterStop(n, trace, states, i, j - 1, w);
      StoppingRunStep(n, trace, states, j - 1, w);
    } else {
      RunInv(n, trace, states, i);
    }
  }

  lemma StoppingRunStep(n: nat, trace: seq<Action>, states: seq<State>, i: nat, w: nat)
    requires IsRun(n, trace, states) && i < |trace| && states[i].command.stopping && w < |states[i].workers|
    ensures states[i + 1].command.stopping && |states[i + 1].workers| == |states[i].workers|
    ensures states[i + 1].workers[w].started == states[i].workers[w].started
  {
    RunInv(n, trace, states, i);
    assert Enabled(states[i], trace[i]);
    StoppedStep(states[i], trace[i], w);
  }
}
