/** The inductive invariant of the worker team. */
module TeamInvariant {
  import opened Wrappers
  import opened PhaseStats
  import opened PhaseTeam

  /** How many successful events a worker has sent: the readiness event and one per phase. */
  function Sent(k: Worker): nat {
    if k.place.Unspawned? || k.place.Starting? || (k.failed && k.generation == 0) then 0
    else 1 + |k.finished|
  }

  /** A worker has run exactly the published phases up to its own generation; the last of them
      may still be running or may have failed. */
  predicate WorkerOk(k: Worker, issued: seq<Phase>, stopping: bool) {
    && k.generation <= |issued|
    && k.started == issued[..k.generation]
    && (k.failed ==> k.place.Crashed? || k.place.Exited?)
    && match k.place
       case Unspawned => k.generation == 0 && k.finished == []
       case Starting => k.generation == 0 && k.finished == []
       case Unlocked => |k.finished| == k.generation
       case Locked => |k.finished| == k.generation
       case Waiting => |k.finished| == k.generation
       case Running(p) => 1 <= k.generation && |k.finished| == k.generation - 1 && p == issued[k.generation - 1]
       case Crashed => k.failed && |k.finished| == (if k.generation == 0 then 0 else k.generation - 1)
       case Exited =>
         if k.failed then |k.finished| == (if k.generation == 0 then 0 else k.generation - 1)
         else |k.finished| == k.generation && stopping
  }

  predicate StopVisible(c: Coordinator) {
    (c.Stopping? && !c.stop.StopEntered?) || c.Joining? || c.Gone?
  }

  /** Facts about the command, the threads that exist and who holds the mutex. */
  predicate Shape(s: State) {
    && s.command.generation == |s.issued|
    && s.spawned <= |s.workers|
    && (forall w :: 0 <= w < |s.workers| ==> (s.workers[w].place.Unspawned? <==> s.spawned <= w))
    && (s.spawned < |s.workers| || s.coordinator.Spawning? ==> s.issued == [])
    && (s.coordinator.Collecting? || s.coordinator.Idle? || s.coordinator.Publishing? ==> s.spawned == |s.workers|)
    && (s.command.stopping <==> StopVisible(s.coordinator))
    && (s.coordinator.Joining? ==> s.coordinator.next <= s.spawned)
    && (if s.coordinator.Publishing? && s.coordinator.publish.PhaseSet? then s.command.phase == s.coordinator.phase
        else s.issued != [] ==> s.command.phase == s.issued[|s.issued| - 1])
    && (s.coordinator.Publishing? && (s.coordinator.publish.Bumped? || s.coordinator.publish.Notified?) ==>
          s.issued != [] && s.issued[|s.issued| - 1] == s.coordinator.phase)
  }

  predicate Mutex(s: State) {
    && (forall w :: 0 <= w < |s.workers| ==> (s.workers[w].place.Locked? <==> s.holder == HeldByWorker(w)))
    && (s.holder.HeldByWorker? ==> s.holder.worker < |s.workers|)
    && (s.holder.HeldByCoordinator? <==> s.coordinator.Publishing? || s.coordinator.Stopping?)
  }

  /** Between the write to the command and the notification a waiter may be out of date. */
  predicate NotifyPending(s: State) {
    || (s.coordinator.Publishing? && s.coordinator.publish.Bumped?)
    || (s.coordinator.Stopping? && s.coordinator.stop.StopSet?)
  }

  predicate WorkersOk(s: State) {
    forall w :: 0 <= w < |s.workers| ==> WorkerOk(s.workers[w], s.issued, s.command.stopping)
  }

  /** No lost wakeup: a blocked worker has nothing to do, unless the notification is yet to come. */
  predicate NoLostWakeup(s: State) {
    !NotifyPending(s) ==>
      forall w :: 0 <= w < |s.workers| && s.workers[w].place.Waiting? ==>
        s.workers[w].generation == s.command.generation && !s.command.stopping
  }

  /** The barrier: everyone has reported all rounds before the current one. */
  predicate Barrier(s: State) {
    forall w :: 0 <= w < |s.workers| ==> |s.issued| <= Sent(s.workers[w])
  }

  function Contribution(k: Worker, round: nat): Stats {
    if 1 <= round <= |k.finished| then k.finished[round - 1] else ZeroStats
  }

  function Results(ws: seq<Worker>, round: nat): seq<Stats> {
    seq(|ws|, i requires 0 <= i < |ws| => Contribution(ws[i], round))
  }

  predicate Accounted(s: State, k: nat)
    requires k < |s.returned|
  {
    && (forall w :: 0 <= w < |s.workers| ==> k <= |s.workers[w].finished|)
    && s.returned[k] == Sum(Results(s.workers, k))
  }

  predicate ReturnedOk(s: State) {
    forall k :: 0 <= k < |s.returned| ==> Accounted(s, k)
  }

  // ----- the current round: who has reported, and what is in the channel ------------------

  predicate Active(s: State) {
    s.coordinator.Spawning? || s.coordinator.Collecting? || s.coordinator.Idle? || s.coordinator.Publishing?
  }

  predicate Before(s: State) {
    s.coordinator.Publishing? && (s.coordinator.publish.Entered? || s.coordinator.publish.PhaseSet?)
  }

  /** Whether the coordinator has counted worker `w` in the round of the current generation. */
  predicate Seen(s: State, w: nat) {
    || (s.coordinator.Collecting? && w < |s.coordinator.collector.seen| && s.coordinator.collector.seen[w])
    || s.coordinator.Idle?
    || Before(s)
  }

  predicate InChannel(channel: seq<Event>, w: nat) {
    exists i :: 0 <= i < |channel| && channel[i].worker == w
  }

  function ExpectedPhase(s: State): Option<Phase> {
    if s.issued == [] then None else Some(s.issued[|s.issued| - 1])
  }

  predicate EventOk(s: State, e: Event) {
    && e.worker < |s.workers|
    && !Seen(s, e.worker)
    && var k := s.workers[e.worker];
       if e.result.Ok? then
         && Sent(k) == |s.issued| + 1
         && e.phase == ExpectedPhase(s)
         && e.result.value == Contribution(k, |s.issued|)
       else
         k.place.Exited? && k.failed
  }

  predicate RoundWorker(s: State, w: nat)
    requires w < |s.workers|
  {
    var k := s.workers[w];
    && (Sent(k) == |s.issued| || Sent(k) == |s.issued| + 1)
    && (Seen(s, w) ==> Sent(k) == |s.issued| + 1)
    && (!Seen(s, w) && (Sent(k) == |s.issued| + 1 || (k.place.Exited? && k.failed)) ==> InChannel(s.channel, w))
  }

  predicate ChannelOk(s: State) {
    && (forall i :: 0 <= i < |s.channel| ==> EventOk(s, s.channel[i]))
    && (forall i, j :: 0 <= i < j < |s.channel| ==> s.channel[i].worker != s.channel[j].worker)
  }

  predicate Round(s: State) {
    Active(s) ==>
      && (forall w :: 0 <= w < |s.workers| ==> RoundWorker(s, w))
      && ChannelOk(s)
      && s.failure.None?
      && |s.returned| == (if s.coordinator.Idle? || Before(s) then |s.issued| + 1 else |s.issued|)
  }

  function Count(flags: seq<bool>): nat {
    if flags == [] then 0 else Count(flags[..|flags| - 1]) + (if flags[|flags| - 1] then 1 else 0)
  }

  predicate CollectorOk(s: State) {
    s.coordinator.Collecting? ==>
      var c := s.coordinator.collector;
      && s.coordinator.expected == ExpectedPhase(s)
      && |c.seen| == |s.workers|
      && c.received == Count(c.seen)
      && c.total == SumWhere(Results(s.workers, |s.issued|), c.seen)
  }

  /** `collect` fails only because a worker did. */
  predicate FailureOk(s: State) {
    && (s.failure.Some? ==>
          || s.failure == Some(SpawnFailed)
          || (s.failure.value.WorkerFailed? && s.failure.value.worker < |s.workers|
              && s.workers[s.failure.value.worker].failed))
  }

  /** Threads already joined have exited. */
  predicate Joined(s: State) {
    forall w :: 0 <= w < s.spawned <= |s.workers| && (s.coordinator.Gone? || (s.coordinator.Joining? && w < s.coordinator.next)) ==>
      s.workers[w].place.Exited?
  }

  ghost predicate Inv(s: State) {
    && Joined(s)
    && Shape(s) && Mutex(s) && WorkersOk(s) && NoLostWakeup(s) && Barrier(s)
    && ReturnedOk(s) && Round(s) && CollectorOk(s) && FailureOk(s)
  }

  // ----- counting --------------------------------------------------------------------------

  lemma {:induction false} CountBound(flags: seq<bool>)
    ensures Count(flags) <= |flags|
    ensures Count(flags) == |flags| ==> forall i :: 0 <= i < |flags| ==> flags[i]
  {
    if flags != [] {
      CountBound(flags[..|flags| - 1]);
    }
  }

  lemma {:induction false} CountSet(flags: seq<bool>, w: nat)
    requires w < |flags| && !flags[w]
    ensures Count(flags[w := true]) == Count(flags) + 1
  {
    var last := |flags| - 1;
    if w == last {
      assert flags[w := true][..last] == flags[..last];
    } else {
      assert flags[w := true][..last] == flags[..last][w := true];
      CountSet(flags[..last], w);
    }
  }

  lemma {:induction false} CountNone(n: nat)
    ensures Count(seq(n, _ => false)) == 0
  {
    if n > 0 {
      assert seq(n, _ => false)[..n - 1] == seq(n - 1, _ => false);
      CountNone(n - 1);
    }
  }

  // ----- worker steps ----------------------------------------------------------------------

  lemma WorkerKeepsShape(s: State, w: nat, a: WorkerAction)
    requires Inv(s) && WorkerEnabled(s, w, a)
    ensures var s' := WorkerStep(s, w, a);
            Shape(s') && Mutex(s') && FailureOk(s') && Joined(s')
  {
    StepKeepsShape(s, w, a);
    StepKeepsMutex(s, w, a);
    StepKeepsFailures(s, w, a);
  }

  lemma StepKeepsShape(s: State, w: nat, a: WorkerAction)
    requires Shape(s) && WorkerEnabled(s, w, a)
    ensures Shape(WorkerStep(s, w, a))
  {
  }

  lemma StepKeepsMutex(s: State, w: nat, a: WorkerAction)
    requires Mutex(s) && WorkerEnabled(s, w, a)
    ensures Mutex(WorkerStep(s, w, a))
  {
  }

  lemma StepKeepsFailures(s: State, w: nat, a: WorkerAction)
    requires FailureOk(s) && Joined(s) && WorkerEnabled(s, w, a)
    ensures FailureOk(WorkerStep(s, w, a)) && Joined(WorkerStep(s, w, a))
  {
  }

  lemma WorkerKeepsWorkers(s: State, w: nat, a: WorkerAction)
    requires Inv(s) && WorkerEnabled(s, w, a)
    ensures WorkersOk(WorkerStep(s, w, a))
  {
    var s' := WorkerStep(s, w, a);
    assert WorkerOk(s.workers[w], s.issued, s.command.stopping);
    if a.Test? {
      var k := s.workers[w];
      assert |s.issued| <= Sent(k);
      if k.generation != s.command.generation && !s.command.stopping {
        assert k.generation + 1 == |s.issued|;
        assert s'.workers[w].started == s.issued[..|s.issued|];
      }
    }
    assert WorkerOk(s'.workers[w], s'.issued, s'.command.stopping);
  }

  lemma WorkerKeepsBarrier(s: State, w: nat, a: WorkerAction)
    requires Inv(s) && WorkerEnabled(s, w, a)
    ensures var s' := WorkerStep(s, w, a);
            NoLostWakeup(s') && Barrier(s')
  {
  }

  lemma WorkerKeepsReturned(s: State, w: nat, a: WorkerAction)
    requires Inv(s) && WorkerEnabled(s, w, a)
    ensures ReturnedOk(WorkerStep(s, w, a))
  {
    var s' := WorkerStep(s, w, a);
    forall k | 0 <= k < |s'.returned| ensures Accounted(s', k) {
      assert Accounted(s, k);
      assert Results(s'.workers, k) == Results(s.workers, k);
    }
  }

  lemma CollectorKept(s: State, s': State, w: nat)
    requires CollectorOk(s) && s'.coordinator == s.coordinator && s'.issued == s.issued
    requires |s'.workers| == |s.workers|
    requires forall v :: 0 <= v < |s.workers| && v != w ==> s'.workers[v] == s.workers[v]
    requires s.coordinator.Collecting? && w < |s.workers| && s.coordinator.collector.seen[w] ==>
               s'.workers[w].finished == s.workers[w].finished
    ensures CollectorOk(s')
  {
    if s.coordinator.Collecting? {
      SumWhereAgree(Results(s.workers, |s.issued|), Results(s'.workers, |s.issued|), s.coordinator.collector.seen);
    }
  }

  lemma WorkerKeepsCollector(s: State, w: nat, a: WorkerAction)
    requires CollectorOk(s) && Round(s) && WorkersOk(s) && WorkerEnabled(s, w, a)
    ensures CollectorOk(WorkerStep(s, w, a))
  {
    if s.coordinator.Collecting? && s.coordinator.collector.seen[w] {
      assert WorkerOk(s.workers[w], s.issued, s.command.stopping);
      assert RoundWorker(s, w);
    }
    CollectorKept(s, WorkerStep(s, w, a), w);
  }

  /** A step that sends nothing and does not change how much `w` has sent. */
  lemma QuietKeepsRound(s: State, s': State, w: nat)
    requires Round(s) && Active(s) && w < |s.workers|
    requires s'.coordinator == s.coordinator && s'.issued == s.issued && s'.channel == s.channel
    requires s'.failure == s.failure && s'.returned == s.returned
    requires |s'.workers| == |s.workers|
    requires forall v :: 0 <= v < |s.workers| && v != w ==> s'.workers[v] == s.workers[v]
    requires Sent(s'.workers[w]) == Sent(s.workers[w])
    requires s'.workers[w].finished == s.workers[w].finished
    requires s'.workers[w].place.Exited? == s.workers[w].place.Exited?
    requires s.workers[w].failed ==> s'.workers[w].failed
    requires s'.workers[w].place.Exited? ==> s.workers[w].failed == s'.workers[w].failed
    ensures Round(s')
  {
    forall v | 0 <= v < |s'.workers| ensures RoundWorker(s', v) {
      assert RoundWorker(s, v);
    }
    forall i | 0 <= i < |s'.channel| ensures EventOk(s', s'.channel[i]) {
      assert EventOk(s, s.channel[i]);
    }
  }

  /** A step in which `w` sends the one event the round still owes the coordinator. */
  lemma SendKeepsRound(s: State, s': State, w: nat, e: Event)
    requires Round(s) && Active(s) && w < |s.workers|
    requires s'.coordinator == s.coordinator && s'.issued == s.issued && s'.channel == s.channel + [e]
    requires s'.failure == s.failure && s'.returned == s.returned
    requires |s'.workers| == |s.workers|
    requires forall v :: 0 <= v < |s.workers| && v != w ==> s'.workers[v] == s.workers[v]
    requires Sent(s.workers[w]) == |s.issued| && !s.workers[w].place.Exited?
    requires Sent(s'.workers[w]) == |s.issued| || Sent(s'.workers[w]) == |s.issued| + 1
    requires e.worker == w && EventOk(s', e)
    ensures Round(s')
  {
    forall i | 0 <= i < |s.channel| ensures s.channel[i].worker != w && EventOk(s', s.channel[i]) {
      assert EventOk(s, s.channel[i]);
    }
    forall v | 0 <= v < |s'.workers| ensures RoundWorker(s', v) {
      assert RoundWorker(s, v);
      if v == w {
        assert s'.channel[|s.channel|].worker == w;
      } else if InChannel(s.channel, v) {
        var i :| 0 <= i < |s.channel| && s.channel[i].worker == v;
        assert s'.channel[i].worker == v;
      }
    }
  }

  lemma QuietWorkerKeepsRound(s: State, w: nat, a: WorkerAction)
    requires Round(s) && Shape(s) && WorkersOk(s) && Active(s) && WorkerEnabled(s, w, a)
    requires a.Acquire? || a.Test? || a.SpuriousWake? || a.Crash?
    ensures Round(WorkerStep(s, w, a))
  {
    assert WorkerOk(s.workers[w], s.issued, s.command.stopping);
    assert RoundWorker(s, w);
    QuietKeepsRound(s, WorkerStep(s, w, a), w);
  }

  lemma SendingWorkerKeepsRound(s: State, w: nat, a: WorkerAction)
    requires Round(s) && Shape(s) && WorkersOk(s) && Active(s) && WorkerEnabled(s, w, a)
    requires a.SendReady? || a.Complete? || a.SendFailure?
    ensures Round(WorkerStep(s, w, a))
  {
    var s' := WorkerStep(s, w, a);
    assert WorkerOk(s.workers[w], s.issued, s.command.stopping);
    assert RoundWorker(s, w);
    var e := s'.channel[|s.channel|];
    assert EventOk(s', e);
    SendKeepsRound(s, s', w, e);
  }

  lemma WorkerKeepsInv(s: State, w: nat, a: WorkerAction)
    requires Inv(s) && WorkerEnabled(s, w, a)
    ensures Inv(WorkerStep(s, w, a))
  {
    WorkerKeepsShape(s, w, a);
    WorkerKeepsWorkers(s, w, a);
    WorkerKeepsBarrier(s, w, a);
    WorkerKeepsReturned(s, w, a);
    WorkerKeepsCollector(s, w, a);
    if Active(s) {
      if a.SendReady? || a.Complete? || a.SendFailure? {
        SendingWorkerKeepsRound(s, w, a);
      } else {
        QuietWorkerKeepsRound(s, w, a);
      }
    }
  }

  // ----- coordinator steps ------------------------------------------------------------------

  lemma ReceiveKeepsRound(s: State)
    requires Round(s) && CollectorOk(s) && Enabled(s, Receive) && s.channel[0].result.Ok?
    ensures Next(s, Receive).coordinator.Collecting? && Round(Next(s, Receive))
  {
    var s' := Next(s, Receive);
    var e := s.channel[0];
    assert EventOk(s, e);
    forall v | 0 <= v < |s'.workers| ensures RoundWorker(s', v) {
      assert RoundWorker(s, v);
      if v != e.worker && InChannel(s.channel, v) {
        var i :| 0 <= i < |s.channel| && s.channel[i].worker == v;
        assert s'.channel[i - 1].worker == v;
      }
    }
    forall i | 0 <= i < |s'.channel| ensures EventOk(s', s'.channel[i]) {
      assert EventOk(s, s.channel[i + 1]);
      assert s.channel[i + 1].worker != e.worker;
    }
  }

  lemma ReceiveKeepsCollector(s: State)
    requires Round(s) && CollectorOk(s) && Enabled(s, Receive) && s.channel[0].result.Ok?
    ensures Next(s, Receive).coordinator.Collecting? && CollectorOk(Next(s, Receive))
  {
    var c := s.coordinator.collector;
    var e := s.channel[0];
    assert EventOk(s, e);
    CountSet(c.seen, e.worker);
    SumWhereChoose(Results(s.workers, |s.issued|), c.seen, e.worker);
  }

  lemma ReceiveKeepsInv(s: State)
    requires Inv(s) && Enabled(s, Receive)
    ensures Inv(Next(s, Receive))
  {
    var s' := Next(s, Receive);
    assert EventOk(s, s.channel[0]);
    if s.channel[0].result.Ok? {
      ReceiveKeepsCollector(s);
      ReceiveKeepsRound(s);
    }
    forall k | 0 <= k < |s'.returned| ensures Accounted(s', k) {
      assert Accounted(s, k);
    }
  }

  /** An all-exited team with an empty channel cannot happen while `collect` waits. */
  lemma NotClosed(s: State)
    requires Inv(s) && s.coordinator.Collecting? && s.coordinator.collector.received < |s.workers|
    requires s.channel == []
    ensures exists w :: 0 <= w < |s.workers| && Unfinished(s, w)
  {
    var c := s.coordinator.collector;
    CountBound(c.seen);
    if forall w :: 0 <= w < |s.workers| ==> c.seen[w] {
      CountAll(c.seen);
      assert false;
    }
    var w :| 0 <= w < |s.workers| && !c.seen[w];
    assert RoundWorker(s, w);
    assert WorkerOk(s.workers[w], s.issued, s.command.stopping);
    assert Unfinished(s, w);
  }

  /** A worker that owes the coordinator an event of the current round and is not blocked. */
  predicate Unfinished(s: State, w: nat)
    requires w < |s.workers|
  {
    var k := s.workers[w];
    || k.place.Starting? || k.place.Running? || k.place.Crashed?
    || ((k.place.Unlocked? || k.place.Locked?) && k.generation < |s.issued|)
  }

  lemma {:induction false} CountAll(flags: seq<bool>)
    requires forall i :: 0 <= i < |flags| ==> flags[i]
    ensures Count(flags) == |flags|
  {
    if flags != [] {
      CountAll(flags[..|flags| - 1]);
    }
  }

  lemma CollectDoneKeepsRound(s: State)
    requires Inv(s) && Enabled(s, CollectDone)
    ensures Round(Next(s, CollectDone))
    ensures forall v :: 0 <= v < |s.workers| ==> |s.issued| <= |s.workers[v].finished|
    ensures s.coordinator.collector.total == Sum(Results(s.workers, |s.issued|))
  {
    var s' := Next(s, CollectDone);
    var c := s.coordinator.collector;
    CountBound(c.seen);
    SumWhereAll(Results(s.workers, |s.issued|), c.seen);
    forall v | 0 <= v < |s'.workers| ensures RoundWorker(s', v) && |s.issued| <= |s'.workers[v].finished| {
      assert RoundWorker(s, v);
    }
    assert forall i :: 0 <= i < |s.channel| ==> EventOk(s, s.channel[i]);
  }

  lemma CollectDoneKeepsInv(s: State)
    requires Inv(s) && Enabled(s, CollectDone)
    ensures Inv(Next(s, CollectDone))
  {
    CollectDoneKeepsRound(s);
    CollectDoneKeepsReturned(s);
  }

  lemma CollectDoneKeepsReturned(s: State)
    requires ReturnedOk(s) && Enabled(s, CollectDone) && |s.returned| == |s.issued|
    requires forall v :: 0 <= v < |s.workers| ==> |s.issued| <= |s.workers[v].finished|
    requires s.coordinator.collector.total == Sum(Results(s.workers, |s.issued|))
    ensures ReturnedOk(Next(s, CollectDone))
  {
    var s' := Next(s, CollectDone);
    forall k | 0 <= k < |s'.returned| ensures Accounted(s', k) {
      if k < |s.returned| {
        assert Accounted(s, k);
      }
    }
  }

  lemma BumpKeepsInv(s: State)
    requires Inv(s) && Enabled(s, BumpGeneration)
    ensures Inv(Next(s, BumpGeneration))
  {
    var s' := Next(s, BumpGeneration);
    forall v | 0 <= v < |s'.workers|
      ensures RoundWorker(s', v) && |s'.issued| <= Sent(s'.workers[v])
      ensures WorkerOk(s'.workers[v], s'.issued, s'.command.stopping)
    {
      assert RoundWorker(s, v);
      assert WorkerOk(s.workers[v], s.issued, s.command.stopping);
      assert s'.issued[..s.workers[v].generation] == s.issued[..s.workers[v].generation];
    }
    assert forall i :: 0 <= i < |s.channel| ==> EventOk(s, s.channel[i]);
    forall k | 0 <= k < |s'.returned| ensures Accounted(s', k) {
      assert Accounted(s, k);
    }
  }

  ghost predicate Woken(s: State, s': State) {
    && Inv(s)
    && s'.workers == Wake(s.workers)
    && NotifyPending(s)
    && s'.coordinator ==
       (if s.coordinator.Publishing? then s.coordinator.(publish := Notified) else Stopping(StopNotified))
    && s' == s.(workers := s'.workers, coordinator := s'.coordinator)
  }

  lemma WakeKeepsWorkers(s: State, s': State)
    requires Woken(s, s')
    ensures Shape(s') && Mutex(s') && WorkersOk(s') && NoLostWakeup(s') && Barrier(s') && FailureOk(s')
  {
    forall v | 0 <= v < |s'.workers| ensures WorkerOk(s'.workers[v], s'.issued, s'.command.stopping) {
      assert WorkerOk(s.workers[v], s.issued, s.command.stopping);
    }
  }

  lemma WakeKeepsRound(s: State, s': State)
    requires Woken(s, s')
    ensures Round(s') && CollectorOk(s')
  {
    if Active(s) {
      forall v | 0 <= v < |s'.workers| ensures RoundWorker(s', v) {
        assert RoundWorker(s, v);
      }
      forall i | 0 <= i < |s'.channel| ensures EventOk(s', s'.channel[i]) {
        assert EventOk(s, s.channel[i]);
      }
    }
  }

  lemma WakeKeepsInv(s: State, s': State)
    requires Woken(s, s')
    ensures Inv(s')
  {
    WakeKeepsWorkers(s, s');
    WakeKeepsRound(s, s');
    forall k | 0 <= k < |s'.returned| ensures Accounted(s', k) {
      assert Accounted(s, k);
      assert Results(s'.workers, k) == Results(s.workers, k);
    }
  }

  /** Steps that change only the coordinator's position, keeping who has been counted. */
  predicate Moves(a: Action) {
    a.SpawnFails? || a.SpawnDone? || a.EnterPhase? || a.SetPhase? || a.LeavePhase? || a.BeginDrop?
    || a.EnterDrop? || a.SetStopping? || a.LeaveDrop? || a.Join? || a.JoinDone?
  }

  lemma MoveKeepsWorkers(s: State, a: Action)
    requires Inv(s) && Enabled(s, a) && Moves(a)
    ensures var s' := Next(s, a); Shape(s') && Mutex(s') && WorkersOk(s')
  {
    var s' := Next(s, a);
    forall v | 0 <= v < |s'.workers| ensures WorkerOk(s'.workers[v], s'.issued, s'.command.stopping) {
      assert WorkerOk(s.workers[v], s.issued, s.command.stopping);
    }
  }

  lemma MoveKeepsRound(s: State, a: Action)
    requires Round(s) && Shape(s) && Enabled(s, a) && Moves(a)
    ensures Round(Next(s, a))
  {
    var s' := Next(s, a);
    if Active(s') {
      forall v | 0 <= v < |s'.workers| ensures RoundWorker(s', v) {
        assert RoundWorker(s, v);
      }
      forall i | 0 <= i < |s'.channel| ensures EventOk(s', s'.channel[i]) {
        assert EventOk(s, s.channel[i]);
      }
    }
  }

  lemma MoveKeepsInv(s: State, a: Action)
    requires Inv(s) && Enabled(s, a) && Moves(a)
    ensures Inv(Next(s, a))
  {
    MoveKeepsWorkers(s, a);
    MoveKeepsRound(s, a);
    MoveKeepsReturned(s, a);
    MoveKeepsCollector(s, a);
  }

  lemma MoveKeepsReturned(s: State, a: Action)
    requires ReturnedOk(s) && Enabled(s, a) && Moves(a)
    ensures ReturnedOk(Next(s, a))
  {
    var s' := Next(s, a);
    forall k | 0 <= k < |s'.returned| ensures Accounted(s', k) {
      assert Accounted(s, k);
    }
  }

  lemma MoveKeepsCollector(s: State, a: Action)
    requires CollectorOk(s) && Shape(s) && Enabled(s, a) && Moves(a)
    ensures CollectorOk(Next(s, a))
  {
    var s' := Next(s, a);
    if s'.coordinator.Collecting? {
      CountNone(|s.workers|);
      SumWhereNone(Results(s'.workers, |s'.issued|), s'.coordinator.collector.seen);
    }
  }

  lemma SpawnKeepsInv(s: State)
    requires Inv(s) && Enabled(s, Spawn)
    ensures Inv(Next(s, Spawn))
  {
    var s' := Next(s, Spawn);
    forall v | 0 <= v < |s'.workers|
      ensures WorkerOk(s'.workers[v], s'.issued, s'.command.stopping) && RoundWorker(s', v)
    {
      assert WorkerOk(s.workers[v], s.issued, s.command.stopping);
      assert RoundWorker(s, v);
    }
    forall i | 0 <= i < |s'.channel| ensures EventOk(s', s'.channel[i]) {
      assert EventOk(s, s.channel[i]);
    }
  }

  /** Every step of every kind keeps the invariant. */
  lemma StepKeepsInv(s: State, a: Action)
    requires Inv(s) && Enabled(s, a)
    ensures Inv(Next(s, a))
  {
    match a
    case Work(w, act) => WorkerKeepsInv(s, w, act);
    case Spawn => SpawnKeepsInv(s);
    case Receive => ReceiveKeepsInv(s);
    case ReceiveClosed =>
      NotClosed(s);
      assert false;
    case CollectDone => CollectDoneKeepsInv(s);
    case BumpGeneration => BumpKeepsInv(s);
    case NotifyPhase => WakeKeepsInv(s, Next(s, a));
    case NotifyStopping => WakeKeepsInv(s, Next(s, a));
    case _ => MoveKeepsInv(s, a);
  }

  lemma InitInv(n: nat)
    ensures Inv(Init(n))
  {
  }

  /** The invariant holds in every state of every run. */
  lemma {:induction false} RunInv(n: nat, trace: seq<Action>, states: seq<State>, i: nat)
    requires IsRun(n, trace, states) && i < |states|
    ensures Inv(states[i]) && |states[i].workers| == n
  {
    if i == 0 {
      InitInv(n);
    } else {
      RunInv(n, trace, states, i - 1);
      assert Enabled(states[i - 1], trace[i - 1]);
      StepKeepsInv(states[i - 1], trace[i - 1]);
    }
  }
}
