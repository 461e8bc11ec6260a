/** The phase-barrier worker team of the guest payload, as a step machine. */
module PhaseTeam {
  import opened Wrappers
  import opened PhaseStats

  // `Team` drives N worker threads through phases with a mutex-protected command
  // (generation, phase, stopping), a condition variable and a channel of events.
  // Every lock operation, wait, notification, channel send and channel receive is one
  // step, any enabled step may come next, and workers may crash. The lemmas about it
  // hold in every state of every run.

  datatype Phase = Accepted | Applied | Sync | Close | Verify

  /** What a worker sends: `phase` is None for the readiness event and for failures. */
  datatype Event = Event(worker: nat, phase: Option<Phase>, result: Result<Stats>)

  datatype Command = Command(generation: nat, phase: Phase, stopping: bool)

  /** Where a worker thread is. `Unlocked` is about to take the mutex, `Locked` holds it and
      is about to test its wait condition, `Waiting` is blocked on the condition variable,
      `Crashed` has failed or panicked and has not yet sent its failure event. */
  datatype Place = Unspawned | Starting | Unlocked | Locked | Waiting | Running(phase: Phase) | Crashed | Exited

  /** `started` and `finished` are the worker's history: the phases it took from the command
      and the statistics of those it completed. */
  datatype Worker = Worker(place: Place, generation: nat, started: seq<Phase>, finished: seq<Stats>, failed: bool)

  datatype Holder = Free | HeldByWorker(worker: nat) | HeldByCoordinator

  /** The locals of `collect`. */
  datatype Collector = Collector(seen: seq<bool>, received: nat, total: Stats)

  /** Program points inside the critical sections of `phase` and of `drop`. */
  datatype Publish = Entered | PhaseSet | Bumped | Notified
  datatype Stop = StopEntered | StopSet | StopNotified

  datatype Coordinator =
    | Spawning
    | Collecting(expected: Option<Phase>, collector: Collector)
    | Idle
    | Publishing(phase: Phase, publish: Publish)
    | Dropping
    | Stopping(stop: Stop)
    | Joining(next: nat)
    | Gone

  datatype Failure = SpawnFailed | WorkerFailed(worker: nat) | UnexpectedCompletion | ChannelClosed

  /** `issued` are the phases published so far and `returned` the statistics of the successful
      `collect` calls: index 0 for the readiness barrier, index k for phase k. */
  datatype State = State(
    command: Command,
    holder: Holder,
    workers: seq<Worker>,
    spawned: nat,
    channel: seq<Event>,
    coordinator: Coordinator,
    failure: Option<Failure>,
    issued: seq<Phase>,
    returned: seq<Stats>)

  datatype WorkerAction =
    SendReady | Acquire | Test | SpuriousWake | Complete(stats: Stats) | Crash | SendFailure

  datatype Action =
    | Spawn | SpawnFails | SpawnDone
    | Receive | ReceiveClosed | CollectDone
    | EnterPhase(phase: Phase) | SetPhase | BumpGeneration | NotifyPhase | LeavePhase
    | BeginDrop | EnterDrop | SetStopping | NotifyStopping | LeaveDrop | Join | JoinDone
    | Work(worker: nat, action: WorkerAction)

  // ----- collect -----------------------------------------------------------------------

  datatype Taken = Accept(collector: Collector) | Reject(failure: Failure)

  function NewCollector(n: nat): Collector {
    Collector(seq(n, _ => false), 0, ZeroStats)
  }

  /** One iteration of the loop in `collect`, after the receive. */
  function Take(c: Collector, expected: Option<Phase>, e: Event): Taken {
    if e.result.Err? then Reject(WorkerFailed(e.worker))
    else if e.worker < |c.seen| && !c.seen[e.worker] && e.phase == expected then
      Accept(Collector(c.seen[e.worker := true], c.received + 1, Add(c.total, e.result.value)))
    else Reject(UnexpectedCompletion)
  }

  /** What `collect` accepts: one successful event of the expected phase from each worker. */
  predicate CompleteRound(events: seq<Event>, n: nat, expected: Option<Phase>) {
    && |events| == n
    && (forall i :: 0 <= i < n ==> events[i].result.Ok? && events[i].worker < n && events[i].phase == expected)
    && (forall i, j :: 0 <= i < j < n ==> events[i].worker != events[j].worker)
  }

  function Values(events: seq<Event>): seq<Stats>
    requires forall i :: 0 <= i < |events| ==> events[i].result.Ok?
  {
    seq(|events|, i requires 0 <= i < |events| => events[i].result.value)
  }

  /** The first `i` events have been accepted into `c`. */
  ghost predicate AcceptedSoFar(queue: seq<Event>, i: nat, expected: Option<Phase>, seen: seq<bool>)
    requires i <= |queue|
  {
    && (forall j :: 0 <= j < i ==>
          queue[j].result.Ok? && queue[j].worker < |seen| && queue[j].phase == expected && seen[queue[j].worker])
    && (forall j, k :: 0 <= j < k < i ==> queue[j].worker != queue[k].worker)
    && (forall w :: 0 <= w < |seen| && seen[w] ==> exists j :: 0 <= j < i && queue[j].worker == w)
  }

  /** The state of the loop after `i` events. */
  ghost predicate Collected(queue: seq<Event>, i: nat, n: nat, expected: Option<Phase>, c: Collector) {
    && i <= |queue| && |c.seen| == n
    && AcceptedSoFar(queue, i, expected, c.seen)
    && c.total == Sum(Values(queue[..i]))
  }

  /** `collect` over the events the channel delivers before it closes. */
  method Collect(n: nat, expected: Option<Phase>, queue: seq<Event>) returns (r: Result<Stats>)
    ensures r.Ok? <==> n <= |queue| && CompleteRound(queue[..n], n, expected)
    ensures r.Ok? ==> r.value == Sum(Values(queue[..n]))
  {
    var c := NewCollector(n);
    for i := 0 to n
      invariant Collected(queue, i, n, expected, c)
    {
      if i == |queue| {
        return Err;
      }
      match Take(c, expected, queue[i]) {
        case Accept(c') =>
          TakeCollects(queue, i, n, expected, c);
          c := c';
        case Reject(_) =>
          if n <= |queue| {
            RejectMeansIncomplete(queue, i, n, expected, c);
          }
          return Err;
      }
    }
    CollectedAll(queue, n, expected, c);
    r := Ok(c.total);
  }

  lemma TakeCollects(queue: seq<Event>, i: nat, n: nat, expected: Option<Phase>, c: Collector)
    requires i < |queue| && Collected(queue, i, n, expected, c) && Take(c, expected, queue[i]).Accept?
    ensures Collected(queue, i + 1, n, expected, Take(c, expected, queue[i]).collector)
  {
    TakeExtends(queue, i, expected, c.seen);
    SumGrows(queue, i);
  }

  lemma SumGrows(queue: seq<Event>, i: nat)
    requires i < |queue| && forall j :: 0 <= j <= i ==> queue[j].result.Ok?
    ensures Sum(Values(queue[..i + 1])) == Add(Sum(Values(queue[..i])), queue[i].result.value)
  {
    assert Values(queue[..i + 1])[..i] == Values(queue[..i]);
  }

  lemma CollectedAll(queue: seq<Event>, n: nat, expected: Option<Phase>, c: Collector)
    requires Collected(queue, n, n, expected, c)
    ensures CompleteRound(queue[..n], n, expected)
  {
  }

  lemma TakeExtends(queue: seq<Event>, i: nat, expected: Option<Phase>, seen: seq<bool>)
    requires i < |queue| && AcceptedSoFar(queue, i, expected, seen)
    requires queue[i].result.Ok? && queue[i].phase == expected
    requires queue[i].worker < |seen| && !seen[queue[i].worker]
    ensures AcceptedSoFar(queue, i + 1, expected, seen[queue[i].worker := true])
  {
  }

  lemma RejectMeansIncomplete(queue: seq<Event>, i: nat, n: nat, expected: Option<Phase>, c: Collector)
    requires i < n <= |queue| && |c.seen| == n
    requires AcceptedSoFar(queue, i, expected, c.seen) && Take(c, expected, queue[i]).Reject?
    ensures !CompleteRound(queue[..n], n, expected)
  {
  }

  // ----- the step relation --------------------------------------------------------------

  function Init(n: nat): State {
    State(Command(0, Accepted, false), Free, seq(n, _ => Worker(Unspawned, 0, [], [], false)), 0,
          [], Spawning, None, [], [])
  }

  predicate WorkerEnabled(s: State, w: nat, a: WorkerAction) {
    && w < |s.workers|
    && match a
       case SendReady => s.workers[w].place.Starting?
       case Acquire => s.workers[w].place.Unlocked? && s.holder.Free?
       case Test => s.workers[w].place.Locked?
       case SpuriousWake => s.workers[w].place.Waiting?
       case Complete(_) => s.workers[w].place.Running?
       case Crash => s.workers[w].place.Starting? || s.workers[w].place.Running?
       case SendFailure => s.workers[w].place.Crashed?
  }

  predicate Enabled(s: State, a: Action) {
    match a
    case Spawn => s.coordinator.Spawning? && s.spawned < |s.workers|
    case SpawnFails => s.coordinator.Spawning? && s.spawned < |s.workers|
    case SpawnDone => s.coordinator.Spawning? && s.spawned == |s.workers|
    case Receive => s.coordinator.Collecting? && s.coordinator.collector.received < |s.workers| && s.channel != []
    case ReceiveClosed =>
      && s.coordinator.Collecting? && s.coordinator.collector.received < |s.workers|
      && s.channel == [] && AllExited(s)
    case CollectDone => s.coordinator.Collecting? && s.coordinator.collector.received >= |s.workers|
    case EnterPhase(_) => s.coordinator.Idle? && s.holder.Free?
    case SetPhase => s.coordinator.Publishing? && s.coordinator.publish.Entered?
    case BumpGeneration => s.coordinator.Publishing? && s.coordinator.publish.PhaseSet?
    case NotifyPhase => s.coordinator.Publishing? && s.coordinator.publish.Bumped?
    case LeavePhase => s.coordinator.Publishing? && s.coordinator.publish.Notified?
    case BeginDrop => s.coordinator.Idle?
    case EnterDrop => s.coordinator.Dropping? && s.holder.Free?
    case SetStopping => s.coordinator.Stopping? && s.coordinator.stop.StopEntered?
    case NotifyStopping => s.coordinator.Stopping? && s.coordinator.stop.StopSet?
    case LeaveDrop => s.coordinator.Stopping? && s.coordinator.stop.StopNotified?
    case Join =>
      && s.coordinator.Joining? && s.coordinator.next < s.spawned <= |s.workers|
      && s.workers[s.coordinator.next].place.Exited?
    case JoinDone => s.coordinator.Joining? && s.coordinator.next >= s.spawned
    case Work(w, act) => WorkerEnabled(s, w, act)
  }

  predicate AllExited(s: State) {
    forall w :: 0 <= w < |s.workers| ==> s.workers[w].place.Unspawned? || s.workers[w].place.Exited?
  }

  function Wake(ws: seq<Worker>): seq<Worker> {
    seq(|ws|, i requires 0 <= i < |ws| => if ws[i].place.Waiting? then ws[i].(place := Unlocked) else ws[i])
  }

  /** The body of the worker's critical section: wait, leave because the team stops, or take
      the published phase. In each case the mutex is released. */
  function TestCommand(k: Worker, c: Command): Worker {
    if k.generation == c.generation && !c.stopping then k.(place := Waiting)
    else if c.stopping then k.(place := Exited)
    else k.(place := Running(c.phase), generation := c.generation, started := k.started + [c.phase])
  }

  function WorkerStep(s: State, w: nat, a: WorkerAction): State
    requires WorkerEnabled(s, w, a)
  {
    var k := s.workers[w];
    match a
    case SendReady =>
      s.(workers := s.workers[w := k.(place := Unlocked)],
         channel := s.channel + [Event(w, None, Ok(ZeroStats))])
    case Acquire =>
      s.(workers := s.workers[w := k.(place := Locked)], holder := HeldByWorker(w))
    case Test =>
      s.(workers := s.workers[w := TestCommand(k, s.command)], holder := Free)
    case SpuriousWake =>
      s.(workers := s.workers[w := k.(place := Unlocked)])
    case Complete(stats) =>
      s.(workers := s.workers[w := k.(place := Unlocked, finished := k.finished + [stats])],
         channel := s.channel + [Event(w, Some(k.place.phase), Ok(stats))])
    case Crash =>
      s.(workers := s.workers[w := k.(place := Crashed, failed := true)])
    case SendFailure =>
      s.(workers := s.workers[w := k.(place := Exited)],
         channel := s.channel + [Event(w, None, Err)])
  }

  function Next(s: State, a: Action): State
    requires Enabled(s, a)
  {
    match a
    case Spawn =>
      s.(workers := s.workers[s.spawned := s.workers[s.spawned].(place := Starting)], spawned := s.spawned + 1)
    case SpawnFails => s.(coordinator := Dropping, failure := Some(SpawnFailed))
    case SpawnDone => s.(coordinator := Collecting(None, NewCollector(|s.workers|)))
    case Receive =>
      (match Take(s.coordinator.collector, s.coordinator.expected, s.channel[0])
       case Accept(c) => s.(channel := s.channel[1..], coordinator := s.coordinator.(collector := c))
       case Reject(f) => s.(channel := s.channel[1..], coordinator := Dropping, failure := Some(f)))
    case ReceiveClosed => s.(coordinator := Dropping, failure := Some(ChannelClosed))
    case CollectDone => s.(coordinator := Idle, returned := s.returned + [s.coordinator.collector.total])
    case EnterPhase(p) => s.(holder := HeldByCoordinator, coordinator := Publishing(p, Entered))
    case SetPhase =>
      s.(command := s.command.(phase := s.coordinator.phase), coordinator := s.coordinator.(publish := PhaseSet))
    case BumpGeneration =>
      s.(command := s.command.(generation := s.command.generation + 1),
         issued := s.issued + [s.coordinator.phase],
         coordinator := s.coordinator.(publish := Bumped))
    case NotifyPhase => s.(workers := Wake(s.workers), coordinator := s.coordinator.(publish := Notified))
    case LeavePhase =>
      s.(holder := Free, coordinator := Collecting(Some(s.coordinator.phase), NewCollector(|s.workers|)))
    case BeginDrop => s.(coordinator := Dropping)
    case EnterDrop => s.(holder := HeldByCoordinator, coordinator := Stopping(StopEntered))
    case SetStopping => s.(command := s.command.(stopping := true), coordinator := Stopping(StopSet))
    case NotifyStopping => s.(workers := Wake(s.workers), coordinator := Stopping(StopNotified))
    case LeaveDrop => s.(holder := Free, coordinator := Joining(0))
    case Join => s.(coordinator := Joining(s.coordinator.next + 1))
    case JoinDone => s.(coordinator := Gone)
    case Work(w, act) => WorkerStep(s, w, act)
  }

  /** A run of a team of `n` workers under the schedule `trace`. */
  ghost predicate IsRun(n: nat, trace: seq<Action>, states: seq<State>) {
    && |states| == |trace| + 1
    && states[0] == Init(n)
    && forall i :: 0 <= i < |trace| ==> Enabled(states[i], trace[i]) && states[i + 1] == Next(states[i], trace[i])
  }
}
