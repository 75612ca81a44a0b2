/** The event router of `events/event_router.go` with its pool of workers, and the startup replay of
    `events/entry.go`, as a machine over all interleavings. The routing loop, every `doWork`
    goroutine, `Process`, and the Docker client that feeds (and may close) the listener each take one
    atomic step at a time. */
module EventPool {
  import opened ByteStrings
  import opened EventHandling
  import opened Positions

  datatype Config = Config(
    pool: nat,                  // size of the worker channel
    buffer: nat,                // size of the listener channel
    handlers: map<string, nat>, // handlers registered per status
    host: string,
    containers: seq<string>)    // listed at startup

  /** Where a `doWork` call is. */
  datatype Phase =
    | Started
    | Calling                     // between two handler calls
    | Inspecting                  // holding the lock
    | Creating(event: ContainerEvent)
    | Unlocking(outcome: Outcome)
    | Returning                   // about to give the token back
    | Finished

  /** A `doWork` call: its event (nil is `None`) and how its handler calls have ended so far. */
  datatype Job = Job(event: Option<Event>, phase: Phase, results: seq<Outcome>)

  datatype Router = Receiving | Holding(event: Option<Event>, timedOut: bool)

  /** `Process` with `next` events sent, returned, or dead with them sent. */
  datatype Replay = Replaying(next: nat) | Returned | Crashed(next: nat)

  /** What the listener has accepted, and from whom. */
  datatype Arrival = Live(event: Option<Event>) | Replayed(replay: Event)

  datatype State = State(
    accepted: seq<Arrival>,
    listener: seq<Option<Event>>,
    closed: bool,                // the Docker client has closed the listener
    nils: nat,                   // receives on the closed listener
    router: Router,
    idle: nat,                   // tokens in the worker channel
    jobs: seq<Job>,              // in the order of dispatch
    locks: set<string>,
    replay: Replay)

  predicate Init(c: Config, s: State) {
    s == State([], [], false, 0, Receiving, c.pool, [], {}, Replaying(0))
  }

  /** A send to the worker channel that has room for the token. */
  method PutToken(c: Config, workers: nat) returns (r: nat)
    requires workers < c.pool
    ensures r == workers + 1
  {
    r := workers + 1;
  }

  /** `NewEventRouter` fills the worker channel with one token per worker; none of these sends waits. */
  method NewEventRouter(c: Config) returns (s: State)
    ensures Init(c, s)
  {
    var workers := 0;
    for i := 0 to c.pool
      invariant workers == i
    {
      workers := PutToken(c, workers);
    }
    s := State([], [], false, 0, Receiving, workers, [], {}, Replaying(0));
  }

  // ----- sending to the listener -----------------------------------------------------------------------

  /** A send waits for room in the buffer or for the router to receive. */
  predicate CanSend(c: Config, s: State) {
    !s.closed && (|s.listener| < c.buffer || (s.listener == [] && s.router.Receiving?))
  }

  function Send(c: Config, s: State, e: Option<Event>): State {
    if |s.listener| < c.buffer then s.(listener := s.listener + [e])
    else s.(router := Holding(e, false))
  }

  predicate LiveEvent(c: Config, s: State, s': State, e: Option<Event>) {
    CanSend(c, s) && s' == Send(c, s, e).(accepted := s.accepted + [Live(e)])
  }

  predicate CloseListener(s: State, s': State) {
    !s.closed && s' == s.(closed := true)
  }

  function ReplayEvent(id: string): Event {
    Event("start", id, SIMULATED, 0)
  }

  predicate ReplaySend(c: Config, s: State, s': State) {
    && s.replay.Replaying? && s.replay.next < |c.containers| && CanSend(c, s)
    && var e := ReplayEvent(c.containers[s.replay.next]);
       s' == Send(c, s, Some(e)).(accepted := s.accepted + [Replayed(e)],
                                  replay := Replaying(s.replay.next + 1))
  }

  /** A send on a closed channel panics. */
  predicate ReplayCrash(c: Config, s: State, s': State) {
    && s.replay.Replaying? && s.replay.next < |c.containers| && s.closed
    && s' == s.(replay := Crashed(s.replay.next))
  }

  predicate ReplayReturn(c: Config, s: State, s': State) {
    s.replay.Replaying? && s.replay.next >= |c.containers| && s' == s.(replay := Returned)
  }

  // ----- the routing loop ----------------------------------------------------------------------------------

  predicate Receive(s: State, s': State) {
    && s.router.Receiving? && s.listener != []
    && s' == s.(router := Holding(s.listener[0], false), listener := s.listener[1..])
  }

  /** A receive on the closed and empty listener yields nil at once. */
  predicate ReceiveNil(s: State, s': State) {
    && s.router.Receiving? && s.listener == [] && s.closed
    && s' == s.(router := Holding(None, false), nils := s.nils + 1)
  }

  /** The timer is created once per event and fires once. */
  predicate Timeout(s: State, s': State) {
    && s.router.Holding? && !s.router.timedOut
    && s' == s.(router := Holding(s.router.event, true))
  }

  predicate Dispatch(s: State, s': State) {
    && s.router.Holding? && s.idle > 0
    && s' == s.(router := Receiving, idle := s.idle - 1,
                jobs := s.jobs + [Job(s.router.event, Started, [])])
  }

  // ----- doWork ----------------------------------------------------------------------------------------------

  /** The number of handler calls an event gets. */
  function Calls(c: Config, e: Option<Event>): nat {
    if e.None? then 0 else Registered(c.handlers, e.value.status)
  }

  predicate Mapped(c: Config, e: Option<Event>) {
    e.Some? && e.value.status in c.handlers
  }

  function Moved(s: State, j: nat, job: Job): State
    requires j < |s.jobs|
  {
    s.(jobs := s.jobs[j := job])
  }

  predicate Start(c: Config, s: State, s': State, j: nat)
    requires j < |s.jobs|
  {
    var job := s.jobs[j];
    && job.phase.Started?
    && s' == Moved(s, j, job.(phase := if Mapped(c, job.event) then Calling else Returning))
  }

  /** The loop over the handlers, up to the point where a call has its lock. */
  predicate Call(c: Config, s: State, s': State, j: nat)
    requires j < |s.jobs|
  {
    var job := s.jobs[j];
    && job.phase.Calling? && job.event.Some?
    && var e := job.event.value;
       s' == if |job.results| >= Calls(c, job.event) then Moved(s, j, job.(phase := Returning))
             else if e.from == SIMULATED then Moved(s, j, job.(results := job.results + [Skipped]))
             else if Key(e) in s.locks then Moved(s, j, job.(results := job.results + [Suppressed]))
             else Moved(s, j, job.(phase := Inspecting)).(locks := s.locks + {Key(e)})
  }

  predicate Inspect(c: Config, s: State, s': State, j: nat, inspection: Inspection)
    requires j < |s.jobs|
  {
    var job := s.jobs[j];
    && job.phase.Inspecting? && job.event.Some?
    && s' == Moved(s, j, job.(phase := if inspection.InspectError? then Unlocking(InspectFailed)
                                        else Creating(EventFor(c.host, job.event.value, inspection))))
  }

  predicate Create(s: State, s': State, j: nat, created: bool)
    requires j < |s.jobs|
  {
    var job := s.jobs[j];
    && job.phase.Creating?
    && s' == Moved(s, j, job.(phase := Unlocking(Sent(job.phase.event, created))))
  }

  predicate Unlock(s: State, s': State, j: nat)
    requires j < |s.jobs|
  {
    var job := s.jobs[j];
    && job.phase.Unlocking? && job.event.Some?
    && s' == Moved(s, j, job.(phase := Calling, results := job.results + [job.phase.outcome]))
             .(locks := s.locks - {Key(job.event.value)})
  }

  /** The deferred send of the token waits for room in the worker channel. */
  predicate GiveBack(c: Config, s: State, s': State, j: nat)
    requires j < |s.jobs|
  {
    var job := s.jobs[j];
    && job.phase.Returning? && s.idle < c.pool
    && s' == Moved(s, j, job.(phase := Finished)).(idle := s.idle + 1)
  }

  ghost predicate WorkStep(c: Config, s: State, s': State, j: nat)
    requires j < |s.jobs|
  {
    || Start(c, s, s', j) || Call(c, s, s', j) || Unlock(s, s', j) || GiveBack(c, s, s', j)
    || (exists inspection :: Inspect(c, s, s', j, inspection))
    || (exists created :: Create(s, s', j, created))
  }

  /** The steps of the program itself. */
  ghost predicate OwnStep(c: Config, s: State, s': State) {
    || ReplaySend(c, s, s') || ReplayCrash(c, s, s') || ReplayReturn(c, s, s')
    || Receive(s, s') || ReceiveNil(s, s') || Timeout(s, s') || Dispatch(s, s')
    || (exists j | 0 <= j < |s.jobs| :: WorkStep(c, s, s', j))
  }

  /** Nothing runs after a panic. */
  ghost predicate Step(c: Config, s: State, s': State) {
    && !s.replay.Crashed?
    && (OwnStep(c, s, s') || (exists e :: LiveEvent(c, s, s', e)) || CloseListener(s, s'))
  }

  /** Any number of steps from one state on. */
  ghost predicate Path(c: Config, path: seq<State>) {
    path != [] && forall i | 0 <= i < |path| - 1 :: Step(c, path[i], path[i + 1])
  }

  ghost predicate Run(c: Config, run: seq<State>) {
    Path(c, run) && Init(c, run[0])
  }

  /** What a step of `doWork` may change: its own job, the token it gives back at the end, and the lock
      it takes or frees. */
  ghost predicate WorkEffect(c: Config, s: State, s': State, j: nat) {
    && j < |s.jobs| && |s'.jobs| == |s.jobs|
    && var job, job' := s.jobs[j], s'.jobs[j];
    && s' == s.(jobs := s.jobs[j := job'], idle := s'.idle, locks := s'.locks)
    && job'.event == job.event && !job.phase.Finished?
    && s'.idle == (if job'.phase.Finished? then s.idle + 1 else s.idle)
    && (HoldsLock(job) || HoldsLock(job') ==> job.event.Some?)
    && (HoldsLock(job) == HoldsLock(job') ==> s'.locks == s.locks)
    && (!HoldsLock(job) && HoldsLock(job') ==>
          Key(job.event.value) !in s.locks && s'.locks == s.locks + {Key(job.event.value)})
    && (HoldsLock(job) && !HoldsLock(job') ==> s'.locks == s.locks - {Key(job.event.value)})
  }

  lemma WorkFrame(c: Config, s: State, s': State, j: nat)
    requires JobsInv(c, s) && j < |s.jobs| && WorkStep(c, s, s', j)
    ensures WorkEffect(c, s, s', j)
  {
    assert JobInv(c, s.jobs[j]);
  }

  // ----- tokens ----------------------------------------------------------------------------------------------

  function Busy(jobs: seq<Job>): nat {
    if jobs == [] then 0 else (if jobs[0].phase.Finished? then 0 else 1) + Busy(jobs[1..])
  }

  ghost predicate TokenInv(c: Config, s: State) {
    s.idle + Busy(s.jobs) == c.pool
  }

  lemma {:induction false} BusyAppend(jobs: seq<Job>, job: Job)
    ensures Busy(jobs + [job]) == Busy(jobs) + if job.phase.Finished? then 0 else 1
  {
    if jobs == [] {
    } else {
      BusyAppend(jobs[1..], job);
      assert (jobs + [job])[1..] == jobs[1..] + [job];
    }
  }

  lemma {:induction false} BusyUpdate(jobs: seq<Job>, j: nat, job: Job)
    requires j < |jobs|
    ensures Busy(jobs[j := job]) + (if jobs[j].phase.Finished? then 0 else 1) ==
            Busy(jobs) + if job.phase.Finished? then 0 else 1
  {
    if j == 0 {
      assert jobs[0 := job][1..] == jobs[1..];
    } else {
      BusyUpdate(jobs[1..], j - 1, job);
      assert jobs[j := job][1..] == jobs[1..][j - 1 := job];
    }
  }

  lemma TokenWork(c: Config, s: State, s': State, j: nat)
    requires TokenInv(c, s) && WorkEffect(c, s, s', j)
    ensures TokenInv(c, s')
  {
    BusyUpdate(s.jobs, j, s'.jobs[j]);
  }

  // ----- order -----------------------------------------------------------------------------------------------

  function Dispatched(jobs: seq<Job>): (r: seq<Option<Event>>)
    ensures |r| == |jobs| && forall j | 0 <= j < |jobs| :: r[j] == jobs[j].event
  {
    seq(|jobs|, j requires 0 <= j < |jobs| => jobs[j].event)
  }

  function Held(router: Router): seq<Option<Event>> {
    if router.Holding? then [router.event] else []
  }

  function Payload(a: Arrival): Option<Event> {
    if a.Live? then a.event else Some(a.replay)
  }

  function Payloads(accepted: seq<Arrival>): (r: seq<Option<Event>>)
    ensures |r| == |accepted| && forall i | 0 <= i < |accepted| :: r[i] == Payload(accepted[i])
  {
    seq(|accepted|, i requires 0 <= i < |accepted| => Payload(accepted[i]))
  }

  function Nils(n: nat): (r: seq<Option<Event>>)
    ensures |r| == n && forall i | 0 <= i < n :: r[i] == None
  {
    seq(n, _ => None)
  }

  /** Everything the router has dispatched, the event it holds and the buffered ones are the accepted
      events, in order; behind them only the nils of a closed listener. */
  ghost predicate FifoInv(c: Config, s: State) {
    && Dispatched(s.jobs) + Held(s.router) + s.listener == Payloads(s.accepted) + Nils(s.nils)
    && (s.nils > 0 ==> s.closed && s.listener == [])
    && |s.listener| <= c.buffer
  }

  lemma FifoSend(c: Config, s: State, s': State, a: Arrival)
    requires FifoInv(c, s) && CanSend(c, s)
    requires s'.accepted == s.accepted + [a] && s'.jobs == s.jobs && s'.nils == s.nils && s'.closed == s.closed
    requires s'.listener == Send(c, s, Payload(a)).listener && s'.router == Send(c, s, Payload(a)).router
    ensures FifoInv(c, s')
  {
    var sent, e := Dispatched(s.jobs) + Held(s.router) + s.listener, Payload(a);
    assert Dispatched(s'.jobs) + Held(s'.router) + s'.listener == sent + [e];
    assert Payloads(s'.accepted) == Payloads(s.accepted) + [e];
    assert Nils(s.nils) == [];
  }

  lemma FifoRoute(c: Config, s: State, s': State)
    requires FifoInv(c, s) && (Receive(s, s') || ReceiveNil(s, s') || Dispatch(s, s'))
    ensures FifoInv(c, s')
  {
    var before, after := Dispatched(s.jobs) + Held(s.router) + s.listener,
                         Dispatched(s'.jobs) + Held(s'.router) + s'.listener;
    if ReceiveNil(s, s') {
      assert after == before + [None];
      assert Nils(s'.nils) == Nils(s.nils) + [None];
    } else if Receive(s, s') {
      assert after == before;
    } else {
      assert Dispatched(s'.jobs) == Dispatched(s.jobs) + [s.router.event];
      assert after == before;
    }
  }

  lemma FifoWork(c: Config, s: State, s': State, j: nat)
    requires FifoInv(c, s) && WorkEffect(c, s, s', j)
    ensures FifoInv(c, s')
  {
    assert Dispatched(s'.jobs) == Dispatched(s.jobs);
  }

  // ----- jobs and locks --------------------------------------------------------------------------------------

  /** An outcome that some lock state, inspection and create call explain. */
  ghost predicate Explained(c: Config, e: Event, o: Outcome) {
    exists locked, inspection, created :: o == HandleOutcome(c.host, e, locked, inspection, created)
  }

  predicate HoldsLock(job: Job) {
    job.phase.Inspecting? || job.phase.Creating? || job.phase.Unlocking?
  }

  ghost predicate JobInv(c: Config, job: Job) {
    && (job.phase.Calling? || HoldsLock(job) ==> Mapped(c, job.event))
    && (job.results != [] ==> Mapped(c, job.event))
    && (forall o | o in job.results :: Explained(c, job.event.value, o))
    && match job.phase
       case Started => job.results == []
       case Calling => |job.results| <= Calls(c, job.event)
       case Returning => |job.results| == Calls(c, job.event)
       case Finished => |job.results| == Calls(c, job.event)
       case Inspecting => InCall(c, job)
       case Creating(event) =>
         InCall(c, job) && exists inspection :: event == EventFor(c.host, job.event.value, inspection) &&
                                               !inspection.InspectError?
       case Unlocking(o) =>
         InCall(c, job) && Explained(c, job.event.value, o) && (o.InspectFailed? || o.Sent?)
  }

  predicate InCall(c: Config, job: Job)
    requires job.event.Some?
  {
    |job.results| < Calls(c, job.event) && job.event.value.from != SIMULATED
  }

  ghost predicate JobsInv(c: Config, s: State) {
    forall j | 0 <= j < |s.jobs| :: JobInv(c, s.jobs[j])
  }

  lemma CallJobInv(c: Config, s: State, s': State, j: nat)
    requires JobsInv(c, s) && j < |s.jobs| && Call(c, s, s', j)
    ensures |s'.jobs| == |s.jobs| && JobInv(c, s'.jobs[j])
  {
    var job := s.jobs[j];
    assert JobInv(c, job);
    var e := job.event.value;
    if e.from == SIMULATED {
      assert HandleOutcome(c.host, e, false, NoSuchContainer, true) == Skipped;
    } else {
      assert HandleOutcome(c.host, e, true, NoSuchContainer, true) == Suppressed;
    }
  }

  lemma CreateJobInv(c: Config, s: State, s': State, j: nat, created: bool)
    requires JobsInv(c, s) && j < |s.jobs| && Create(s, s', j, created)
    ensures |s'.jobs| == |s.jobs| && JobInv(c, s'.jobs[j])
  {
    var job := s.jobs[j];
    assert JobInv(c, job);
    var inspection :| job.phase.event == EventFor(c.host, job.event.value, inspection) && !inspection.InspectError?;
    assert HandleOutcome(c.host, job.event.value, false, inspection, created) == Sent(job.phase.event, created);
  }

  lemma WorkJobInv(c: Config, s: State, s': State, j: nat)
    requires JobsInv(c, s) && j < |s.jobs| && WorkStep(c, s, s', j)
    ensures |s'.jobs| == |s.jobs| && JobInv(c, s'.jobs[j])
  {
    assert JobInv(c, s.jobs[j]);
    if Call(c, s, s', j) {
      CallJobInv(c, s, s', j);
    } else if exists created :: Create(s, s', j, created) {
      var created :| Create(s, s', j, created);
      CreateJobInv(c, s, s', j, created);
    } else if exists inspection :: Inspect(c, s, s', j, inspection) {
      assert HandleOutcome(c.host, s.jobs[j].event.value, false, InspectError, true) == InspectFailed;
    }
  }

  /** The locks are exactly the keys of the calls that are under way, one call for each. */
  ghost predicate LockInv(s: State) {
    && (forall j | 0 <= j < |s.jobs| && HoldsLock(s.jobs[j]) ::
          s.jobs[j].event.Some? && Key(s.jobs[j].event.value) in s.locks)
    && (forall j, k | 0 <= j < k < |s.jobs| && HoldsLock(s.jobs[j]) && HoldsLock(s.jobs[k]) ::
          Key(s.jobs[j].event.value) != Key(s.jobs[k].event.value))
    && (forall key | key in s.locks :: exists j :: Holder(s, j, key))
  }

  predicate Holder(s: State, j: int, key: string) {
    0 <= j < |s.jobs| && HoldsLock(s.jobs[j]) && s.jobs[j].event.Some? && Key(s.jobs[j].event.value) == key
  }

  lemma LockWork(c: Config, s: State, s': State, j: nat)
    requires LockInv(s) && WorkEffect(c, s, s', j)
    ensures LockInv(s')
  {
    forall key | key in s'.locks ensures exists k :: Holder(s', k, key) {
      if key in s.locks {
        var k :| Holder(s, k, key);
        assert Holder(s', k, key);
      } else {
        assert Holder(s', j, key);
      }
    }
  }

  lemma LockFrame(s: State, s': State, added: seq<Job>)
    requires LockInv(s) && s'.locks == s.locks && s'.jobs == s.jobs + added
    requires forall j | 0 <= j < |added| :: !HoldsLock(added[j])
    ensures LockInv(s')
  {
    forall key | key in s'.locks ensures exists k :: Holder(s', k, key) {
      var k :| Holder(s, k, key);
      assert Holder(s', k, key);
    }
  }

  // ----- replay ----------------------------------------------------------------------------------------------

  predicate IsReplay(a: Arrival) {
    a.Replayed?
  }

  function Replays(accepted: seq<Arrival>): seq<Arrival> {
    Filter(accepted, IsReplay)
  }

  function ReplayEvents(containers: seq<string>): (r: seq<Arrival>)
    ensures |r| == |containers| && forall i | 0 <= i < |containers| :: r[i] == Replayed(ReplayEvent(containers[i]))
  {
    seq(|containers|, i requires 0 <= i < |containers| => Replayed(ReplayEvent(containers[i])))
  }

  ghost predicate ReplayInv(c: Config, s: State) {
    match s.replay
    case Replaying(next) => next <= |c.containers| && Replays(s.accepted) == ReplayEvents(c.containers[..next])
    case Returned => Replays(s.accepted) == ReplayEvents(c.containers)
    case Crashed(next) =>
      && s.closed && next < |c.containers|
      && Replays(s.accepted) == ReplayEvents(c.containers[..next])
  }

  lemma ReplaysSnoc(accepted: seq<Arrival>, a: Arrival)
    ensures Replays(accepted + [a]) == Replays(accepted) + if a.Replayed? then [a] else []
  {
    assert (accepted + [a])[..|accepted|] == accepted;
  }

  lemma ReplayGrows(c: Config, s: State, s': State)
    requires ReplayInv(c, s) && ReplaySend(c, s, s')
    ensures ReplayInv(c, s')
  {
    var next := s.replay.next;
    ReplaysSnoc(s.accepted, Replayed(ReplayEvent(c.containers[next])));
    assert ReplayEvents(c.containers[..next + 1]) ==
           ReplayEvents(c.containers[..next]) + [Replayed(ReplayEvent(c.containers[next]))];
  }

  // ----- every reachable state -------------------------------------------------------------------------------

  ghost predicate Inv(c: Config, s: State) {
    TokenInv(c, s) && FifoInv(c, s) && JobsInv(c, s) && LockInv(s) && ReplayInv(c, s)
  }

  lemma WorkInv(c: Config, s: State, s': State, j: nat)
    requires Inv(c, s) && j < |s.jobs| && WorkStep(c, s, s', j)
    ensures Inv(c, s')
  {
    WorkFrame(c, s, s', j);
    TokenWork(c, s, s', j);
    FifoWork(c, s, s', j);
    WorkJobInv(c, s, s', j);
    LockWork(c, s, s', j);
  }

  lemma SendInv(c: Config, s: State, s': State, a: Arrival)
    requires Inv(c, s) && CanSend(c, s)
    requires s' == Send(c, s, Payload(a)).(accepted := s.accepted + [a], replay := s'.replay)
    requires ReplayInv(c, s')
    ensures Inv(c, s')
  {
    FifoSend(c, s, s', a);
    assert s'.jobs == s.jobs + [];
    LockFrame(s, s', []);
  }

  lemma LiveEventInv(c: Config, s: State, s': State, e: Option<Event>)
    requires Inv(c, s) && LiveEvent(c, s, s', e)
    ensures Inv(c, s')
  {
    ReplaysSnoc(s.accepted, Live(e));
    SendInv(c, s, s', Live(e));
  }

  lemma ReplaySendInv(c: Config, s: State, s': State)
    requires Inv(c, s) && ReplaySend(c, s, s')
    ensures Inv(c, s')
  {
    ReplayGrows(c, s, s');
    SendInv(c, s, s', Replayed(ReplayEvent(c.containers[s.replay.next])));
  }

  /** Steps that leave tokens, jobs and locks alone. */
  lemma FrameInv(c: Config, s: State, s': State)
    requires Inv(c, s) && s'.idle == s.idle && s'.jobs == s.jobs && s'.locks == s.locks
    requires FifoInv(c, s') && ReplayInv(c, s')
    ensures Inv(c, s')
  {
    assert s'.jobs == s.jobs + [];
    LockFrame(s, s', []);
  }

  lemma DispatchInv(c: Config, s: State, s': State)
    requires Inv(c, s) && Dispatch(s, s')
    ensures Inv(c, s')
  {
    var job := Job(s.router.event, Started, []);
    FifoRoute(c, s, s');
    BusyAppend(s.jobs, job);
    LockFrame(s, s', [job]);
  }

  lemma ReceiveInv(c: Config, s: State, s': State)
    requires Inv(c, s) && (Receive(s, s') || ReceiveNil(s, s'))
    ensures Inv(c, s')
  {
    FifoRoute(c, s, s');
    FrameInv(c, s, s');
  }

  lemma TimeoutInv(c: Config, s: State, s': State)
    requires Inv(c, s) && Timeout(s, s')
    ensures Inv(c, s')
  {
    assert Held(s'.router) == Held(s.router);
    FrameInv(c, s, s');
  }

  lemma CloseInv(c: Config, s: State, s': State)
    requires Inv(c, s) && CloseListener(s, s')
    ensures Inv(c, s')
  {
    FrameInv(c, s, s');
  }

  lemma ReplayEndInv(c: Config, s: State, s': State)
    requires Inv(c, s) && (ReplayCrash(c, s, s') || ReplayReturn(c, s, s'))
    ensures Inv(c, s')
  {
    if ReplayReturn(c, s, s') {
      assert c.containers[..s.replay.next] == c.containers;
    }
    FrameInv(c, s, s');
  }

  lemma StepInv(c: Config, s: State, s': State)
    requires Inv(c, s) && Step(c, s, s')
    ensures Inv(c, s')
  {
    if exists j: nat :: j < |s.jobs| && WorkStep(c, s, s', j) {
      var j: nat :| j < |s.jobs| && WorkStep(c, s, s', j);
      WorkInv(c, s, s', j);
    } else if exists e :: LiveEvent(c, s, s', e) {
      var e :| LiveEvent(c, s, s', e);
      LiveEventInv(c, s, s', e);
    } else if ReplaySend(c, s, s') {
      ReplaySendInv(c, s, s');
    } else if Dispatch(s, s') {
      DispatchInv(c, s, s');
    } else if Receive(s, s') || ReceiveNil(s, s') {
      ReceiveInv(c, s, s');
    } else if Timeout(s, s') {
      TimeoutInv(c, s, s');
    } else if CloseListener(s, s') {
      CloseInv(c, s, s');
    } else {
      ReplayEndInv(c, s, s');
    }
  }

  lemma {:induction false} RunInv(c: Config, run: seq<State>, i: nat)
    requires Run(c, run) && i < |run|
    ensures Inv(c, run[i])
  {
    if i == 0 {
    } else {
      RunInv(c, run, i - 1);
      StepInv(c, run[i - 1], run[i]);
    }
  }

  // ----- main results: tokens and order ------------------------------------------------------------------------

  lemma {:induction false} BusyAtLeastOne(jobs: seq<Job>, j: nat)
    requires j < |jobs| && !jobs[j].phase.Finished?
    ensures Busy(jobs) > 0
  {
    if j == 0 {
    } else {
      BusyAtLeastOne(jobs[1..], j - 1);
    }
  }

  /** `Busy` counts the calls under way. */
  lemma {:induction false} BusyIsCount(jobs: seq<Job>)
    ensures Busy(jobs) == |set j | 0 <= j < |jobs| && !jobs[j].phase.Finished?|
  {
    var under := set j | 0 <= j < |jobs| && !jobs[j].phase.Finished?;
    if jobs == [] {
      assert under == {};
    } else {
      var n := |jobs| - 1;
      var before := jobs[..n];
      BusyIsCount(before);
      assert jobs == before + [jobs[n]];
      BusyAppend(before, jobs[n]);
      var fewer := set j | 0 <= j < |before| && !before[j].phase.Finished?;
      if jobs[n].phase.Finished? {
        assert under == fewer;
      } else {
        assert under == fewer + {n};
      }
    }
  }

  /** Token conservation: the idle tokens and the calls of `doWork` under way always make up the pool, so no
      more than `pool` calls run at once and giving a token back never waits. */
  lemma TokenConservation(c: Config, run: seq<State>, i: nat)
    requires Run(c, run) && i < |run|
    ensures var s := run[i];
            && s.idle + |set j | 0 <= j < |s.jobs| && !s.jobs[j].phase.Finished?| == c.pool
            && forall j | 0 <= j < |s.jobs| && s.jobs[j].phase.Returning? :: s.idle < c.pool
  {
    RunInv(c, run, i);
    var s := run[i];
    BusyIsCount(s.jobs);
    forall j | 0 <= j < |s.jobs| && s.jobs[j].phase.Returning? ensures s.idle < c.pool {
      BusyAtLeastOne(s.jobs, j);
    }
  }

  /** Position `k` of everything the router has dispatched, holds or has buffered. */
  lemma InTransitAt(s: State, k: nat)
    requires k < |s.jobs| + |Held(s.router)| + |s.listener|
    ensures (Dispatched(s.jobs) + Held(s.router) + s.listener)[k] ==
            if k < |s.jobs| then s.jobs[k].event
            else if k < |s.jobs| + |Held(s.router)| then s.router.event
            else s.listener[k - |s.jobs| - |Held(s.router)|]
  {
  }

  ghost predicate SameEvent(e: Option<Event>, accepted: seq<Arrival>, k: nat) {
    if k >= |accepted| then e.None?
    else match accepted[k]
      case Live(event) => e == event
      case Replayed(event) => e == Some(event)
  }

  lemma InOrder(c: Config, s: State, k: nat)
    requires FifoInv(c, s) && k < |s.jobs| + |Held(s.router)| + |s.listener|
    ensures SameEvent((Dispatched(s.jobs) + Held(s.router) + s.listener)[k], s.accepted, k)
  {
    assert (Dispatched(s.jobs) + Held(s.router) + s.listener)[k] == (Payloads(s.accepted) + Nils(s.nils))[k];
  }

  /** Job `k`, or the event the router holds, or a buffered event, is the accepted event `k`; behind those,
      once the listener is closed, only nils follow. */
  ghost predicate DispatchedInOrder(s: State) {
    var held := if s.router.Holding? then 1 else 0;
    && |s.jobs| + held + |s.listener| == |s.accepted| + s.nils
    && (s.nils > 0 ==> s.closed)
    && (forall k | 0 <= k < |s.jobs| :: SameEvent(s.jobs[k].event, s.accepted, k))
    && (s.router.Holding? ==> SameEvent(s.router.event, s.accepted, |s.jobs|))
    && (forall k | 0 <= k < |s.listener| :: SameEvent(s.listener[k], s.accepted, |s.jobs| + held + k))
  }

  lemma InTransit(c: Config, s: State)
    requires FifoInv(c, s)
    ensures DispatchedInOrder(s)
  {
    var held := |Held(s.router)|;
    assert |Dispatched(s.jobs) + Held(s.router) + s.listener| == |Payloads(s.accepted) + Nils(s.nils)|;
    forall k | 0 <= k < |s.jobs| ensures SameEvent(s.jobs[k].event, s.accepted, k) {
      InOrder(c, s, k);
      InTransitAt(s, k);
    }
    if s.router.Holding? {
      InOrder(c, s, |s.jobs|);
      InTransitAt(s, |s.jobs|);
    }
    forall k | 0 <= k < |s.listener| ensures SameEvent(s.listener[k], s.accepted, |s.jobs| + held + k) {
      InOrder(c, s, |s.jobs| + held + k);
      InTransitAt(s, |s.jobs| + held + k);
    }
  }

  /** Exactly-once dispatch in order, at every moment of every run. */
  lemma ExactlyOnceDispatch(c: Config, run: seq<State>, i: nat)
    requires Run(c, run) && i < |run|
    ensures DispatchedInOrder(run[i])
  {
    RunInv(c, run, i);
    InTransit(c, run[i]);
  }

  /** A call that has finished has called every handler registered for its event's status once, and none if
      there is none. */
  lemma EveryHandlerOnce(c: Config, run: seq<State>, i: nat, j: nat)
    requires Run(c, run) && i < |run| && j < |run[i].jobs| && run[i].jobs[j].phase.Finished?
    ensures var e, results := run[i].jobs[j].event, run[i].jobs[j].results;
            if e.Some? && e.value.status in c.handlers then |results| == c.handlers[e.value.status]
            else results == []
  {
    RunInv(c, run, i);
    assert JobInv(c, run[i].jobs[j]);
  }

  lemma StepAccepts(c: Config, s: State, s': State)
    requires Step(c, s, s')
    ensures s.accepted <= s'.accepted
  {
    if exists j | 0 <= j < |s.jobs| :: WorkStep(c, s, s', j) {
      var j :| 0 <= j < |s.jobs| && WorkStep(c, s, s', j);
      assert s'.accepted == s.accepted;
    }
  }

  lemma {:induction false} StaysAlong(c: Config, path: seq<State>, k: nat, i: nat, p: State -> bool)
    requires Path(c, path) && k <= i < |path| && p(path[k])
    requires forall s, s' | Step(c, s, s') && p(s) :: p(s')
    ensures p(path[i])
  {
    if i == k {
    } else {
      StaysAlong(c, path, k, i - 1, p);
      assert Step(c, path[i - 1], path[i]);
    }
  }

  lemma AcceptedGrows(c: Config, run: seq<State>, k: nat, i: nat)
    requires Path(c, run) && k <= i < |run|
    ensures run[k].accepted <= run[i].accepted
  {
    var accepted := run[k].accepted;
    var p := (s: State) => accepted <= s.accepted;
    forall s, s' | Step(c, s, s') && p(s) ensures p(s') {
      StepAccepts(c, s, s');
    }
    StaysAlong(c, run, k, i, p);
  }

  /** An event that step `k` puts on the listener is event number `|accepted|` for good: the call with that
      number gets it, and there is such a call once an open listener is empty and the router receives. When
      that call has finished, every handler of the event's status has been called once. */
  lemma EveryEventIsHandled(c: Config, run: seq<State>, k: nat, i: nat, e: Option<Event>)
    requires Run(c, run) && k < i < |run| && LiveEvent(c, run[k], run[k + 1], e)
    ensures var s, n := run[i], |run[k].accepted|;
            && (!s.closed && s.router.Receiving? && s.listener == [] ==> n < |s.jobs|)
            && (n < |s.jobs| ==> s.jobs[n].event == e)
            && (n < |s.jobs| && s.jobs[n].phase.Finished? && e.Some? && e.value.status in c.handlers ==>
                  |s.jobs[n].results| == c.handlers[e.value.status])
  {
    var n := |run[k].accepted|;
    AcceptedGrows(c, run, k + 1, i);
    assert run[i].accepted[n] == run[k + 1].accepted[n] == Live(e);
    ExactlyOnceDispatch(c, run, i);
    if n < |run[i].jobs| {
      assert SameEvent(run[i].jobs[n].event, run[i].accepted, n);
      if run[i].jobs[n].phase.Finished? {
        EveryHandlerOnce(c, run, i, n);
      }
    }
  }

  // ----- main results: draining --------------------------------------------------------------------------------

  /** The steps a job still needs. */
  function JobCost(c: Config, job: Job): nat {
    var left := Calls(c, job.event) - |job.results|;
    var cost := match job.phase
      case Started => 4 * left + 3
      case Calling => 4 * left + 2
      case Inspecting => 4 * left + 1
      case Creating(_) => 4 * left
      case Unlocking(_) => 4 * left - 1
      case Returning => 1
      case Finished => 0;
    if cost < 0 then 0 else cost
  }

  function JobsCost(c: Config, jobs: seq<Job>): nat {
    if jobs == [] then 0 else JobCost(c, jobs[0]) + JobsCost(c, jobs[1..])
  }

  function EventCost(c: Config, e: Option<Event>): nat {
    4 * Calls(c, e) + 6
  }

  function ListenerCost(c: Config, listener: seq<Option<Event>>): nat {
    if listener == [] then 0 else EventCost(c, listener[0]) + ListenerCost(c, listener[1..])
  }

  function RouterCost(c: Config, router: Router): nat {
    match router
    case Receiving => 0
    case Holding(e, timedOut) => EventCost(c, e) - if timedOut then 2 else 1
  }

  function ReplayCost(c: Config, left: nat): nat {
    if left == 0 then 1 else 1 + EventCost(c, Some(ReplayEvent(""))) + ReplayCost(c, left - 1)
  }

  function Measure(c: Config, s: State): nat {
    JobsCost(c, s.jobs) + ListenerCost(c, s.listener) + RouterCost(c, s.router) +
    if s.replay.Replaying? && s.replay.next <= |c.containers|
    then ReplayCost(c, |c.containers| - s.replay.next) else 0
  }

  lemma {:induction false} JobsCostUpdate(c: Config, jobs: seq<Job>, j: nat, job: Job)
    requires j < |jobs|
    ensures JobsCost(c, jobs[j := job]) + JobCost(c, jobs[j]) == JobsCost(c, jobs) + JobCost(c, job)
  {
    if j == 0 {
      assert jobs[0 := job][1..] == jobs[1..];
    } else {
      JobsCostUpdate(c, jobs[1..], j - 1, job);
      assert jobs[j := job][1..] == jobs[1..][j - 1 := job];
    }
  }

  lemma {:induction false} JobsCostAppend(c: Config, jobs: seq<Job>, job: Job)
    ensures JobsCost(c, jobs + [job]) == JobsCost(c, jobs) + JobCost(c, job)
  {
    if jobs == [] {
    } else {
      JobsCostAppend(c, jobs[1..], job);
      assert (jobs + [job])[1..] == jobs[1..] + [job];
    }
  }

  lemma {:induction false} ListenerCostAppend(c: Config, listener: seq<Option<Event>>, e: Option<Event>)
    ensures ListenerCost(c, listener + [e]) == ListenerCost(c, listener) + EventCost(c, e)
  {
    if listener == [] {
    } else {
      ListenerCostAppend(c, listener[1..], e);
      assert (listener + [e])[1..] == listener[1..] + [e];
    }
  }

  lemma WorkDescends(c: Config, s: State, s': State, j: nat)
    requires JobsInv(c, s) && j < |s.jobs| && WorkStep(c, s, s', j)
    ensures Measure(c, s') < Measure(c, s)
  {
    WorkFrame(c, s, s', j);
    WorkJobInv(c, s, s', j);
    JobCostDescends(c, s, s', j);
    JobsCostUpdate(c, s.jobs, j, s'.jobs[j]);
  }

  lemma JobCostDescends(c: Config, s: State, s': State, j: nat)
    requires JobsInv(c, s) && j < |s.jobs| && WorkStep(c, s, s', j)
    ensures |s'.jobs| == |s.jobs| && JobCost(c, s'.jobs[j]) < JobCost(c, s.jobs[j])
  {
    assert JobInv(c, s.jobs[j]);
  }

  /** With the listener open and no new events, every step brings the pool closer to rest; a timeout
      happens at most once per event. */
  lemma StepsDescend(c: Config, s: State, s': State)
    requires Inv(c, s) && OwnStep(c, s, s') && !s.closed
    ensures Measure(c, s') < Measure(c, s)
  {
    if exists j: nat :: j < |s.jobs| && WorkStep(c, s, s', j) {
      var j: nat :| j < |s.jobs| && WorkStep(c, s, s', j);
      WorkDescends(c, s, s', j);
    } else if ReplaySend(c, s, s') {
      ReplaySendDescends(c, s, s');
    } else {
      RouterDescends(c, s, s');
    }
  }

  lemma ReplaySendDescends(c: Config, s: State, s': State)
    requires ReplaySend(c, s, s')
    ensures Measure(c, s') < Measure(c, s)
  {
    var e := Some(ReplayEvent(c.containers[s.replay.next]));
    ListenerCostAppend(c, s.listener, e);
    assert EventCost(c, e) == EventCost(c, Some(ReplayEvent("")));
  }

  lemma RouterDescends(c: Config, s: State, s': State)
    requires !s.closed
    requires ReplayReturn(c, s, s') || ReplayCrash(c, s, s') || ReceiveNil(s, s') ||
             Receive(s, s') || Timeout(s, s') || Dispatch(s, s')
    requires ReplayInv(c, s)
    ensures Measure(c, s') < Measure(c, s)
  {
    if Dispatch(s, s') {
      JobsCostAppend(c, s.jobs, Job(s.router.event, Started, []));
    }
  }

  lemma OwnStepKeepsOpen(c: Config, s: State, s': State)
    requires OwnStep(c, s, s')
    ensures s'.closed == s.closed
  {
  }

  /** From any reachable state with an open listener, the program takes at most `Measure` steps before it
      has to wait for a new event. */
  lemma DrainBound(c: Config, run: seq<State>, i: nat, tail: seq<State>)
    requires Run(c, run) && i < |run| && !run[i].closed
    requires tail != [] && tail[0] == run[i]
    requires forall k | 0 <= k < |tail| - 1 :: OwnStep(c, tail[k], tail[k + 1])
    ensures |tail| - 1 <= Measure(c, run[i])
  {
    RunInv(c, run, i);
    DrainBoundFrom(c, run[i], tail);
  }

  lemma {:induction false} DrainBoundFrom(c: Config, s: State, tail: seq<State>)
    requires Inv(c, s) && !s.closed
    requires tail != [] && tail[0] == s && forall k | 0 <= k < |tail| - 1 :: OwnStep(c, tail[k], tail[k + 1])
    ensures |tail| - 1 <= Measure(c, s)
    decreases |tail|
  {
    if |tail| == 1 {
    } else {
      var s' := tail[1];
      assert OwnStep(c, tail[0], tail[1]);
      StepsDescend(c, s, s');
      StepInv(c, s, s');
      OwnStepKeepsOpen(c, s, s');
      forall k | 0 <= k < |tail[1..]| - 1 ensures OwnStep(c, tail[1..][k], tail[1..][k + 1]) {
        assert OwnStep(c, tail[k + 1], tail[k + 2]);
      }
      DrainBoundFrom(c, s', tail[1..]);
    }
  }

  /** All accepted events are processed, all tokens are idle, and `Process` has returned. */
  predicate Drained(s: State) {
    && s.router.Receiving? && s.listener == [] && s.replay.Returned?
    && forall j | 0 <= j < |s.jobs| :: s.jobs[j].phase.Finished?
  }

  lemma JobCanMove(c: Config, s: State, j: nat) returns (s': State)
    requires Inv(c, s) && j < |s.jobs| && !s.jobs[j].phase.Finished?
    ensures WorkStep(c, s, s', j)
  {
    var job := s.jobs[j];
    assert JobInv(c, job);
    match job.phase
    case Started =>
      s' := Moved(s, j, job.(phase := if Mapped(c, job.event) then Calling else Returning));
    case Calling =>
      var e := job.event.value;
      s' := if |job.results| >= Calls(c, job.event) then Moved(s, j, job.(phase := Returning))
            else if e.from == SIMULATED then Moved(s, j, job.(results := job.results + [Skipped]))
            else if Key(e) in s.locks then Moved(s, j, job.(results := job.results + [Suppressed]))
            else Moved(s, j, job.(phase := Inspecting)).(locks := s.locks + {Key(e)});
      assert Call(c, s, s', j);
    case Inspecting =>
      s' := Moved(s, j, job.(phase := Unlocking(InspectFailed)));
      assert Inspect(c, s, s', j, InspectError);
    case Creating(event) =>
      s' := Moved(s, j, job.(phase := Unlocking(Sent(event, true))));
      assert Create(s, s', j, true);
    case Unlocking(o) =>
      s' := Moved(s, j, job.(phase := Calling, results := job.results + [o]))
            .(locks := s.locks - {Key(job.event.value)});
      assert Unlock(s, s', j);
    case Returning =>
      BusyAtLeastOne(s.jobs, j);
      s' := Moved(s, j, job.(phase := Finished)).(idle := s.idle + 1);
      assert GiveBack(c, s, s', j);
  }

  lemma {:induction false} NoneBusy(jobs: seq<Job>)
    requires forall j | 0 <= j < |jobs| :: jobs[j].phase.Finished?
    ensures Busy(jobs) == 0
  {
    if jobs == [] {
    } else {
      NoneBusy(jobs[1..]);
    }
  }

  lemma RouterCanMove(c: Config, s: State) returns (s': State)
    requires Inv(c, s) && c.pool > 0 && !s.replay.Crashed? && (s.closed || !Drained(s))
    requires forall j | 0 <= j < |s.jobs| :: s.jobs[j].phase.Finished?
    ensures OwnStep(c, s, s')
  {
    NoneBusy(s.jobs);
    if s.router.Holding? {
      s' := s.(router := Receiving, idle := s.idle - 1, jobs := s.jobs + [Job(s.router.event, Started, [])]);
      assert Dispatch(s, s');
    } else if s.listener != [] {
      s' := s.(router := Holding(s.listener[0], false), listener := s.listener[1..]);
      assert Receive(s, s');
    } else if s.closed {
      s' := s.(router := Holding(None, false), nils := s.nils + 1);
      assert ReceiveNil(s, s');
    } else if s.replay.next < |c.containers| {
      var e := ReplayEvent(c.containers[s.replay.next]);
      s' := Send(c, s, Some(e)).(accepted := s.accepted + [Replayed(e)], replay := Replaying(s.replay.next + 1));
      assert ReplaySend(c, s, s');
    } else {
      s' := s.(replay := Returned);
      assert ReplayReturn(c, s, s');
    }
  }

  lemma OwnStepExists(c: Config, s: State) returns (s': State)
    requires Inv(c, s) && c.pool > 0 && !s.replay.Crashed? && (s.closed || !Drained(s))
    ensures OwnStep(c, s, s')
  {
    if exists j: nat :: j < |s.jobs| && !s.jobs[j].phase.Finished? {
      var j: nat :| j < |s.jobs| && !s.jobs[j].phase.Finished?;
      s' := JobCanMove(c, s, j);
    } else {
      s' := RouterCanMove(c, s);
    }
  }

  /** Draining: with at least one worker, the program has no step left if and only if everything is
      drained and the listener is still open. On a listener closed by the Docker client the router
      goes on dispatching nils for ever. */
  lemma StuckIffDrained(c: Config, run: seq<State>, i: nat)
    requires Run(c, run) && i < |run| && c.pool > 0 && !run[i].replay.Crashed?
    ensures (forall s' :: !OwnStep(c, run[i], s')) <==> (Drained(run[i]) && !run[i].closed)
    ensures Drained(run[i]) && !run[i].closed ==>
              && run[i].idle == c.pool && run[i].locks == {}
              && Dispatched(run[i].jobs) == Payloads(run[i].accepted)
  {
    RunInv(c, run, i);
    if Drained(run[i]) && !run[i].closed {
      AtRest(c, run[i]);
    } else {
      var s' := OwnStepExists(c, run[i]);
    }
  }

  lemma AtRest(c: Config, s: State)
    requires Inv(c, s) && Drained(s) && !s.closed
    ensures forall s' :: !OwnStep(c, s, s')
    ensures s.idle == c.pool && s.locks == {} && Dispatched(s.jobs) == Payloads(s.accepted)
  {
    NoneBusy(s.jobs);
    DrainedHasNoStep(c, s);
    assert Dispatched(s.jobs) + [] + [] == Dispatched(s.jobs);
    assert Payloads(s.accepted) + Nils(0) == Payloads(s.accepted);
    NoneLocked(s);
  }

  lemma NoneLocked(s: State)
    requires LockInv(s) && forall j | 0 <= j < |s.jobs| :: s.jobs[j].phase.Finished?
    ensures s.locks == {}
  {
    forall key ensures key !in s.locks {
      assert forall j :: !Holder(s, j, key);
    }
  }

  lemma DrainedHasNoStep(c: Config, s: State)
    requires Drained(s) && !s.closed
    ensures forall s' :: !OwnStep(c, s, s')
  {
    forall s' ensures !OwnStep(c, s, s') {
      forall j | 0 <= j < |s.jobs| ensures !WorkStep(c, s, s', j) {
        assert s.jobs[j].phase.Finished?;
      }
    }
  }

  /** Without a worker nothing is ever dispatched. */
  lemma {:induction false} EmptyPoolIsStuck(c: Config, run: seq<State>, i: nat)
    requires Run(c, run) && i < |run| && c.pool == 0
    ensures run[i].jobs == [] && run[i].idle == 0
  {
    if i == 0 {
    } else {
      EmptyPoolIsStuck(c, run, i - 1);
      assert Step(c, run[i - 1], run[i]);
    }
  }

  // ----- main results: sending ---------------------------------------------------------------------------------

  predicate SamePair(a: Job, b: Job) {
    a.event.Some? && b.event.Some? &&
    a.event.value.status == b.event.value.status && a.event.value.id == b.event.value.id
  }

  /** The handler call of the job is between taking and freeing its lock. */
  predicate UnderWay(phase: Phase) {
    match phase
    case Inspecting => true
    case Creating(_) => true
    case Unlocking(_) => true
    case _ => false
  }

  /** Send exclusion: at most one call per status and container is between taking and freeing its lock,
      and a key is locked exactly while such a call is under way. */
  lemma SendExclusion(c: Config, run: seq<State>, i: nat)
    requires Run(c, run) && i < |run|
    ensures var s := run[i];
            && (forall j, k | 0 <= j < |s.jobs| && 0 <= k < |s.jobs| ::
                  UnderWay(s.jobs[j].phase) && UnderWay(s.jobs[k].phase) && SamePair(s.jobs[j], s.jobs[k]) ==> j == k)
            && (forall key :: key in s.locks <==>
                  exists j | 0 <= j < |s.jobs| ::
                    && UnderWay(s.jobs[j].phase) && s.jobs[j].event.Some?
                    && s.jobs[j].event.value.status + s.jobs[j].event.value.id == key)
  {
    RunInv(c, run, i);
    var s := run[i];
    forall key
      ensures key in s.locks <==>
              exists j | 0 <= j < |s.jobs| ::
                && UnderWay(s.jobs[j].phase) && s.jobs[j].event.Some?
                && s.jobs[j].event.value.status + s.jobs[j].event.value.id == key
    {
      if key in s.locks {
        var j :| Holder(s, j, key);
        assert UnderWay(s.jobs[j].phase);
      }
    }
  }

  /** An event is suppressed only while another event with the same status and container is under way,
      provided the registered statuses are prefix-free. */
  lemma SuppressedOnlyByTwin(c: Config, run: seq<State>, i: nat, j: nat) returns (k: nat)
    requires Run(c, run) && i + 1 < |run| && PrefixFree(c.handlers.Keys)
    requires Suppresses(c, run[i], run[i + 1], j)
    ensures k < |run[i].jobs| && k != j
    ensures UnderWay(run[i].jobs[k].phase) && SamePair(run[i].jobs[k], run[i].jobs[j])
  {
    RunInv(c, run, i);
    var s := run[i];
    assert Inv(c, s);
    WorkAppends(c, s, run[i + 1], j);
    k := Twin(c, s, j);
  }

  /** The same for the handler table of the program, whose statuses are prefix-free. */
  lemma HandledSuppressedOnlyByTwin(c: Config, run: seq<State>, i: nat, j: nat) returns (k: nat)
    requires Run(c, run) && i + 1 < |run| && c.handlers.Keys <= HANDLED
    requires Suppresses(c, run[i], run[i + 1], j)
    ensures k < |run[i].jobs| && k != j
    ensures UnderWay(run[i].jobs[k].phase) && SamePair(run[i].jobs[k], run[i].jobs[j])
  {
    HandledPrefixFree();
    k := SuppressedOnlyByTwin(c, run, i, j);
  }

  ghost predicate Suppresses(c: Config, s: State, s': State, j: nat) {
    && j < |s.jobs| && WorkStep(c, s, s', j)
    && |s'.jobs| == |s.jobs| && s'.jobs[j].results == s.jobs[j].results + [Suppressed]
  }

  lemma Twin(c: Config, s: State, j: nat) returns (k: nat)
    requires JobsInv(c, s) && LockInv(s) && PrefixFree(c.handlers.Keys)
    requires j < |s.jobs| && Mapped(c, s.jobs[j].event) && s.jobs[j].phase.Calling?
    requires Key(s.jobs[j].event.value) in s.locks
    ensures k < |s.jobs| && k != j && HoldsLock(s.jobs[k]) && SamePair(s.jobs[k], s.jobs[j])
  {
    var e := s.jobs[j].event.value;
    var h :| Holder(s, h, Key(e));
    k := h;
    assert JobInv(c, s.jobs[k]);
    KeysIdentifyIffPrefixFree(c.handlers.Keys);
  }

  lemma WorkAppends(c: Config, s: State, s': State, j: nat)
    requires JobsInv(c, s) && Suppresses(c, s, s', j)
    ensures Mapped(c, s.jobs[j].event) && s.jobs[j].phase.Calling? && Key(s.jobs[j].event.value) in s.locks
  {
    assert JobInv(c, s.jobs[j]);
    assert s'.jobs[j].results[|s.jobs[j].results|] == Suppressed;
  }

  /** What is sent: no simulated event ever causes a create call, under way or made, and every other
      create call carries its event's own status, container, origin and time. */
  lemma WhatIsSent(c: Config, run: seq<State>, i: nat, j: nat)
    requires Run(c, run) && i < |run| && j < |run[i].jobs| && run[i].jobs[j].event.Some?
    ensures var job := run[i].jobs[j]; var e := job.event.value;
            && (e.from == SIMULATED ==>
                  !UnderWay(job.phase) && forall o | o in job.results :: o == Skipped)
            && (e.from != SIMULATED ==> Skipped !in job.results)
            && (job.phase.Creating? ==> Matches(c, job.phase.event, e))
            && (forall o | o in job.results && o.Sent? :: Matches(c, o.event, e))
  {
    RunInv(c, run, i);
    var job := run[i].jobs[j];
    assert JobInv(c, job);
    forall o | o in job.results
      ensures if job.event.value.from == SIMULATED then o == Skipped
              else o != Skipped && (o.Sent? ==> Matches(c, o.event, job.event.value))
    {
      assert Explained(c, job.event.value, o);
    }
  }

  predicate Matches(c: Config, ce: ContainerEvent, e: Event) {
    && ce.externalStatus == e.status && ce.externalId == e.id && ce.externalFrom == e.from
    && ce.externalTimestamp == e.time && ce.reportedHostUuid == c.host
  }

  /** The replay events `Process` has sent. */
  function ReplayCount(c: Config, replay: Replay): nat {
    match replay
    case Replaying(next) => next
    case Returned => |c.containers|
    case Crashed(next) => next
  }

  /** Startup replay, at every moment of every run and whatever live events come in between: the accepted
      events that come from the replay, at positions `p`, are one simulated start event for each of the first
      listed containers, in the order of the list; for all of them when `Process` has returned. */
  lemma StartupReplay(c: Config, run: seq<State>, i: nat) returns (p: seq<nat>)
    requires Run(c, run) && i < |run|
    ensures var s := run[i];
            && Increasing(p, |s.accepted|) && |p| <= |c.containers|
            && (forall k | 0 <= k < |s.accepted| && s.accepted[k].Replayed? :: k in p)
            && forall k | 0 <= k < |p| ::
                 && s.accepted[p[k]].Replayed? && s.accepted[p[k]].replay.status == "start"
                 && s.accepted[p[k]].replay.id == c.containers[k] && s.accepted[p[k]].replay.from == SIMULATED
    ensures run[i].replay.Returned? ==> |p| == |c.containers|
    ensures run[i].replay.Replaying? ==> |p| == run[i].replay.next
    ensures run[i].replay.Crashed? ==> |p| == run[i].replay.next < |c.containers| && run[i].closed
  {
    RunInv(c, run, i);
    var n := ReplayCount(c, run[i].replay);
    assert c.containers[..|c.containers|] == c.containers;
    assert Replays(run[i].accepted) == ReplayEvents(c.containers[..n]);
    p := FilterPicks(run[i].accepted, IsReplay);
  }

  /** A run in which the startup replay panics: the Docker client closes the listener first. */
  lemma ReplayPanics(c: Config) returns (run: seq<State>)
    requires c.containers != []
    ensures Run(c, run) && run[|run| - 1].replay == Crashed(0)
  {
    var s0 := State([], [], false, 0, Receiving, c.pool, [], {}, Replaying(0));
    var s1 := s0.(closed := true);
    var s2 := s1.(replay := Crashed(0));
    assert CloseListener(s0, s1);
    assert ReplayCrash(c, s1, s2);
    run := [s0, s1, s2];
  }

  /** With the listener closed before the last replay event is sent, `Process` never returns. */
  predicate Doomed(c: Config, s: State) {
    && s.closed
    && (s.replay.Crashed? || (s.replay.Replaying? && s.replay.next < |c.containers|))
  }

  lemma DoomedStep(c: Config, s: State, s': State)
    requires Doomed(c, s) && Step(c, s, s')
    ensures Doomed(c, s')
  {
  }

  lemma {:induction false} DoomedStays(c: Config, path: seq<State>, i: nat)
    requires Path(c, path) && Doomed(c, path[0]) && i < |path|
    ensures Doomed(c, path[i])
  {
    if i == 0 {
    } else {
      DoomedStays(c, path, i - 1);
      DoomedStep(c, path[i - 1], path[i]);
    }
  }

  lemma PathCons(c: Config, s: State, tail: seq<State>)
    requires Path(c, tail) && Step(c, s, tail[0])
    ensures Path(c, [s] + tail) && ([s] + tail)[|tail|] == tail[|tail| - 1]
  {
    var path := [s] + tail;
    forall i | 0 <= i < |path| - 1 ensures Step(c, path[i], path[i + 1]) {
      if i == 0 {
      } else {
        assert Step(c, tail[i - 1], tail[i]);
      }
    }
  }

  /** With at least one worker and an open listener, the program's own steps lead to rest. */
  lemma {:induction false} ReachDrained(c: Config, s: State) returns (path: seq<State>)
    requires Inv(c, s) && c.pool > 0 && !s.closed
    ensures Path(c, path) && path[0] == s && Drained(path[|path| - 1])
    decreases Measure(c, s)
  {
    if Drained(s) {
      path := [s];
    } else {
      var s' := OwnStepExists(c, s);
      StepsDescend(c, s, s');
      StepInv(c, s, s');
      OwnStepKeepsOpen(c, s, s');
      var tail := ReachDrained(c, s');
      PathCons(c, s, tail);
      path := [s] + tail;
    }
  }

  /** `Process` can still return if and only if the listener is open or it has sent all its events. */
  lemma ReplayReturnsIff(c: Config, run: seq<State>, i: nat)
    requires Run(c, run) && i < |run| && c.pool > 0 && run[i].replay.Replaying?
    ensures (exists path: seq<State> | Path(c, path) && path[0] == run[i] :: path[|path| - 1].replay.Returned?) <==>
            (!run[i].closed || run[i].replay.next >= |c.containers|)
  {
    RunInv(c, run, i);
    var s := run[i];
    if !s.closed {
      var path := ReachDrained(c, s);
      assert path[|path| - 1].replay.Returned?;
    } else if s.replay.next >= |c.containers| {
      var s' := s.(replay := Returned);
      assert ReplayReturn(c, s, s');
      var path := [s, s'];
      assert Path(c, path);
      assert path[|path| - 1].replay.Returned?;
    } else {
      forall path: seq<State> | Path(c, path) && path[0] == s ensures !path[|path| - 1].replay.Returned? {
        DoomedStays(c, path, |path| - 1);
      }
    }
  }

  /** The steps of one handler call, taken without interference, do what `Handle` does. */
  lemma HandlerCallRefines(c: Config, s: State, j: nat, inspection: Inspection, created: bool)
    returns (tr: seq<State>)
    requires JobsInv(c, s) && j < |s.jobs| && s.jobs[j].phase.Calling?
    requires s.jobs[j].event.Some? && s.jobs[j].event.value.status in c.handlers
    requires |s.jobs[j].results| < c.handlers[s.jobs[j].event.value.status]
    ensures tr != [] && tr[0] == s
    ensures forall k | 0 <= k < |tr| - 1 :: j < |tr[k].jobs| && WorkStep(c, tr[k], tr[k + 1], j)
    ensures var job := s.jobs[j];
            job.event.Some? &&
            tr[|tr| - 1] == Moved(s, j, job.(results := job.results +
              [HandleOutcome(c.host, job.event.value, Key(job.event.value) in s.locks, inspection, created)]))
  {
    var job := s.jobs[j];
    assert JobInv(c, job);
    var e := job.event.value;
    var locked := Key(e) in s.locks;
    var outcome := HandleOutcome(c.host, e, locked, inspection, created);
    var end := Moved(s, j, job.(results := job.results + [outcome]));
    if e.from == SIMULATED || locked {
      tr := [s, end];
      assert Call(c, s, end, j);
    } else {
      var s1 := Moved(s, j, job.(phase := Inspecting)).(locks := s.locks + {Key(e)});
      var s2 := Moved(s1, j, job.(phase := Unlocking(outcome)));
      assert Call(c, s, s1, j);
      assert (s.locks + {Key(e)}) - {Key(e)} == s.locks;
      assert Unlock(s2, end, j);
      if inspection.InspectError? {
        assert Inspect(c, s1, s2, j, inspection);
        tr := [s, s1, s2, end];
      } else {
        var s3 := Moved(s1, j, job.(phase := Creating(EventFor(c.host, e, inspection))));
        assert Inspect(c, s1, s3, j, inspection);
        assert Create(s3, s2, j, created);
        tr := [s, s1, s3, s2, end];
      }
    }
  }
}
