/** Every interleaving of transmits, debugfs writes, the restart worker and the
    RTNL callers of open, stop and restart. One action is one section under a
    lock; an action that is not enabled does nothing, so a run is any sequence
    of actions. */
module WbcanRuns {
  import opened Wbcan
  import opened WbcanAbi

  /** Where the one RTNL holder stands. */
  datatype Rtnl =
    | Idle
    | OpenPublished      // open: ACTIVE published, queue not started
    | StopDisabled       // stop: TX disabled
    | StopCounted        // stop: attempt counted
    | StopPublished      // stop: STOPPED published
    | StopClosed         // stop: CAN core closed
    | RestartCounted     // requested restart: attempt counted

  /** `pending` and `worker` are the CAN core's restart work: queued, and past
      its attempt count but before its TX-lock section. */
  datatype World = World(dev: Device, up: bool, rtnl: Rtnl, pending: bool, worker: bool)

  datatype Action =
    | Send(frame: Frame, env: TxEnv)
    | WriteInject(setting: Setting)
    | OpenPublish
    | OpenStartQueue
    | StopDisable
    | StopCount
    | StopPublish
    | StopClose
    | StopReturn
    | WorkerStart
    | WorkerCommit
    | RequestRestart
    | RequestCommit

  const INIT := World(FRESH, false, Idle, false, false)

  predicate Enabled(w: World, a: Action) {
    match a
    case Send(_, _) => !w.dev.queueStopped
    case WriteInject(s) => SettingOk(s)
    case OpenPublish => w.rtnl.Idle? && !w.up
    case OpenStartQueue => w.rtnl.OpenPublished?
    case StopDisable => w.rtnl.Idle? && w.up
    case StopCount => w.rtnl.StopDisabled?
    case StopPublish => w.rtnl.StopCounted?
    // Closing the CAN core waits for a running restart worker.
    case StopClose => w.rtnl.StopPublished? && !w.worker
    case StopReturn => w.rtnl.StopClosed?
    case WorkerStart => w.pending && !w.worker
    case WorkerCommit => w.worker
    // The core refuses a requested restart outside bus-off, and first waits for
    // and cancels its own restart work.
    case RequestRestart => w.rtnl.Idle? && w.up && w.dev.state.BusOff? && !w.worker
    case RequestCommit => w.rtnl.RestartCounted?
  }

  function CountRestart(d: Device): Device { d.(stat := d.stat.(restarts := d.stat.restarts + 1)) }

  function Effect(w: World, a: Action): World
    requires PlaneOk(w.dev.plane)
  {
    match a
    case Send(f, e) =>
      var (d, outcome) := Transmit(w.dev, f, e);
      w.(dev := d, pending := w.pending || (outcome == Errored(GoBusOff) && e.restartMs))
    case WriteInject(s) => w.(dev := w.dev.(plane := Arm(w.dev.plane, s)))
    case OpenPublish => w.(dev := w.dev.(state := ErrorActive), rtnl := OpenPublished)
    case OpenStartQueue => w.(dev := w.dev.(queueStopped := false), rtnl := Idle, up := true)
    case StopDisable => w.(dev := w.dev.(queueStopped := true), rtnl := StopDisabled)
    case StopCount => w.(dev := w.dev.(stat := w.dev.stat.(stops := w.dev.stat.stops + 1)), rtnl := StopCounted)
    case StopPublish => w.(dev := w.dev.(queueStopped := true, state := Stopped), rtnl := StopPublished)
    case StopClose => w.(pending := false, rtnl := StopClosed)
    case StopReturn => w.(dev := w.dev.(queueStopped := true), rtnl := Idle, up := false)
    case WorkerStart => w.(dev := CountRestart(w.dev), pending := false, worker := true)
    case WorkerCommit => w.(dev := RestartCommit(w.dev), worker := false)
    case RequestRestart => w.(dev := CountRestart(w.dev), pending := false, rtnl := RestartCounted)
    case RequestCommit => w.(dev := RestartCommit(w.dev), rtnl := Idle)
  }

  function Step(w: World, a: Action): World
    requires PlaneOk(w.dev.plane)
  {
    if Enabled(w, a) then Effect(w, a) else w
  }

  function Exec(w: World, run: seq<Action>): (r: World)
    requires PlaneOk(w.dev.plane)
    ensures PlaneOk(r.dev.plane)
  {
    if run == [] then w
    else
      var before := Exec(w, run[..|run| - 1]);
      StepKeepsPlaneOk(before, run[|run| - 1]);
      Step(before, run[|run| - 1])
  }

  lemma StepKeepsPlaneOk(w: World, a: Action)
    requires PlaneOk(w.dev.plane)
    ensures PlaneOk(Step(w, a).dev.plane)
  {
    if a.Send? { TransmitPlane(w.dev, a.frame, a.env); }
  }

  /** A transmit moves the fault plane by its decision, or not at all. */
  lemma TransmitPlane(d: Device, f: Frame, e: TxEnv)
    requires PlaneOk(d.plane)
    ensures Transmit(d, f, e).0.plane ==
            if e.coreDropped || f.id.error || Terminal(d.state) then d.plane else Decide(d.plane, f).plane
  {
    if !e.coreDropped && !f.id.error && !Terminal(d.state) {
      var decision := Decide(d.plane, f);
      ConcludeKeepsPlane(d.(plane := decision.plane), f, decision.hit, e);
    }
  }

  lemma ConcludeKeepsPlane(d: Device, f: Frame, hit: Fault, e: TxEnv)
    requires PlaneOk(d.plane)
    ensures Conclude(d, f, hit, e).0.plane == d.plane
  {
  }

  // --------------------------------------------------------------- ownership

  /** The queue and state rules the driver writes down for its owners. */
  predicate Safe(w: World) {
    && PlaneOk(w.dev.plane)
    && (w.dev.state in {ErrorActive, ErrorWarning, BusOff, Stopped})
    && (Terminal(w.dev.state) ==> w.dev.queueStopped)
    && w.dev.coreWarnings == 0
  }

  /** Where the RTNL holder stands ties the state, the queue and the restart work
      together. While the interface is up and nobody is stopping it, the queue is
      stopped exactly in bus-off, so it is never wedged. */
  predicate Located(w: World) {
    match w.rtnl
    case Idle =>
      if w.up then !w.dev.state.Stopped? && (w.dev.queueStopped <==> w.dev.state.BusOff?)
      else w.dev.state.Stopped? && !w.pending && !w.worker
    case OpenPublished => !w.up && w.dev.state.ErrorActive? && w.dev.queueStopped && !w.pending && !w.worker
    case StopDisabled => w.up && !w.dev.state.Stopped?
    case StopCounted => w.up && !w.dev.state.Stopped?
    case StopPublished => w.up && w.dev.state.Stopped?
    case StopClosed => w.up && w.dev.state.Stopped? && !w.pending && !w.worker
    case RestartCounted => w.up && !w.dev.state.Stopped? && (w.dev.queueStopped <==> w.dev.state.BusOff?)
  }

  predicate Inv(w: World) { Safe(w) && Located(w) }

  lemma TransmitKeepsInv(w: World, f: Frame, e: TxEnv)
    requires Inv(w)
    ensures Inv(Step(w, Send(f, e)))
  {
    TransmitPlane(w.dev, f, e);
  }

  lemma StepKeepsInv(w: World, a: Action)
    requires Inv(w)
    ensures Inv(Step(w, a))
  {
    if a.Send? { TransmitKeepsInv(w, a.frame, a.env); }
  }

  /** Every reachable state: the controller is active, in warning, bus-off or
      stopped; bus-off and stopped keep the queue stopped; the CAN core is never
      asked to change the state to what it is. */
  lemma {:induction false} ReachableIsSafe(run: seq<Action>)
    ensures Inv(Exec(INIT, run))
  {
    if run == [] {
    } else {
      ReachableIsSafe(run[..|run| - 1]);
      StepKeepsInv(Exec(INIT, run[..|run| - 1]), run[|run| - 1]);
    }
  }

  lemma {:induction false} ExecSplit(w: World, first: seq<Action>, second: seq<Action>)
    requires PlaneOk(w.dev.plane)
    ensures Exec(w, first + second) == Exec(Exec(w, first), second)
  {
    var run := first + second;
    if second == [] {
      assert run == first;
    } else {
      assert run[..|run| - 1] == first + second[..|second| - 1];
      ExecSplit(w, first, second[..|second| - 1]);
    }
  }

  // -------------------------------------------------------------------- stop

  predicate Quiescent(w: World) {
    w.dev.state.Stopped? && w.dev.queueStopped && (w.rtnl.Idle? ==> !w.up)
    && w.rtnl in {Idle, StopPublished, StopClosed}
  }

  lemma StopPublishedStays(w: World, a: Action)
    requires Inv(w) && Quiescent(w) && !a.OpenPublish?
    ensures Quiescent(Step(w, a))
  {
  }

  lemma {:induction false} QuiescentUntilOpen(w: World, run: seq<Action>)
    requires Inv(w) && Quiescent(w) && OpenPublish !in run
    ensures Inv(Exec(w, run)) && Quiescent(Exec(w, run))
  {
    if run == [] {
    } else {
      var last := run[|run| - 1];
      QuiescentUntilOpen(w, run[..|run| - 1]);
      var before := Exec(w, run[..|run| - 1]);
      StepKeepsInv(before, last);
      StopPublishedStays(before, last);
    }
  }

  /** Once stop publishes STOPPED, nothing but an open moves the state or wakes
      the queue: not a restart that was already on its way, not a transmit, not a
      debugfs write. */
  lemma StoppedUntilOpened(before: seq<Action>, after: seq<Action>)
    requires Enabled(Exec(INIT, before), StopPublish) && OpenPublish !in after
    ensures var d := Exec(INIT, before + [StopPublish] + after).dev;
            d.state.Stopped? && d.queueStopped
  {
    var start := before + [StopPublish];
    assert start[..|start| - 1] == before;
    ReachableIsSafe(before);
    ReachableIsSafe(start);
    ExecSplit(INIT, start, after);
    QuiescentUntilOpen(Exec(INIT, start), after);
  }

  /** Stop always returns stopped: state, queue, and no restart work left, even
      when a restart committed between its sections. */
  lemma StopReturnsStopped(run: seq<Action>)
    requires Enabled(Exec(INIT, run), StopReturn)
    ensures var w := Exec(INIT, run + [StopReturn]);
            w.dev.state.Stopped? && w.dev.queueStopped && !w.up && !w.pending && !w.worker
  {
    ReachableIsSafe(run);
    assert (run + [StopReturn])[..|run|] == run;
  }

  lemma Snoc(w: World, run: seq<Action>, a: Action)
    requires PlaneOk(w.dev.plane)
    ensures Exec(w, run + [a]) == Step(Exec(w, run), a)
  {
    assert (run + [a])[..|run|] == run;
  }

  /** The race the second queue stop is there for: from any run that leaves the
      interface up in bus-off with recovery queued, the worker can commit ACTIVE
      and wake the queue in the middle of a stop. */
  lemma RestartCommitsInsideStop(run: seq<Action>)
    requires var w := Exec(INIT, run); w.rtnl.Idle? && w.up && w.dev.state.BusOff? && w.pending && !w.worker
    ensures var w := Exec(INIT, run + [WorkerStart] + [StopDisable] + [StopCount] + [WorkerCommit]);
            w.rtnl.StopCounted? && w.dev.state.ErrorActive? && !w.dev.queueStopped
  {
    Snoc(INIT, run, WorkerStart);
    Snoc(INIT, run + [WorkerStart], StopDisable);
    Snoc(INIT, run + [WorkerStart] + [StopDisable], StopCount);
    Snoc(INIT, run + [WorkerStart] + [StopDisable] + [StopCount], WorkerCommit);
  }

  const ARM_BUS_OFF := WriteInject(Setting(GoBusOff, 1, 0, true, NO_ID, 0, 0))

  /** Such runs exist: open, arm bus-off, send one frame with recovery configured. */
  lemma RecoveryQueued(f: Frame, e: TxEnv)
    requires !f.id.error && !e.coreDropped && e.restartMs
    ensures var w := Exec(INIT, [OpenPublish] + [OpenStartQueue] + [ARM_BUS_OFF] + [Send(f, e)]);
            w.rtnl.Idle? && w.up && w.dev.state.BusOff? && w.pending && !w.worker
  {
    var a := [OpenPublish] + [OpenStartQueue];
    assert [OpenPublish] == [] + [OpenPublish];
    Snoc(INIT, [], OpenPublish);
    Snoc(INIT, [OpenPublish], OpenStartQueue);
    Snoc(INIT, a, ARM_BUS_OFF);
    Snoc(INIT, a + [ARM_BUS_OFF], Send(f, e));
  }

  // -------------------------------------------------------- open and stop alone

  const OPENING := [OpenPublish, OpenStartQueue]
  const STOPPING := [StopDisable, StopCount, StopPublish, StopClose, StopReturn]

  lemma OpenAlone(w: World)
    requires PlaneOk(w.dev.plane) && w.rtnl.Idle? && !w.up
    ensures Exec(w, OPENING) == w.(dev := w.dev.(state := ErrorActive, queueStopped := false), up := true)
  {
    Snoc(w, [], OpenPublish);
    Snoc(w, [] + [OpenPublish], OpenStartQueue);
    assert [] + [OpenPublish] + [OpenStartQueue] == OPENING;
  }

  lemma StopAlone(w: World)
    requires PlaneOk(w.dev.plane) && w.rtnl.Idle? && w.up && !w.worker
    ensures Exec(w, STOPPING) ==
            w.(dev := w.dev.(state := Stopped, queueStopped := true,
                             stat := w.dev.stat.(stops := w.dev.stat.stops + 1)),
               up := false, pending := false)
  {
    var a, b := [] + [StopDisable], [] + [StopDisable] + [StopCount];
    Snoc(w, [], StopDisable);
    Snoc(w, a, StopCount);
    Snoc(w, b, StopPublish);
    Snoc(w, b + [StopPublish], StopClose);
    Snoc(w, b + [StopPublish] + [StopClose], StopReturn);
    assert b + [StopPublish] + [StopClose] + [StopReturn] == STOPPING;
  }
}
