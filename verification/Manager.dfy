/**
 The manager's lifecycle as a state machine: batches of VM tasks are initialized by a
 blocking worker, activated all together or not at all, supervised, and shut down.
 Every operation may be cancelled wherever it awaits, and may be called again.
 */
module Manager {
  import opened Net

  /** The blocking worker of a batch: it builds every proxy before it hands over the first. */
  datatype Worker = Building(built: nat) | Handing(handed: nat) | Finished(ok: bool, handed: nat)

  datatype Task = AwaitProxy | AwaitStart | Forwarding | CleaningUp | Ended(ok: bool)

  /** A start signal; dropping the initialization drops every signal not yet sent. */
  datatype Signal = Unsent | Sent | Dropped

  datatype Batch = Batch(size: nat, worker: Worker, tasks: seq<Task>, starts: seq<Signal>)

  /** A VM task: its batch and its place in it. */
  datatype Slot = Slot(batch: nat, index: nat)

  /** A failure that joining somebody brings to light, named after who failed. */
  datatype Error = WorkerFailed(batch: nat) | TaskFailed(slot: Slot)

  datatype Control = Untracked | Active | Over

  /** What the owner of the manager is doing; each of these but `Idle` can be cancelled unless it never awaits. */
  datatype Op =
    | Idle
    | Running
    | Initializing(batch: nat)
    | Activating(batch: nat)
    | Starting(batch: nat, sent: nat)
    | ClosingControl
    | JoiningWorker
    | JoiningTasks

  datatype State = State(
    batches: seq<Batch>,
    tracked: set<Slot>,        // tasks not yet joined
    handles: set<Slot>,        // command channels still open
    joining: Option<nat>,      // the worker whose handle is kept
    superseded: set<nat>,      // workers whose handle a later initialization replaced
    control: Control,
    aborted: bool,             // the control task was told to stop
    privilegesDropped: bool,
    initialized: bool,
    result: Option<Error>,     // what the shutdown in progress is going to report
    op: Op)

  function Initial(control: bool): State {
    State([], {}, {}, None, {}, if control then Active else Untracked, false, false, false, None, Idle)
  }

  datatype Step =
    // The owner
    | Initialize(size: nat)
    | WorkerReturned
    | DropPrivileges(ok: bool)
    | SendStart
    | EnterRun
    | LeaveRun
    | ReapControl
    | Reap(slot: Slot)
    | Shutdown
    | ControlClosed
    | WorkerJoined
    | Join(slot: Slot)
    | ShutdownReturns
    | Cancel
    // Everybody else
    | Build(batch: nat)
    | FailBuild(batch: nat)
    | BeginHanding(batch: nat)
    | HandOver(batch: nat)
    | FailHandOver(batch: nat)
    | FinishWorker(batch: nat)
    | TakeProxy(slot: Slot)
    | LoseProxy(slot: Slot)
    | TakeStart(slot: Slot)
    | LoseStart(slot: Slot)
    | Forward(slot: Slot)
    | Disconnect(slot: Slot)
    | CommandsClosed(slot: Slot)
    | EndTask(slot: Slot, ok: bool)
    | EndControl
    | AbortControl

  predicate Known(s: State, slot: Slot) {
    slot.batch < |s.batches| && slot.index < |s.batches[slot.batch].tasks|
  }

  function TaskAt(s: State, slot: Slot): Task
    requires Known(s, slot)
  {
    s.batches[slot.batch].tasks[slot.index]
  }

  /** The proxy of VM `i` has reached its task's channel. */
  predicate Handed(w: Worker, i: nat) {
    !w.Building? && i < w.handed
  }

  /** The worker is over and dropped the channel of VM `i` without a proxy. */
  predicate Abandoned(w: Worker, i: nat) {
    w.Finished? && w.handed <= i
  }

  predicate Enabled(s: State, step: Step) {
    match step
    case Initialize(size) => s.op in {Idle, Running} && !s.initialized && 1 <= size <= MAX_VMS
    case WorkerReturned =>
      s.op.Initializing? && s.op.batch < |s.batches| && s.batches[s.op.batch].worker.Finished?
    case DropPrivileges(_) => s.op.Activating? && s.op.batch < |s.batches|
    case SendStart => s.op.Starting? && s.op.batch < |s.batches| && s.op.sent <= |s.batches[s.op.batch].starts|
    case EnterRun => s.op == Idle
    case LeaveRun => s.op == Running
    case ReapControl => s.op == Running && s.control == Over
    case Reap(slot) => s.op == Running && slot in s.tracked && Known(s, slot) && TaskAt(s, slot).Ended?
    case Shutdown => s.op == Idle
    case ControlClosed => s.op == ClosingControl && s.control != Active
    case WorkerJoined =>
      && s.op == JoiningWorker
      && (s.joining.Some? ==> s.joining.value < |s.batches| && s.batches[s.joining.value].worker.Finished?)
    case Join(slot) => s.op == JoiningTasks && slot in s.tracked && Known(s, slot) && TaskAt(s, slot).Ended?
    case ShutdownReturns => s.op == JoiningTasks && s.tracked == {}
    case Cancel =>
      s.op.Running? || s.op.Initializing? || s.op.ClosingControl? || s.op.JoiningWorker? || s.op.JoiningTasks?
    case Build(b) => b < |s.batches| && s.batches[b].worker.Building? && s.batches[b].worker.built < s.batches[b].size
    case FailBuild(b) => b < |s.batches| && s.batches[b].worker.Building?
    case BeginHanding(b) => b < |s.batches| && s.batches[b].worker == Building(s.batches[b].size)
    case HandOver(b) =>
      b < |s.batches| && s.batches[b].worker.Handing? && s.batches[b].worker.handed < s.batches[b].size
    case FailHandOver(b) =>
      b < |s.batches| && s.batches[b].worker.Handing? && s.batches[b].worker.handed < s.batches[b].size
    case FinishWorker(b) => b < |s.batches| && s.batches[b].worker == Handing(s.batches[b].size)
    case TakeProxy(slot) =>
      Known(s, slot) && TaskAt(s, slot) == AwaitProxy && Handed(s.batches[slot.batch].worker, slot.index)
    case LoseProxy(slot) =>
      Known(s, slot) && TaskAt(s, slot) == AwaitProxy && Abandoned(s.batches[slot.batch].worker, slot.index)
    case TakeStart(slot) => Known(s, slot) && TaskAt(s, slot) == AwaitStart && Started(s, slot) == Sent
    case LoseStart(slot) => Known(s, slot) && TaskAt(s, slot) == AwaitStart && Started(s, slot) == Dropped
    case Forward(slot) => Known(s, slot) && TaskAt(s, slot) == Forwarding
    case Disconnect(slot) => Known(s, slot) && TaskAt(s, slot) == Forwarding
    case CommandsClosed(slot) => Known(s, slot) && TaskAt(s, slot) == Forwarding && slot !in s.handles
    case EndTask(slot, _) => Known(s, slot) && TaskAt(s, slot) == CleaningUp
    case EndControl => s.control == Active
    case AbortControl => s.control == Active && s.aborted
  }

  /** The start signal of a task; a signal that was never created counts as dropped. */
  function Started(s: State, slot: Slot): Signal
    requires Known(s, slot)
  {
    var starts := s.batches[slot.batch].starts;
    if slot.index < |starts| then starts[slot.index] else Dropped
  }

  function NewBatch(size: nat): Batch {
    Batch(size, Building(0), seq(size, _ => AwaitProxy), seq(size, _ => Unsent))
  }

  function Slots(batch: nat, size: nat): set<Slot> {
    set i | 0 <= i < size :: Slot(batch, i)
  }

  function SetWorker(s: State, b: nat, w: Worker): State
    requires b < |s.batches|
  {
    s.(batches := s.batches[b := s.batches[b].(worker := w)])
  }

  function SetTask(s: State, slot: Slot, t: Task): State
    requires Known(s, slot)
  {
    var batch := s.batches[slot.batch];
    s.(batches := s.batches[slot.batch := batch.(tasks := batch.tasks[slot.index := t])])
  }

  /** Dropping an initialization that has not sent any start signal drops them all. */
  function DropStarts(s: State, b: nat): State
    requires b < |s.batches|
  {
    s.(batches := s.batches[b := s.batches[b].(starts := seq(|s.batches[b].starts|, _ => Dropped))])
  }

  function Next(s: State, step: Step): State
    requires Enabled(s, step)
  {
    match step
    case Initialize(size) =>
      // From here on a shutdown finds the tasks, however the setup ends
      var b := |s.batches|;
      s.(batches := s.batches + [NewBatch(size)],
         tracked := s.tracked + Slots(b, size),
         handles := s.handles + Slots(b, size),
         superseded := if s.joining.Some? then s.superseded + {s.joining.value} else s.superseded,
         joining := Some(b),
         op := Initializing(b))
    case WorkerReturned =>
      if s.batches[s.op.batch].worker.ok then s.(joining := None, op := Activating(s.op.batch))
      else DropStarts(s, s.op.batch).(joining := None, op := Idle)
    case DropPrivileges(ok) =>
      if ok then s.(privilegesDropped := true, initialized := true, op := Starting(s.op.batch, 0))
      else DropStarts(s, s.op.batch).(op := Idle)
    case SendStart =>
      var b, k := s.op.batch, s.op.sent;
      if k == |s.batches[b].starts| then s.(op := Idle)
      else
        s.(batches := s.batches[b := s.batches[b].(starts := s.batches[b].starts[k := Sent])],
           op := Starting(b, k + 1))
    case EnterRun => s.(op := Running)
    case LeaveRun => s.(op := Idle)
    case ReapControl => s.(control := Untracked)
    case Reap(slot) => s.(tracked := s.tracked - {slot}, handles := s.handles - {slot})
    case Shutdown => s.(aborted := s.aborted || s.control == Active, result := None, op := ClosingControl)
    case ControlClosed =>
      // Every command channel is closed before the proxy tasks are joined
      s.(control := Untracked, handles := {}, op := JoiningWorker)
    case WorkerJoined =>
      s.(joining := None,
         result :=
           if s.joining.Some? && !s.batches[s.joining.value].worker.ok then Some(WorkerFailed(s.joining.value))
           else None,
         op := JoiningTasks)
    case Join(slot) =>
      s.(tracked := s.tracked - {slot},
         handles := s.handles - {slot},
         result := if s.result.None? && !TaskAt(s, slot).ok then Some(TaskFailed(slot)) else s.result)
    case ShutdownReturns => s.(result := None, op := Idle)
    case Cancel =>
      // What a shutdown had joined so far is forgotten with it
      if s.op.Initializing? && s.op.batch < |s.batches| then DropStarts(s, s.op.batch).(result := None, op := Idle)
      else s.(result := None, op := Idle)
    case Build(b) => SetWorker(s, b, Building(s.batches[b].worker.built + 1))
    case FailBuild(b) => SetWorker(s, b, Finished(false, 0))
    case BeginHanding(b) => SetWorker(s, b, Handing(0))
    case HandOver(b) => SetWorker(s, b, Handing(s.batches[b].worker.handed + 1))
    case FailHandOver(b) => SetWorker(s, b, Finished(false, s.batches[b].worker.handed))
    case FinishWorker(b) => SetWorker(s, b, Finished(true, s.batches[b].size))
    case TakeProxy(slot) => SetTask(s, slot, AwaitStart)
    case LoseProxy(slot) => SetTask(s, slot, Ended(true))
    case TakeStart(slot) => SetTask(s, slot, Forwarding)
    case LoseStart(slot) => SetTask(s, slot, CleaningUp)
    case Forward(slot) => s
    case Disconnect(slot) => SetTask(s, slot, CleaningUp)
    case CommandsClosed(slot) => SetTask(s, slot, CleaningUp)
    case EndTask(slot, ok) => SetTask(s, slot, Ended(ok))
    case EndControl => s.(control := Over)
    case AbortControl => s.(control := Over)
  }

  // ---------------------------------------------------------------------------
  // Runs

  datatype Run = Run(control: bool, steps: seq<Step>, states: seq<State>) {
    ghost predicate Valid() {
      && |states| == |steps| + 1 && states[0] == Initial(control)
      && forall i :: 0 <= i < |steps| ==> Follows(i)
    }

    ghost predicate Follows(i: nat)
      requires |states| == |steps| + 1 && i < |steps|
    {
      Enabled(states[i], steps[i]) && states[i + 1] == Next(states[i], steps[i])
    }

    ghost function Last(): State
      requires Valid()
    {
      states[|steps|]
    }
  }

  /** `r'` goes on from where `r` ends. */
  ghost predicate Continues(r: Run, r': Run) {
    r.Valid() && r'.Valid() && r.control == r'.control && r.steps <= r'.steps && r.states <= r'.states
  }

  lemma Extend(r: Run, step: Step) returns (r': Run)
    requires r.Valid() && Enabled(r.Last(), step)
    ensures Continues(r, r') && r'.steps == r.steps + [step] && r'.Last() == Next(r.Last(), step)
  {
    r' := Run(r.control, r.steps + [step], r.states + [Next(r.Last(), step)]);
    forall i | 0 <= i < |r'.steps| ensures r'.Follows(i) {
      assert i < |r.steps| ==> r.Follows(i);
    }
  }
}
