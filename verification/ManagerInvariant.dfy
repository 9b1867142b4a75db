/**
 What every state of the manager satisfies.
 */
module ManagerInvariant {
  import opened Net
  import opened Manager

  /** How far the activation of a batch has come. */
  datatype Stage = Before | During(sent: nat) | After

  function StageOf(op: Op, b: nat): Stage {
    match op
    case Initializing(c) => if b == c then Before else After
    case Activating(c) => if b == c then Before else After
    case Starting(c, sent) => if b == c then During(sent) else After
    case _ => After
  }

  ghost predicate Shaped(x: Batch) {
    && 1 <= x.size <= MAX_VMS && |x.tasks| == x.size && |x.starts| == x.size
    && (x.worker.Building? ==> x.worker.built <= x.size)
    && (x.worker.Handing? ==> x.worker.handed <= x.size)
    && (x.worker.Finished? && x.worker.ok ==> x.worker.handed == x.size)
  }

  ghost predicate AllSignals(x: Batch, signal: Signal) {
    forall i :: 0 <= i < |x.starts| ==> x.starts[i] == signal
  }

  /** Start signals are sent in order during activation, and otherwise all sent or all dropped. */
  ghost predicate SignalsFollow(x: Batch, stage: Stage) {
    match stage
    case Before => AllSignals(x, Unsent)
    case During(sent) =>
      sent <= x.size && forall i :: 0 <= i < |x.starts| ==> x.starts[i] == if i < sent then Sent else Unsent
    case After => AllSignals(x, Sent) || AllSignals(x, Dropped)
  }

  /**
   A task past its first wait has its proxy, forwards only on a sent signal, and ends without a proxy only
   after its worker.
   */
  ghost predicate TasksFollow(x: Batch) {
    forall i :: 0 <= i < |x.tasks| && i < |x.starts| ==>
      && (x.tasks[i] in {AwaitStart, Forwarding, CleaningUp} ==> Handed(x.worker, i))
      && (x.tasks[i] == Forwarding ==> x.starts[i] == Sent)
      && (x.tasks[i].Ended? ==> Handed(x.worker, i) || x.worker.Finished?)
  }

  /** The whole batch was built and handed over. */
  ghost predicate Complete(x: Batch) {
    x.worker == Finished(true, x.size)
  }

  /** A signal is sent only once the whole batch is built and handed over and privileges are gone. */
  ghost predicate Gated(x: Batch, open: bool) {
    forall i :: 0 <= i < |x.starts| && x.starts[i] == Sent ==> Complete(x) && open
  }

  ghost predicate BatchOk(x: Batch, stage: Stage, open: bool) {
    Shaped(x) && SignalsFollow(x, stage) && TasksFollow(x) && Gated(x, open)
  }

  /** Signals have been sent in the last batch only, and only after privileges were dropped. */
  ghost predicate Open(s: State, b: nat) {
    s.initialized && s.privilegesDropped && b == |s.batches| - 1
  }

  ghost predicate BatchesOk(s: State) {
    forall b :: 0 <= b < |s.batches| ==> BatchOk(s.batches[b], StageOf(s.op, b), Open(s, b))
  }

  /** The batch being activated is the last one, and it has got as far as its operation says. */
  ghost predicate OpOk(s: State) {
    match s.op
    case Initializing(b) => b == |s.batches| - 1 && !s.initialized && s.joining == Some(b)
    case Activating(b) => b == |s.batches| - 1 && !s.initialized && Complete(s.batches[b])
    case Starting(b, _) => b == |s.batches| - 1 && s.initialized && s.privilegesDropped && Complete(s.batches[b])
    case ClosingControl => s.control == Active ==> s.aborted
    case JoiningWorker => s.handles == {} && s.control == Untracked
    case JoiningTasks => s.handles == {} && s.control == Untracked && s.joining == None
    case _ => true
  }

  /** Handles belong to tracked tasks, and a task no longer tracked has ended. */
  ghost predicate TrackingOk(s: State) {
    && s.handles <= s.tracked
    && (forall slot :: slot in s.tracked ==> Known(s, slot))
    && (forall slot :: Known(s, slot) && slot !in s.tracked ==> TaskAt(s, slot).Ended?)
  }

  /** An unfinished worker is the one whose handle is kept, unless a later initialization replaced it. */
  ghost predicate WorkersOk(s: State) {
    && (s.joining.Some? ==> s.joining.value < |s.batches|)
    && forall b :: 0 <= b < |s.batches| && !s.batches[b].worker.Finished? ==> s.joining == Some(b) || b in s.superseded
  }

  /** A worker whose handle was replaced is not the one whose handle is kept. */
  ghost predicate ReplacedOk(s: State) {
    && (forall b :: b in s.superseded ==> b < |s.batches|)
    && (s.joining.Some? ==> s.joining.value < |s.batches| && s.joining.value !in s.superseded)
  }

  ghost predicate Invariant(s: State) {
    BatchesOk(s) && OpOk(s) && TrackingOk(s) && WorkersOk(s)
  }

  // ---------------------------------------------------------------------------
  // Kinds of steps

  ghost predicate IsWorkerStep(step: Step) {
    step.Build? || step.FailBuild? || step.BeginHanding? || step.HandOver? || step.FailHandOver? || step.FinishWorker?
  }

  ghost predicate IsTaskStep(step: Step) {
    || step.TakeProxy? || step.LoseProxy? || step.TakeStart? || step.LoseStart?
    || step.Disconnect? || step.CommandsClosed? || step.EndTask?
  }

  /** The worker gets on: it stays within the batch and takes back nothing it handed over. */
  ghost predicate GetsOn(x: Batch, w: Worker) {
    && !x.worker.Finished?
    && (w.Building? ==> w.built <= x.size)
    && (w.Handing? ==> w.handed <= x.size)
    && (w.Finished? && w.ok ==> w.handed == x.size)
    && forall i: nat :: i < x.size && Handed(x.worker, i) ==> Handed(w, i)
  }

  /** Plain steps that leave the owner's operation alone. */
  ghost predicate IsQuietStep(step: Step) {
    step.ReapControl? || step.Reap? || step.Join? || step.Forward? || step.EndControl? || step.AbortControl?
  }

  ghost predicate IsPlainStep(s: State, step: Step) {
    || step.EnterRun? || step.LeaveRun? || step.ReapControl? || step.Reap? || step.Shutdown? || step.ControlClosed?
    || step.WorkerJoined? || step.Join? || step.ShutdownReturns? || step.Forward? || step.EndControl?
    || step.AbortControl?
    || (step.Cancel? && !s.op.Initializing?)
    || (step.WorkerReturned? && Enabled(s, step) && s.batches[s.op.batch].worker.ok)
  }

  /** Steps that send or drop start signals. */
  ghost predicate IsActivationStep(s: State, step: Step) {
    || step.SendStart? || step == DropPrivileges(false) || (step.Cancel? && s.op.Initializing?)
    || (step.WorkerReturned? && Enabled(s, step) && !s.batches[s.op.batch].worker.ok)
  }
}
