/**
 Every step of the manager keeps its invariant.
 */
module ManagerSteps {
  import opened Net
  import opened Manager
  import opened ManagerInvariant

  // ---------------------------------------------------------------------------
  // Steps of one batch

  lemma GettingOnKeepsBatch(x: Batch, w: Worker, stage: Stage, open: bool)
    requires BatchOk(x, stage, open) && GetsOn(x, w)
    ensures BatchOk(x.(worker := w), stage, open)
  {
  }

  lemma SetWorkerKeeps(s: State, b: nat, w: Worker)
    requires Invariant(s) && b < |s.batches| && GetsOn(s.batches[b], w)
    ensures Invariant(SetWorker(s, b, w))
  {
    var s' := SetWorker(s, b, w);
    GettingOnKeepsBatch(s.batches[b], w, StageOf(s.op, b), Open(s, b));
    forall c | 0 <= c < |s.batches| ensures BatchOk(s'.batches[c], StageOf(s'.op, c), Open(s', c)) {
      assert c != b ==> s'.batches[c] == s.batches[c];
    }
    forall slot | Known(s', slot) ensures Known(s, slot) && TaskAt(s', slot) == TaskAt(s, slot) {
    }
  }

  /** What the worker of a batch is after one of its steps. */
  function NextWorker(x: Batch, step: Step): Worker {
    match step
    case Build(_) => if x.worker.Building? then Building(x.worker.built + 1) else x.worker
    case BeginHanding(_) => Handing(0)
    case HandOver(_) => if x.worker.Handing? then Handing(x.worker.handed + 1) else x.worker
    case FailHandOver(_) => if x.worker.Handing? then Finished(false, x.worker.handed) else x.worker
    case FinishWorker(_) => Finished(true, x.size)
    case _ => Finished(false, 0)
  }

  lemma WorkerStepSetsWorker(s: State, step: Step)
    requires Enabled(s, step) && IsWorkerStep(step)
    ensures step.batch < |s.batches|
    ensures Next(s, step) == SetWorker(s, step.batch, NextWorker(s.batches[step.batch], step))
    ensures Shaped(s.batches[step.batch]) ==> GetsOn(s.batches[step.batch], NextWorker(s.batches[step.batch], step))
  {
  }

  lemma WorkerStepKeeps(s: State, step: Step)
    requires Invariant(s) && Enabled(s, step) && IsWorkerStep(step)
    ensures Invariant(Next(s, step))
  {
    WorkerStepSetsWorker(s, step);
    assert BatchOk(s.batches[step.batch], StageOf(s.op, step.batch), Open(s, step.batch));
    SetWorkerKeeps(s, step.batch, NextWorker(s.batches[step.batch], step));
  }

  lemma TaskMoveKeepsBatch(x: Batch, i: nat, t: Task, stage: Stage, open: bool)
    requires BatchOk(x, stage, open) && i < |x.tasks|
    requires t in {AwaitStart, Forwarding, CleaningUp} ==> Handed(x.worker, i)
    requires t == Forwarding ==> x.starts[i] == Sent
    requires t.Ended? ==> Handed(x.worker, i) || x.worker.Finished?
    ensures BatchOk(x.(tasks := x.tasks[i := t]), stage, open)
  {
  }

  lemma SetTaskKeeps(s: State, slot: Slot, t: Task)
    requires Invariant(s) && Known(s, slot) && !TaskAt(s, slot).Ended?
    requires t in {AwaitStart, Forwarding, CleaningUp} ==> Handed(s.batches[slot.batch].worker, slot.index)
    requires t == Forwarding ==> Started(s, slot) == Sent
    requires t.Ended? ==> Handed(s.batches[slot.batch].worker, slot.index) || s.batches[slot.batch].worker.Finished?
    ensures Invariant(SetTask(s, slot, t))
  {
    var s' := SetTask(s, slot, t);
    var x := s.batches[slot.batch];
    assert BatchOk(x, StageOf(s.op, slot.batch), Open(s, slot.batch));
    TaskMoveKeepsBatch(x, slot.index, t, StageOf(s.op, slot.batch), Open(s, slot.batch));
    forall c | 0 <= c < |s.batches| ensures BatchOk(s'.batches[c], StageOf(s'.op, c), Open(s', c)) {
      assert c != slot.batch ==> s'.batches[c] == s.batches[c];
    }
    assert slot in s.tracked;
    forall other | Known(s', other)
      ensures Known(s, other) && (other != slot ==> TaskAt(s', other) == TaskAt(s, other))
    {
    }
  }

  lemma TaskStepKeeps(s: State, step: Step)
    requires Invariant(s) && Enabled(s, step) && IsTaskStep(step)
    ensures Invariant(Next(s, step))
  {
    TaskStepSetsTask(s, step);
    assert BatchOk(s.batches[step.slot.batch], StageOf(s.op, step.slot.batch), Open(s, step.slot.batch));
    SetTaskKeeps(s, step.slot, NextTask(step));
  }

  /** What a task is after one of its steps. */
  function NextTask(step: Step): Task {
    match step
    case TakeProxy(_) => AwaitStart
    case TakeStart(_) => Forwarding
    case LoseProxy(_) => Ended(true)
    case EndTask(_, ok) => Ended(ok)
    case _ => CleaningUp
  }

  lemma TaskStepSetsTask(s: State, step: Step)
    requires Enabled(s, step) && IsTaskStep(step)
    ensures Known(s, step.slot) && Next(s, step) == SetTask(s, step.slot, NextTask(step))
    ensures !TaskAt(s, step.slot).Ended?
    ensures NextTask(step) == AwaitStart ==> Handed(s.batches[step.slot.batch].worker, step.slot.index)
    ensures NextTask(step) in {Forwarding, CleaningUp} ==> TaskAt(s, step.slot) in {AwaitStart, Forwarding}
    ensures NextTask(step) == Forwarding ==> Started(s, step.slot) == Sent
    ensures NextTask(step).Ended? ==> TaskAt(s, step.slot) == CleaningUp || s.batches[step.slot.batch].worker.Finished?
  {
  }

  // ---------------------------------------------------------------------------
  // Steps of the owner

  lemma InitializeKeeps(s: State, size: nat)
    requires Invariant(s) && Enabled(s, Initialize(size))
    ensures Invariant(Next(s, Initialize(size)))
  {
    var b := |s.batches|;
    var s' := Next(s, Initialize(size));
    assert BatchOk(s'.batches[b], Before, Open(s', b));
    forall c | 0 <= c < b ensures BatchOk(s'.batches[c], StageOf(s'.op, c), Open(s', c)) {
      assert BatchOk(s.batches[c], After, Open(s, c));
    }
    forall slot | Known(s', slot) && slot !in s'.tracked ensures TaskAt(s', slot).Ended? {
      assert Slot(slot.batch, slot.index) !in Slots(b, size);
      assert Known(s, slot);
    }
    forall slot | slot in s'.tracked ensures Known(s', slot) {
      if slot in s.tracked {
        assert Known(s, slot);
      }
    }
  }

  lemma DropStartsKeepsBatch(x: Batch, open: bool)
    requires BatchOk(x, Before, open)
    ensures BatchOk(x.(starts := seq(|x.starts|, _ => Dropped)), After, false)
  {
  }

  /** Abandoning an activation that has sent nothing keeps everything in order. */
  lemma DropStartsKeeps(s: State, b: nat, joining: Option<nat>, result: Option<Error>)
    requires Invariant(s) && (s.op == Initializing(b) || s.op == Activating(b))
    requires joining == s.joining || (joining == None && s.batches[b].worker.Finished? && s.joining in {None, Some(b)})
    ensures b < |s.batches| && Invariant(DropStarts(s, b).(joining := joining, result := result, op := Idle))
  {
    var s' := DropStarts(s, b).(joining := joining, result := result, op := Idle);
    DropStartsKeepsBatch(s.batches[b], Open(s, b));
    forall c | 0 <= c < |s.batches| ensures BatchOk(s'.batches[c], StageOf(Idle, c), Open(s', c)) {
      if c != b {
        assert BatchOk(s.batches[c], After, Open(s, c));
      }
    }
    forall slot | Known(s', slot) ensures Known(s, slot) && TaskAt(s', slot) == TaskAt(s, slot) {
    }
  }

  /** Operations that only move on, or forget, keep the batches in order. */
  lemma SameBatchesKeep(s: State, s': State)
    requires Invariant(s) && s'.batches == s.batches
    requires s'.initialized == s.initialized && s'.privilegesDropped == s.privilegesDropped
    requires forall b :: 0 <= b < |s.batches| ==> StageOf(s'.op, b) == StageOf(s.op, b)
    ensures BatchesOk(s')
  {
    forall b | 0 <= b < |s.batches| ensures BatchOk(s'.batches[b], StageOf(s'.op, b), Open(s', b)) {
    }
  }

  lemma ActivateKeeps(s: State)
    requires Invariant(s) && Enabled(s, DropPrivileges(true))
    ensures Invariant(Next(s, DropPrivileges(true)))
  {
    var s' := Next(s, DropPrivileges(true));
    forall b | 0 <= b < |s.batches| ensures BatchOk(s'.batches[b], StageOf(s'.op, b), Open(s', b)) {
      assert BatchOk(s.batches[b], StageOf(s.op, b), Open(s, b));
    }
  }

  lemma SignalKeepsBatch(x: Batch, k: nat, open: bool)
    requires BatchOk(x, During(k), open) && k < x.size && Complete(x) && open
    ensures BatchOk(x.(starts := x.starts[k := Sent]), During(k + 1), open)
  {
  }

  lemma LastSignalKeepsBatch(x: Batch, open: bool)
    requires BatchOk(x, During(x.size), open)
    ensures BatchOk(x, After, open)
  {
    assert AllSignals(x, Sent);
  }

  lemma SendStartKeeps(s: State)
    requires Invariant(s) && Enabled(s, SendStart)
    ensures Invariant(Next(s, SendStart))
  {
    var b, k := s.op.batch, s.op.sent;
    var x, s' := s.batches[b], Next(s, SendStart);
    assert BatchOk(x, During(k), Open(s, b));
    if k == x.size {
      LastSignalKeepsBatch(x, Open(s, b));
    } else {
      SignalKeepsBatch(x, k, Open(s, b));
    }
    forall c | 0 <= c < |s.batches| ensures BatchOk(s'.batches[c], StageOf(s'.op, c), Open(s', c)) {
      assert BatchOk(s.batches[c], StageOf(s.op, c), Open(s, c));
    }
    forall slot | Known(s', slot) ensures Known(s, slot) && TaskAt(s', slot) == TaskAt(s, slot) {
    }
  }

  lemma SameTasksKeep(s: State, s': State)
    requires TrackingOk(s) && s'.batches == s.batches
    requires s'.tracked <= s.tracked && s'.handles <= s'.tracked
    requires forall slot :: slot in s.tracked && slot !in s'.tracked ==> Known(s, slot) && TaskAt(s, slot).Ended?
    ensures TrackingOk(s')
  {
    forall slot | Known(s', slot) && slot !in s'.tracked ensures TaskAt(s', slot).Ended? {
      assert Known(s, slot);
    }
    forall slot | slot in s'.tracked ensures Known(s', slot) {
      assert Known(s, slot);
    }
  }

  lemma PlainStepKeeps(s: State, step: Step)
    requires Invariant(s) && Enabled(s, step) && IsPlainStep(s, step)
    ensures Invariant(Next(s, step))
  {
    if IsQuietStep(step) {
      QuietStepKeeps(s, step);
    } else {
      MovingStepKeeps(s, step);
    }
  }

  lemma QuietStepKeeps(s: State, step: Step)
    requires Invariant(s) && Enabled(s, step) && IsQuietStep(step)
    ensures Invariant(Next(s, step))
  {
    SameBatchesKeep(s, Next(s, step));
    SameTasksKeep(s, Next(s, step));
  }

  lemma MovingStepKeeps(s: State, step: Step)
    requires Invariant(s) && Enabled(s, step) && IsPlainStep(s, step) && !IsQuietStep(step)
    ensures Invariant(Next(s, step))
  {
    SameBatchesKeep(s, Next(s, step));
    SameTasksKeep(s, Next(s, step));
  }

  lemma StepKeepsInvariant(s: State, step: Step)
    requires Invariant(s) && Enabled(s, step)
    ensures Invariant(Next(s, step))
  {
    if IsWorkerStep(step) {
      WorkerStepKeeps(s, step);
    } else if IsTaskStep(step) {
      TaskStepKeeps(s, step);
    } else if IsPlainStep(s, step) {
      PlainStepKeeps(s, step);
    } else {
      match step {
        case Initialize(size) => InitializeKeeps(s, size);
        case WorkerReturned => DropStartsKeeps(s, s.op.batch, None, s.result);
        case DropPrivileges(ok) =>
          if ok {
            ActivateKeeps(s);
          } else {
            DropStartsKeeps(s, s.op.batch, s.joining, s.result);
          }
        case SendStart => SendStartKeeps(s);
        case Cancel => DropStartsKeeps(s, s.op.batch, s.joining, None);
      }
    }
  }

  lemma {:induction false} RunKeepsInvariant(r: Run, n: nat)
    requires r.Valid() && n <= |r.steps|
    ensures Invariant(r.states[n])
  {
    if n > 0 {
      RunKeepsInvariant(r, n - 1);
      assert r.Follows(n - 1);
      StepKeepsInvariant(r.states[n - 1], r.steps[n - 1]);
    }
  }

  /** Only an initialization replaces a handle. */
  lemma ReplacementStep(s: State, step: Step)
    requires Enabled(s, step) && !step.Initialize?
    ensures Next(s, step).superseded == s.superseded && |Next(s, step).batches| == |s.batches|
    ensures Next(s, step).joining == s.joining || Next(s, step).joining == None
  {
    if IsWorkerStep(step) {
      WorkerStepSetsWorker(s, step);
    } else if IsTaskStep(step) {
      TaskStepSetsTask(s, step);
    } else if IsActivationStep(s, step) {
      ActivationReplacementStep(s, step);
    } else {
      OwnerReplacementStep(s, step);
    }
  }

  lemma ActivationReplacementStep(s: State, step: Step)
    requires Enabled(s, step) && IsActivationStep(s, step)
    ensures Next(s, step).superseded == s.superseded && |Next(s, step).batches| == |s.batches|
    ensures Next(s, step).joining == s.joining || Next(s, step).joining == None
  {
  }

  lemma OwnerReplacementStep(s: State, step: Step)
    requires Enabled(s, step) && !step.Initialize? && !IsWorkerStep(step) && !IsTaskStep(step) &&
             !IsActivationStep(s, step)
    ensures Next(s, step).superseded == s.superseded && |Next(s, step).batches| == |s.batches|
    ensures Next(s, step).joining == s.joining || Next(s, step).joining == None
  {
  }

  lemma {:induction false} RunKeepsReplaced(r: Run, n: nat)
    requires r.Valid() && n <= |r.steps|
    ensures ReplacedOk(r.states[n])
  {
    if n > 0 {
      RunKeepsReplaced(r, n - 1);
      assert r.Follows(n - 1);
      if !r.steps[n - 1].Initialize? {
        ReplacementStep(r.states[n - 1], r.steps[n - 1]);
      }
    }
  }
}
