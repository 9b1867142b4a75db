/**
 What every run of the manager guarantees: forwarding is gated on a whole, activated
 batch; an abandoned batch never forwards; a returned shutdown leaves nothing behind.
 */
module ManagerTheorems {
  import opened Net
  import opened Manager
  import opened ManagerInvariant
  import opened ManagerSteps

  // ---------------------------------------------------------------------------
  // What a step cannot undo

  /** Batches are never forgotten, and a signal that was sent or dropped stays so. */
  ghost predicate Grows(s: State, s': State) {
    && |s.batches| <= |s'.batches|
    && (forall b :: 0 <= b < |s.batches| ==> SignalsStay(s.batches[b], s'.batches[b]))
    && (s.initialized ==> s'.initialized && |s'.batches| == |s.batches|)
  }

  ghost predicate SignalsStay(x: Batch, x': Batch) {
    && |x.starts| == |x'.starts| && x.size == x'.size && |x.tasks| == |x'.tasks|
    && forall i :: 0 <= i < |x.starts| && x.starts[i] != Unsent ==> x'.starts[i] == x.starts[i]
  }

  lemma SameSignalsGrow(s: State, s': State, b: nat)
    requires |s'.batches| == |s.batches| && b < |s.batches| && (s.initialized ==> s'.initialized)
    requires forall c :: 0 <= c < |s.batches| && c != b ==> s'.batches[c] == s.batches[c]
    requires SignalsStay(s.batches[b], s'.batches[b])
    ensures Grows(s, s')
  {
    forall c | 0 <= c < |s.batches| ensures SignalsStay(s.batches[c], s'.batches[c]) {
    }
  }

  lemma SameBatchesGrow(s: State, s': State)
    requires s'.batches == s.batches && (s.initialized ==> s'.initialized)
    ensures Grows(s, s')
  {
  }

  lemma InitializeGrows(s: State, size: nat)
    requires Enabled(s, Initialize(size))
    ensures Grows(s, Next(s, Initialize(size)))
  {
  }

  lemma ActivationStepGrows(s: State, step: Step)
    requires Invariant(s) && Enabled(s, step) && IsActivationStep(s, step)
    ensures Grows(s, Next(s, step))
  {
    var b := s.op.batch;
    assert BatchOk(s.batches[b], StageOf(s.op, b), Open(s, b));
    SameSignalsGrow(s, Next(s, step), b);
  }

  lemma StepGrows(s: State, step: Step)
    requires Invariant(s) && Enabled(s, step)
    ensures Grows(s, Next(s, step))
  {
    if IsWorkerStep(step) {
      WorkerStepGrows(s, step);
    } else if IsTaskStep(step) {
      TaskStepGrows(s, step);
    } else if IsActivationStep(s, step) {
      ActivationStepGrows(s, step);
    } else if step.Initialize? {
      InitializeGrows(s, step.size);
    } else {
      SameBatchesGrow(s, Next(s, step));
    }
  }

  lemma WorkerStepGrows(s: State, step: Step)
    requires Enabled(s, step) && IsWorkerStep(step)
    ensures Grows(s, Next(s, step))
  {
    WorkerStepSetsWorker(s, step);
    SameSignalsGrow(s, Next(s, step), step.batch);
  }

  lemma TaskStepGrows(s: State, step: Step)
    requires Enabled(s, step) && IsTaskStep(step)
    ensures Grows(s, Next(s, step))
  {
    TaskStepSetsTask(s, step);
    SameSignalsGrow(s, Next(s, step), step.slot.batch);
  }

  lemma EventGrows(r: Run, i: nat)
    requires r.Valid() && i < |r.steps|
    ensures Grows(r.states[i], r.states[i + 1])
  {
    RunKeepsInvariant(r, i);
    assert r.Follows(i);
    StepGrows(r.states[i], r.steps[i]);
  }

  lemma {:induction false} RunGrows(r: Run, m: nat, n: nat)
    requires r.Valid() && m <= n <= |r.steps|
    ensures Grows(r.states[m], r.states[n])
    decreases n
  {
    if m < n {
      RunGrows(r, m, n - 1);
      EventGrows(r, n - 1);
      GrowsTransitive(r.states[m], r.states[n - 1], r.states[n]);
    } else {
      GrowsReflexive(r.states[m]);
    }
  }

  lemma GrowsReflexive(s: State)
    ensures Grows(s, s)
  {
  }

  lemma GrowsTransitive(a: State, b: State, c: State)
    requires Grows(a, b) && Grows(b, c)
    ensures Grows(a, c)
  {
    forall i | 0 <= i < |a.batches| ensures SignalsStay(a.batches[i], c.batches[i]) {
      assert SignalsStay(a.batches[i], b.batches[i]) && SignalsStay(b.batches[i], c.batches[i]);
    }
  }

  // ---------------------------------------------------------------------------
  // Gating

  ghost predicate Forwards(s: State, slot: Slot) {
    Known(s, slot) && TaskAt(s, slot) == Forwarding
  }

  lemma ForwardingWasStarted(s: State, slot: Slot)
    requires Invariant(s) && Forwards(s, slot)
    ensures slot.index < |s.batches[slot.batch].starts| && s.batches[slot.batch].starts[slot.index] == Sent
    ensures Complete(s.batches[slot.batch]) && Open(s, slot.batch)
  {
    assert BatchOk(s.batches[slot.batch], StageOf(s.op, slot.batch), Open(s, slot.batch));
  }

  /** Privileges were dropped by an earlier step, when the worker of the last batch had finished. */
  lemma {:induction false} ActivationHappened(r: Run, n: nat) returns (k: nat)
    requires r.Valid() && n <= |r.steps| && r.states[n].initialized
    ensures k < n <= |r.steps| && r.steps[k] == DropPrivileges(true)
    ensures r.states[k].op.Activating? && |r.states[k].batches| == |r.states[n].batches| == r.states[k].op.batch + 1
    ensures Complete(r.states[k].batches[r.states[k].op.batch])
  {
    if r.states[n - 1].initialized {
      k := ActivationHappened(r, n - 1);
      EventGrows(r, n - 1);
    } else {
      k := n - 1;
      ActivationStep(r, k);
    }
  }

  /** The only step that sets the manager initialized. */
  lemma ActivationStep(r: Run, i: nat)
    requires r.Valid() && i < |r.steps| && !r.states[i].initialized && r.states[i + 1].initialized
    ensures r.steps[i] == DropPrivileges(true) && r.states[i].op.Activating?
    ensures |r.states[i].batches| == |r.states[i + 1].batches| == r.states[i].op.batch + 1
    ensures Complete(r.states[i].batches[r.states[i].op.batch])
  {
    RunKeepsInvariant(r, i);
    assert r.Follows(i);
  }

  function CountBuilds(steps: seq<Step>, b: nat): nat {
    if steps == [] then 0
    else CountBuilds(steps[..|steps| - 1], b) + if steps[|steps| - 1] == Build(b) then 1 else 0
  }

  function CountHandOvers(steps: seq<Step>, b: nat): nat {
    if steps == [] then 0
    else CountHandOvers(steps[..|steps| - 1], b) + if steps[|steps| - 1] == HandOver(b) then 1 else 0
  }

  /** What a worker's phase says about the steps it has taken. */
  ghost predicate WorkerHistory(x: Batch, builds: nat, handOvers: nat) {
    match x.worker
    case Building(k) => builds == k && handOvers == 0
    case Handing(k) => builds == x.size && handOvers == k
    case Finished(ok, k) => handOvers == k && (ok || k > 0 ==> builds == x.size)
  }

  /** The history of batch `b` after some steps; a batch not yet begun has none. */
  ghost predicate HistoryOk(s: State, b: nat, builds: nat, handOvers: nat) {
    if b < |s.batches| then WorkerHistory(s.batches[b], builds, handOvers) else builds == 0 && handOvers == 0
  }

  lemma {:induction false} WorkersCount(r: Run, n: nat, b: nat)
    requires r.Valid() && n <= |r.steps|
    ensures HistoryOk(r.states[n], b, CountBuilds(r.steps[..n], b), CountHandOvers(r.steps[..n], b))
  {
    if n > 0 {
      WorkersCount(r, n - 1, b);
      assert r.steps[..n][..n - 1] == r.steps[..n - 1];
      EventHistory(r, n - 1, b, CountBuilds(r.steps[..n - 1], b), CountHandOvers(r.steps[..n - 1], b));
    }
  }

  lemma EventHistory(r: Run, i: nat, b: nat, builds: nat, handOvers: nat)
    requires r.Valid() && i < |r.steps| && HistoryOk(r.states[i], b, builds, handOvers)
    ensures HistoryOk(r.states[i + 1], b,
                      builds + if r.steps[i] == Build(b) then 1 else 0,
                      handOvers + if r.steps[i] == HandOver(b) then 1 else 0)
  {
    assert r.Follows(i);
    RunKeepsInvariant(r, i);
    if IsWorkerStep(r.steps[i]) {
      WorkerStepHistory(r.states[i], r.steps[i], b, builds, handOvers);
    } else {
      OtherStepHistory(r.states[i], r.steps[i], b, builds, handOvers);
    }
  }

  ghost predicate SameWorker(s: State, s': State, b: nat) {
    && b < |s.batches| <= |s'.batches|
    && s'.batches[b].worker == s.batches[b].worker && s'.batches[b].size == s.batches[b].size
  }

  lemma ActivationStepKeepsWorkers(s: State, step: Step, b: nat)
    requires Enabled(s, step) && IsActivationStep(s, step) && b < |s.batches|
    ensures SameWorker(s, Next(s, step), b)
  {
  }

  lemma OtherStepKeepsWorkers(s: State, step: Step, b: nat)
    requires Enabled(s, step) && !IsWorkerStep(step) && b < |s.batches|
    ensures SameWorker(s, Next(s, step), b)
  {
    if IsTaskStep(step) {
      TaskStepSetsTask(s, step);
    } else if IsActivationStep(s, step) {
      ActivationStepKeepsWorkers(s, step, b);
    } else if step.Initialize? {
      assert Next(s, Initialize(step.size)).batches[b] == s.batches[b];
    } else {
      assert Next(s, step).batches == s.batches;
    }
  }

  lemma OtherStepHistory(s: State, step: Step, b: nat, builds: nat, handOvers: nat)
    requires Enabled(s, step) && !IsWorkerStep(step) && HistoryOk(s, b, builds, handOvers)
    ensures HistoryOk(Next(s, step), b, builds, handOvers)
  {
    if b < |s.batches| {
      OtherStepKeepsWorkers(s, step, b);
    }
  }

  lemma WorkerStepHistory(s: State, step: Step, b: nat, builds: nat, handOvers: nat)
    requires Enabled(s, step) && IsWorkerStep(step) && HistoryOk(s, b, builds, handOvers)
    ensures HistoryOk(Next(s, step), b,
                      builds + if step == Build(b) then 1 else 0,
                      handOvers + if step == HandOver(b) then 1 else 0)
  {
    WorkerStepSetsWorker(s, step);
  }

  /** No proxy is handed over before the whole batch is built. */
  lemma HandOverAfterWholeBatch(r: Run, i: nat)
    requires r.Valid() && i < |r.steps| && r.steps[i].HandOver?
    ensures r.steps[i].batch < |r.states[i].batches|
    ensures CountBuilds(r.steps[..i], r.steps[i].batch) == r.states[i].batches[r.steps[i].batch].size
  {
    assert r.Follows(i);
    WorkersCount(r, i, r.steps[i].batch);
  }

  /**
   A task forwards only after its whole batch was built and handed over and privileges were dropped, in that
   order.
   */
  lemma ForwardingIsGated(r: Run, n: nat, slot: Slot) returns (k: nat)
    requires r.Valid() && n <= |r.steps| && Forwards(r.states[n], slot)
    ensures k < n && r.steps[k] == DropPrivileges(true)
    ensures CountBuilds(r.steps[..k], slot.batch) == r.states[n].batches[slot.batch].size
    ensures CountHandOvers(r.steps[..k], slot.batch) == r.states[n].batches[slot.batch].size
    ensures r.states[n].privilegesDropped && r.states[n].initialized
  {
    RunKeepsInvariant(r, n);
    ForwardingWasStarted(r.states[n], slot);
    k := ActivationHappened(r, n);
    assert slot.batch == r.states[k].op.batch;
    WorkersCount(r, k, slot.batch);
    RunGrows(r, k, n);
    assert SignalsStay(r.states[k].batches[slot.batch], r.states[n].batches[slot.batch]);
  }

  /** All tasks that ever forward belong to one batch. */
  lemma OneBatchForwards(r: Run, m: nat, n: nat, one: Slot, other: Slot)
    requires r.Valid() && m <= n <= |r.steps| && Forwards(r.states[m], one) && Forwards(r.states[n], other)
    ensures one.batch == other.batch
  {
    RunKeepsInvariant(r, m);
    RunKeepsInvariant(r, n);
    ForwardingWasStarted(r.states[m], one);
    ForwardingWasStarted(r.states[n], other);
    RunGrows(r, m, n);
  }

  // ---------------------------------------------------------------------------
  // Abandoned batches

  /** Step `i` abandons batch `b`: the initialization is cancelled, its worker failed, or privileges stay. */
  ghost predicate Abandons(r: Run, i: nat, b: nat)
    requires r.Valid() && i < |r.steps|
  {
    || (r.steps[i].Cancel? && r.states[i].op == Initializing(b))
    || (r.steps[i].WorkerReturned? && r.states[i].op == Initializing(b) && b < |r.states[i].batches| &&
        r.states[i].batches[b].worker.Finished? && !r.states[i].batches[b].worker.ok)
    || (r.steps[i] == DropPrivileges(false) && r.states[i].op == Activating(b))
  }

  lemma AbandoningDropsSignals(r: Run, i: nat, b: nat)
    requires r.Valid() && i < |r.steps| && Abandons(r, i, b)
    ensures b < |r.states[i + 1].batches| && AllSignals(r.states[i + 1].batches[b], Dropped)
  {
    RunKeepsInvariant(r, i);
    assert r.Follows(i);
  }

  /** No VM of a failed or cancelled batch forwards at any time, before or after. */
  lemma AbandonedBatchNeverForwards(r: Run, i: nat, b: nat, n: nat, slot: Slot)
    requires r.Valid() && i < |r.steps| && n <= |r.steps| && Abandons(r, i, b) && slot.batch == b
    ensures !Forwards(r.states[n], slot)
  {
    AbandoningDropsSignals(r, i, b);
    if n <= i + 1 {
      RunGrows(r, n, i + 1);
    } else {
      RunGrows(r, i + 1, n);
    }
    if Forwards(r.states[n], slot) {
      RunKeepsInvariant(r, n);
      ForwardingWasStarted(r.states[n], slot);
    }
  }

  // ---------------------------------------------------------------------------
  // After shutdown

  /** While running, command channels belong to tasks that are still tracked. */
  lemma HandlesAreTracked(r: Run, n: nat)
    requires r.Valid() && n <= |r.steps|
    ensures r.states[n].handles <= r.states[n].tracked
  {
    RunKeepsInvariant(r, n);
  }

  /**
   A shutdown that returns leaves nothing tracked and no task alive, whatever was cancelled before it.
   A worker still about to return is one whose handle was replaced, and it has handed everything over.
   */
  lemma ShutdownLeavesNothing(r: Run, i: nat)
    requires r.Valid() && i < |r.steps| && r.steps[i].ShutdownReturns?
    ensures
      var s := r.states[i + 1];
      && s.control == Untracked && s.joining == None && s.tracked == {} && s.handles == {}
      && (forall slot :: Known(s, slot) ==> TaskAt(s, slot).Ended?)
      && (forall b :: 0 <= b < |s.batches| && !s.batches[b].worker.Finished? ==>
            b in s.superseded && s.batches[b].worker == Handing(s.batches[b].size))
  {
    RunKeepsInvariant(r, i);
    assert r.Follows(i);
    var s, s' := r.states[i], r.states[i + 1];
    forall slot | Known(s', slot) ensures TaskAt(s', slot).Ended? {
      assert Known(s, slot) && slot !in s.tracked;
    }
    forall b | 0 <= b < |s'.batches| && !s'.batches[b].worker.Finished?
      ensures b in s'.superseded && s'.batches[b].worker == Handing(s'.batches[b].size)
    {
      var x := s.batches[b];
      assert BatchOk(x, StageOf(s.op, b), Open(s, b));
      forall i | 0 <= i < |x.tasks| ensures x.tasks[i].Ended? {
        assert Known(s', Slot(b, i)) && TaskAt(s', Slot(b, i)).Ended?;
      }
      EndedBatchIsHandedOver(x);
    }
  }

  /** Once all its tasks have ended, a worker that still runs has handed over the whole batch. */
  lemma EndedBatchIsHandedOver(x: Batch)
    requires Shaped(x) && TasksFollow(x) && forall i :: 0 <= i < |x.tasks| ==> x.tasks[i].Ended?
    ensures x.worker.Finished? || x.worker == Handing(x.size)
  {
    assert x.tasks[x.size - 1].Ended?;
  }

  // ---------------------------------------------------------------------------
  // An activated batch forwards

  /** Once the manager is initialized its last batch has been told to start, or is being told. */
  ghost predicate Activated(s: State) {
    s.initialized ==>
      && s.batches != []
      && (s.op.Starting? || AllSignals(s.batches[|s.batches| - 1], Sent))
  }

  lemma StepKeepsActivated(s: State, step: Step)
    requires Invariant(s) && Enabled(s, step) && Activated(s)
    ensures Activated(Next(s, step))
  {
    if step.SendStart? {
      LastSignal(s);
    } else if s.initialized && !s.op.Starting? {
      AlreadyActivated(s, step);
    } else {
      NotYetActivated(s, step);
    }
  }

  lemma AlreadyActivated(s: State, step: Step)
    requires Invariant(s) && Enabled(s, step) && Activated(s) && s.initialized && !s.op.Starting?
    ensures Activated(Next(s, step))
  {
    StepGrows(s, step);
    SentStays(s, Next(s, step));
  }

  lemma SentStays(s: State, s': State)
    requires Grows(s, s') && s.initialized && s.batches != [] && AllSignals(s.batches[|s.batches| - 1], Sent)
    ensures Activated(s')
  {
    assert SignalsStay(s.batches[|s.batches| - 1], s'.batches[|s.batches| - 1]);
  }

  lemma LastSignal(s: State)
    requires Invariant(s) && Enabled(s, SendStart)
    ensures Activated(Next(s, SendStart))
  {
    assert BatchOk(s.batches[s.op.batch], StageOf(s.op, s.op.batch), Open(s, s.op.batch));
  }

  lemma NotYetActivated(s: State, step: Step)
    requires Invariant(s) && Enabled(s, step) && !step.SendStart? && (!s.initialized || s.op.Starting?)
    ensures Activated(Next(s, step))
  {
    if IsWorkerStep(step) {
      WorkerStepSetsWorker(s, step);
    } else if IsTaskStep(step) {
      TaskStepSetsTask(s, step);
    }
  }

  lemma {:induction false} RunStaysActivated(r: Run, n: nat)
    requires r.Valid() && n <= |r.steps|
    ensures Activated(r.states[n])
  {
    if n > 0 {
      RunStaysActivated(r, n - 1);
      RunKeepsInvariant(r, n - 1);
      assert r.Follows(n - 1);
      StepKeepsActivated(r.states[n - 1], r.steps[n - 1]);
    }
  }

  /** A task of an activated batch that has its proxy, or is about to take it, forwards within two steps of its own. */
  lemma ActivatedTaskCanForward(r: Run, slot: Slot) returns (r': Run)
    requires r.Valid() && r.Last().initialized && !r.Last().op.Starting?
    requires Known(r.Last(), slot) && slot.batch == |r.Last().batches| - 1
    requires TaskAt(r.Last(), slot) in {AwaitProxy, AwaitStart}
    ensures Continues(r, r') && |r'.steps| <= |r.steps| + 2 && Forwards(r'.Last(), slot)
  {
    RunStaysActivated(r, |r.steps|);
    var k := ActivationHappened(r, |r.steps|);
    CompleteStays(r, k, |r.steps|);
    RunKeepsInvariant(r, |r.steps|);
    assert BatchOk(r.Last().batches[slot.batch], StageOf(r.Last().op, slot.batch), Open(r.Last(), slot.batch));
    r' := r;
    if TaskAt(r.Last(), slot) == AwaitProxy {
      r' := TakesProxy(r, slot);
    }
    r' := TakesStart(r', slot);
  }

  lemma TakesProxy(r: Run, slot: Slot) returns (r': Run)
    requires r.Valid() && Known(r.Last(), slot) && TaskAt(r.Last(), slot) == AwaitProxy
    requires Handed(r.Last().batches[slot.batch].worker, slot.index) && Started(r.Last(), slot) == Sent
    ensures Continues(r, r') && |r'.steps| == |r.steps| + 1
    ensures Known(r'.Last(), slot) && TaskAt(r'.Last(), slot) == AwaitStart && Started(r'.Last(), slot) == Sent
  {
    r' := Extend(r, TakeProxy(slot));
  }

  lemma TakesStart(r: Run, slot: Slot) returns (r': Run)
    requires r.Valid() && Known(r.Last(), slot) && TaskAt(r.Last(), slot) == AwaitStart &&
             Started(r.Last(), slot) == Sent
    ensures Continues(r, r') && |r'.steps| == |r.steps| + 1 && Forwards(r'.Last(), slot)
  {
    r' := Extend(r, TakeStart(slot));
  }

  /** A worker that has handed over its whole batch stays finished. */
  lemma {:induction false} CompleteStays(r: Run, m: nat, n: nat)
    requires r.Valid() && m <= n <= |r.steps| && |r.states[m].batches| == |r.states[n].batches| > 0
    requires Complete(r.states[m].batches[|r.states[m].batches| - 1])
    ensures Complete(r.states[n].batches[|r.states[n].batches| - 1])
    decreases n
  {
    if m < n {
      RunGrows(r, m, n - 1);
      RunGrows(r, n - 1, n);
      CompleteStays(r, m, n - 1);
      assert r.Follows(n - 1);
      CompleteStep(r.states[n - 1], r.steps[n - 1], |r.states[n - 1].batches| - 1);
    }
  }

  lemma CompleteStep(s: State, step: Step, b: nat)
    requires Enabled(s, step) && b < |s.batches| && Complete(s.batches[b])
    ensures b < |Next(s, step).batches| && Complete(Next(s, step).batches[b])
  {
    if IsWorkerStep(step) {
      WorkerStepSetsWorker(s, step);
    } else {
      OtherStepKeepsWorkers(s, step, b);
    }
  }

  // ---------------------------------------------------------------------------
  // Command channels and forwarding

  /** Until a shutdown closes the command channels, exactly the tasks not yet joined have one. */
  lemma {:induction false} TrackedHaveHandles(r: Run, n: nat)
    requires r.Valid() && n <= |r.steps| && forall i :: 0 <= i < n ==> !r.steps[i].ControlClosed?
    ensures r.states[n].handles == r.states[n].tracked
  {
    if n > 0 {
      TrackedHaveHandles(r, n - 1);
      assert r.Follows(n - 1);
      HandlesStep(r.states[n - 1], r.steps[n - 1]);
    }
  }

  lemma HandlesStep(s: State, step: Step)
    requires Enabled(s, step) && !step.ControlClosed? && s.handles == s.tracked
    ensures Next(s, step).handles == Next(s, step).tracked
  {
    if IsWorkerStep(step) {
      WorkerStepSetsWorker(s, step);
    } else if IsTaskStep(step) {
      TaskStepSetsTask(s, step);
    }
  }

  /** Until then every VM that has not ended can be sent commands. */
  lemma LiveTasksHaveHandles(r: Run, n: nat, slot: Slot)
    requires r.Valid() && n <= |r.steps| && forall i :: 0 <= i < n ==> !r.steps[i].ControlClosed?
    requires Known(r.states[n], slot) && !TaskAt(r.states[n], slot).Ended?
    ensures slot in r.states[n].handles
  {
    RunKeepsInvariant(r, n);
    TrackedHaveHandles(r, n);
  }

  /** A VM stops forwarding only when it disconnects or its command channel is closed, and then cleans up. */
  lemma ForwardingEnds(r: Run, i: nat, slot: Slot)
    requires r.Valid() && i < |r.steps| && Forwards(r.states[i], slot) && !Forwards(r.states[i + 1], slot)
    ensures r.steps[i] == Disconnect(slot) || (r.steps[i] == CommandsClosed(slot) && slot !in r.states[i].handles)
    ensures Known(r.states[i + 1], slot) && TaskAt(r.states[i + 1], slot) == CleaningUp
  {
    RunKeepsInvariant(r, i);
    assert r.Follows(i);
    if IsTaskStep(r.steps[i]) {
      TaskStepSetsTask(r.states[i], r.steps[i]);
      assert r.steps[i].slot == slot;
    } else {
      OtherStepKeepsTasks(r.states[i], r.steps[i], slot);
    }
  }

  lemma OtherStepKeepsTasks(s: State, step: Step, slot: Slot)
    requires Invariant(s) && Enabled(s, step) && !IsTaskStep(step) && Known(s, slot)
    ensures Known(Next(s, step), slot) && TaskAt(Next(s, step), slot) == TaskAt(s, slot)
  {
    if IsWorkerStep(step) {
      WorkerStepSetsWorker(s, step);
    } else if IsActivationStep(s, step) {
      ActivationKeepsTasks(s, step, slot);
    } else if step.Initialize? {
      assert Next(s, step).batches[slot.batch] == s.batches[slot.batch];
    } else {
      assert Next(s, step).batches == s.batches;
    }
  }

  lemma ActivationKeepsTasks(s: State, step: Step, slot: Slot)
    requires Invariant(s) && Enabled(s, step) && IsActivationStep(s, step) && Known(s, slot)
    ensures Known(Next(s, step), slot) && TaskAt(Next(s, step), slot) == TaskAt(s, slot)
  {
  }

  /** A VM of an activated batch is never told that it may not start. */
  lemma ActivatedNeverLosesStart(r: Run, i: nat, slot: Slot)
    requires r.Valid() && i < |r.steps| && r.states[i].initialized && slot.batch == |r.states[i].batches| - 1
    ensures r.steps[i] != LoseStart(slot)
  {
    RunStaysActivated(r, i);
    RunKeepsInvariant(r, i);
    assert r.Follows(i);
    if Known(r.states[i], slot) {
      assert BatchOk(r.states[i].batches[slot.batch], StageOf(r.states[i].op, slot.batch), Open(r.states[i],
             slot.batch));
    }
  }
}
