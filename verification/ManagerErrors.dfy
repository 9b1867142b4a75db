/**
 The error a shutdown reports: the first failure it joins. A cancelled shutdown forgets what it has
 joined, and nobody reports it afterwards.
 */
module ManagerErrors {
  import opened Net
  import opened Manager
  import opened ManagerInvariant
  import opened ManagerSteps
  import opened ManagerTheorems
  import opened ManagerShutdown

  // ---------------------------------------------------------------------------
  // Failures

  /** The failure a step of a shutdown finds out about. */
  ghost function FailureOf(s: State, step: Step): Option<Error>
    requires Enabled(s, step)
  {
    match step
    case WorkerJoined =>
      if s.joining.Some? && !s.batches[s.joining.value].worker.ok then Some(WorkerFailed(s.joining.value)) else None
    case Join(slot) => if TaskAt(s, slot) == Ended(false) then Some(TaskFailed(slot)) else None
    case _ => None
  }

  ghost function Failure(r: Run, k: nat): Option<Error>
    requires r.Valid() && k < |r.steps|
  {
    assert r.Follows(k);
    FailureOf(r.states[k], r.steps[k])
  }

  /** The shutdown that step `i` began is in progress before step `n`. */
  ghost predicate InProgress(r: Run, i: nat, n: nat)
    requires r.Valid()
  {
    i < n <= |r.steps| && r.steps[i].Shutdown? && forall k :: i < k <= n ==> ShuttingDown(r.states[k])
  }

  /** Step `k` joins the first failure since step `i`. */
  ghost predicate FirstFailure(r: Run, i: nat, k: nat)
    requires r.Valid() && k < |r.steps|
  {
    i < k && Failure(r, k).Some? && forall j :: i < j < k ==> Failure(r, j).None?
  }

  /** Every shutdown in progress was begun. */
  lemma {:induction false} ShutdownBegan(r: Run, n: nat) returns (i: nat)
    requires r.Valid() && n <= |r.steps| && ShuttingDown(r.states[n])
    ensures InProgress(r, i, n)
  {
    assert r.Follows(n - 1);
    if ShuttingDown(r.states[n - 1]) {
      i := ShutdownBegan(r, n - 1);
    } else {
      ShutdownStart(r.states[n - 1], r.steps[n - 1]);
      i := n - 1;
    }
  }

  lemma ShutdownStart(s: State, step: Step)
    requires Enabled(s, step) && !ShuttingDown(s) && ShuttingDown(Next(s, step))
    ensures step.Shutdown?
  {
  }

  /** While the worker is not joined there is nothing to report; later the first failure is kept. */
  lemma ResultStep(s: State, step: Step)
    requires Enabled(s, step) && ShuttingDown(s) && ShuttingDown(Next(s, step)) &&
             (s.op.JoiningTasks? || s.result.None?)
    ensures Next(s, step).result == if s.result.Some? then s.result else FailureOf(s, step)
    ensures Next(s, step).op.JoiningTasks? || Next(s, step).result.None?
  {
    ShutdownSteps(s, step);
  }

  /** What a shutdown is going to report is the first failure it has joined. */
  lemma {:induction false} ResultIsFirstFailure(r: Run, i: nat, n: nat)
    requires r.Valid() && InProgress(r, i, n)
    ensures r.states[n].op.JoiningTasks? || r.states[n].result.None?
    ensures r.states[n].result.None? ==> forall k :: i < k < n ==> Failure(r, k).None?
    ensures r.states[n].result.Some? ==>
              exists k :: i < k < n && FirstFailure(r, i, k) && Failure(r, k) == r.states[n].result
    decreases n
  {
    assert r.Follows(n - 1);
    if n - 1 > i {
      ResultIsFirstFailure(r, i, n - 1);
      ResultStep(r.states[n - 1], r.steps[n - 1]);
      assert r.states[n].result == if r.states[n - 1].result.Some? then r.states[n - 1].result else Failure(r, n - 1);
      if r.states[n - 1].result.None? && Failure(r, n - 1).Some? {
        assert FirstFailure(r, i, n - 1);
      }
    }
  }

  // ---------------------------------------------------------------------------
  // What a shutdown reports

  /** Step `m` ends a shutdown that reports `e`. */
  ghost predicate Reports(r: Run, m: nat, e: Error)
    requires r.Valid() && m < |r.steps|
  {
    r.steps[m].ShutdownReturns? && r.states[m].result == Some(e)
  }

  lemma ReturningShutdown(r: Run, m: nat) returns (i: nat)
    requires r.Valid() && m < |r.steps| && r.steps[m].ShutdownReturns?
    ensures InProgress(r, i, m)
  {
    assert r.Follows(m);
    i := ShutdownBegan(r, m);
  }

  lemma FirstIsUnique(r: Run, i: nat, j: nat, k: nat)
    requires r.Valid() && j < |r.steps| && k < |r.steps| && FirstFailure(r, i, j) && FirstFailure(r, i, k)
    ensures j == k
  {
  }

  lemma {:induction false} TasksStayJoining(r: Run, i: nat, m: nat, n: nat)
    requires r.Valid() && InProgress(r, i, n) && i < m <= n && r.states[m].op.JoiningTasks?
    ensures r.states[n].op.JoiningTasks?
    decreases n
  {
    if m < n {
      TasksStayJoining(r, i, m, n - 1);
      assert r.Follows(n - 1);
      ShutdownSteps(r.states[n - 1], r.steps[n - 1]);
    }
  }

  /** The worker is joined before any task, so its failure comes first. */
  lemma WorkerFailsFirst(r: Run, i: nat, k: nat, n: nat)
    requires r.Valid() && InProgress(r, i, n) && i < k < n && Failure(r, k).Some? && Failure(r, k).value.WorkerFailed?
    ensures FirstFailure(r, i, k)
  {
    assert r.Follows(k);
    forall j | i < j < k ensures Failure(r, j).None? {
      assert r.Follows(j);
      if r.steps[j].Join? || r.steps[j].WorkerJoined? {
        JoinsInTasks(r.states[j], r.steps[j]);
        TasksStayJoining(r, i, j + 1, k);
      }
    }
  }

  lemma JoinsInTasks(s: State, step: Step)
    requires Enabled(s, step) && (step.Join? || step.WorkerJoined?)
    ensures Next(s, step).op.JoiningTasks?
  {
  }

  /**
   A shutdown that returns reports the worker's failure, or else the first failing task it joined, or else
   success.
   */
  lemma ShutdownReports(r: Run, i: nat, n: nat)
    requires r.Valid() && InProgress(r, i, n) && n < |r.steps| && r.steps[n].ShutdownReturns?
    ensures r.states[n].result.None? <==> forall k :: i < k < n ==> Failure(r, k).None?
    ensures forall k :: i < k < n && FirstFailure(r, i, k) ==> r.states[n].result == Failure(r, k)
    ensures forall k :: i < k < n && Failure(r, k).Some? && Failure(r, k).value.WorkerFailed? ==>
                          r.states[n].result == Failure(r, k)
  {
    ResultIsFirstFailure(r, i, n);
    forall k | i < k < n && FirstFailure(r, i, k) ensures r.states[n].result == Failure(r, k) {
      var j :| i < j < n && FirstFailure(r, i, j) && Failure(r, j) == r.states[n].result;
      FirstIsUnique(r, i, j, k);
    }
    forall k | i < k < n && Failure(r, k).Some? && Failure(r, k).value.WorkerFailed?
      ensures r.states[n].result == Failure(r, k)
    {
      WorkerFailsFirst(r, i, k, n);
    }
  }

  // ---------------------------------------------------------------------------
  // Nobody is joined twice

  /** Whoever failed with `e` has been joined. */
  ghost predicate Gone(s: State, e: Error) {
    match e
    case WorkerFailed(b) => b < |s.batches| && s.joining != Some(b)
    case TaskFailed(slot) => Known(s, slot) && slot !in s.tracked
  }

  lemma TrackedStep(s: State, step: Step)
    requires Enabled(s, step) && !step.Initialize?
    ensures Next(s, step).tracked <= s.tracked
  {
    if IsWorkerStep(step) {
      WorkerStepSetsWorker(s, step);
    } else if IsTaskStep(step) {
      TaskStepSetsTask(s, step);
    }
  }

  lemma GoneStep(s: State, step: Step, e: Error)
    requires Invariant(s) && Enabled(s, step) && Gone(s, e)
    ensures Gone(Next(s, step), e)
  {
    StepGrows(s, step);
    if step.Initialize? {
      assert e.TaskFailed? ==> e.slot !in Slots(|s.batches|, step.size);
    } else {
      ReplacementStep(s, step);
      TrackedStep(s, step);
    }
  }

  lemma {:induction false} GoneStays(r: Run, m: nat, n: nat, e: Error)
    requires r.Valid() && m <= n <= |r.steps| && Gone(r.states[m], e)
    ensures Gone(r.states[n], e)
    decreases n
  {
    if m < n {
      GoneStays(r, m, n - 1, e);
      RunKeepsInvariant(r, n - 1);
      assert r.Follows(n - 1);
      GoneStep(r.states[n - 1], r.steps[n - 1], e);
    }
  }

  lemma JoiningGone(s: State, step: Step)
    requires Enabled(s, step) && FailureOf(s, step).Some?
    ensures !Gone(s, FailureOf(s, step).value) && Gone(Next(s, step), FailureOf(s, step).value)
  {
  }

  /** A failure is found out once. */
  lemma JoinedOnce(r: Run, j: nat, k: nat)
    requires r.Valid() && j < |r.steps| && k < |r.steps| && Failure(r, j).Some? && Failure(r, j) == Failure(r, k)
    ensures j == k
  {
    assert r.Follows(j) && r.Follows(k);
    JoiningGone(r.states[j], r.steps[j]);
    JoiningGone(r.states[k], r.steps[k]);
    if j < k {
      GoneStays(r, j + 1, k, Failure(r, j).value);
    } else if k < j {
      GoneStays(r, k + 1, j, Failure(r, j).value);
    }
  }

  // ---------------------------------------------------------------------------
  // Lost failures

  /** The shutdown that step `i` began ends with step `n`. */
  ghost predicate Ends(r: Run, i: nat, n: nat)
    requires r.Valid()
  {
    InProgress(r, i, n) && n < |r.steps| && !ShuttingDown(r.states[n + 1])
  }

  /** A report of a failure joined at `k` ends the very shutdown that joined it, as its first failure. */
  lemma ReportedByItsShutdown(r: Run, i: nat, n: nat, k: nat, m: nat)
    requires r.Valid() && Ends(r, i, n) && i < k < n && Failure(r, k).Some?
    requires i < m < |r.steps| && Reports(r, m, Failure(r, k).value)
    ensures m == n && FirstFailure(r, i, k)
  {
    var i' := ReturningShutdown(r, m);
    ResultIsFirstFailure(r, i', m);
    var j :| i' < j < m && FirstFailure(r, i', j) && Failure(r, j) == r.states[m].result;
    JoinedOnce(r, j, k);
    SameShutdown(r, i, n, i', m, k);
  }

  lemma SameShutdown(r: Run, i: nat, n: nat, i': nat, m: nat, k: nat)
    requires r.Valid() && Ends(r, i, n) && InProgress(r, i', m) && m < |r.steps| && r.steps[m].ShutdownReturns?
    requires i < k < n && i' < k < m
    ensures i == i' && m == n
  {
    assert r.Follows(i) && r.Follows(i') && r.Follows(m);
    assert !ShuttingDown(r.states[i]) && !ShuttingDown(r.states[i']) && !ShuttingDown(r.states[m + 1]);
  }

  /**
   A joined failure is reported if and only if its shutdown returns, rather than being cancelled, and it was
   its first.
   */
  lemma ReportedExactly(r: Run, i: nat, n: nat, k: nat)
    requires r.Valid() && Ends(r, i, n) && i < k < n && Failure(r, k).Some?
    ensures (exists m :: i < m < |r.steps| && Reports(r, m, Failure(r, k).value)) <==>
            r.steps[n].ShutdownReturns? && FirstFailure(r, i, k)
  {
    if m :| i < m < |r.steps| && Reports(r, m, Failure(r, k).value) {
      ReportedByItsShutdown(r, i, n, k, m);
    }
    if r.steps[n].ShutdownReturns? && FirstFailure(r, i, k) {
      ShutdownReports(r, i, n);
      assert Reports(r, n, Failure(r, k).value);
    }
  }

  lemma EndingStep(r: Run, i: nat, n: nat)
    requires r.Valid() && Ends(r, i, n)
    ensures r.steps[n].Cancel? || r.steps[n].ShutdownReturns?
  {
    ShutdownGoesOn(r, n);
  }

  /** Everything a shutdown has joined is lost if and only if it is cancelled. */
  lemma LostExactly(r: Run, i: nat, n: nat, k: nat)
    requires r.Valid() && Ends(r, i, n) && i < k < n && Failure(r, k).Some?
    ensures r.steps[n].Cancel? <==>
            forall j, m :: i < j < n && i < m < |r.steps| && Failure(r, j).Some? ==> !Reports(r, m, Failure(r, j).value)
  {
    EndingStep(r, i, n);
    if r.steps[n].Cancel? {
      forall j, m | i < j < n && i < m < |r.steps| && Failure(r, j).Some? ensures !Reports(r, m, Failure(r, j).value) {
        ReportedExactly(r, i, n, j);
      }
    } else {
      ShutdownReports(r, i, n);
      ResultIsFirstFailure(r, i, n);
      var j :| i < j < n && FirstFailure(r, i, j) && Failure(r, j) == r.states[n].result;
      assert Reports(r, n, Failure(r, j).value);
    }
  }

  // ---------------------------------------------------------------------------
  // A failure can be lost at any time before the return

  /** Nobody still to be joined has failed. */
  ghost predicate NoneFailed(s: State) {
    && (forall slot :: slot in s.tracked ==> Known(s, slot) && TaskAt(s, slot) != Ended(false))
    && (s.joining.Some? ==> s.joining.value < |s.batches| && !FailedWorker(s.batches[s.joining.value].worker))
  }

  predicate FailedWorker(w: Worker) {
    w.Finished? && !w.ok
  }

  lemma NoneFailedStep(s: State, step: Step)
    requires Enabled(s, step) && IsBound(step) && NoneFailed(s)
    ensures NoneFailed(Next(s, step)) && FailureOf(s, step).None?
  {
    if IsWorkerStep(step) {
      WorkerStepSetsWorker(s, step);
      WorkerNoneFailed(s, step.batch, NextWorker(s.batches[step.batch], step));
    } else if IsTaskStep(step) {
      TaskStepSetsTask(s, step);
      TaskNoneFailed(s, step.slot, NextTask(step));
    }
  }

  lemma WorkerNoneFailed(s: State, b: nat, w: Worker)
    requires NoneFailed(s) && b < |s.batches| && !FailedWorker(w)
    ensures NoneFailed(SetWorker(s, b, w))
  {
    var s' := SetWorker(s, b, w);
    forall slot | slot in s'.tracked ensures Known(s', slot) && TaskAt(s', slot) != Ended(false) {
      assert Known(s, slot) && TaskAt(s', slot) == TaskAt(s, slot);
    }
  }

  lemma TaskNoneFailed(s: State, slot: Slot, t: Task)
    requires NoneFailed(s) && Known(s, slot) && t != Ended(false)
    ensures NoneFailed(SetTask(s, slot, t))
  {
    var s' := SetTask(s, slot, t);
    forall other | other in s'.tracked ensures Known(s', other) && TaskAt(s', other) != Ended(false) {
      assert Known(s, other);
    }
  }

  lemma NothingToReport(s: State, step: Step)
    requires Enabled(s, step) && IsBound(step) && s.result.None? && FailureOf(s, step).None?
    ensures Next(s, step).result.None?
  {
    if IsWorkerStep(step) {
      WorkerStepSetsWorker(s, step);
    } else if IsTaskStep(step) {
      TaskStepSetsTask(s, step);
    }
  }

  lemma {:induction false} CleanCompletion(r: Run, r': Run, n: nat)
    requires Completes(r, r') && |r.steps| <= n < |r'.steps| && NoneFailed(r.Last()) && r.Last().result.None?
    ensures NoneFailed(r'.states[n]) && r'.states[n].result.None?
    decreases n
  {
    if n == |r.steps| {
      assert r'.states[n] == r.Last();
    } else {
      CleanCompletion(r, r', n - 1);
      assert r'.Follows(n - 1);
      NoneFailedStep(r'.states[n - 1], r'.steps[n - 1]);
      NothingToReport(r'.states[n - 1], r'.steps[n - 1]);
    }
  }

  lemma StartAgain(r: Run) returns (r': Run)
    requires r.Valid() && ShuttingDown(r.Last()) && NoneFailed(r.Last())
    ensures Continues(r, r') && r'.steps == r.steps + [Cancel, Shutdown]
    ensures ShuttingDown(r'.Last()) && NoneFailed(r'.Last()) && r'.Last().result.None?
  {
    r' := Extend(r, Cancel);
    assert NoneFailed(r'.Last());
    r' := Extend(r', Shutdown);
  }

  /** Whatever failure a shutdown has joined, if it is cancelled now the next one can return success. */
  lemma FailureCanBeLost(r: Run) returns (r': Run)
    requires r.Valid() && ShuttingDown(r.Last()) && NoneFailed(r.Last())
    ensures Continues(r, r') && r.steps + [Cancel, Shutdown] <= r'.steps
    ensures r'.steps[|r'.steps| - 1].ShutdownReturns? && r'.states[|r'.steps| - 1].result.None?
  {
    var again := StartAgain(r);
    r' := ShutdownCanFinish(again);
    CleanCompletion(again, r', |r'.steps| - 1);
  }

  lemma FailedAfterCancellation() returns (r: Run)
    ensures r.Valid() && r.Last().op == Idle && r.Last().control == Untracked
    ensures r.Last().batches == [Batch(1, Finished(false, 0), [AwaitProxy], [Dropped])]
    ensures r.Last().joining == Some(0) && r.Last().tracked == {Slot(0, 0)}
  {
    r := Run(false, [], [Initial(false)]);
    r := Extend(r, Initialize(1));
    assert Slots(0, 1) == {Slot(0, 0)};
    r := Extend(r, Cancel);
    assert r.Last().batches[0] == Batch(1, Building(0), [AwaitProxy], [Dropped]);
    r := Extend(r, FailBuild(0));
  }

  lemma ReadyToJoin() returns (r: Run)
    ensures r.Valid() && r.Last().op == JoiningWorker
    ensures r.Last().batches == [Batch(1, Finished(false, 0), [AwaitProxy], [Dropped])]
    ensures r.Last().joining == Some(0) && r.Last().tracked == {Slot(0, 0)}
  {
    r := FailedAfterCancellation();
    r := Extend(r, Shutdown);
    r := Extend(r, ControlClosed);
  }

  /** A cancelled initialization whose worker fails, and a shutdown that has just joined that worker. */
  lemma FailedWorkerJoined() returns (r: Run, k: nat)
    ensures r.Valid() && k < |r.steps| && Failure(r, k) == Some(WorkerFailed(0))
    ensures ShuttingDown(r.Last()) && NoneFailed(r.Last())
  {
    r := ReadyToJoin();
    k := |r.steps|;
    var r' := Extend(r, WorkerJoined);
    assert r'.Follows(k);
    r := r';
  }

  /** A run that loses a failure: the shutdown that joined it is cancelled, and the next one returns success. */
  lemma LosingRun() returns (r: Run, k: nat)
    ensures r.Valid() && k < |r.steps| && Failure(r, k) == Some(WorkerFailed(0))
    ensures r.steps[|r.steps| - 1].ShutdownReturns? && r.states[|r.steps| - 1].result.None?
  {
    var failed, j := FailedWorkerJoined();
    r := FailureCanBeLost(failed);
    k := j;
    assert failed.Follows(k) && r.Follows(k);
  }
}
