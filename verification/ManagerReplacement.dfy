/**
 Workers and shutdown: a shutdown joins the worker whose handle is kept. An initialization begun while
 a handle is kept replaces it, and then, and only then, a worker can outlive a shutdown.
 */
module ManagerReplacement {
  import opened Net
  import opened Manager
  import opened ManagerInvariant
  import opened ManagerSteps
  import opened ManagerTheorems
  import opened ManagerShutdown

  /** Step `i` begins an initialization although the worker of batch `b` has not been joined. */
  ghost predicate Replaces(r: Run, i: nat, b: nat)
    requires r.Valid() && i < |r.steps|
  {
    r.steps[i].Initialize? && r.states[i].joining == Some(b)
  }

  ghost predicate Replaced(r: Run, n: nat, b: nat)
    requires r.Valid() && n <= |r.steps|
  {
    exists i :: 0 <= i < n && Replaces(r, i, b)
  }

  ghost predicate Unfinished(s: State, b: nat) {
    b < |s.batches| && !s.batches[b].worker.Finished?
  }

  ghost predicate AllReturned(s: State) {
    forall b :: 0 <= b < |s.batches| ==> s.batches[b].worker.Finished?
  }

  /** The handles that were lost are those of initializations begun too early. */
  lemma {:induction false} LostHandles(r: Run, n: nat, b: nat)
    requires r.Valid() && n <= |r.steps|
    ensures b in r.states[n].superseded <==> Replaced(r, n, b)
  {
    if n > 0 {
      LostHandles(r, n - 1, b);
      assert r.Follows(n - 1);
      if r.steps[n - 1].Initialize? {
        assert Replaces(r, n - 1, b) <==> r.states[n - 1].joining == Some(b);
      } else {
        ReplacementStep(r.states[n - 1], r.steps[n - 1]);
      }
      assert Replaced(r, n, b) <==> Replaced(r, n - 1, b) || Replaces(r, n - 1, b);
    }
  }

  /** If every initialization begins with no worker left to join, a shutdown that returns has joined every worker. */
  lemma EveryWorkerIsJoined(r: Run, i: nat)
    requires r.Valid() && i < |r.steps| && r.steps[i].ShutdownReturns?
    requires forall k :: 0 <= k < i && r.steps[k].Initialize? ==> r.states[k].joining.None?
    ensures AllReturned(r.states[i + 1])
  {
    ShutdownLeavesNothing(r, i);
    var s := r.states[i + 1];
    forall b | 0 <= b < |s.batches| ensures s.batches[b].worker.Finished? {
      LostHandles(r, i + 1, b);
    }
  }

  // ---------------------------------------------------------------------------
  // Exactly which workers can outlive a shutdown

  lemma UnfinishedBefore(s: State, step: Step, b: nat)
    requires Enabled(s, step) && b < |s.batches| && Unfinished(Next(s, step), b)
    ensures Unfinished(s, b)
  {
    if IsWorkerStep(step) {
      WorkerStepSetsWorker(s, step);
    } else {
      OtherStepKeepsWorkers(s, step, b);
    }
  }

  lemma {:induction false} UnfinishedAllAlong(r: Run, m: nat, n: nat, b: nat)
    requires r.Valid() && m <= n <= |r.steps| && b < |r.states[m].batches| && Unfinished(r.states[n], b)
    ensures Unfinished(r.states[m], b)
    decreases n
  {
    if m < n {
      RunGrows(r, m, n - 1);
      assert r.Follows(n - 1);
      UnfinishedBefore(r.states[n - 1], r.steps[n - 1], b);
      UnfinishedAllAlong(r, m, n - 1, b);
    }
  }

  /** A shutdown on its way to its end replaces nothing. */
  lemma CompletionReplacesNothing(r: Run, r': Run, b: nat)
    requires Completes(r, r') && Replaced(r', |r'.steps|, b)
    ensures Replaced(r, |r.steps|, b)
  {
    var i :| 0 <= i < |r'.steps| && Replaces(r', i, b);
    assert i < |r.steps|;
    assert Replaces(r, i, b);
  }

  lemma CompletedShutdown(r: Run, r': Run, b: nat)
    requires Completes(r, r') && b < |r.Last().batches| && Unfinished(r'.Last(), b)
    ensures Replaced(r, |r.steps|, b) && Unfinished(r.Last(), b)
  {
    ShutdownLeavesNothing(r', |r'.steps| - 1);
    LostHandles(r', |r'.steps|, b);
    CompletionReplacesNothing(r, r', b);
    assert r'.states[|r.steps|] == r.Last();
    UnfinishedAllAlong(r', |r.steps|, |r'.steps|, b);
  }

  /**
   A worker can be left behind by the shutdown in progress if and only if its handle was replaced and it has
   yet to return.
   */
  lemma LeftBehindExactly(r: Run, b: nat)
    requires r.Valid() && ShuttingDown(r.Last()) && b < |r.Last().batches|
    ensures (exists r' :: Completes(r, r') && Unfinished(r'.Last(), b)) <==>
            Replaced(r, |r.steps|, b) && Unfinished(r.Last(), b)
  {
    if r' :| Completes(r, r') && Unfinished(r'.Last(), b) {
      CompletedShutdown(r, r', b);
    }
    if Replaced(r, |r.steps|, b) && Unfinished(r.Last(), b) {
      LostHandles(r, |r.steps|, b);
      var r' := ShutdownCanFinish(r);
      assert Outlives(r.Last(), b);
      assert Completes(r, r') && Unfinished(r'.Last(), b);
    }
  }

  // ---------------------------------------------------------------------------
  // A run in which it happens

  lemma CancelledOnce() returns (r: Run)
    ensures r.Valid() && r.Last().op == Idle && !r.Last().initialized
    ensures r.Last().joining == Some(0) && |r.Last().batches| == 1 && Unfinished(r.Last(), 0)
  {
    r := Run(false, [], [Initial(false)]);
    r := Extend(r, Initialize(1));
    r := Extend(r, Cancel);
  }

  lemma CancelledTwice() returns (r: Run)
    ensures r.Valid() && r.Last().op == Idle && |r.Last().batches| == 2
    ensures Unfinished(r.Last(), 0) && 0 in r.Last().superseded
  {
    r := CancelledOnce();
    r := Extend(r, Initialize(1));
    assert Unfinished(r.Last(), 0);
    r := Extend(r, Cancel);
  }

  /** After two cancelled initializations a shutdown can return before the first worker does. */
  lemma ReplacedWorkerOutlivesShutdown() returns (r: Run)
    ensures r.Valid() && |r.steps| > 0 && r.steps[|r.steps| - 1].ShutdownReturns?
    ensures Unfinished(r.Last(), 0)
  {
    r := CancelledTwice();
    r := Extend(r, Shutdown);
    assert Outlives(r.Last(), 0);
    r := ShutdownCanFinish(r);
  }
}
