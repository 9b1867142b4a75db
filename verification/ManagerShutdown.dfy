/**
 Shutdown converges: while it waits, somebody can always get on, and everything that
 gets on brings it closer to its end.
 */
module ManagerShutdown {
  import opened Net
  import opened Manager
  import opened ManagerInvariant
  import opened ManagerSteps
  import opened ManagerTheorems

  // ---------------------------------------------------------------------------
  // The measure

  function WorkerRank(x: Batch): int {
    match x.worker
    case Building(k) => x.size - k + x.size + 2
    case Handing(k) => x.size - k + 1
    case Finished(_, _) => 0
  }

  function TaskRank(t: Task): nat {
    match t
    case AwaitProxy => 4
    case AwaitStart => 3
    case Forwarding => 2
    case CleaningUp => 1
    case Ended(_) => 0
  }

  function TasksRank(tasks: seq<Task>): nat {
    if tasks == [] then 0 else TaskRank(tasks[0]) + TasksRank(tasks[1..])
  }

  function BatchRank(x: Batch): int {
    WorkerRank(x) + TasksRank(x.tasks)
  }

  function BatchesRank(batches: seq<Batch>): int {
    if batches == [] then 0 else BatchRank(batches[0]) + BatchesRank(batches[1..])
  }

  function ControlRank(c: Control): nat {
    if c == Active then 1 else 0
  }

  function OpRank(op: Op): nat {
    match op
    case ClosingControl => 3
    case JoiningWorker => 2
    case JoiningTasks => 1
    case _ => 0
  }

  function Rank(s: State): int {
    BatchesRank(s.batches) + |s.tracked| + ControlRank(s.control) + OpRank(s.op)
  }

  lemma {:induction false} TasksRankUpdate(tasks: seq<Task>, i: nat, t: Task)
    requires i < |tasks|
    ensures TasksRank(tasks[i := t]) == TasksRank(tasks) - TaskRank(tasks[i]) + TaskRank(t)
  {
    if i > 0 {
      TasksRankUpdate(tasks[1..], i - 1, t);
      assert tasks[i := t][1..] == tasks[1..][i - 1 := t];
    }
  }

  lemma {:induction false} BatchesRankUpdate(batches: seq<Batch>, b: nat, x: Batch)
    requires b < |batches|
    ensures BatchesRank(batches[b := x]) == BatchesRank(batches) - BatchRank(batches[b]) + BatchRank(x)
  {
    if b > 0 {
      BatchesRankUpdate(batches[1..], b - 1, x);
      assert batches[b := x][1..] == batches[1..][b - 1 := x];
    }
  }

  lemma {:induction false} BatchesRankIsNatural(batches: seq<Batch>)
    requires forall b :: 0 <= b < |batches| ==> Shaped(batches[b])
    ensures 0 <= BatchesRank(batches)
  {
    if batches != [] {
      assert Shaped(batches[0]);
      BatchesRankIsNatural(batches[1..]);
    }
  }

  // ---------------------------------------------------------------------------
  // Progress

  ghost predicate ShuttingDown(s: State) {
    s.op.ClosingControl? || s.op.JoiningWorker? || s.op.JoiningTasks?
  }

  /** Steps that worker, tasks, control and shutdown are bound to take: no failure, outside event or cancellation. */
  ghost predicate IsBound(step: Step) {
    || step.Build? || step.BeginHanding? || step.HandOver? || step.FinishWorker?
    || step.TakeProxy? || step.LoseProxy? || step.TakeStart? || step.LoseStart? || step.CommandsClosed?
    || (step.EndTask? && step.ok)
    || step.AbortControl? || step.ControlClosed? || step.WorkerJoined? || step.Join? || step.ShutdownReturns?
  }

  /** A worker waits for nobody. */
  lemma WorkerGetsOn(s: State, b: nat) returns (step: Step)
    requires Invariant(s) && b < |s.batches| && !s.batches[b].worker.Finished?
    ensures Enabled(s, step) && IsBound(step) && IsWorkerStep(step) && step.batch == b
    ensures step.FinishWorker? ==> s.batches[b].worker == Handing(s.batches[b].size)
  {
    var x := s.batches[b];
    assert Shaped(x);
    match x.worker {
      case Building(k) => step := if k < x.size then Build(b) else BeginHanding(b);
      case Handing(k) => step := if k < x.size then HandOver(b) else FinishWorker(b);
    }
  }

  /** During shutdown a task waits at most for a worker. */
  lemma TaskGetsOn(s: State, slot: Slot) returns (step: Step)
    requires Invariant(s) && s.op == JoiningTasks && slot in s.tracked
    ensures Enabled(s, step) && IsBound(step) && !step.FinishWorker?
  {
    assert Known(s, slot);
    var x := s.batches[slot.batch];
    assert BatchOk(x, After, Open(s, slot.batch));
    match TaskAt(s, slot) {
      case AwaitProxy =>
        if Handed(x.worker, slot.index) {
          step := TakeProxy(slot);
        } else if x.worker.Finished? {
          step := LoseProxy(slot);
        } else {
          step := WorkerGetsOn(s, slot.batch);
        }
      case AwaitStart => step := if Started(s, slot) == Sent then TakeStart(slot) else LoseStart(slot);
      case Forwarding => step := CommandsClosed(slot);
      case CleaningUp => step := EndTask(slot, true);
      case Ended(_) => step := Join(slot);
    }
  }

  /**
   While a shutdown waits, some step that needs no outside help is possible, and no worker but the one it
   joins has to return.
   */
  lemma ShutdownNeverStuck(r: Run, n: nat) returns (step: Step)
    requires r.Valid() && n <= |r.steps| && ShuttingDown(r.states[n])
    ensures Enabled(r.states[n], step) && IsBound(step)
    ensures step.FinishWorker? ==> r.states[n].joining == Some(step.batch)
  {
    RunKeepsInvariant(r, n);
    var s := r.states[n];
    match s.op {
      case ClosingControl => step := if s.control == Active then AbortControl else ControlClosed;
      case JoiningWorker =>
        if s.joining.Some? && !s.batches[s.joining.value].worker.Finished? {
          step := WorkerGetsOn(s, s.joining.value);
        } else {
          step := WorkerJoined;
        }
      case JoiningTasks =>
        if slot :| slot in s.tracked {
          step := TaskGetsOn(s, slot);
        } else {
          step := ShutdownReturns;
        }
    }
  }

  lemma WorkerRankFalls(s: State, b: nat, w: Worker)
    requires b < |s.batches| && WorkerRank(s.batches[b].(worker := w)) < WorkerRank(s.batches[b])
    ensures Rank(SetWorker(s, b, w)) < Rank(s)
  {
    BatchesRankUpdate(s.batches, b, s.batches[b].(worker := w));
  }

  lemma TaskRankFalls(s: State, slot: Slot, t: Task)
    requires Known(s, slot) && TaskRank(t) < TaskRank(TaskAt(s, slot))
    ensures Rank(SetTask(s, slot, t)) < Rank(s)
  {
    var x := s.batches[slot.batch];
    TasksRankUpdate(x.tasks, slot.index, t);
    BatchesRankUpdate(s.batches, slot.batch, x.(tasks := x.tasks[slot.index := t]));
  }

  lemma WorkerApproaches(s: State, step: Step)
    requires Enabled(s, step) && IsWorkerStep(step) && Shaped(s.batches[step.batch])
    ensures Rank(Next(s, step)) < Rank(s)
  {
    WorkerStepSetsWorker(s, step);
    WorkerRankFalls(s, step.batch, NextWorker(s.batches[step.batch], step));
  }

  lemma TaskStepRank(s: State, step: Step)
    requires Enabled(s, step) && IsTaskStep(step)
    ensures TaskRank(NextTask(step)) < TaskRank(TaskAt(s, step.slot))
  {
  }

  lemma TaskApproaches(s: State, step: Step)
    requires Enabled(s, step) && IsTaskStep(step)
    ensures Rank(Next(s, step)) < Rank(s)
  {
    TaskStepSetsTask(s, step);
    TaskStepRank(s, step);
    TaskRankFalls(s, step.slot, NextTask(step));
  }

  /** The steps of the owner and of the control task that a shutdown knows. */
  ghost predicate IsShutdownStep(step: Step) {
    || step.ControlClosed? || step.WorkerJoined? || step.Join? || step.ShutdownReturns?
    || step.EndControl? || step.AbortControl?
  }

  lemma ShutdownSteps(s: State, step: Step)
    requires ShuttingDown(s) && Enabled(s, step)
    ensures IsWorkerStep(step) || IsTaskStep(step) || IsShutdownStep(step) || step.Forward? || step.Cancel?
  {
  }

  lemma OwnerApproaches(s: State, step: Step)
    requires ShuttingDown(s) && Enabled(s, step) && IsShutdownStep(step)
    ensures Rank(Next(s, step)) < Rank(s)
    ensures ShuttingDown(Next(s, step)) || step.ShutdownReturns?
  {
    if step.Join? {
      assert |s.tracked - {step.slot}| == |s.tracked| - 1;
    } else {
      OtherOwnerApproaches(s, step);
    }
  }

  lemma OtherOwnerApproaches(s: State, step: Step)
    requires ShuttingDown(s) && Enabled(s, step) && IsShutdownStep(step) && !step.Join?
    ensures Rank(Next(s, step)) < Rank(s)
    ensures ShuttingDown(Next(s, step)) || step.ShutdownReturns?
  {
    assert Next(s, step).batches == s.batches && Next(s, step).tracked == s.tracked;
  }

  lemma InvariantShapes(s: State)
    requires Invariant(s)
    ensures forall b :: 0 <= b < |s.batches| ==> Shaped(s.batches[b])
  {
    forall b | 0 <= b < |s.batches| ensures Shaped(s.batches[b]) {
      assert BatchOk(s.batches[b], StageOf(s.op, b), Open(s, b));
    }
  }

  lemma RankIsNatural(s: State)
    requires Invariant(s)
    ensures 0 <= Rank(s)
  {
    InvariantShapes(s);
    BatchesRankIsNatural(s.batches);
  }

  lemma StepApproaches(s: State, step: Step)
    requires Invariant(s) && ShuttingDown(s) && Enabled(s, step) && !step.Forward? && !step.Cancel?
    ensures Rank(Next(s, step)) < Rank(s)
  {
    InvariantShapes(s);
    ShutdownSteps(s, step);
    if IsWorkerStep(step) {
      WorkerApproaches(s, step);
    } else if IsTaskStep(step) {
      TaskApproaches(s, step);
    } else {
      OwnerApproaches(s, step);
    }
  }

  /**
   Every step during a shutdown brings it closer to its end, except forwarding, which changes nothing, and
   giving up.
   */
  lemma ShutdownApproaches(r: Run, i: nat)
    requires r.Valid() && i < |r.steps| && ShuttingDown(r.states[i]) && !r.steps[i].Cancel?
    ensures 0 <= Rank(r.states[i])
    ensures if r.steps[i].Forward? then r.states[i + 1] == r.states[i] else Rank(r.states[i + 1]) < Rank(r.states[i])
  {
    RunKeepsInvariant(r, i);
    assert r.Follows(i);
    RankIsNatural(r.states[i]);
    if !r.steps[i].Forward? {
      StepApproaches(r.states[i], r.steps[i]);
    }
  }

  /** A shutdown ends only by returning or by being cancelled. */
  lemma ShutdownGoesOn(r: Run, i: nat)
    requires r.Valid() && i < |r.steps| && ShuttingDown(r.states[i])
    ensures ShuttingDown(r.states[i + 1]) || r.steps[i].Cancel? || r.steps[i].ShutdownReturns?
  {
    assert r.Follows(i);
  }

  // ---------------------------------------------------------------------------
  // The end of a shutdown

  /** `r'` goes on from `r` by steps bound to be taken, up to the return of the shutdown in progress. */
  ghost predicate Completes(r: Run, r': Run) {
    && Continues(r, r') && |r.steps| < |r'.steps| && r'.steps[|r'.steps| - 1].ShutdownReturns?
    && (forall i :: |r.steps| <= i < |r'.steps| ==> IsBound(r'.steps[i]))
  }

  /** Workers whose handle was replaced and that have yet to return. */
  ghost predicate Outlives(s: State, b: nat) {
    b < |s.batches| && b in s.superseded && !s.batches[b].worker.Finished?
  }

  lemma OutlivesStep(s: State, step: Step, b: nat)
    requires Enabled(s, step) && IsBound(step) && step != FinishWorker(b) && Outlives(s, b)
    ensures Outlives(Next(s, step), b)
  {
    ReplacementStep(s, step);
    if IsWorkerStep(step) {
      WorkerStepSetsWorker(s, step);
    } else {
      OtherStepKeepsWorkers(s, step, b);
    }
  }

  lemma CompletesOneMore(r: Run, step: Step, r1: Run, r': Run)
    requires Continues(r, r1) && r1.steps == r.steps + [step] && IsBound(step) && Completes(r1, r')
    ensures Completes(r, r')
  {
    forall i | |r.steps| <= i < |r'.steps| ensures IsBound(r'.steps[i]) {
      assert i == |r.steps| ==> r'.steps[i] == r1.steps[i];
    }
  }

  lemma BoundStepApproaches(s: State, step: Step)
    requires Invariant(s) && ShuttingDown(s) && Enabled(s, step) && IsBound(step)
    ensures 0 <= Rank(Next(s, step)) < Rank(s)
    ensures ShuttingDown(Next(s, step)) || step.ShutdownReturns?
  {
    StepApproaches(s, step);
    StepKeepsInvariant(s, step);
    RankIsNatural(Next(s, step));
  }

  /** One step closer, with nobody returning that the shutdown does not join. */
  lemma OneStepCloser(r: Run) returns (step: Step, r': Run)
    requires r.Valid() && ShuttingDown(r.Last())
    ensures Continues(r, r') && r'.steps == r.steps + [step] && IsBound(step)
    ensures 0 <= Rank(r'.Last()) < Rank(r.Last())
    ensures ShuttingDown(r'.Last()) || step.ShutdownReturns?
    ensures forall b :: Outlives(r.Last(), b) ==> Outlives(r'.Last(), b)
  {
    step := ShutdownNeverStuck(r, |r.steps|);
    RunKeepsInvariant(r, |r.steps|);
    RunKeepsReplaced(r, |r.steps|);
    BoundStepApproaches(r.Last(), step);
    ReplacedOutlive(r.Last(), step);
    r' := Extend(r, step);
  }

  lemma ReplacedOutlive(s: State, step: Step)
    requires ReplacedOk(s) && Enabled(s, step) && IsBound(step)
    requires step.FinishWorker? ==> s.joining == Some(step.batch)
    ensures forall b :: Outlives(s, b) ==> Outlives(Next(s, step), b)
  {
    forall b | Outlives(s, b) ensures Outlives(Next(s, step), b) {
      OutlivesStep(s, step, b);
    }
  }

  /**
   From every state of a shutdown at most `Rank` steps lead to its return, without help from outside
   and without a worker returning that the shutdown does not join.
   */
  lemma {:induction false} ShutdownCanFinish(r: Run) returns (r': Run)
    requires r.Valid() && ShuttingDown(r.Last())
    ensures Completes(r, r') && |r'.steps| - |r.steps| <= Rank(r.Last())
    ensures forall b :: Outlives(r.Last(), b) ==> Outlives(r'.Last(), b)
    decreases Rank(r.Last())
  {
    var step, r1 := OneStepCloser(r);
    if step.ShutdownReturns? {
      r' := r1;
    } else {
      r' := ShutdownCanFinish(r1);
      CompletesOneMore(r, step, r1, r');
    }
  }
}
