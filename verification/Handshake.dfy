/**
 The packet-readiness handshake between the vmnet callback and the reader, as a state
 machine over their steps. The callback notifies the reader and parks until the reader
 has drained the interface; one token travels between them and is never lost.

 vmnet is taken to run one callback at a time. A read is cancelled only while it waits.
 */
module Handshake {

  datatype Reader =
    | Outside                  // no read in progress
    | LoopHead                 // about to test whether draining goes on
    | Waiting(woken: bool)     // suspended on the notifier; `woken` once it was handed the permit
    | Reading                  // about to read a batch

  datatype State = State(
    permit: bool,              // a notification nobody has taken
    draining: bool,
    acknowledged: bool,        // the one-slot acknowledgment channel is full
    connected: bool,           // the reader still owns the sending end
    registered: bool,          // vmnet may schedule the callback
    parked: bool,              // a callback has notified and has not resumed
    reader: Reader)

  const INITIAL: State := State(false, false, false, true, true, false, Outside)

  datatype Step =
    | StartCallback
    | ResumeCallback
    | CallRead
    | PollHead
    | WakeReader
    | CancelRead
    | ReadPackets
    | ReadNothing
    | Finalize(cleared: bool)

  predicate Enabled(s: State, step: Step) {
    match step
    case StartCallback => s.registered && !s.parked
    case ResumeCallback => s.parked && (s.acknowledged || !s.connected)
    case CallRead => s.reader == Outside
    case PollHead => s.reader == LoopHead
    case WakeReader => s.reader == Waiting(true)
    case CancelRead => s.reader.Waiting?
    case ReadPackets => s.reader == Reading
    case ReadNothing => s.reader == Reading
    case Finalize(_) => s.reader == Outside
  }

  /** The notifier keeps at most one permit and hands it to a waiting reader. */
  function Notify(s: State): State {
    if s.reader == Waiting(false) then s.(reader := Waiting(true)) else s.(permit := true)
  }

  function Next(s: State, step: Step): State
    requires Enabled(s, step)
  {
    match step
    case StartCallback => Notify(s).(parked := true)
    case ResumeCallback => s.(parked := false, acknowledged := false)
    case CallRead => s.(reader := LoopHead)
    case PollHead =>
      if s.draining then s.(reader := Reading)
      else if s.permit then s.(permit := false, draining := true, reader := Reading)
      else s.(reader := Waiting(false))
    case WakeReader => s.(draining := true, reader := Reading)
    case CancelRead =>
      // A reader dropped after it was handed the permit gives it back
      s.(permit := s.permit || s.reader.woken, reader := Outside)
    case ReadPackets => s.(reader := Outside)
    case ReadNothing => s.(draining := false, acknowledged := s.acknowledged || s.connected, reader := LoopHead)
    case Finalize(cleared) => s.(connected := false, registered := s.registered && !cleared)
  }

  // ---------------------------------------------------------------------------
  // Runs

  datatype Run = Run(steps: seq<Step>, states: seq<State>) {
    ghost predicate Valid() {
      && |states| == |steps| + 1 && states[0] == INITIAL
      && forall i :: 0 <= i < |steps| ==> Follows(i)
    }

    ghost predicate Follows(i: nat)
      requires |states| == |steps| + 1 && i < |steps|
    {
      Enabled(states[i], steps[i]) && states[i + 1] == Next(states[i], steps[i])
    }
  }

  function Count(b: bool): nat {
    if b then 1 else 0
  }

  /** Where the token can be: stored, handed to a waiting reader, held while draining, or on its way back. */
  function Tokens(s: State): nat {
    Count(s.permit) + Count(s.reader == Waiting(true)) + Count(s.draining) + Count(s.acknowledged)
  }

  /** While connected there is exactly one token per parked callback, and a waiting reader holds none. */
  predicate Invariant(s: State) {
    && (s.connected ==> Tokens(s) == Count(s.parked))
    && (s.reader == Reading ==> s.draining)
    && (s.reader.Waiting? ==> !s.draining && (!s.reader.woken ==> !s.permit))
  }

  lemma StepKeepsInvariant(s: State, step: Step)
    requires Invariant(s) && Enabled(s, step)
    ensures Invariant(Next(s, step))
  {
  }

  /** Token conservation over every run, cancelled reads included. */
  lemma {:induction false} TokenIsConserved(r: Run, n: nat)
    requires r.Valid() && n <= |r.steps|
    ensures Invariant(r.states[n])
  {
    if n > 0 {
      TokenIsConserved(r, n - 1);
      assert r.Follows(n - 1);
      StepKeepsInvariant(r.states[n - 1], r.steps[n - 1]);
    }
  }

  /** An acknowledgment always finds its slot empty, so none is dropped. */
  lemma AcknowledgmentIsNeverDropped(r: Run, i: nat)
    requires r.Valid() && i < |r.steps| && r.steps[i].ReadNothing? && r.states[i].connected
    ensures !r.states[i].acknowledged && r.states[i + 1].acknowledged && r.states[i].parked
  {
    TokenIsConserved(r, i);
    assert r.Follows(i);
  }

  /** Reader and callback never both wait for each other. */
  lemma NeverBothStuck(r: Run, n: nat)
    requires r.Valid() && n <= |r.steps| && r.states[n].parked
    ensures Enabled(r.states[n], ResumeCallback) || r.states[n].reader != Waiting(false)
  {
    TokenIsConserved(r, n);
  }

  /** A reader that waits has nothing to read: no callback is parked, or its acknowledgment is on the way. */
  lemma WaitingIsJustified(r: Run, n: nat)
    requires r.Valid() && n <= |r.steps| && r.states[n].connected && r.states[n].reader == Waiting(false)
    ensures !r.states[n].draining && !r.states[n].permit && (r.states[n].parked ==> r.states[n].acknowledged)
  {
    TokenIsConserved(r, n);
  }

  /** What entitles a callback to resume before step `n`: a finalization, or an empty read since it started. */
  ghost predicate Earned(r: Run, n: nat, k: nat)
    requires k < n <= |r.steps|
  {
    || r.steps[k].Finalize?
    || (r.steps[k].ReadNothing? && forall m :: k < m < n ==> !r.steps[m].StartCallback?)
  }

  lemma {:induction false} DisconnectionIsFinalization(r: Run, n: nat) returns (k: nat)
    requires r.Valid() && n <= |r.steps| && !r.states[n].connected
    ensures k < n && r.steps[k].Finalize?
  {
    assert r.Follows(n - 1);
    if r.steps[n - 1].Finalize? {
      k := n - 1;
    } else {
      k := DisconnectionIsFinalization(r, n - 1);
    }
  }

  /** While connected, an acknowledgment comes from an empty read, and no callback starts until it is taken. */
  lemma AcknowledgmentStep(s: State, step: Step)
    requires Invariant(s) && Enabled(s, step) && Next(s, step).acknowledged && Next(s, step).connected
    ensures s.connected && !step.StartCallback?
    ensures step.ReadNothing? || s.acknowledged
  {
  }

  lemma {:induction false} AcknowledgmentIsEarned(r: Run, n: nat) returns (k: nat)
    requires r.Valid() && n <= |r.steps| && r.states[n].acknowledged && r.states[n].connected
    ensures k < n && Earned(r, n, k)
  {
    TokenIsConserved(r, n - 1);
    assert r.Follows(n - 1);
    AcknowledgmentStep(r.states[n - 1], r.steps[n - 1]);
    if r.steps[n - 1].ReadNothing? {
      k := n - 1;
    } else {
      k := AcknowledgmentIsEarned(r, n - 1);
    }
  }

  /** A callback resumes only after an empty read since it started, or after finalization. */
  lemma ResumptionIsEarned(r: Run, i: nat) returns (k: nat)
    requires r.Valid() && i < |r.steps| && r.steps[i].ResumeCallback?
    ensures k < i && Earned(r, i, k)
  {
    assert r.Follows(i);
    if r.states[i].connected {
      k := AcknowledgmentIsEarned(r, i);
    } else {
      k := DisconnectionIsFinalization(r, i);
    }
  }

  // ---------------------------------------------------------------------------
  // A parked callback can always be freed

  /** The next step of an uninterrupted read that finds nothing. */
  function TowardRelease(s: State): Step {
    if s.acknowledged || !s.connected then ResumeCallback
    else
      match s.reader
      case Outside => CallRead
      case LoopHead => PollHead
      case Waiting(_) => WakeReader
      case Reading => ReadNothing
  }

  function Distance(s: State): nat {
    if s.acknowledged || !s.connected then 1
    else
      match s.reader
      case Outside => 4
      case LoopHead => 3
      case Waiting(_) => 3
      case Reading => 2
  }

  lemma ReleaseApproaches(s: State)
    requires Invariant(s) && s.parked
    ensures Enabled(s, TowardRelease(s))
    ensures Next(s, TowardRelease(s)).parked ==> Distance(Next(s, TowardRelease(s))) < Distance(s)
  {
  }

  /** All of `steps` can be taken in turn, and the last one leads to a state without a parked callback. */
  predicate Releases(s: State, steps: seq<Step>)
    decreases |steps|
  {
    if steps == [] then !s.parked else Enabled(s, steps[0]) && Releases(Next(s, steps[0]), steps[1..])
  }

  lemma {:induction false} ReleaseExists(s: State) returns (steps: seq<Step>)
    requires Invariant(s) && s.parked
    ensures Releases(s, steps) && |steps| <= Distance(s)
    decreases Distance(s)
  {
    var step := TowardRelease(s);
    ReleaseApproaches(s);
    StepKeepsInvariant(s, step);
    var rest := [];
    if Next(s, step).parked {
      rest := ReleaseExists(Next(s, step));
    }
    steps := [step] + rest;
    assert steps[1..] == rest;
  }

  /** From every reachable state at most four steps of reader and callback free a parked callback. */
  lemma CallbackCanAlwaysBeReleased(r: Run, n: nat) returns (steps: seq<Step>)
    requires r.Valid() && n <= |r.steps| && r.states[n].parked
    ensures Releases(r.states[n], steps) && |steps| <= 4
  {
    TokenIsConserved(r, n);
    steps := ReleaseExists(r.states[n]);
  }

  // ---------------------------------------------------------------------------
  // Draining and finalization

  /** One notification covers every batch up to the next empty read: no read waits in between. */
  lemma DrainingGoesOn(r: Run, i: nat)
    requires r.Valid() && i < |r.steps| && r.states[i].draining
    ensures r.states[i + 1].draining <==> !r.steps[i].ReadNothing?
    ensures r.steps[i].PollHead? ==> r.states[i + 1].reader == Reading
    ensures r.steps[i].ReadPackets? ==> r.states[i].reader == Reading && r.states[i + 1].reader == Outside
  {
    TokenIsConserved(r, i);
    assert r.Follows(i);
  }

  /** From finalization on a parked callback can resume at any time, and once cleared no callback starts. */
  lemma {:induction false} FinalizeReleases(r: Run, i: nat, n: nat)
    requires r.Valid() && i < n <= |r.steps| && r.steps[i].Finalize?
    ensures !r.states[n].connected && (r.states[n].parked ==> Enabled(r.states[n], ResumeCallback))
    ensures r.steps[i].cleared ==> !r.states[n].registered && (n < |r.steps| ==> !r.steps[n].StartCallback?)
    decreases n
  {
    assert r.Follows(n - 1);
    if n < |r.steps| {
      assert r.Follows(n);
    }
    if n - 1 > i {
      FinalizeReleases(r, i, n - 1);
    }
  }

  /** A callback stays parked until it resumes, and only one is parked at a time. */
  lemma ParkedExactly(r: Run, i: nat)
    requires r.Valid() && i < |r.steps|
    ensures r.states[i + 1].parked <==> r.steps[i].StartCallback? || (r.states[i].parked && !r.steps[i].ResumeCallback?)
    ensures r.steps[i].StartCallback? ==> !r.states[i].parked
  {
    assert r.Follows(i);
  }
}
