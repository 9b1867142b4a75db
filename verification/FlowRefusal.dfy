/**
 A run in which the lazily swept table turns away a flow that the ideal table could store.
 */
module FlowRefusal {
  import opened Net
  import opened Packets
  import opened FlowTable
  import opened FlowLaws

  const HOST: Address := 1
  const VM: Address := 2
  const SERVICE: Port := 53

  /** A datagram from the host, told apart by its source port. */
  function Datagram(port: Port): Packet {
    Packet(HOST, VM, false, 0, UdpPayload(Complete(port, SERVICE, TcpFlags(false, false, false, false))))
  }

  function KeyAt(port: Port): FlowKey {
    UdpKey(HOST, port, VM, SERVICE)
  }

  /** Inspections that fill the table at time zero, from port `k + 1` to port `n`. */
  function Filling(k: nat, n: nat): (steps: seq<Step>)
    requires k <= n < 0x1_0000
    ensures |steps| == n - k
    ensures forall i :: 0 <= i < |steps| ==> steps[i] == Step(Datagram(k + 1 + i), FromHost, 0, true)
  {
    seq(n - k, i requires 0 <= i < n - k => Step(Datagram(k + 1 + i), FromHost, 0, true))
  }

  /** The datagrams from ports 1 to `k` are stored, and nothing else is. */
  ghost predicate FilledTo(t: Table, k: nat) {
    && |t.flows| == k && t.nextSweep == SWEEP_INTERVAL
    && (forall key :: key in t.flows ==> t.flows[key] == Flow(FromHost, UDP_TIMEOUT))
    && (forall port: Port :: k < port ==> KeyAt(port) !in t.flows)
    && EchoConsistent(t.flows)
  }

  lemma DatagramIsProposed(flows: Flows, port: Port, now: int)
    requires 0 < port && KeyAt(port) !in flows && EchoConsistent(flows)
    ensures Classify(flows, Datagram(port), FromHost, now) ==
            Candidate(PendingFlow(KeyAt(port), Flow(FromHost, now + UDP_TIMEOUT)))
  {
    ClassifyMeans(flows, Datagram(port), FromHost, now);
  }

  lemma FillOneMore(t: Table, k: nat)
    requires FilledTo(t, k) && k < MAX_FLOWS
    ensures FilledTo(RealStep(t, Step(Datagram(k + 1), FromHost, 0, true)).0, k + 1)
    ensures RealStep(t, Step(Datagram(k + 1), FromHost, 0, true)).1.stored
  {
    DatagramIsProposed(t.flows, k + 1, 0);
    var t' := RealStep(t, Step(Datagram(k + 1), FromHost, 0, true)).0;
    assert t'.flows == t.flows[KeyAt(k + 1) := Flow(FromHost, UDP_TIMEOUT)];
  }

  lemma {:induction false} FillUp(t: Table, k: nat, n: nat)
    requires FilledTo(t, k) && k <= n <= MAX_FLOWS
    ensures FilledTo(RealRun(t, Filling(k, n)).0, n)
    decreases n - k
  {
    if k < n {
      FillOneMore(t, k);
      assert Filling(k, n)[1..] == Filling(k + 1, n);
      FillUp(RealStep(t, Filling(k, n)[0]).0, k + 1, n);
    }
  }

  /** Inspected just before the stored flows expire: nothing is swept, and the next sweep is an interval away. */
  function LastSweep(): Step {
    Step(Datagram(MAX_FLOWS + 1), FromHost, UDP_TIMEOUT - 1, false)
  }

  /** A new flow, admitted by policy the moment they have expired. */
  function Refused(): Step {
    Step(Datagram(MAX_FLOWS + 2), FromHost, UDP_TIMEOUT, true)
  }

  lemma {:induction false} RunConcat(t: Table, a: seq<Step>, b: seq<Step>)
    ensures RealRun(t, a + b).0 == RealRun(RealRun(t, a).0, b).0
    ensures RealRun(t, a + b).1 == RealRun(t, a).1 + RealRun(RealRun(t, a).0, b).1
    decreases |a|
  {
    if a == [] {
      assert a + b == b;
    } else {
      var (t1, outcome) := RealStep(t, a[0]);
      RunConcat(t1, a[1..], b);
      assert (a + b)[1..] == a[1..] + b && (a + b)[0] == a[0];
      Unfolded(t, a);
      Unfolded(t, a + b);
      Reassociate(outcome, RealRun(t1, a[1..]).1, RealRun(RealRun(t1, a[1..]).0, b).1);
    }
  }

  lemma Reassociate(outcome: Outcome, a: seq<Outcome>, b: seq<Outcome>)
    ensures [outcome] + (a + b) == ([outcome] + a) + b
  {
  }

  lemma Unfolded(t: Table, steps: seq<Step>)
    requires steps != []
    ensures RealRun(t, steps).0 == RealRun(RealStep(t, steps[0]).0, steps[1..]).0
    ensures RealRun(t, steps).1 == [RealStep(t, steps[0]).1] + RealRun(RealStep(t, steps[0]).0, steps[1..]).1
  {
  }

  lemma NothingSwept(t: Table)
    requires FilledTo(t, MAX_FLOWS)
    ensures RealStep(t, LastSweep()).0 == Table(t.flows, UDP_TIMEOUT - 1 + SWEEP_INTERVAL)
  {
    assert Live(t.flows, UDP_TIMEOUT - 1) == t.flows;
  }

  lemma NewFlowRefused(flows: Flows)
    requires FilledTo(Table(flows, SWEEP_INTERVAL), MAX_FLOWS)
    ensures
      var t := Table(flows, UDP_TIMEOUT - 1 + SWEEP_INTERVAL);
      var outcome := RealStep(t, Refused()).1;
      outcome.answer.Candidate? && !outcome.stored && HasRoom(Live(flows, UDP_TIMEOUT), outcome.answer.pending.key)
  {
    DatagramIsProposed(flows, MAX_FLOWS + 2, UDP_TIMEOUT);
    assert Live(flows, UDP_TIMEOUT) == map[];
  }

  function RefusalRun(): seq<Step> {
    Filling(0, MAX_FLOWS) + [LastSweep(), Refused()]
  }

  lemma RefusalRunIsOrdered()
    ensures Ordered(RefusalRun(), 0)
  {
    var n := MAX_FLOWS;
    var steps := RefusalRun();
    assert forall i :: 0 <= i < n ==> steps[i].now == 0;
    assert steps[n].now == UDP_TIMEOUT - 1 && steps[n + 1].now == UDP_TIMEOUT;
  }

  /** A new table, filled, swept just before its flows expire, then refuses a flow although every entry has expired. */
  lemma RefusalHappens()
    ensures Ordered(RefusalRun(), 0) && |RealRun(EmptyTable(0), RefusalRun()).1| == MAX_FLOWS + 2
    ensures
      var t := RealRun(EmptyTable(0), RefusalRun()[..MAX_FLOWS + 1]).0;
      var outcome := RealRun(EmptyTable(0), RefusalRun()).1[MAX_FLOWS + 1];
      && outcome.answer.Candidate? && Refused().admit && !outcome.stored
      && HasRoom(Live(t.flows, Refused().now), outcome.answer.pending.key)
  {
    RefusalRunIsOrdered();
    var filling := Filling(0, MAX_FLOWS);
    var t := RealRun(EmptyTable(0), filling).0;
    FillUp(EmptyTable(0), 0, MAX_FLOWS);
    OutcomeCount(EmptyTable(0), RefusalRun());
    NothingSwept(t);
    NewFlowRefused(t.flows);
    RefusalOutcome(filling, t);
  }

  lemma {:induction false} OutcomeCount(t: Table, steps: seq<Step>)
    ensures |RealRun(t, steps).1| == |steps|
    decreases |steps|
  {
    if steps != [] {
      Unfolded(t, steps);
      OutcomeCount(RealStep(t, steps[0]).0, steps[1..]);
    }
  }

  /** The last two steps, after any beginning. */
  lemma RefusalOutcome(beginning: seq<Step>, t: Table)
    requires t == RealRun(EmptyTable(0), beginning).0
    ensures
      var steps := beginning + [LastSweep(), Refused()];
      var t1 := RealStep(t, LastSweep()).0;
      && |RealRun(EmptyTable(0), steps).1| == |beginning| + 2
      && RealRun(EmptyTable(0), steps).1[|beginning| + 1] == RealStep(t1, Refused()).1
      && RealRun(EmptyTable(0), steps[..|beginning| + 1]).0 == t1
  {
    var last := [LastSweep(), Refused()];
    var t1 := RealStep(t, LastSweep()).0;
    RunConcat(EmptyTable(0), beginning, last);
    OutcomeCount(EmptyTable(0), beginning);
    Unfolded(t, last);
    assert last[1..] == [Refused()];
    Unfolded(t1, [Refused()]);
    RunConcat(EmptyTable(0), beginning, [LastSweep()]);
    Unfolded(t, [LastSweep()]);
    assert (beginning + last)[..|beginning| + 1] == beginning + [LastSweep()];
  }
}
