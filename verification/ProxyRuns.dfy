/**
 Whole runs of the packet filter: packets from both sides interleaved with policy
 changes under a clock that never goes back.
 */
module ProxyRuns {
  import opened Net
  import opened RuleModel
  import opened RuleOrder
  import opened PolicyCompiler
  import opened Packets
  import opened FlowTable
  import opened FlowLaws
  import opened ProxyMachine

  datatype Event =
    | HostPacket(packet: Packet, now: int)
    | VmPacket(packet: Packet, now: int, dnsAnswers: bool)
    | NewPolicy(allow: seq<Rule>, block: seq<Rule>, now: int)
  {
    predicate IsPacket() {
      HostPacket? || VmPacket?
    }

    function Side(): Side {
      if VmPacket? then FromVm else FromHost
    }
  }

  /** What happened to one event; policy changes carry no verdict. */
  ghost function Apply(c: Config, s: State, e: Event): (State, Option<Verdict>) {
    match e
    case HostPacket(packet, now) => var (s', v) := HostStep(c, s, packet, now); (s', Some(v))
    case VmPacket(packet, now, dnsAnswers) => var (s', v) := VmStep(c, s, packet, now, dnsAnswers); (s', Some(v))
    case NewPolicy(allow, block, now) => (PolicySet(s, allow, block, now), None)
  }

  /**
   Everything that happened to one proxy: `states[i]` is its state before event `i`,
   and `results[i]` how that event fared.
   */
  datatype Run = Run(config: Config, start: int, events: seq<Event>, states: seq<State>,
                     results: seq<Option<Verdict>>) {
    ghost predicate Valid() {
      && |states| == |events| + 1 && |results| == |events|
      && (exists allow, block :: states[0] == Start(allow, block, start))
      && (forall i :: 0 <= i < |events| ==> Follows(i))
      && Ordered()
    }

    /** State and result `i + 1` are what event `i` makes of state `i`. */
    ghost predicate Follows(i: nat)
      requires |states| == |events| + 1 && |results| == |events| && i < |events|
    {
      Apply(config, states[i], events[i]) == (states[i + 1], results[i])
    }

    /** The clock never goes back. */
    ghost predicate Ordered() {
      && (forall i :: 0 <= i < |events| ==> start <= events[i].now)
      && (forall i, j :: 0 <= i < j < |events| ==> events[i].now <= events[j].now)
    }

    function TimeBefore(i: nat): int
      requires i <= |events|
    {
      if i == 0 then start else events[i - 1].now
    }

    /** Event `i` stored `pending`. */
    ghost predicate Stores(i: nat, pending: PendingFlow) {
      i < |results| && results[i] == Some(Admitted(Some(pending)))
    }

    ghost predicate StoresKey(i: nat, key: FlowKey) {
      && i < |results|
      && results[i].Some? && results[i].value.Admitted?
      && results[i].value.tracked.Some? && results[i].value.tracked.value.key == key
    }

    /** The entry under `key` before event `n`. */
    ghost predicate Holds(n: nat, key: FlowKey, flow: Flow) {
      && n < |states| && states[n].flows.Some?
      && key in states[n].flows.value.flows && states[n].flows.value.flows[key] == flow
    }

    ghost predicate SamePolicy(i: nat, j: nat) {
      i < |states| && j < |states| && states[i].allow == states[j].allow && states[i].block == states[j].block
    }

    /** The normalized policy never changes between states `i` and `j`. */
    ghost predicate PolicyKept(i: nat, j: nat) {
      forall k :: i <= k <= j ==> SamePolicy(i, k)
    }

    /** The entry under `key` before event `n` was last stored by event `i`, and the policy has not changed since. */
    ghost predicate Origin(i: nat, n: nat, key: FlowKey, flow: Flow) {
      && i < n && Holds(n, key, flow)
      && Stores(i, PendingFlow(key, flow))
      && (forall k :: i < k < n ==> !StoresKey(k, key))
      && PolicyKept(i, n)
    }
  }

  // ---------------------------------------------------------------------------
  // What one event does to the flow table

  /** The representation invariant of a running proxy at time `now`. */
  ghost predicate Consistent(c: Config, s: State, now: int) {
    && (s.flows.Some? <==> IsStateful(s.allow, s.block))
    && (s.flows.Some? ==>
          && Sound(s.flows.value, now)
          && forall key :: key in s.flows.value.flows ==> key.vm == c.vm)
  }

  /** What an admitted, tracked packet stores. */
  ghost predicate ProperPending(pending: PendingFlow, p: Packet, side: Side, now: int) {
    && KeyOf(p, side) == Some(pending.key)
    && pending.flow == Flow(side, now + Timeout(p))
    && (p.payload.IcmpPayload? ==> p.payload.message.EchoRequest?)
  }

  lemma CandidateIsProper(flows: Flows, p: Packet, side: Side, now: int)
    requires EchoConsistent(flows)
    ensures Classify(flows, p, side, now).Candidate? ==>
            ProperPending(Classify(flows, p, side, now).pending, p, side, now)
  {
    ClassifyMeans(flows, p, side, now);
  }

  /** Policy either leaves the state alone or stores the pending flow it was asked about. */
  ghost predicate StoresAtMost(s: State, pending: Option<PendingFlow>, after: (State, Verdict)) {
    match after.1
    case Admitted(Some(stored)) =>
      && pending == Some(stored) && s.flows.Some? && HasRoom(s.flows.value.flows, stored.key)
      && after.0 == s.(flows := Some(Store(s.flows.value, stored)))
    case Returned => false
    case _ => after.0 == s
  }

  lemma InboundStoresAtMost(c: Config, s: State, p: Packet, pending: Option<PendingFlow>)
    ensures StoresAtMost(s, pending, InboundPolicy(c, s, p, pending))
  {
  }

  lemma OutboundStoresAtMost(c: Config, s: State, p: Packet, pending: Option<PendingFlow>)
    ensures StoresAtMost(s, pending, OutboundPolicy(c, s, p, pending))
  {
  }

  /** Everything a packet can do to the state. */
  ghost predicate Effect(c: Config, s: State, p: Packet, side: Side, now: int, after: (State, Verdict)) {
    var (s', v) := after;
    && s'.allow == s.allow && s'.block == s.block
    && match v
       case Returned =>
         && s.flows.Some? && s'.flows == Some(Sweep(s.flows.value, now))
         && ReturnsOn(s.flows.value.flows, p, side, now)
       case Admitted(Some(stored)) =>
         && s.flows.Some? && ProperPending(stored, p, side, now) && stored.key.vm == c.vm
         && HasRoom(Sweep(s.flows.value, now).flows, stored.key)
         && s'.flows == Some(Store(Sweep(s.flows.value, now), stored))
         && (!Opens(p) ==>
               IsLive(s.flows.value.flows, stored.key, now) && s.flows.value.flows[stored.key].initiator == side)
       case _ =>
         s'.flows == s.flows || (s.flows.Some? && s'.flows == Some(Sweep(s.flows.value, now)))
  }

  /** The packet answers a live entry stored from the other side. */
  ghost predicate ReturnsOn(flows: Flows, p: Packet, side: Side, now: int) {
    && KeyOf(p, side).Some? && !IsBareSynPacket(p)
    && IsLive(flows, KeyOf(p, side).value, now)
    && flows[KeyOf(p, side).value].initiator == side.Opposite()
  }

  lemma LiveThroughSweep(t: Table, key: FlowKey, now: int)
    ensures IsLive(Sweep(t, now).flows, key, now) <==> IsLive(t.flows, key, now)
    ensures IsLive(t.flows, key, now) ==> Sweep(t, now).flows[key] == t.flows[key]
  {
  }

  lemma ContinueEffect(c: Config, s: State, p: Packet, side: Side, before: int, now: int)
    requires s.flows.Some? && Sound(s.flows.value, before) && before <= now
    requires (if side == FromHost then p.destination else p.source) == c.vm
    ensures
      var (s', found) := Consult(s, p, side, now);
      Effect(c, s, p, side, now, Continue(c, s', p, side, found))
  {
    var t := s.flows.value;
    var (s', found) := Consult(s, p, side, now);
    SweepSound(t, before, now);
    ClassifyMeans(Sweep(t, now).flows, p, side, now);
    CandidateIsProper(Sweep(t, now).flows, p, side, now);
    if KeyOf(p, side).Some? {
      LiveThroughSweep(t, KeyOf(p, side).value, now);
    }
    match found {
      case Candidate(pending) =>
        InboundStoresAtMost(c, s', p, Some(pending));
        OutboundStoresAtMost(c, s', p, Some(pending));
      case Untracked =>
        InboundStoresAtMost(c, s', p, None);
        OutboundStoresAtMost(c, s', p, None);
      case _ =>
    }
  }

  lemma HostEffect(c: Config, s: State, p: Packet, before: int, now: int)
    requires Consistent(c, s, before) && before <= now
    ensures Effect(c, s, p, FromHost, now, HostStep(c, s, p, now))
  {
    if s.flows.Some? {
      if p.destination == c.vm {
        ContinueEffect(c, s, p, FromHost, before, now);
      }
      InboundStoresAtMost(c, s, p, None);
    }
  }

  lemma VmEffect(c: Config, s: State, p: Packet, before: int, now: int, dnsAnswers: bool)
    requires Consistent(c, s, before) && before <= now
    ensures Effect(c, s, p, FromVm, now, VmStep(c, s, p, now, dnsAnswers))
  {
    if p.source == c.vm {
      if s.flows.Some? {
        ContinueEffect(c, s, p, FromVm, before, now);
      }
      OutboundStoresAtMost(c, s, p, None);
    }
  }

  lemma EffectKeepsConsistent(c: Config, s: State, p: Packet, side: Side, before: int, now: int,
                              after: (State, Verdict))
    requires Consistent(c, s, before) && before <= now
    requires Effect(c, s, p, side, now, after)
    ensures Consistent(c, after.0, now)
  {
    if s.flows.Some? {
      SweepSound(s.flows.value, before, now);
      if after.1.Admitted? && after.1.tracked.Some? {
        StoreSound(Sweep(s.flows.value, now), after.1.tracked.value, now);
      }
    }
  }

  // ---------------------------------------------------------------------------
  // The representation invariant over all runs

  lemma ApplyEffect(c: Config, s: State, before: int, e: Event)
    requires Consistent(c, s, before) && before <= e.now
    ensures Consistent(c, Apply(c, s, e).0, e.now)
    ensures e.IsPacket() ==>
              && Apply(c, s, e).1.Some?
              && Effect(c, s, e.packet, e.Side(), e.now, (Apply(c, s, e).0, Apply(c, s, e).1.value))
  {
    match e {
      case HostPacket(packet, now) =>
        HostEffect(c, s, packet, before, now);
        EffectKeepsConsistent(c, s, packet, FromHost, before, now, HostStep(c, s, packet, now));
      case VmPacket(packet, now, dnsAnswers) =>
        VmEffect(c, s, packet, before, now, dnsAnswers);
        EffectKeepsConsistent(c, s, packet, FromVm, before, now, VmStep(c, s, packet, now, dnsAnswers));
      case NewPolicy(_, _, _) =>
    }
  }

  lemma StartIsConsistent(c: Config, allow: seq<Rule>, block: seq<Rule>, now: int)
    ensures Consistent(c, Start(allow, block, now), now)
  {
  }

  /** In every run a flow table exists exactly in stateful mode, and it is sound. */
  lemma {:induction false} RunIsConsistent(r: Run, n: nat)
    requires r.Valid() && n <= |r.events|
    ensures Consistent(r.config, r.states[n], r.TimeBefore(n))
  {
    if n == 0 {
      var allow, block :| r.states[0] == Start(allow, block, r.start);
      StartIsConsistent(r.config, allow, block, r.start);
    } else {
      RunIsConsistent(r, n - 1);
      assert r.Follows(n - 1);
      ApplyEffect(r.config, r.states[n - 1], r.TimeBefore(n - 1), r.events[n - 1]);
    }
  }

  /** The effect of event `i` of a run. */
  lemma EventEffect(r: Run, i: nat)
    requires r.Valid() && i < |r.events|
    ensures r.TimeBefore(i) <= r.events[i].now
    ensures Consistent(r.config, r.states[i], r.TimeBefore(i))
    ensures Consistent(r.config, r.states[i + 1], r.events[i].now)
    ensures r.results[i].Some? <==> r.events[i].IsPacket()
    ensures r.events[i].IsPacket() ==>
              Effect(r.config, r.states[i], r.events[i].packet, r.events[i].Side(), r.events[i].now,
                     (r.states[i + 1], r.results[i].value))
    ensures r.events[i].NewPolicy? ==>
              r.states[i + 1] == PolicySet(r.states[i], r.events[i].allow, r.events[i].block, r.events[i].now)
  {
    RunIsConsistent(r, i);
    assert r.Follows(i);
    ApplyEffect(r.config, r.states[i], r.TimeBefore(i), r.events[i]);
  }

  /** Every sequence of events has a run. */
  lemma {:induction false} RunExists(c: Config, allow: seq<Rule>, block: seq<Rule>, start: int,
                                     events: seq<Event>) returns (r: Run)
    requires forall i :: 0 <= i < |events| ==> start <= events[i].now
    requires forall i, j :: 0 <= i < j < |events| ==> events[i].now <= events[j].now
    ensures r.Valid() && r.config == c && r.start == start && r.events == events &&
            r.states[0] == Start(allow, block, start)
  {
    if events == [] {
      r := Run(c, start, [], [Start(allow, block, start)], []);
    } else {
      var n := |events| - 1;
      var q := RunExists(c, allow, block, start, events[..n]);
      var (s, v) := Apply(c, q.states[n], events[n]);
      r := Run(c, start, events, q.states + [s], q.results + [v]);
      forall i | 0 <= i <= n ensures r.Follows(i) {
        if i < n {
          assert q.Follows(i);
          assert r.states[i] == q.states[i] && r.states[i + 1] == q.states[i + 1] && r.results[i] == q.results[i];
        }
      }
    }
  }
}
