/**
 What whole runs of the packet filter guarantee: where every permission comes from,
 how long it lasts, and what justifies each forwarded packet.
 */
module ProxyTheorems {
  import opened Net
  import opened RuleModel
  import opened RuleOrder
  import opened SortedLists
  import opened PolicyCompiler
  import opened Packets
  import opened FlowTable
  import opened FlowLaws
  import opened ProxyMachine
  import opened ProxyRuns

  // ---------------------------------------------------------------------------
  // Where entries come from

  /** An event that does not store under `key` neither creates nor changes the entry. */
  lemma UntouchedEntry(r: Run, i: nat, key: FlowKey, flow: Flow)
    requires r.Valid() && i < |r.events| && !r.StoresKey(i, key)
    requires r.Holds(i + 1, key, flow)
    ensures r.Holds(i, key, flow)
    ensures r.SamePolicy(i, i + 1)
  {
    EventEffect(r, i);
    if r.states[i].flows.Some? {
      SweepKeepsLive(r.states[i].flows.value, r.events[i].now);
    }
  }

  /** An event that neither stores under `key` nor changes the policy keeps a live entry. */
  lemma KeptEntry(r: Run, i: nat, key: FlowKey, flow: Flow)
    requires r.Valid() && i < |r.events| && !r.StoresKey(i, key)
    requires r.SamePolicy(i, i + 1)
    requires r.Holds(i, key, flow) && r.events[i].now < flow.expires
    ensures r.Holds(i + 1, key, flow)
  {
    EventEffect(r, i);
    LiveThroughSweep(r.states[i].flows.value, key, r.events[i].now);
  }

  lemma StoredEntry(r: Run, i: nat, pending: PendingFlow)
    requires r.Valid() && i < |r.events| && r.Stores(i, pending)
    ensures r.events[i].IsPacket()
    ensures ProperPending(pending, r.events[i].packet, r.events[i].Side(), r.events[i].now)
    ensures r.Holds(i + 1, pending.key, pending.flow)
    ensures r.SamePolicy(i, i + 1)
  {
    EventEffect(r, i);
  }

  lemma OriginExtends(r: Run, i: nat, n: nat, key: FlowKey, flow: Flow)
    requires r.Origin(i, n, key, flow) && !r.StoresKey(n, key)
    requires r.Holds(n + 1, key, flow) && r.SamePolicy(n, n + 1)
    ensures r.Origin(i, n + 1, key, flow)
  {
    assert r.SamePolicy(i, n);
    forall k | i <= k <= n + 1 ensures r.SamePolicy(i, k) {
    }
  }

  /** Every entry was stored by an earlier packet under the policy still in force, and not replaced since. */
  lemma {:induction false} EveryEntryHasOrigin(r: Run, n: nat, key: FlowKey, flow: Flow) returns (i: nat)
    requires r.Valid() && r.Holds(n, key, flow)
    ensures r.Origin(i, n, key, flow)
  {
    if n == 0 {
      StartHoldsNothing(r, key, flow);
    }
    if r.StoresKey(n - 1, key) {
      i := n - 1;
      var pending := r.results[i].value.tracked.value;
      StoredEntry(r, i, pending);
    } else {
      UntouchedEntry(r, n - 1, key, flow);
      i := EveryEntryHasOrigin(r, n - 1, key, flow);
      OriginExtends(r, i, n - 1, key, flow);
    }
  }

  lemma StartHoldsNothing(r: Run, key: FlowKey, flow: Flow)
    requires r.Valid()
    ensures !r.Holds(0, key, flow)
  {
  }

  // ---------------------------------------------------------------------------
  // Return traffic

  /** `j` explains why event `i` was let through as return traffic. */
  ghost predicate Answers(r: Run, i: nat, j: nat)
    requires r.Valid() && j < i < |r.events|
  {
    && r.events[i].IsPacket() && r.events[j].IsPacket()
    && r.events[i].Side() == r.events[j].Side().Opposite()
    && IsReply(r.events[i].packet, r.events[j].packet)
    && KeyOf(r.events[j].packet, r.events[j].Side()).Some?
    && r.StoresKey(j, KeyOf(r.events[j].packet, r.events[j].Side()).value)
    && r.events[i].now < r.events[j].now + Timeout(r.events[j].packet)
    && (forall k :: j < k < i ==> !r.StoresKey(k, KeyOf(r.events[j].packet, r.events[j].Side()).value))
    && r.PolicyKept(j, i)
  }

  /** Whatever the table lets through is the exact mirror image of a packet admitted under the policy in force. */
  lemma ReturnTrafficHasOrigin(r: Run, i: nat) returns (j: nat)
    requires r.Valid() && i < |r.events| && r.results[i] == Some(Returned)
    ensures j < i && Answers(r, i, j)
  {
    EventEffect(r, i);
    var p, side := r.events[i].packet, r.events[i].Side();
    var key := KeyOf(p, side).value;
    var flow := r.states[i].flows.value.flows[key];
    j := EveryEntryHasOrigin(r, i, key, flow);
    StoredEntry(r, j, PendingFlow(key, flow));
    assert side == r.events[j].Side().Opposite();
    SameKeyIsReply(p, r.events[j].packet, r.events[j].Side());
  }

  // ---------------------------------------------------------------------------
  // What policy admits

  /** The packet starts a flow, or renews one that its own side started. */
  ghost predicate Trackable(s: State, p: Packet, side: Side, now: int) {
    && s.flows.Some? && KeyOf(p, side).Some?
    && (Opens(p) ||
        (IsLive(s.flows.value.flows, KeyOf(p, side).value, now) &&
         s.flows.value.flows[KeyOf(p, side).value].initiator == side))
  }

  /**
   The flat rules and the built-in fallbacks let the packet through on its own merit. In stateful mode
   a packet that a rule allows has to be trackable, and a malformed one is never let through.
   */
  ghost predicate PolicyAdmits(c: Config, s: State, p: Packet, side: Side, now: int) {
    var stateful := IsStateful(s.allow, s.block);
    if side == FromHost then
      && !IsDhcpReply(p)
      && (stateful ==>
            && (p.destination == c.vm ==> !IsMalformed(p))
            && match Selected(c, s, In, PolicyQuery(p, In))
               case Some(Block) => false
               case Some(Allow) => p.destination == c.vm && Trackable(s, p, FromHost, now)
               case None => true)
    else
      && !IsDhcpRequest(p) && p.source == c.vm
      && (stateful ==> !IsMalformed(p))
      && match Selected(c, s, Out, PolicyQuery(p, Out))
         case Some(Block) => false
         case Some(Allow) => stateful ==> Trackable(s, p, FromVm, now)
         case None => c.isGlobal(p.destination) || p.destination == c.gateway
  }

  /**
   The table has nothing against admitting the packet: it is no return traffic, and where it has to be tracked
   there is room.
   */
  ghost predicate TableAdmits(s: State, p: Packet, side: Side, now: int, tracked: bool) {
    s.flows.Some? ==>
      && !ReturnsOn(s.flows.value.flows, p, side, now)
      && (tracked && Trackable(s, p, side, now) ==> HasRoom(Sweep(s.flows.value, now).flows, KeyOf(p, side).value))
  }

  /** What the table says about a packet, in terms of the table before the sweep. */
  lemma ConsultMeans(s: State, p: Packet, side: Side, before: int, now: int)
    requires s.flows.Some? && Sound(s.flows.value, before) && before <= now
    ensures
      var found := Consult(s, p, side, now).1;
      && (found.Denied? <==> IsMalformed(p))
      && (found.Allowed? <==> !IsMalformed(p) && ReturnsOn(s.flows.value.flows, p, side, now))
      && (found.Candidate? <==>
            !IsMalformed(p) && Trackable(s, p, side, now) && !ReturnsOn(s.flows.value.flows, p, side, now))
      && (found.Candidate? ==> found.pending.key == KeyOf(p, side).value)
  {
    var t := s.flows.value;
    SweepSound(t, before, now);
    ClassifyMeans(Sweep(t, now).flows, p, side, now);
    if KeyOf(p, side).Some? {
      LiveThroughSweep(t, KeyOf(p, side).value, now);
    }
  }

  /**
   An inbound packet is admitted on its own exactly when the rules or the inbound default admit it and the
   table agrees.
   */
  lemma HostAdmittedByPolicy(c: Config, s: State, p: Packet, before: int, now: int)
    requires Consistent(c, s, before) && before <= now
    ensures HostStep(c, s, p, now).1.Admitted? <==>
            && PolicyAdmits(c, s, p, FromHost, now)
            && (p.destination == c.vm ==>
                  TableAdmits(s, p, FromHost, now,
                              Selected(c, s, In, PolicyQuery(p, In)).Some? || ReturnIsStateful(c, s, p, Out)))
  {
    if s.flows.Some? {
      ConsultMeans(s, p, FromHost, before, now);
    }
  }

  /**
   An outbound packet is admitted on its own exactly when the rules or the fallbacks admit it and the table
   agrees.
   */
  lemma VmAdmittedByPolicy(c: Config, s: State, p: Packet, before: int, now: int, dnsAnswers: bool)
    requires Consistent(c, s, before) && before <= now
    ensures VmStep(c, s, p, now, dnsAnswers).1.Admitted? <==>
            && PolicyAdmits(c, s, p, FromVm, now) && TableAdmits(s, p, FromVm, now, true)
            && !(dnsAnswers && MayBeDns(c, p))
  {
    if s.flows.Some? {
      ConsultMeans(s, p, FromVm, before, now);
    }
  }

  /** The policy in force admitted the packet of event `i` on its own merit. */
  ghost predicate Justified(r: Run, i: nat)
    requires r.Valid() && i < |r.events|
  {
    r.events[i].IsPacket() &&
    PolicyAdmits(r.config, r.states[i], r.events[i].packet, r.events[i].Side(), r.events[i].now)
  }

  /** Every forwarded packet is admitted by the policy in force, or is exact return traffic of one that was. */
  lemma ForwardedIsJustified(r: Run, i: nat)
    requires r.Valid() && i < |r.events| && r.results[i].Some? && !r.results[i].value.Dropped?
    ensures r.events[i].IsPacket()
    ensures
      || Justified(r, i)
      || exists j :: 0 <= j < i && Answers(r, i, j) && Justified(r, j)
  {
    if r.results[i].value.Returned? {
      var j := ReturnTrafficHasOrigin(r, i);
      EventAdmitted(r, j);
    } else {
      EventAdmitted(r, i);
    }
  }

  lemma EventAdmitted(r: Run, i: nat)
    requires r.Valid() && i < |r.events| && r.results[i].Some? && r.results[i].value.Admitted?
    ensures Justified(r, i)
  {
    EventEffect(r, i);
    assert r.Follows(i);
    match r.events[i] {
      case HostPacket(p, now) => HostAdmittedByPolicy(r.config, r.states[i], p, r.TimeBefore(i), now);
      case VmPacket(p, now, dnsAnswers) =>
        VmAdmittedByPolicy(r.config, r.states[i], p, r.TimeBefore(i), now, dnsAnswers);
      case NewPolicy(_, _, _) =>
    }
  }

  // ---------------------------------------------------------------------------
  // TCP lineage

  /** Event `i` stored `key` as a bare SYN, or renewed in time what an event that descends from one had stored. */
  ghost predicate Descends(r: Run, i: nat, key: FlowKey)
    requires r.Valid() && i < |r.events|
    decreases i
  {
    && r.events[i].IsPacket() && r.StoresKey(i, key) && KeyOf(r.events[i].packet, r.events[i].Side()) == Some(key)
    && (|| IsBareSynPacket(r.events[i].packet)
        || exists j :: 0 <= j < i && Renews(r, i, j, key) && Descends(r, j, key))
  }

  /** Event `i` comes from the same side as `j` and before what `j` stored expired, was replaced or was revoked. */
  ghost predicate Renews(r: Run, i: nat, j: nat, key: FlowKey)
    requires r.Valid() && j < i < |r.events|
  {
    && r.events[j].IsPacket() && r.events[i].IsPacket()
    && r.events[i].Side() == r.events[j].Side()
    && r.events[i].now < r.events[j].now + (if IsBareSynPacket(r.events[j].packet) then SYN_TIMEOUT else TCP_TIMEOUT)
    && (forall k :: j < k < i ==> !r.StoresKey(k, key))
    && r.PolicyKept(j, i)
  }

  lemma {:induction false} StoredTcpDescends(r: Run, i: nat, key: FlowKey)
    requires r.Valid() && i < |r.events| && r.StoresKey(i, key) && key.TcpKey?
    ensures Descends(r, i, key)
  {
    var pending := r.results[i].value.tracked.value;
    StoredEntry(r, i, pending);
    EventEffect(r, i);
    var p := r.events[i].packet;
    if !IsBareSynPacket(p) {
      assert p.payload.TcpPayload? && !Opens(p);
      var flow := r.states[i].flows.value.flows[key];
      var j := EveryEntryHasOrigin(r, i, key, flow);
      StoredEntry(r, j, PendingFlow(key, flow));
      StoredTcpDescends(r, j, key);
      assert Renews(r, i, j, key);
    }
  }

  /** Every TCP entry descends from an admitted bare SYN through an unbroken chain of admitted packets. */
  lemma TcpEntriesDescend(r: Run, n: nat, key: FlowKey, flow: Flow) returns (i: nat)
    requires r.Valid() && key.TcpKey? && r.Holds(n, key, flow)
    ensures i < |r.events| && r.Origin(i, n, key, flow) && Descends(r, i, key)
    ensures flow == Flow(r.events[i].Side(), r.events[i].now +
                         if IsBareSynPacket(r.events[i].packet) then SYN_TIMEOUT else TCP_TIMEOUT)
  {
    i := EveryEntryHasOrigin(r, n, key, flow);
    StoredEntry(r, i, PendingFlow(key, flow));
    StoredTcpDescends(r, i, key);
  }

  // ---------------------------------------------------------------------------
  // Replies get through

  /** A stored entry stays until it expires, is replaced, or the policy changes. */
  lemma {:induction false} EntryPersists(r: Run, i: nat, n: nat, pending: PendingFlow)
    requires r.Valid() && i < n <= |r.events| && r.Stores(i, pending)
    requires forall k :: i < k < n ==> !r.StoresKey(k, pending.key)
    requires r.PolicyKept(i, n)
    requires r.TimeBefore(n) < pending.flow.expires
    ensures r.Holds(n, pending.key, pending.flow)
  {
    if n == i + 1 {
      StoredEntry(r, i, pending);
    } else {
      assert r.TimeBefore(n - 1) <= r.TimeBefore(n);
      EntryPersists(r, i, n - 1, pending);
      assert r.SamePolicy(i, n - 1) && r.SamePolicy(i, n);
      KeptEntry(r, n - 1, pending.key, pending.flow);
    }
  }

  /** Packets the DHCP and DNS servers take for themselves. */
  predicate Consumed(c: Config, e: Event)
    requires e.IsPacket()
  {
    match e
    case HostPacket(p, _) => IsDhcpReply(p)
    case VmPacket(p, _, dnsAnswers) => IsDhcpRequest(p) || (dnsAnswers && MayBeDns(c, p))
  }

  /** Once admitted, the packet is stored: always from the VM, and from the host if a rule concerns it or its reply. */
  ghost predicate Tracks(c: Config, s: State, p: Packet, side: Side, now: int) {
    && Trackable(s, p, side, now)
    && (side == FromHost ==>
          p.destination == c.vm && (Selected(c, s, In, PolicyQuery(p, In)).Some? || ReturnIsStateful(c, s, p, Out)))
  }

  ghost function TrackedAs(c: Config, s: State, p: Packet, side: Side, now: int): Option<PendingFlow> {
    if Tracks(c, s, p, side, now) then Some(PendingFlow(KeyOf(p, side).value, Flow(side, now + Timeout(p)))) else None
  }

  lemma ConsultProposes(s: State, p: Packet, side: Side, before: int, now: int)
    requires s.flows.Some? && Sound(s.flows.value, before) && before <= now && Consult(s, p, side, now).1.Candidate?
    ensures KeyOf(p, side).Some?
    ensures Consult(s, p, side, now).1.pending == PendingFlow(KeyOf(p, side).value, Flow(side, now + Timeout(p)))
  {
    SweepSound(s.flows.value, before, now);
    ClassifyMeans(Sweep(s.flows.value, now).flows, p, side, now);
  }

  lemma InboundStores(c: Config, s: State, p: Packet, pending: Option<PendingFlow>)
    requires IsStateful(s.allow, s.block) && InboundPolicy(c, s, p, pending).1.Admitted?
    ensures InboundPolicy(c, s, p, pending).1.tracked ==
            if Selected(c, s, In, PolicyQuery(p, In)).Some? || ReturnIsStateful(c, s, p, Out) then pending else None
  {
  }

  lemma OutboundStores(c: Config, s: State, p: Packet, pending: Option<PendingFlow>)
    requires (pending.Some? ==> IsStateful(s.allow, s.block)) && OutboundPolicy(c, s, p, pending).1.Admitted?
    ensures OutboundPolicy(c, s, p, pending).1.tracked == pending
  {
  }

  /** What the table proposes about an admitted packet. */
  ghost function Proposal(s: State, p: Packet, side: Side, now: int): Option<PendingFlow> {
    var found := Consult(s, p, side, now).1;
    if found.Candidate? then Some(found.pending) else None
  }

  lemma ProposalMeans(s: State, p: Packet, side: Side, before: int, now: int)
    requires s.flows.Some? && Sound(s.flows.value, before) && before <= now
    requires !Consult(s, p, side, now).1.Allowed? && !Consult(s, p, side, now).1.Denied?
    ensures Proposal(s, p, side, now) ==
            if Trackable(s, p, side, now) then Some(PendingFlow(KeyOf(p, side).value, Flow(side, now + Timeout(p))))
            else None
  {
    ConsultMeans(s, p, side, before, now);
    if Consult(s, p, side, now).1.Candidate? {
      ConsultProposes(s, p, side, before, now);
    }
  }

  /** Which admitted inbound packets are stored, and what is stored. */
  lemma HostStores(c: Config, s: State, p: Packet, before: int, now: int)
    requires Consistent(c, s, before) && before <= now && HostStep(c, s, p, now).1.Admitted?
    ensures HostStep(c, s, p, now).1.tracked == TrackedAs(c, s, p, FromHost, now)
  {
    if s.flows.Some? {
      if p.destination == c.vm {
        ProposalMeans(s, p, FromHost, before, now);
        InboundStores(c, Consult(s, p, FromHost, now).0, p, Proposal(s, p, FromHost, now));
      } else {
        InboundStores(c, s, p, None);
      }
    }
  }

  /** Which admitted outbound packets are stored, and what is stored. */
  lemma VmStores(c: Config, s: State, p: Packet, before: int, now: int, dnsAnswers: bool)
    requires Consistent(c, s, before) && before <= now && VmStep(c, s, p, now, dnsAnswers).1.Admitted?
    ensures VmStep(c, s, p, now, dnsAnswers).1.tracked == TrackedAs(c, s, p, FromVm, now)
  {
    if s.flows.Some? {
      ProposalMeans(s, p, FromVm, before, now);
    }
    OutboundStores(c, Consult(s, p, FromVm, now).0, p, Proposal(s, p, FromVm, now));
  }

  /** In every run an admitted packet is stored exactly if it has to be, and then its entry is in the table. */
  lemma AdmissionStores(r: Run, i: nat)
    requires r.Valid() && i < |r.events| && r.results[i].Some? && r.results[i].value.Admitted?
    ensures r.events[i].IsPacket()
    ensures r.results[i].value.tracked ==
            TrackedAs(r.config, r.states[i], r.events[i].packet, r.events[i].Side(), r.events[i].now)
    ensures r.results[i].value.tracked.Some? ==>
              var pending := r.results[i].value.tracked.value;
              r.Stores(i, pending) && r.Holds(i + 1, pending.key, pending.flow)
  {
    EventEffect(r, i);
    assert r.Follows(i);
    match r.events[i] {
      case HostPacket(p, now) => HostStores(r.config, r.states[i], p, r.TimeBefore(i), now);
      case VmPacket(p, now, dnsAnswers) => VmStores(r.config, r.states[i], p, r.TimeBefore(i), now, dnsAnswers);
      case NewPolicy(_, _, _) =>
    }
    if r.results[i].value.tracked.Some? {
      StoredEntry(r, i, r.results[i].value.tracked.value);
    }
  }

  /** An unfragmented packet that is not the first segment of a TCP connection. */
  predicate MayAnswer(p: Packet) {
    && !p.moreFragments && p.fragmentOffset == 0
    && (p.payload.TcpPayload? && p.payload.segment.Complete? ==>
          var flags := p.payload.segment.flags;
          !flags.syn || flags.ack || flags.fin || flags.rst)
  }

  /**
   The reply to an admitted packet that is tracked is forwarded, unless a local server consumes it, until the
   entry expires, is replaced or is revoked.
   */
  lemma ReplyIsAvailable(r: Run, i: nat, j: nat)
    requires r.Valid() && i < j < |r.events| && r.results[i].Some? && r.results[i].value.Admitted?
    requires r.events[i].IsPacket() && r.events[j].IsPacket()
    requires Tracks(r.config, r.states[i], r.events[i].packet, r.events[i].Side(), r.events[i].now)
    requires r.events[j].Side() == r.events[i].Side().Opposite()
    requires IsReply(r.events[j].packet, r.events[i].packet) && MayAnswer(r.events[j].packet)
    requires forall k :: i < k < j ==> !r.StoresKey(k, KeyOf(r.events[i].packet, r.events[i].Side()).value)
    requires r.PolicyKept(i, j)
    requires r.events[j].now < r.events[i].now + Timeout(r.events[i].packet)
    ensures r.states[j].flows.Some?
    ensures Classify(r.states[j].flows.value.flows, r.events[j].packet, r.events[j].Side(), r.events[j].now) == Allowed
    ensures r.results[j] == Some(if Consumed(r.config, r.events[j]) then Dropped else Returned)
  {
    AdmissionStores(r, i);
    StoredReplyReturns(r, i, j, r.results[i].value.tracked.value);
  }

  lemma StoredReplyReturns(r: Run, i: nat, j: nat, pending: PendingFlow)
    requires r.Valid() && i < j < |r.events| && r.Stores(i, pending)
    requires r.events[i].IsPacket() && r.events[j].IsPacket()
    requires r.events[j].Side() == r.events[i].Side().Opposite()
    requires IsReply(r.events[j].packet, r.events[i].packet) && MayAnswer(r.events[j].packet)
    requires forall k :: i < k < j ==> !r.StoresKey(k, pending.key)
    requires r.PolicyKept(i, j)
    requires r.events[j].now < pending.flow.expires
    ensures r.states[j].flows.Some?
    ensures Classify(r.states[j].flows.value.flows, r.events[j].packet, r.events[j].Side(), r.events[j].now) == Allowed
    ensures r.results[j] == Some(if Consumed(r.config, r.events[j]) then Dropped else Returned)
  {
    EventEffect(r, j);
    EntryPersists(r, i, j, pending);
    StoredEntry(r, i, pending);
    ReplyHasSameKey(r.events[j].packet, r.events[i].packet, r.events[i].Side());
    assert r.Follows(j);
    LiveReplyReturns(r.config, r.states[j], r.TimeBefore(j), r.events[j]);
  }

  /** A packet that answers a live entry is let through unless a local server consumes it. */
  lemma LiveReplyReturns(c: Config, s: State, before: int, e: Event)
    requires e.IsPacket() && Consistent(c, s, before) && before <= e.now
    requires s.flows.Some? && ReturnsOn(s.flows.value.flows, e.packet, e.Side(), e.now)
    ensures Classify(s.flows.value.flows, e.packet, e.Side(), e.now) == Allowed
    ensures Apply(c, s, e).1 == Some(if Consumed(c, e) then Dropped else Returned)
  {
    var t := s.flows.value;
    var key := KeyOf(e.packet, e.Side()).value;
    ClassifyMeans(t.flows, e.packet, e.Side(), e.now);
    SweepSound(t, before, e.now);
    LiveThroughSweep(t, key, e.now);
    ClassifyMeans(Sweep(t, e.now).flows, e.packet, e.Side(), e.now);
    assert key.vm == c.vm;
  }

  // ---------------------------------------------------------------------------
  // The mirror law

  /** A reply asks the rules exactly what the initiating packet asks about its return direction. */
  lemma ReplyAsksReturnQuery(reply: Packet, p: Packet, direction: Direction)
    requires IsReply(reply, p) && !reply.IsFragment() && !p.IsFragment()
    ensures PolicyQuery(reply, direction) == ReturnQuery(p, direction)
  {
  }

  /** The return direction is stateful exactly when a rule decides the mirrored packet. */
  lemma MirrorLaw(c: Config, s: State, p: Packet, direction: Direction)
    ensures ReturnIsStateful(c, s, p, direction) <==>
            IsStateful(s.allow, s.block) && PolicyDecision(c, s, p.Mirrored(), direction).Some?
  {
    assert PolicyQuery(p.Mirrored(), direction) == ReturnQuery(p, direction);
  }

  lemma DecisionKept(r: Run, i: nat, j: nat, p: Packet, direction: Direction)
    requires r.Valid() && i <= j <= |r.events| && r.PolicyKept(i, j)
    ensures PolicyDecision(r.config, r.states[i], p, direction) == PolicyDecision(r.config, r.states[j], p, direction)
  {
    assert r.SamePolicy(i, j);
  }

  /**
   The reply to a trackable inbound packet admitted by default is forwarded, unless a local server consumes
   it, or no outbound rule concerns it, as long as the entry is unexpired, not replaced and not revoked.
   */
  lemma DefaultAdmittedRepliesAreCovered(r: Run, i: nat, j: nat)
    requires r.Valid() && i < j < |r.events| && r.events[i].HostPacket? && r.events[j].VmPacket?
    requires PolicyDecision(r.config, r.states[i], r.events[i].packet, In).None?
    requires r.results[i].Some? && r.results[i].value.Admitted? && r.events[i].packet.destination == r.config.vm
    requires Trackable(r.states[i], r.events[i].packet, FromHost, r.events[i].now)
    requires IsReply(r.events[j].packet, r.events[i].packet)
    requires MayAnswer(r.events[j].packet)
    requires forall k :: i < k < j ==> !r.StoresKey(k, KeyOf(r.events[i].packet, FromHost).value)
    requires r.PolicyKept(i, j) && r.events[j].now < r.events[i].now + Timeout(r.events[i].packet)
    ensures
      || r.results[j] == Some(if Consumed(r.config, r.events[j]) then Dropped else Returned)
      || PolicyDecision(r.config, r.states[j], r.events[j].packet, Out).None?
  {
    ReplyAsksReturnQuery(r.events[j].packet, r.events[i].packet, Out);
    DecisionKept(r, i, j, r.events[j].packet, Out);
    if ReturnIsStateful(r.config, r.states[i], r.events[i].packet, Out) {
      ReplyIsAvailable(r, i, j);
    } else {
      RunIsConsistent(r, i);
    }
  }

  // ---------------------------------------------------------------------------
  // Policy changes

  /** Each list in force is the normal form of some list. */
  ghost predicate HasNormalLists(s: State) {
    exists allow, block :: s.allow == NormalForm(allow) && s.block == NormalForm(block)
  }

  lemma EventKeepsLists(r: Run, i: nat)
    requires r.Valid() && i < |r.events| && HasNormalLists(r.states[i])
    ensures HasNormalLists(r.states[i + 1])
  {
    EventEffect(r, i);
    if r.events[i].NewPolicy? && r.states[i + 1] != r.states[i] {
      assert r.states[i + 1].allow == NormalForm(r.events[i].allow) &&
             r.states[i + 1].block == NormalForm(r.events[i].block);
    }
  }

  lemma {:induction false} ListsStayNormal(r: Run, n: nat)
    requires r.Valid() && n <= |r.events|
    ensures HasNormalLists(r.states[n])
  {
    if n > 0 {
      ListsStayNormal(r, n - 1);
      EventKeepsLists(r, n - 1);
    }
  }

  /**
   A new policy keeps the flow table exactly when both lists say what the lists in force say, rule by rule,
   and empties it otherwise. The lists then in force say what the new ones say.
   */
  lemma PolicyChangeRevokes(r: Run, i: nat)
    requires r.Valid() && i < |r.events| && r.events[i].NewPolicy?
    ensures
      var e, s, s' := r.events[i], r.states[i], r.states[i + 1];
      var same := SameRules(e.allow, s.allow) && SameRules(e.block, s.block);
      && (same ==> s' == s)
      && (!same ==>
            && (s'.allow != s.allow || s'.block != s.block)
            && (s'.flows.Some? ==> s'.flows.value.flows == map[]))
      && SameRules(s'.allow, e.allow) && SameRules(s'.block, e.block)
  {
    var e, s := r.events[i], r.states[i];
    EventEffect(r, i);
    ListsStayNormal(r, i);
    var allow, block :| s.allow == NormalForm(allow) && s.block == NormalForm(block);
    SameAsNormalForm(e.allow, allow);
    SameAsNormalForm(e.block, block);
    NormalFormSaysTheSame(e.allow);
    NormalFormSaysTheSame(e.block);
  }

  lemma SameAsNormalForm(given: seq<Rule>, known: seq<Rule>)
    ensures NormalForm(given) == NormalForm(known) <==> SameRules(given, NormalForm(known))
  {
    NormalAgain(known);
    NormalFormsAgree(given, known);
    SameSetsExactly(given, NormalForm(known));
  }

  /** The inbound branch for stateless allows is never taken: with a flow table every allow is stateful. */
  lemma InboundAllowsAreStateful(r: Run, n: nat, p: Packet)
    requires r.Valid() && n <= |r.events| && r.states[n].flows.Some?
    ensures PolicyDecision(r.config, r.states[n], p, In) != Some(AllowStateless)
  {
    RunIsConsistent(r, n);
  }
}
