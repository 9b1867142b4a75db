/**
 Laws of the flow table: what classification means, that a reply is the mirror image
 of what was stored, and that the lazily swept table refines an ideal one.
 */
module FlowLaws {
  import opened Net
  import opened Packets
  import opened FlowTable

  // ---------------------------------------------------------------------------
  // What classification means

  predicate IsBareSynPacket(p: Packet) {
    p.payload.TcpPayload? && p.payload.segment.Complete? && IsBareSyn(p.payload.segment.flags)
  }

  /** The entry a packet belongs to, if its transport header names one. */
  function KeyOf(p: Packet, side: Side): Option<FlowKey> {
    if p.IsFragment() then None
    else
      match p.payload
      case TcpPayload(Complete(source, destination, _)) =>
        if source == 0 || destination == 0 then None
        else if side == FromHost then Some(TcpKey(p.source, source, p.destination, destination))
        else Some(TcpKey(p.destination, destination, p.source, source))
      case UdpPayload(Complete(source, destination, _)) =>
        if source == 0 || destination == 0 then None
        else if side == FromHost then Some(UdpKey(p.source, source, p.destination, destination))
        else Some(UdpKey(p.destination, destination, p.source, source))
      case IcmpPayload(EchoRequest(ident)) =>
        Some(if side == FromHost then EchoKey(p.source, p.destination, ident, FromHost)
             else EchoKey(p.destination, p.source, ident, FromVm))
      case IcmpPayload(EchoReply(ident)) =>
        Some(if side == FromHost then EchoKey(p.source, p.destination, ident, FromVm)
             else EchoKey(p.destination, p.source, ident, FromHost))
      case _ => None
  }

  /** Packets that may start a flow: bare SYNs, datagrams and echo requests. */
  predicate Opens(p: Packet) {
    IsBareSynPacket(p) || p.payload.UdpPayload? || (p.payload.IcmpPayload? && p.payload.message.EchoRequest?)
  }

  /** Unfragmented packets whose transport header is damaged or names port zero. */
  predicate IsMalformed(p: Packet) {
    && !p.IsFragment()
    && match p.payload
       case TcpPayload(segment) => !segment.Complete? || segment.source == 0 || segment.destination == 0
       case UdpPayload(segment) => !segment.Complete? || segment.source == 0 || segment.destination == 0
       case IcmpPayload(message) => message.Damaged?
       case OtherPayload => false
  }

  function Timeout(p: Packet): int {
    if IsBareSynPacket(p) then SYN_TIMEOUT
    else if p.payload.TcpPayload? then TCP_TIMEOUT
    else if p.payload.UdpPayload? then UDP_TIMEOUT
    else ECHO_TIMEOUT
  }

  /** An echo entry is stored under the direction it was requested in. */
  ghost predicate EchoConsistent(flows: Flows) {
    forall key :: key in flows && key.EchoKey? ==> flows[key].initiator == key.initiator
  }

  ghost predicate IsLive(flows: Flows, key: FlowKey, now: int) {
    key in flows && now < flows[key].expires
  }

  /** One rule for all transports: a live entry decides, a bare SYN asks again, an opener may start anew. */
  lemma ClassifyMeans(flows: Flows, p: Packet, side: Side, now: int)
    requires EchoConsistent(flows)
    ensures Classify(flows, p, side, now) ==
      if IsMalformed(p) then Denied
      else if KeyOf(p, side).None? then Untracked
      else
        var key := KeyOf(p, side).value;
        var proposal := Candidate(PendingFlow(key, Flow(side, now + Timeout(p))));
        if IsBareSynPacket(p) then proposal
        else if IsLive(flows, key, now) then if flows[key].initiator == side then proposal else Allowed
        else if Opens(p) then proposal
        else Untracked
  {
  }

  // ---------------------------------------------------------------------------
  // Classification field by field

  /** An entry that has not expired: the other side may answer, its own side renews it until `until`. */
  ghost predicate AnsweredBy(flows: Flows, key: FlowKey, side: Side, now: int, until: int, answer: FlowMatch) {
    && key in flows && now < flows[key].expires
    && answer == if flows[key].initiator == side then Candidate(PendingFlow(key, Flow(side, until))) else Allowed
  }

  /**
   A TCP segment: SYN alone asks policy for a minute, a live entry decides about every other segment, and
   without one nothing is known about it.
   */
  lemma TcpMeans(flows: Flows, p: Packet, side: Side, now: int)
    requires !p.moreFragments && p.fragmentOffset == 0 && p.payload.TcpPayload?
    ensures
      var answer := Classify(flows, p, side, now);
      match p.payload.segment
      case Complete(source, destination, flags) =>
        if source == 0 || destination == 0 then answer == Denied
        else
          var key := if side == FromHost then TcpKey(p.source, source, p.destination, destination)
                     else TcpKey(p.destination, destination, p.source, source);
          if flags.syn && !flags.ack && !flags.fin && !flags.rst then
            answer == Candidate(PendingFlow(key, Flow(side, now + 60_000_000_000)))
          else AnsweredBy(flows, key, side, now, now + 300_000_000_000, answer) ||
               (!(key in flows && now < flows[key].expires) && answer == Untracked)
      case _ => answer == Denied
  {
  }

  /** Without a live entry exactly the segments with SYN and neither ACK, FIN nor RST are candidates. */
  lemma CandidateFlags(flows: Flows, p: Packet, side: Side, now: int)
    requires !p.moreFragments && p.fragmentOffset == 0 && p.payload.TcpPayload? && p.payload.segment.Complete?
    requires p.payload.segment.source != 0 && p.payload.segment.destination != 0
    requires forall key :: key in flows ==> flows[key].expires <= now
    ensures Classify(flows, p, side, now).Candidate? <==>
            var flags := p.payload.segment.flags;
            flags.syn && !flags.ack && !flags.fin && !flags.rst
  {
    TcpMeans(flows, p, side, now);
  }

  /** A datagram: a live entry decides, and without one it asks policy for half a minute. */
  lemma UdpMeans(flows: Flows, p: Packet, side: Side, now: int)
    requires !p.moreFragments && p.fragmentOffset == 0 && p.payload.UdpPayload?
    ensures
      var answer := Classify(flows, p, side, now);
      match p.payload.segment
      case Complete(source, destination, _) =>
        if source == 0 || destination == 0 then answer == Denied
        else
          var key := if side == FromHost then UdpKey(p.source, source, p.destination, destination)
                     else UdpKey(p.destination, destination, p.source, source);
          AnsweredBy(flows, key, side, now, now + 30_000_000_000, answer) ||
          (!(key in flows && now < flows[key].expires) &&
           answer == Candidate(PendingFlow(key, Flow(side, now + 30_000_000_000))))
      case _ => answer == Denied
  {
  }

  /**
   Echo requests ask policy for half a minute; replies pass on a live request from the other side, and on
   nothing else.
   */
  lemma EchoMeans(flows: Flows, p: Packet, side: Side, now: int)
    requires !p.moreFragments && p.fragmentOffset == 0 && p.payload.IcmpPayload? && EchoConsistent(flows)
    ensures
      var answer := Classify(flows, p, side, now);
      var host := if side == FromHost then p.source else p.destination;
      var vm := if side == FromHost then p.destination else p.source;
      match p.payload.message
      case EchoRequest(ident) =>
        answer == Candidate(PendingFlow(EchoKey(host, vm, ident, side), Flow(side, now + 30_000_000_000)))
      case EchoReply(ident) =>
        var key := EchoKey(host, vm, ident, if side == FromHost then FromVm else FromHost);
        answer == if key in flows && now < flows[key].expires then Allowed else Untracked
      case Damaged => answer == Denied
      case OtherMessage => answer == Untracked
  {
  }

  /** Fragments and other protocols are never tracked. */
  lemma UntrackedPackets(flows: Flows, p: Packet, side: Side, now: int)
    requires p.moreFragments || p.fragmentOffset != 0 || p.payload.OtherPayload?
    ensures Classify(flows, p, side, now) == Untracked
  {
  }

  /** `reply` carries exactly the mirrored tuple of `p`; TCP flags are free. */
  predicate IsReply(reply: Packet, p: Packet) {
    && reply.source == p.destination && reply.destination == p.source
    && match (reply.payload, p.payload)
       case (TcpPayload(Complete(rs, rd, _)), TcpPayload(Complete(s, d, _))) => rs == d && rd == s
       case (UdpPayload(Complete(rs, rd, _)), UdpPayload(Complete(s, d, _))) => rs == d && rd == s
       case (IcmpPayload(EchoReply(r)), IcmpPayload(EchoRequest(i))) => r == i
       case _ => false
  }

  /** A reply from the other side falls on the entry of what it answers. */
  lemma ReplyHasSameKey(reply: Packet, p: Packet, side: Side)
    requires IsReply(reply, p) && !reply.IsFragment() && KeyOf(p, side).Some?
    ensures KeyOf(reply, side.Opposite()) == KeyOf(p, side)
  {
  }

  /** And only exact replies do: a packet stored by `side` and answered from the other side mirrors it. */
  lemma SameKeyIsReply(reply: Packet, p: Packet, side: Side)
    requires KeyOf(p, side).Some? && KeyOf(reply, side.Opposite()) == KeyOf(p, side)
    requires p.payload.IcmpPayload? ==> p.payload.message.EchoRequest?
    ensures IsReply(reply, p)
  {
  }

  // ---------------------------------------------------------------------------
  // Runs of one table

  /** One inspection at time `now`; `admit` is what policy decides about a candidate. */
  datatype Step = Step(packet: Packet, side: Side, now: int, admit: bool)

  datatype Outcome = Outcome(answer: FlowMatch, stored: bool)

  function RealStep(t: Table, s: Step): (Table, Outcome) {
    var swept := Sweep(t, s.now);
    var answer := Classify(swept.flows, s.packet, s.side, s.now);
    if answer.Candidate? && s.admit then
      (Store(swept, answer.pending), Outcome(answer, HasRoom(swept.flows, answer.pending.key)))
    else
      (swept, Outcome(answer, false))
  }

  function RealRun(t: Table, steps: seq<Step>): (Table, seq<Outcome>)
    decreases |steps|
  {
    if steps == [] then (t, [])
    else
      var (t1, outcome) := RealStep(t, steps[0]);
      var (t2, outcomes) := RealRun(t1, steps[1..]);
      (t2, [outcome] + outcomes)
  }

  /** Clock readings never go back, starting from `now`. */
  ghost predicate Ordered(steps: seq<Step>, now: int) {
    && (forall i :: 0 <= i < |steps| ==> now <= steps[i].now)
    && (forall i, j :: 0 <= i < j < |steps| ==> steps[i].now <= steps[j].now)
  }

  function Finish(steps: seq<Step>, now: int): int {
    if steps == [] then now else steps[|steps| - 1].now
  }

  /**
   The ideal table holds exactly the unexpired entries. It answers from them, and it
   may store a candidate only when the unexpired entries leave room for it.
   */
  ghost predicate IdealAllows(flows: Flows, steps: seq<Step>, outcomes: seq<Outcome>)
    decreases |steps|
  {
    |outcomes| == |steps| &&
    (steps != [] ==>
       var live := Live(flows, steps[0].now);
       var answer := Classify(live, steps[0].packet, steps[0].side, steps[0].now);
       && outcomes[0].answer == answer
       && (outcomes[0].stored ==> answer.Candidate? && steps[0].admit && HasRoom(live, answer.pending.key))
       && IdealAllows(
            if outcomes[0].stored then live[answer.pending.key := answer.pending.flow] else live,
            steps[1..], outcomes[1..]))
  }

  // ---------------------------------------------------------------------------
  // The lazy table refines the ideal one

  lemma LiveIdempotent(flows: Flows, now: int, later: int)
    requires now <= later
    ensures Live(Live(flows, now), later) == Live(flows, later)
  {
  }

  lemma SweepKeepsLive(t: Table, now: int)
    ensures Live(Sweep(t, now).flows, now) == Live(t.flows, now)
    ensures Sweep(t, now).flows.Keys <= t.flows.Keys
    ensures forall key :: key in Sweep(t, now).flows ==> Sweep(t, now).flows[key] == t.flows[key]
  {
    LiveIdempotent(t.flows, now, now);
  }

  /** Expired entries never influence an answer. */
  lemma ClassifyIgnoresExpired(flows: Flows, p: Packet, side: Side, now: int)
    requires EchoConsistent(flows)
    ensures Classify(flows, p, side, now) == Classify(Live(flows, now), p, side, now)
  {
    ClassifyMeans(flows, p, side, now);
    ClassifyMeans(Live(flows, now), p, side, now);
  }

  lemma LiveSize(flows: Flows, now: int)
    ensures |Live(flows, now)| <= |flows|
    ensures (exists key :: key in flows && flows[key].expires <= now) ==> |Live(flows, now)| < |flows|
  {
    var live := Live(flows, now);
    assert live.Keys <= flows.Keys;
    SubsetSize(live.Keys, flows.Keys);
    if key :| key in flows && flows[key].expires <= now {
      assert key !in live;
      SubsetSize(live.Keys, flows.Keys - {key});
    }
  }

  lemma {:induction false} SubsetSize<T>(a: set<T>, b: set<T>)
    requires a <= b
    ensures |a| <= |b|
  {
    if a != {} {
      var x :| x in a;
      SubsetSize(a - {x}, b - {x});
    }
  }

  /** Wherever the real table has room, the ideal one has too, even for an expired entry's key. */
  lemma RoomRefines(flows: Flows, key: FlowKey, now: int)
    requires |flows| <= MAX_FLOWS
    requires HasRoom(flows, key)
    ensures HasRoom(Live(flows, now), key)
  {
    LiveSize(flows, now);
  }

  /** The real table turns away what the ideal one could keep exactly when it is full with an expired entry in it. */
  lemma SpuriousRefusal(flows: Flows, key: FlowKey, now: int)
    requires |flows| <= MAX_FLOWS
    ensures (!HasRoom(flows, key) && HasRoom(Live(flows, now), key)) <==>
            (key !in flows && |flows| == MAX_FLOWS && exists k :: k in flows && flows[k].expires <= now)
  {
    LiveSize(flows, now);
    if forall k :: k in flows ==> now < flows[k].expires {
      assert Live(flows, now) == flows;
    }
  }

  /** What every reachable table satisfies at time `now`. */
  ghost predicate Sound(t: Table, now: int) {
    && |t.flows| <= MAX_FLOWS
    && EchoConsistent(t.flows)
    && t.nextSweep <= now + SWEEP_INTERVAL
    && forall key :: key in t.flows ==> t.nextSweep < t.flows[key].expires + SWEEP_INTERVAL
  }

  /** After an inspection nothing that expired a sweep interval ago is left. */
  ghost predicate Fresh(flows: Flows, now: int) {
    forall key :: key in flows ==> now < flows[key].expires + SWEEP_INTERVAL
  }

  lemma SweepSound(t: Table, before: int, now: int)
    requires Sound(t, before) && before <= now
    ensures Sound(Sweep(t, now), now)
    ensures Fresh(Sweep(t, now).flows, now)
    ensures now < Sweep(t, now).nextSweep
  {
    LiveSize(t.flows, now);
  }

  lemma StoreSound(t: Table, pending: PendingFlow, now: int)
    requires Sound(t, now) && Fresh(t.flows, now)
    requires now < pending.flow.expires
    requires pending.key.EchoKey? ==> pending.flow.initiator == pending.key.initiator
    ensures Sound(Store(t, pending), now)
    ensures Fresh(Store(t, pending).flows, now)
  {
  }

  lemma RealStepSound(t: Table, before: int, s: Step)
    requires Sound(t, before) && before <= s.now
    ensures Sound(RealStep(t, s).0, s.now)
    ensures Fresh(RealStep(t, s).0.flows, s.now)
  {
    SweepSound(t, before, s.now);
    var swept := Sweep(t, s.now);
    ClassifyMeans(swept.flows, s.packet, s.side, s.now);
    var answer := Classify(swept.flows, s.packet, s.side, s.now);
    if answer.Candidate? && s.admit {
      StoreSound(swept, answer.pending, s.now);
    }
  }

  lemma StoreLive(flows: Flows, pending: PendingFlow, now: int)
    requires now < pending.flow.expires
    ensures Live(flows[pending.key := pending.flow], now) == Live(flows, now)[pending.key := pending.flow]
  {
  }

  /** One step of the real table is one step the ideal table allows. */
  lemma RealStepRefines(t: Table, before: int, s: Step)
    requires Sound(t, before) && before <= s.now
    ensures
      var (t', outcome) := RealStep(t, s);
      var live := Live(t.flows, s.now);
      var answer := Classify(live, s.packet, s.side, s.now);
      && outcome.answer == answer
      && (outcome.stored ==> answer.Candidate? && s.admit && HasRoom(live, answer.pending.key))
      && Live(t'.flows, s.now) == if outcome.stored then live[answer.pending.key := answer.pending.flow] else live
  {
    var swept := Sweep(t, s.now);
    SweepSound(t, before, s.now);
    SweepKeepsLive(t, s.now);
    ClassifyIgnoresExpired(swept.flows, s.packet, s.side, s.now);
    ClassifyMeans(swept.flows, s.packet, s.side, s.now);
    var answer := Classify(swept.flows, s.packet, s.side, s.now);
    if answer.Candidate? && HasRoom(swept.flows, answer.pending.key) {
      RoomRefines(swept.flows, answer.pending.key, s.now);
      StoreLive(swept.flows, answer.pending, s.now);
    }
  }

  /** Over every run the lazily swept table behaves as the ideal table may, and stays sound. */
  lemma {:induction false} LazySweepRefinesIdeal(t: Table, now: int, steps: seq<Step>)
    requires Sound(t, now) && Ordered(steps, now)
    ensures IdealAllows(t.flows, steps, RealRun(t, steps).1)
    ensures Sound(RealRun(t, steps).0, Finish(steps, now))
    ensures steps != [] ==> Fresh(RealRun(t, steps).0.flows, Finish(steps, now))
    decreases |steps|
  {
    if steps != [] {
      var s := steps[0];
      var (t1, outcome) := RealStep(t, s);
      RealStepRefines(t, now, s);
      RealStepSound(t, now, s);
      assert Ordered(steps[1..], s.now);
      LazySweepRefinesIdeal(t1, s.now, steps[1..]);
      assert Finish(steps, now) == Finish(steps[1..], s.now);
      IdealAllowsOneMore(t, t1, steps, outcome, RealRun(t1, steps[1..]).1);
    }
  }

  lemma {:induction false} IdealAllowsOneMore(t: Table, t1: Table, steps: seq<Step>, outcome: Outcome,
                                              outcomes: seq<Outcome>)
    requires steps != [] && Ordered(steps[1..], steps[0].now)
    requires
      var live := Live(t.flows, steps[0].now);
      var answer := Classify(live, steps[0].packet, steps[0].side, steps[0].now);
      && outcome.answer == answer
      && (outcome.stored ==> answer.Candidate? && steps[0].admit && HasRoom(live, answer.pending.key))
      && Live(t1.flows, steps[0].now) ==
         if outcome.stored then live[answer.pending.key := answer.pending.flow] else live
    requires IdealAllows(t1.flows, steps[1..], outcomes)
    ensures IdealAllows(t.flows, steps, [outcome] + outcomes)
  {
    assert ([outcome] + outcomes)[1..] == outcomes;
    LiveAllowed(t1.flows, steps[0].now, steps[1..], outcomes);
  }

  lemma {:induction false} LiveAllowed(flows: Flows, now: int, steps: seq<Step>, outcomes: seq<Outcome>)
    requires Ordered(steps, now)
    requires IdealAllows(flows, steps, outcomes)
    ensures IdealAllows(Live(flows, now), steps, outcomes)
  {
    if steps != [] {
      LiveIdempotent(flows, now, steps[0].now);
    }
  }

  lemma EmptyTableSound(now: int)
    ensures Sound(EmptyTable(now), now)
  {
  }

  /** Every run of a new table is a run of an ideal table that starts empty. */
  lemma NewTableRefinesIdeal(now: int, steps: seq<Step>)
    requires Ordered(steps, now)
    ensures IdealAllows(map[], steps, RealRun(EmptyTable(now), steps).1)
    ensures
      var flows := RealRun(EmptyTable(now), steps).0.flows;
      && |flows| <= 32_768
      && (steps != [] ==> forall key :: key in flows ==> Finish(steps, now) < flows[key].expires + 1_000_000_000)
  {
    EmptyTableSound(now);
    LazySweepRefinesIdeal(EmptyTable(now), now, steps);
  }
}
