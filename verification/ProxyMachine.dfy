/**
 One VM's packet filter as a state machine over its rule lists and its flow table.
 Decisions are taken by the flat meaning of the rules in force.
 */
module ProxyMachine {
  import opened Net
  import opened RuleModel
  import opened RuleOrder
  import opened PolicyCompiler
  import opened Packets
  import opened FlowTable

  const DHCP_SERVER_PORT: Port := 67
  const DHCP_CLIENT_PORT: Port := 68
  const DNS_PORT: Port := 53

  /** What stays fixed: the VM, its gateway, the other VMs, and the global address space. */
  datatype Config = Config(vm: Address, gateway: Address, peers: seq<Address>, isGlobal: Address -> bool) {
    function Site(): Site {
      PolicyCompiler.Site(gateway, peers)
    }
  }

  datatype State = State(allow: seq<Rule>, block: seq<Rule>, flows: Option<Table>)

  datatype Decision = Blocked | AllowStateless | AllowStateful

  /** How a packet fared; `Returned` and `Admitted` packets are forwarded. */
  datatype Verdict = Dropped | Returned | Admitted(tracked: Option<PendingFlow>)

  // ---------------------------------------------------------------------------
  // Policy

  function PolicyQuery(p: Packet, direction: Direction): Query {
    Query(
      if direction == In then p.source else p.destination,
      p.Protocol(),
      if p.Ports().Some? then Some(p.Ports().value.1) else None)
  }

  /** What the mirrored packet would ask. */
  function ReturnQuery(p: Packet, direction: Direction): Query {
    Query(
      if direction == In then p.destination else p.source,
      p.Protocol(),
      if p.Ports().Some? then Some(p.Ports().value.0) else None)
  }

  /** The flat meaning of the rules in force. */
  ghost function Selected(c: Config, s: State, direction: Direction, q: Query): Option<Action> {
    FlatSelect(PolicyEntries(s.allow, s.block, direction, IsStateful(s.allow, s.block), c.Site()), q)
  }

  function ToDecision(action: Option<Action>, stateful: bool): Option<Decision> {
    match action
    case None => None
    case Some(Block) => Some(Blocked)
    case Some(Allow) => Some(if stateful then AllowStateful else AllowStateless)
  }

  ghost function PolicyDecision(c: Config, s: State, p: Packet, direction: Direction): Option<Decision> {
    ToDecision(Selected(c, s, direction, PolicyQuery(p, direction)), IsStateful(s.allow, s.block))
  }

  ghost predicate ReturnIsStateful(c: Config, s: State, p: Packet, direction: Direction) {
    IsStateful(s.allow, s.block) && Selected(c, s, direction, ReturnQuery(p, direction)).Some?
  }

  // ---------------------------------------------------------------------------
  // Admission

  ghost function AdmitTracked(s: State, pending: PendingFlow): (State, Verdict) {
    if s.flows.None? || !HasRoom(s.flows.value.flows, pending.key) then (s, Dropped)
    else (s.(flows := Some(Store(s.flows.value, pending))), Admitted(Some(pending)))
  }

  ghost function AdmitIfTrackable(s: State, pending: Option<PendingFlow>): (State, Verdict) {
    if pending.Some? then AdmitTracked(s, pending.value) else (s, Admitted(None))
  }

  ghost function AdmitIfStateful(c: Config, s: State, pending: Option<PendingFlow>, p: Packet,
                                 back: Direction): (State, Verdict) {
    if ReturnIsStateful(c, s, p, back) then AdmitIfTrackable(s, pending) else (s, Admitted(None))
  }

  ghost function AdmitOnlyTracked(s: State, pending: Option<PendingFlow>): (State, Verdict) {
    if pending.None? then (s, Dropped) else AdmitTracked(s, pending.value)
  }

  predicate IsDhcpReply(p: Packet) {
    p.LeadingUdpPorts() == Some((DHCP_SERVER_PORT, DHCP_CLIENT_PORT))
  }

  predicate IsDhcpRequest(p: Packet) {
    p.LeadingUdpPorts().Some? && p.LeadingUdpPorts().value.1 == DHCP_SERVER_PORT
  }

  /** Packets the DNS server looks at; whether it answers one is up to the zone. */
  predicate MayBeDns(c: Config, p: Packet) {
    p.destination == c.gateway && p.payload.UdpPayload? && p.Ports().Some? && p.Ports().value.1 == DNS_PORT
  }

  ghost function InboundPolicy(c: Config, s: State, p: Packet, pending: Option<PendingFlow>): (State, Verdict) {
    match PolicyDecision(c, s, p, In)
    case Some(Blocked) => (s, Dropped)
    case Some(AllowStateless) => (s, Dropped)
    case Some(AllowStateful) => AdmitOnlyTracked(s, pending)
    case None => AdmitIfStateful(c, s, pending, p, Out)
  }

  ghost function OutboundPolicy(c: Config, s: State, p: Packet, pending: Option<PendingFlow>): (State, Verdict) {
    match PolicyDecision(c, s, p, Out)
    case Some(Blocked) => (s, Dropped)
    case Some(AllowStateless) => AdmitIfStateful(c, s, pending, p, In)
    case Some(AllowStateful) => AdmitOnlyTracked(s, pending)
    case None =>
      if c.isGlobal(p.destination) || p.destination == c.gateway then AdmitIfTrackable(s, pending)
      else (s, Dropped)
  }

  /** Sweeps and asks the flow table; without one every packet is new. */
  ghost function Consult(s: State, p: Packet, side: Side, now: int): (State, FlowMatch) {
    if s.flows.None? then (s, Untracked)
    else
      var swept := Sweep(s.flows.value, now);
      (s.(flows := Some(swept)), Classify(swept.flows, p, side, now))
  }

  ghost function Continue(c: Config, s: State, p: Packet, side: Side, found: FlowMatch): (State, Verdict) {
    match found
    case Allowed => (s, Returned)
    case Denied => (s, Dropped)
    case Candidate(pending) =>
      if side == FromHost then InboundPolicy(c, s, p, Some(pending)) else OutboundPolicy(c, s, p, Some(pending))
    case Untracked =>
      if side == FromHost then InboundPolicy(c, s, p, None) else OutboundPolicy(c, s, p, None)
  }

  ghost function HostStep(c: Config, s: State, p: Packet, now: int): (State, Verdict) {
    if IsDhcpReply(p) then (s, Dropped)
    else if s.flows.None? then (s, Admitted(None))
    else if p.destination == c.vm then
      var (s', found) := Consult(s, p, FromHost, now);
      Continue(c, s', p, FromHost, found)
    else InboundPolicy(c, s, p, None)
  }

  ghost function VmStep(c: Config, s: State, p: Packet, now: int, dnsAnswers: bool): (State, Verdict) {
    if IsDhcpRequest(p) || p.source != c.vm || (dnsAnswers && MayBeDns(c, p)) then (s, Dropped)
    else
      var (s', found) := Consult(s, p, FromVm, now);
      Continue(c, s', p, FromVm, found)
  }

  /** A new policy starts with an empty flow table; repeating the policy in force changes nothing. */
  function PolicySet(s: State, allow: seq<Rule>, block: seq<Rule>, now: int): State {
    if NormalForm(allow) == s.allow && NormalForm(block) == s.block then s
    else Start(allow, block, now)
  }

  function Start(allow: seq<Rule>, block: seq<Rule>, now: int): State {
    var a, b := NormalForm(allow), NormalForm(block);
    State(a, b, if IsStateful(a, b) then Some(EmptyTable(now)) else None)
  }
}
