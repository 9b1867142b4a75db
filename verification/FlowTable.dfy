/**
 The flow table: a bounded, lazily swept cache of permissions for return traffic.
 */
module FlowTable {
  import opened Net
  import opened Packets

  const SECOND: int := 1_000_000_000
  const MAX_FLOWS: int := 32_768
  const SWEEP_INTERVAL: int := SECOND
  const SYN_TIMEOUT: int := 60 * SECOND
  const TCP_TIMEOUT: int := 5 * 60 * SECOND
  const UDP_TIMEOUT: int := 30 * SECOND
  const ECHO_TIMEOUT: int := 30 * SECOND

  /** Where a packet comes from. */
  datatype Side = FromHost | FromVm {
    function Opposite(): Side {
      match this
      case FromHost => FromVm
      case FromVm => FromHost
    }

    /** Orders a source and a destination as host first, VM second. */
    function HostVmPair<T>(source: T, destination: T): (T, T) {
      match this
      case FromHost => (source, destination)
      case FromVm => (destination, source)
    }
  }

  datatype FlowKey =
    | EchoKey(host: Address, vm: Address, ident: Port, initiator: Side)
    | TcpKey(host: Address, hostPort: Port, vm: Address, vmPort: Port)
    | UdpKey(host: Address, hostPort: Port, vm: Address, vmPort: Port)

  datatype Flow = Flow(initiator: Side, expires: int)

  /** A proposed entry awaiting policy authorization. */
  datatype PendingFlow = PendingFlow(key: FlowKey, flow: Flow)

  datatype FlowMatch = Allowed | Candidate(pending: PendingFlow) | Denied | Untracked

  type Flows = map<FlowKey, Flow>

  // ---------------------------------------------------------------------------
  // Classification

  function MakeTcpKey(side: Side, source: (Address, Port), destination: (Address, Port)): FlowKey {
    var (host, vm) := side.HostVmPair(source, destination);
    TcpKey(host.0, host.1, vm.0, vm.1)
  }

  function MakeUdpKey(side: Side, source: (Address, Port), destination: (Address, Port)): FlowKey {
    var (host, vm) := side.HostVmPair(source, destination);
    UdpKey(host.0, host.1, vm.0, vm.1)
  }

  function MakeEchoKey(source: Address, destination: Address, side: Side, initiator: Side, ident: Port): FlowKey {
    var (host, vm) := side.HostVmPair(source, destination);
    EchoKey(host, vm, ident, initiator)
  }

  function MakeCandidate(key: FlowKey, initiator: Side, now: int, timeout: int): FlowMatch {
    Candidate(PendingFlow(key, Flow(initiator, now + timeout)))
  }

  /** The answer of an unexpired entry, if there is one; swept or not, an expired one is ignored. */
  function MatchExisting(flows: Flows, key: FlowKey, side: Side, now: int, timeout: int): Option<FlowMatch> {
    if key !in flows || flows[key].expires <= now then None
    else if side == flows[key].initiator then Some(MakeCandidate(key, flows[key].initiator, now, timeout))
    else Some(Allowed)
  }

  predicate IsBareSyn(flags: TcpFlags) {
    flags.syn && !flags.ack && !flags.fin && !flags.rst
  }

  function InspectTcp(flows: Flows, packet: Packet, segment: Segment, side: Side, now: int): FlowMatch {
    match segment
    case Complete(source, destination, flags) =>
      if source == 0 || destination == 0 then Denied
      else
        var key := MakeTcpKey(side, (packet.source, source), (packet.destination, destination));
        if IsBareSyn(flags) then MakeCandidate(key, side, now, SYN_TIMEOUT)
        else
          var existing := MatchExisting(flows, key, side, now, TCP_TIMEOUT);
          if existing.Some? then existing.value else Untracked
    case _ => Denied
  }

  function InspectUdp(flows: Flows, packet: Packet, segment: Segment, side: Side, now: int): FlowMatch {
    match segment
    case Complete(source, destination, _) =>
      if source == 0 || destination == 0 then Denied
      else
        var key := MakeUdpKey(side, (packet.source, source), (packet.destination, destination));
        var existing := MatchExisting(flows, key, side, now, UDP_TIMEOUT);
        if existing.Some? then existing.value else MakeCandidate(key, side, now, UDP_TIMEOUT)
    case _ => Denied
  }

  function InspectEcho(flows: Flows, packet: Packet, side: Side, ident: Port, isRequest: bool, now: int): FlowMatch {
    var initiator := if isRequest then side else side.Opposite();
    var key := MakeEchoKey(packet.source, packet.destination, side, initiator, ident);
    var existing := MatchExisting(flows, key, side, now, ECHO_TIMEOUT);
    if existing.Some? then existing.value
    else if isRequest then MakeCandidate(key, initiator, now, ECHO_TIMEOUT)
    else Untracked
  }

  function InspectIcmp(flows: Flows, packet: Packet, message: IcmpMessage, side: Side, now: int): FlowMatch {
    match message
    case Damaged => Denied
    case EchoRequest(ident) => InspectEcho(flows, packet, side, ident, true, now)
    case EchoReply(ident) => InspectEcho(flows, packet, side, ident, false, now)
    case OtherMessage => Untracked
  }

  function Classify(flows: Flows, packet: Packet, side: Side, now: int): FlowMatch {
    if packet.IsFragment() then Untracked
    else
      match packet.payload
      case IcmpPayload(message) => InspectIcmp(flows, packet, message, side, now)
      case TcpPayload(segment) => InspectTcp(flows, packet, segment, side, now)
      case UdpPayload(segment) => InspectUdp(flows, packet, segment, side, now)
      case OtherPayload => Untracked
  }

  // ---------------------------------------------------------------------------
  // The table as a value

  datatype Table = Table(flows: Flows, nextSweep: int)

  function Live(flows: Flows, now: int): Flows {
    map key | key in flows && now < flows[key].expires :: flows[key]
  }

  function Sweep(t: Table, now: int): Table {
    if now < t.nextSweep then t else Table(Live(t.flows, now), now + SWEEP_INTERVAL)
  }

  predicate HasRoom(flows: Flows, key: FlowKey) {
    key in flows || |flows| < MAX_FLOWS
  }

  function Store(t: Table, pending: PendingFlow): Table {
    if HasRoom(t.flows, pending.key) then t.(flows := t.flows[pending.key := pending.flow]) else t
  }

  function EmptyTable(now: int): Table {
    Table(map[], now + SWEEP_INTERVAL)
  }

  // ---------------------------------------------------------------------------
  // The table as it runs

  class FlowTable {
    var flows: Flows
    var nextSweep: int

    ghost function View(): Table
      reads this
    {
      Table(flows, nextSweep)
    }

    constructor (now: int)
      ensures View() == EmptyTable(now)
    {
      flows := map[];
      nextSweep := now + SWEEP_INTERVAL;
    }

    method SweepIfDue(now: int)
      modifies this
      ensures View() == Sweep(old(View()), now)
    {
      if now < nextSweep {
        return;
      }
      flows := map key | key in flows && now < flows[key].expires :: flows[key];
      nextSweep := now + SWEEP_INTERVAL;
    }

    method InspectAt(packet: Packet, side: Side, now: int) returns (result: FlowMatch)
      modifies this
      ensures View() == Sweep(old(View()), now)
      ensures result == Classify(View().flows, packet, side, now)
    {
      SweepIfDue(now);
      result := Classify(flows, packet, side, now);
    }

    method Commit(pending: PendingFlow) returns (stored: bool)
      modifies this
      ensures stored == HasRoom(old(View()).flows, pending.key)
      ensures View() == Store(old(View()), pending)
    {
      if pending.key !in flows && |flows| >= MAX_FLOWS {
        return false;
      }
      flows := flows[pending.key := pending.flow];
      return true;
    }
  }
}
