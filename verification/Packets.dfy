/**
 IPv4 packets as the filter sees them: addresses, fragmentation, and the transport
 header, which may be missing, damaged or complete.
 */
module Packets {
  import opened Net
  import opened RuleModel

  datatype TcpFlags = TcpFlags(syn: bool, ack: bool, fin: bool, rst: bool)

  /** A TCP or UDP payload. Only a complete header has passed the length checks. */
  datatype Segment =
    | Short
    | Broken(source: Port, destination: Port)
    | Complete(source: Port, destination: Port, flags: TcpFlags)
  {
    function Mirrored(): Segment {
      match this
      case Short => Short
      case Broken(source, destination) => Broken(destination, source)
      case Complete(source, destination, flags) => Complete(destination, source, flags)
    }
  }

  /** An ICMP payload; damaged means truncated or with a wrong checksum. */
  datatype IcmpMessage = Damaged | EchoRequest(ident: Port) | EchoReply(ident: Port) | OtherMessage

  datatype Payload =
    | TcpPayload(segment: Segment)
    | UdpPayload(segment: Segment)
    | IcmpPayload(message: IcmpMessage)
    | OtherPayload

  datatype Packet = Packet(source: Address, destination: Address, moreFragments: bool, fragmentOffset: nat,
                           payload: Payload) {
    predicate IsFragment() {
      moreFragments || fragmentOffset != 0
    }

    function Protocol(): Option<Protocol> {
      match payload
      case TcpPayload(_) => Some(Tcp)
      case UdpPayload(_) => Some(Udp)
      case IcmpPayload(_) => Some(Icmp)
      case OtherPayload => None
    }

    /** Source and destination port of an unfragmented packet with a complete header. */
    function Ports(): Option<(Port, Port)> {
      if IsFragment() then None
      else
        match payload
        case TcpPayload(Complete(source, destination, _)) => Some((source, destination))
        case UdpPayload(Complete(source, destination, _)) => Some((source, destination))
        case _ => None
    }

    /** The ports at the start of an unfragmented or first-fragment UDP payload, checked or not. */
    function LeadingUdpPorts(): Option<(Port, Port)> {
      if fragmentOffset != 0 then None
      else
        match payload
        case UdpPayload(Broken(source, destination)) => Some((source, destination))
        case UdpPayload(Complete(source, destination, _)) => Some((source, destination))
        case _ => None
    }

    /** The packet with addresses and ports exchanged. */
    function Mirrored(): Packet {
      Packet(
        destination, source, moreFragments, fragmentOffset,
        match payload
        case TcpPayload(segment) => TcpPayload(segment.Mirrored())
        case UdpPayload(segment) => UdpPayload(segment.Mirrored())
        case _ => payload)
    }
  }
}
