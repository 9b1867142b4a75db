/**
 Decisions about a packet in terms of its own header fields and of the rules of the policy.
 */
module ProxyFields {
  import opened Net
  import opened RuleModel
  import opened PolicyCompiler
  import opened PolicyRules
  import opened Packets
  import opened ProxyMachine

  /** The remote end of a packet in one direction, its protocol, and the destination port if it shows one. */
  function Asked(p: Packet, direction: Direction): Query {
    var shown := !p.moreFragments && p.fragmentOffset == 0;
    Query(
      if direction == In then p.source else p.destination,
      match p.payload
      case TcpPayload(_) => Some(Tcp)
      case UdpPayload(_) => Some(Udp)
      case IcmpPayload(_) => Some(Icmp)
      case OtherPayload => None,
      match p.payload
      case TcpPayload(Complete(_, destination, _)) => if shown then Some(destination) else None
      case UdpPayload(Complete(_, destination, _)) => if shown then Some(destination) else None
      case _ => None)
  }

  lemma QueryIsAsked(p: Packet, direction: Direction)
    ensures PolicyQuery(p, direction) == Asked(p, direction)
  {
  }

  /** The mirror image of a packet swaps its two ends and keeps everything else. */
  lemma MirrorMeans(p: Packet)
    ensures
      var m := p.Mirrored();
      && m.source == p.destination && m.destination == p.source
      && m.moreFragments == p.moreFragments && m.fragmentOffset == p.fragmentOffset
      && match (p.payload, m.payload)
         case (TcpPayload(Complete(s, d, f)), TcpPayload(Complete(ms, md, mf))) => ms == d && md == s && mf == f
         case (UdpPayload(Complete(s, d, f)), UdpPayload(Complete(ms, md, mf))) => ms == d && md == s && mf == f
         case (TcpPayload(Broken(s, d)), TcpPayload(Broken(ms, md))) => ms == d && md == s
         case (UdpPayload(Broken(s, d)), UdpPayload(Broken(ms, md))) => ms == d && md == s
         case (TcpPayload(_), _) => p.payload == m.payload && p.payload.segment.Short?
         case (UdpPayload(_), _) => p.payload == m.payload && p.payload.segment.Short?
         case _ => m.payload == p.payload
  {
  }

  /** What the rules in force select, rule by rule; the host is the gateway. */
  lemma SelectedByRules(c: Config, s: State, direction: Direction, q: Query)
    ensures Selected(c, s, direction, q) == Selection(s.allow, s.block, Site(c.gateway, c.peers), direction, q)
  {
    FlatIsSelection(s.allow, s.block, Site(c.gateway, c.peers), direction, q);
  }

  /**
   A packet is decided by its own fields: blocked by an unbeaten block rule, else allowed by an allow rule,
   else not at all.
   */
  lemma DecidedByFields(c: Config, s: State, p: Packet, direction: Direction)
    ensures
      var stateful, site := IsDirectional(s.allow, s.block), Site(c.gateway, c.peers);
      PolicyDecision(c, s, p, direction) ==
      if Blocks(s.allow, s.block, direction, stateful, site, Asked(p, direction)) then Some(Blocked)
      else if SomeConcerns(s.allow, Allow, direction, stateful, site, Asked(p, direction)) then
        Some(if stateful then AllowStateful else AllowStateless)
      else None
  {
    QueryIsAsked(p, direction);
    SelectedByRules(c, s, direction, Asked(p, direction));
  }

  /** UDP from port 67 to port 68, whole or a first fragment, damaged or not, never reaches the VM. */
  lemma DhcpReplies(c: Config, s: State, p: Packet, now: int)
    requires p.fragmentOffset == 0 && p.payload.UdpPayload? && !p.payload.segment.Short?
    requires p.payload.segment.source == 67 && p.payload.segment.destination == 68
    ensures HostStep(c, s, p, now) == (s, Dropped)
  {
  }

  lemma DhcpReplyMeans(p: Packet)
    ensures IsDhcpReply(p) <==>
            && p.fragmentOffset == 0 && p.payload.UdpPayload? && !p.payload.segment.Short?
            && p.payload.segment.source == 67 && p.payload.segment.destination == 68
  {
  }

  /** UDP to port 67 is taken by the DHCP server, whatever its source address. */
  lemma DhcpRequestMeans(p: Packet)
    ensures IsDhcpRequest(p) <==>
            && p.fragmentOffset == 0 && p.payload.UdpPayload? && !p.payload.segment.Short?
            && p.payload.segment.destination == 67
  {
  }

  /** Only whole UDP packets to port 53 of the gateway are ever shown to the DNS server. */
  lemma DnsMeans(c: Config, p: Packet)
    ensures MayBeDns(c, p) <==>
            && p.destination == c.gateway && !p.moreFragments && p.fragmentOffset == 0
            && p.payload.UdpPayload? && p.payload.segment.Complete? && p.payload.segment.destination == 53
  {
  }
}
