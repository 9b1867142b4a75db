/**
 Packet-filter rules as the command line and the control socket deliver them.
 */
module RuleModel {
  import opened Net

  datatype Direction = In | Out

  datatype Protocol = Tcp | Udp | Icmp

  /** Ports from `start` to `end`, both included. */
  datatype RawPortRange = PortRange(start: Port, end: Port) {
    predicate Contains(port: Port) {
      start <= port <= end
    }

    function Width(): int {
      end - start
    }
  }

  type PortRange = r: RawPortRange | 0 < r.start <= r.end witness PortRange(1, 1)

  datatype Filter = Filter(protocol: Option<Protocol>, ports: Option<PortRange>)

  const NO_FILTER: Filter := Filter(None, None)

  datatype Target = ToPrefix(prefix: Prefix) | ToHost | ToPeers {
    function Normalized(): Target {
      match this
      case ToPrefix(prefix) => ToPrefix(prefix.Truncated())
      case _ => this
    }
  }

  datatype Rule =
    | Stateless(target: Target)
    | Stateful(direction: Direction, target: Target, filter: Filter)
  {
    function Normalized(): Rule {
      match this
      case Stateless(target) => Stateless(target.Normalized())
      case Stateful(direction, target, filter) => Stateful(direction, target.Normalized(), filter)
    }

    /** Ports are meaningful only together with a transport protocol that has them. */
    predicate WellFormed() {
      Stateful? && filter.ports.Some? ==> filter.protocol == Some(Tcp) || filter.protocol == Some(Udp)
    }
  }
}
