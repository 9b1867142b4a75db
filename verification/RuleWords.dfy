/**
 Rules in words: what a rule prints as, spelled out, and what a text without a target means.
 */
module RuleWords {
  import opened Net
  import opened RuleModel
  import opened RuleSyntax
  import opened RuleText

  function TargetWords(target: Target): string {
    match target
    case ToHost => "@host"
    case ToPeers => "@peers"
    case ToPrefix(Prefix(a, len)) =>
      Decimal(a / 0x100_0000) + ("." + (Decimal(a / 0x1_0000 % 0x100) + ("." + (
      Decimal(a / 0x100 % 0x100) + ("." + (Decimal(a % 0x100) + ("/" + Decimal(len))))))))
  }

  function ProtocolWords(protocol: Option<Protocol>): string {
    match protocol
    case None => ""
    case Some(Tcp) => "proto tcp "
    case Some(Udp) => "proto udp "
    case Some(Icmp) => "proto icmp "
  }

  function PortWords(ports: Option<PortRange>): string {
    match ports
    case None => ""
    case Some(r) =>
      " port " + if r.start == r.end then Decimal(r.start) else Decimal(r.start) + (":" + Decimal(r.end))
  }

  /** A rule in words: direction, protocol, target and ports, a single space between them. */
  function Words(rule: Rule): string {
    match rule
    case Stateless(target) => TargetWords(target)
    case Stateful(direction, target, filter) =>
      (if direction == In then "in" else "out") +
      (" " + (ProtocolWords(filter.protocol) + (TargetWords(target) + PortWords(filter.ports))))
  }

  lemma PrefixWords(p: Prefix)
    ensures PrefixText(p) == TargetWords(ToPrefix(p))
  {
    OctetsOf(p.address);
  }

  lemma OctetsOf(a: Address)
    ensures a / 0x1_0000 / 0x100 == a / 0x100_0000
    ensures a % 0x1_0000 / 0x100 == a / 0x100 % 0x100
    ensures a % 0x1_0000 % 0x100 == a % 0x100
  {
  }

  lemma ProtocolWordsMean(filter: Filter)
    ensures DisplayProtocol(filter) == ProtocolWords(filter.protocol)
  {
  }

  /** Printing writes the rule in those words. */
  lemma DisplayIsWords(rule: Rule)
    ensures Display(rule) == Words(rule)
  {
    if rule.target.ToPrefix? {
      PrefixWords(rule.target.prefix);
    }
    if rule.Stateful? {
      ProtocolWordsMean(rule.filter);
    }
  }

  /** And the parser reads them back, exactly for the rules whose ports have a protocol. */
  lemma WordsAreRead(rule: Rule)
    ensures Parse(Words(rule)) == if rule.WellFormed() then Some(rule) else None
  {
    DisplayIsWords(rule);
    RoundTrip(rule);
  }

  /** A directed rule without a target is about every address. */
  lemma OmittedTarget(syntax: Syntax)
    requires syntax.Valid() && syntax.Directed? && syntax.target.None? && Parse(syntax.Text()).Some?
    ensures
      var rule := Parse(syntax.Text()).value;
      && rule.Stateful? && rule.direction == syntax.direction && rule.target == ToPrefix(Prefix(0, 0))
      && forall a: Address :: rule.target.prefix.Covers(a)
  {
    ParserIsComplete(syntax);
    forall a: Address ensures Prefix(0, 0).Covers(a) {
      WholeSpaceCovers(Prefix(0, 0), a);
    }
  }

  /** Words without a target: a direction, TCP or UDP, and ports. */
  function WordsAnywhere(direction: Direction, protocol: Protocol, ports: PortRange): string {
    (if direction == In then "in" else "out") +
    ((if protocol == Tcp then " proto tcp" else " proto udp") + PortWords(Some(ports)))
  }

  /** The derivation of such a text. */
  function AnywhereSyntax(direction: Direction, protocol: Protocol, ports: PortRange): Syntax {
    Directed(direction, Some(ProtocolField(1, 1, protocol)), None, Some(PortField(1, 1, RangeText(ports))))
  }

  lemma OneSpace()
    ensures Spaces(1) == " "
  {
  }

  lemma ProtocolWord(protocol: Protocol)
    requires protocol == Tcp || protocol == Udp
    ensures ProtocolFieldText(Some(ProtocolField(1, 1, protocol))) ==
            if protocol == Tcp then " proto tcp" else " proto udp"
  {
    OneSpace();
    assert " " + ("proto" + (" " + "tcp")) == " proto tcp";
    assert " " + ("proto" + (" " + "udp")) == " proto udp";
  }

  lemma PortWord(ports: PortRange)
    ensures PortFieldText(Some(PortField(1, 1, RangeText(ports)))) == PortWords(Some(ports))
  {
    OneSpace();
    var text := RangeText(ports);
    assert " " + ("port" + (" " + text)) == " port " + text;
  }

  lemma AnywhereText(direction: Direction, protocol: Protocol, ports: PortRange)
    requires protocol == Tcp || protocol == Udp
    ensures AnywhereSyntax(direction, protocol, ports).Text() == WordsAnywhere(direction, protocol, ports)
  {
    ProtocolWord(protocol);
    PortWord(ports);
    assert "" + PortWords(Some(ports)) == PortWords(Some(ports));
  }

  lemma AnywhereMeans(direction: Direction, protocol: Protocol, ports: PortRange)
    ensures AnywhereSyntax(direction, protocol, ports).Valid()
    ensures Meaning(AnywhereSyntax(direction, protocol, ports)) ==
            Some(Stateful(direction, ToPrefix(Prefix(0, 0)), Filter(Some(protocol), Some(ports))))
  {
    RangeRoundTrip(ports);
  }

  lemma ReadAs(text: string, syntax: Syntax, rule: Rule)
    requires syntax.Valid() && syntax.Text() == text && Meaning(syntax) == Some(rule) && rule.WellFormed()
    ensures Parse(text) == Some(rule)
  {
    ParserIsComplete(syntax);
  }

  /** A rule for a service that names no target, as in "out proto tcp port 443", is about 0.0.0.0/0. */
  lemma AnywhereIsRead(direction: Direction, protocol: Protocol, ports: PortRange)
    requires protocol == Tcp || protocol == Udp
    ensures Parse(WordsAnywhere(direction, protocol, ports)) ==
            Some(Stateful(direction, ToPrefix(Prefix(0, 0)), Filter(Some(protocol), Some(ports))))
  {
    AnywhereText(direction, protocol, ports);
    AnywhereMeans(direction, protocol, ports);
    ReadAs(WordsAnywhere(direction, protocol, ports), AnywhereSyntax(direction, protocol, ports),
           Stateful(direction, ToPrefix(Prefix(0, 0)), Filter(Some(protocol), Some(ports))));
  }
}
