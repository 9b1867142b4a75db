/**
 Reading and printing rules. Printing and parsing undo each other, and no two rules
 print alike.
 */
module RuleText {
  import opened Net
  import opened RuleModel
  import opened RuleSyntax

  // ---------------------------------------------------------------------------
  // Decimal numbers

  function DigitChar(d: nat): (c: char)
    requires d < 10
    ensures IsDigit(c)
    ensures DigitValue(c) == d
  {
    (48 + d) as char
  }

  function DigitValue(c: char): (d: nat)
    requires IsDigit(c)
    ensures d < 10
  {
    c as int - 48
  }

  function Decimal(n: nat): (s: string)
    ensures IsDigits(s)
  {
    if n < 10 then [DigitChar(n)] else Decimal(n / 10) + [DigitChar(n % 10)]
  }

  function Value(s: string): nat
    requires All(s, IsDigit)
  {
    if s == "" then 0 else 10 * Value(s[..|s| - 1]) + DigitValue(s[|s| - 1])
  }

  lemma {:induction false} ValueOfDecimal(n: nat)
    ensures Value(Decimal(n)) == n
  {
    if n >= 10 {
      ValueOfDecimal(n / 10);
      var s := Decimal(n);
      assert s[..|s| - 1] == Decimal(n / 10);
      assert s[|s| - 1] == DigitChar(n % 10);
    } else {
      assert Decimal(n)[..0] == "";
    }
  }

  lemma DecimalLength(n: nat)
    ensures n < 100 ==> |Decimal(n)| <= 2
    ensures n < 1000 ==> |Decimal(n)| <= 3
  {
  }

  /** At most `maxDigits` digits that spell a number below `limit`. */
  function ReadNumber(s: string, maxDigits: nat, limit: nat): (r: Option<(nat, string)>)
    ensures r.Some? ==> r.value.0 < limit
  {
    var n := Span(s, IsDigit);
    if n == 0 || n > maxDigits || Value(s[..n]) >= limit then None else Some((Value(s[..n]), s[n..]))
  }

  lemma ReadNumberComplete(n: nat, rest: string, maxDigits: nat, limit: nat)
    requires n < limit && |Decimal(n)| <= maxDigits && StopsAt(rest, IsDigit)
    ensures ReadNumber(Decimal(n) + rest, maxDigits, limit) == Some((n, rest))
  {
    SpanOfRun(Decimal(n), rest, IsDigit);
    ValueOfDecimal(n);
    assert (Decimal(n) + rest)[..|Decimal(n)|] == Decimal(n);
  }

  // ---------------------------------------------------------------------------
  // Prefixes

  function ReadOctet(s: string, separator: string): (r: Option<(nat, string)>)
    ensures r.Some? ==> r.value.0 < 256
  {
    match ReadNumber(s, 3, 256)
    case None => None
    case Some((n, s1)) =>
      match Token(s1, separator)
      case None => None
      case Some(s2) => Some((n, s2))
  }

  lemma ReadOctetComplete(n: nat, separator: string, rest: string)
    requires n < 256 && separator != "" && !IsDigit(separator[0])
    ensures ReadOctet(Decimal(n) + (separator + rest), separator) == Some((n, rest))
  {
    DecimalLength(n);
    assert (separator + rest)[0] == separator[0];
    ReadNumberComplete(n, separator + rest, 3, 256);
    TokenComplete(separator, rest);
  }

  function JoinOctets(high: nat, low: nat): Port
    requires high < 256 && low < 256
  {
    0x100 * high + low
  }

  /** Two dotted octets and a separator. */
  function ReadPair(s: string, separator: string): Option<(Port, string)> {
    match ReadOctet(s, ".")
    case None => None
    case Some((a, s1)) =>
      match ReadOctet(s1, separator)
      case None => None
      case Some((b, s2)) => Some((JoinOctets(a, b), s2))
  }

  function PairText(n: Port, separator: string, rest: string): string {
    Decimal(n / 0x100) + ("." + (Decimal(n % 0x100) + (separator + rest)))
  }

  lemma ReadPairComplete(n: Port, separator: string, rest: string)
    requires separator != "" && !IsDigit(separator[0])
    ensures ReadPair(PairText(n, separator, rest), separator) == Some((n, rest))
  {
    ReadOctetComplete(n / 0x100, ".", Decimal(n % 0x100) + (separator + rest));
    ReadOctetComplete(n % 0x100, separator, rest);
  }

  function ReadLen(s: string): Option<PrefixLen> {
    match ReadNumber(s, 2, 33)
    case None => None
    case Some((len, rest)) => if rest == "" then Some(len) else None
  }

  lemma ReadLenComplete(len: PrefixLen)
    ensures ReadLen(Decimal(len)) == Some(len)
  {
    DecimalLength(len);
    ReadNumberComplete(len, "", 2, 33);
    assert Decimal(len) + "" == Decimal(len);
  }

  function JoinAddress(high: Port, low: Port): Address {
    0x1_0000 * high + low
  }

  /** Four octets and a prefix length in dotted-quad notation. */
  function PrefixValue(s: string): Option<Prefix> {
    match ReadPair(s, ".")
    case None => None
    case Some((high, s1)) =>
      match ReadPair(s1, "/")
      case None => None
      case Some((low, s2)) =>
        match ReadLen(s2)
        case None => None
        case Some(len) => Some(Prefix(JoinAddress(high, low), len))
  }

  function HighHalf(a: Address): Port {
    a / 0x1_0000
  }

  function LowHalf(a: Address): Port {
    a % 0x1_0000
  }

  lemma HalvesJoin(a: Address)
    ensures JoinAddress(HighHalf(a), LowHalf(a)) == a
  {
  }

  function PrefixText(p: Prefix): string {
    PairText(HighHalf(p.address), ".", PairText(LowHalf(p.address), "/", Decimal(p.len)))
  }

  lemma PrefixRoundTrip(p: Prefix)
    ensures PrefixValue(PrefixText(p)) == Some(p)
  {
    ReadPairComplete(HighHalf(p.address), ".", PairText(LowHalf(p.address), "/", Decimal(p.len)));
    ReadPairComplete(LowHalf(p.address), "/", Decimal(p.len));
    ReadLenComplete(p.len);
    HalvesJoin(p.address);
  }

  lemma PairTextIsTarget(n: Port, separator: char, rest: string)
    requires All(rest, IsTargetChar) && IsTargetChar(separator)
    ensures All(PairText(n, [separator], rest), IsTargetChar)
    ensures PairText(n, [separator], rest) != ""
  {
    TargetRun(Decimal(n % 0x100), separator, rest);
    TargetRun(Decimal(n / 0x100), '.', Decimal(n % 0x100) + ([separator] + rest));
  }

  lemma PrefixTextIsTarget(p: Prefix)
    ensures IsTargetText(PrefixText(p))
    ensures PrefixText(p)[0] != '@'
  {
    PairTextIsTarget(LowHalf(p.address), '/', Decimal(p.len));
    PairTextIsTarget(HighHalf(p.address), '.', PairText(LowHalf(p.address), "/", Decimal(p.len)));
  }

  lemma TargetRun(digits: string, separator: char, rest: string)
    requires IsDigits(digits) && All(rest, IsTargetChar) && IsTargetChar(separator)
    ensures All(digits + ([separator] + rest), IsTargetChar)
  {
  }

  function TargetValue(s: string): Option<Target> {
    if s == "@host" then Some(ToHost)
    else if s == "@peers" then Some(ToPeers)
    else
      match PrefixValue(s)
      case None => None
      case Some(p) => Some(ToPrefix(p))
  }

  function TargetText(t: Target): string {
    match t
    case ToPrefix(prefix) => PrefixText(prefix)
    case ToHost => "@host"
    case ToPeers => "@peers"
  }

  lemma TargetRoundTrip(t: Target)
    ensures IsTargetText(TargetText(t))
    ensures TargetValue(TargetText(t)) == Some(t)
  {
    if t.ToPrefix? {
      PrefixTextIsTarget(t.prefix);
      PrefixRoundTrip(t.prefix);
    }
  }

  // ---------------------------------------------------------------------------
  // Port ranges

  function PortValue(s: string): Option<Port> {
    if IsDigits(s) && Value(s) < 0x1_0000 then Some(Value(s)) else None
  }

  function MakeRange(start: Port, end: Port): Option<PortRange> {
    if start != 0 && end != 0 && start <= end then Some(PortRange(start, end)) else None
  }

  /** The index of the first colon, or the length without one. */
  function ColonIndex(s: string): (k: nat)
    ensures k <= |s|
  {
    Span(s, c => c != ':')
  }

  function RangeValue(s: string): Option<PortRange> {
    var k := ColonIndex(s);
    var first := s[..k];
    var second := if k < |s| then s[k + 1..] else s;
    match (PortValue(first), PortValue(second))
    case (Some(start), Some(end)) => MakeRange(start, end)
    case _ => None
  }

  function RangeText(r: PortRange): string {
    if r.start == r.end then Decimal(r.start) else Decimal(r.start) + (":" + Decimal(r.end))
  }

  lemma DigitsAreNotColons(s: string)
    requires All(s, IsDigit)
    ensures All(s, c => c != ':')
  {
  }

  lemma SinglePortRoundTrip(n: Port)
    ensures ColonIndex(Decimal(n)) == |Decimal(n)|
    ensures PortValue(Decimal(n)) == Some(n)
  {
    var s := Decimal(n);
    ValueOfDecimal(n);
    DigitsAreNotColons(s);
    SpanOfRun(s, "", c => c != ':');
    assert s + "" == s;
  }

  lemma PortPairSplits(a: string, b: string)
    requires IsDigits(a) && IsDigits(b)
    ensures
      var s := a + (":" + b);
      IsPortText(s) && ColonIndex(s) == |a| && s[..|a|] == a && s[|a| + 1..] == b
  {
    var s := a + (":" + b);
    DigitsAreNotColons(a);
    assert (":" + b)[0] == ':';
    SpanOfRun(a, ":" + b, c => c != ':');
    assert s[..|a|] == a && s[|a|] == ':' && s[|a| + 1..] == b;
  }

  lemma RangeRoundTrip(r: PortRange)
    ensures IsPortText(RangeText(r))
    ensures RangeValue(RangeText(r)) == Some(r)
  {
    SinglePortRoundTrip(r.start);
    SinglePortRoundTrip(r.end);
    if r.start != r.end {
      PortPairSplits(Decimal(r.start), Decimal(r.end));
    } else {
      assert RangeText(r)[..|RangeText(r)|] == RangeText(r);
    }
  }

  // ---------------------------------------------------------------------------
  // Rules

  const ANYWHERE: Target := ToPrefix(Prefix(0, 0))

  /** What a derivation denotes, before ports are checked against the protocol. */
  function Meaning(syntax: Syntax): Option<Rule> {
    match syntax
    case Bare(text) => (
      match TargetValue(text)
      case None => None
      case Some(t) => Some(Stateless(t)))
    case Directed(d, protocol, target, port) =>
      var t := if target.Some? then TargetValue(target.value.text) else Some(ANYWHERE);
      var r := if port.Some? then RangeValue(port.value.text) else None;
      if t.None? || (port.Some? && r.None?) then None
      else Some(Stateful(d, t.value, Filter(if protocol.Some? then Some(protocol.value.protocol) else None, r)))
  }

  function Parse(s: string): Option<Rule> {
    match ParseSyntax(s)
    case None => None
    case Some(syntax) =>
      var rule := Meaning(syntax);
      if rule.Some? && rule.value.WellFormed() then rule else None
  }

  function Display(rule: Rule): string {
    match rule
    case Stateless(target) => TargetText(target)
    case Stateful(direction, target, filter) =>
      DirectionText(direction) + (" " + (DisplayProtocol(filter) + (TargetText(target) + DisplayPorts(filter))))
  }

  function DisplayProtocol(filter: Filter): string {
    if filter.protocol.Some? then "proto " + (ProtocolText(filter.protocol.value) + " ") else ""
  }

  function DisplayPorts(filter: Filter): string {
    if filter.ports.Some? then " port " + RangeText(filter.ports.value) else ""
  }

  /** The derivation a rule prints as: single spaces and an explicit target. */
  function Canonical(rule: Rule): Syntax {
    match rule
    case Stateless(target) => Bare(TargetText(target))
    case Stateful(direction, target, filter) =>
      Directed(
        direction,
        if filter.protocol.Some? then Some(ProtocolField(1, 1, filter.protocol.value)) else None,
        Some(TargetField(1, TargetText(target))),
        if filter.ports.Some? then Some(PortField(1, 1, RangeText(filter.ports.value))) else None)
  }

  lemma CanonicalDenotesRule(rule: Rule)
    ensures Canonical(rule).Valid()
    ensures Meaning(Canonical(rule)) == Some(rule)
  {
    TargetRoundTrip(rule.target);
    if rule.Stateful? && rule.filter.ports.Some? {
      RangeRoundTrip(rule.filter.ports.value);
    }
  }

  lemma ProtocolTextMoves(name: string, rest: string)
    ensures " " + (("proto " + (name + " ")) + rest) == (" " + ("proto" + (" " + name))) + (" " + rest)
  {
    var left, right := " " + (("proto " + (name + " ")) + rest), (" " + ("proto" + (" " + name))) + (" " + rest);
    assert |left| == |right|;
    assert left[..7] == right[..7] == " proto ";
    assert left[7..] == right[7..] == name + (" " + rest);
    assert left == left[..7] + left[7..] && right == right[..7] + right[7..];
  }

  lemma DisplayIsCanonical(rule: Rule)
    ensures Display(rule) == Canonical(rule).Text()
  {
    assert Spaces(1) == " ";
    if rule.Stateful? {
      var Stateful(direction, target, filter) := rule;
      var Directed(_, protocol, target', port) := Canonical(rule);
      var rest := TargetText(target) + DisplayPorts(filter);
      assert DisplayPorts(filter) == PortFieldText(port) by {
        if filter.ports.Some? {
          assert " port " == " " + "port" + " ";
        }
      }
      Concat(" ", TargetText(target), DisplayPorts(filter));
      assert " " + rest == TargetFieldText(target') + PortFieldText(port);
      if filter.protocol.Some? {
        ProtocolTextMoves(ProtocolText(filter.protocol.value), rest);
      } else {
        assert "" + rest == rest && "" + (" " + rest) == " " + rest;
      }
    }
  }

  /** Parsing undoes printing exactly for the rules whose ports have a protocol. */
  lemma RoundTrip(rule: Rule)
    ensures Parse(Display(rule)) == if rule.WellFormed() then Some(rule) else None
  {
    CanonicalDenotesRule(rule);
    DisplayIsCanonical(rule);
    ParserIsComplete(Canonical(rule));
  }

  /** Whatever text a rule was read from, its printed form reads back as the same rule. */
  lemma AcceptedInputRoundTrips(s: string)
    ensures Parse(s).Some? ==> Parse(s).value.WellFormed() && Parse(Display(Parse(s).value)) == Parse(s)
  {
    if Parse(s).Some? {
      RoundTrip(Parse(s).value);
    }
  }

  /** No two rules print alike, well-formed or not. */
  lemma DisplayIsInjective(a: Rule, b: Rule)
    requires Display(a) == Display(b)
    ensures a == b
  {
    CanonicalDenotesRule(a);
    CanonicalDenotesRule(b);
    DisplayIsCanonical(a);
    DisplayIsCanonical(b);
    GrammarIsUnambiguous(Canonical(a), Canonical(b));
  }

  /** A text parses to a rule exactly when the grammar derives it with that meaning. */
  lemma ParseFollowsGrammar(s: string, rule: Rule)
    ensures Parse(s) == Some(rule) <==>
            exists syntax: Syntax :: syntax.Valid() && syntax.Text() == s &&
                                     Meaning(syntax) == Some(rule) && rule.WellFormed()
  {
    ParserIsSound(s);
    forall syntax: Syntax | syntax.Valid() && syntax.Text() == s
      ensures ParseSyntax(s) == Some(syntax)
    {
      ParserIsComplete(syntax);
    }
  }

  // ---------------------------------------------------------------------------
  // The reader as it runs

  datatype Field = ProtocolName(protocol: Protocol) | TargetName(text: string) | PortName(text: string)

  /** The fields of a directed rule in the order they appear. */
  function FieldsOf(syntax: Syntax): seq<Field>
    requires syntax.Directed?
  {
    (if syntax.protocol.Some? then [ProtocolName(syntax.protocol.value.protocol)] else [])
    + (if syntax.target.Some? then [TargetName(syntax.target.value.text)] else [])
    + (if syntax.port.Some? then [PortName(syntax.port.value.text)] else [])
  }

  /** What the fields read so far amount to. */
  datatype Reading = Reading(target: Target, protocol: Option<Protocol>, ports: Option<PortRange>)

  function ReadField(state: Reading, field: Field): Option<Reading> {
    match field
    case ProtocolName(p) => Some(state.(protocol := Some(p)))
    case TargetName(text) =>
      var t := TargetValue(text);
      if t.None? then None else Some(state.(target := t.value))
    case PortName(text) =>
      var range := RangeValue(text);
      if range.None? then None else Some(state.(ports := range))
  }

  function ReadFields(state: Reading, fields: seq<Field>): Option<Reading>
    decreases |fields|
  {
    if fields == [] then Some(state)
    else
      var next := ReadField(state, fields[0]);
      if next.None? then None else ReadFields(next.value, fields[1..])
  }

  const UNREAD: Reading := Reading(ANYWHERE, None, None)

  lemma {:induction false} ReadingOne(state: Reading, field: Field, more: seq<Field>)
    ensures ReadFields(state, [field] + more) ==
            if ReadField(state, field).None? then None else ReadFields(ReadField(state, field).value, more)
  {
    assert ([field] + more)[1..] == more;
  }

  /** Reading the fields one by one gives the meaning of the derivation. */
  lemma ReadingIsMeaning(syntax: Syntax)
    requires syntax.Directed?
    ensures
      var r := ReadFields(UNREAD, FieldsOf(syntax));
      Meaning(syntax) ==
      if r.None? then None
      else Some(Stateful(syntax.direction, r.value.target, Filter(r.value.protocol, r.value.ports)))
  {
    var ports := if syntax.port.Some? then [PortName(syntax.port.value.text)] else [];
    var targets := (if syntax.target.Some? then [TargetName(syntax.target.value.text)] else []) + ports;
    assert FieldsOf(syntax) ==
           (if syntax.protocol.Some? then [ProtocolName(syntax.protocol.value.protocol)] else []) + targets;
    var s1 := if syntax.protocol.Some? then UNREAD.(protocol := Some(syntax.protocol.value.protocol)) else UNREAD;
    if syntax.protocol.Some? {
      ReadingOne(UNREAD, ProtocolName(syntax.protocol.value.protocol), targets);
    } else {
      assert [] + targets == targets;
    }
    if syntax.target.Some? {
      ReadingOne(s1, TargetName(syntax.target.value.text), ports);
    } else {
      assert [] + ports == ports;
    }
  }

  method ParseStateful(syntax: Syntax) returns (r: Option<Rule>)
    requires syntax.Directed?
    ensures r == var rule := Meaning(syntax); if rule.Some? && rule.value.WellFormed() then rule else None
  {
    var fields := FieldsOf(syntax);
    ReadingIsMeaning(syntax);
    var target, protocol, ports := ANYWHERE, None, None;
    assert fields[0..] == fields;
    for k := 0 to |fields|
      invariant ReadFields(Reading(target, protocol, ports), fields[k..]) == ReadFields(UNREAD, fields)
    {
      assert fields[k..][1..] == fields[k + 1..];
      match fields[k] {
        case ProtocolName(p) =>
          protocol := Some(p);
        case TargetName(text) =>
          var t := TargetValue(text);
          if t.None? {
            return None;
          }
          target := t.value;
        case PortName(text) =>
          ports := RangeValue(text);
          if ports.None? {
            return None;
          }
      }
    }
    var rule := Stateful(syntax.direction, target, Filter(protocol, ports));
    return if rule.WellFormed() then Some(rule) else None;
  }

  method ParseRule(input: string) returns (r: Option<Rule>)
    ensures r == Parse(input)
  {
    var parsed := ParseSyntax(input);
    if parsed.None? {
      return None;
    }
    match parsed.value {
      case Bare(text) =>
        var target := TargetValue(text);
        return if target.Some? then Some(Stateless(target.value)) else None;
      case Directed(_, _, _, _) =>
        r := ParseStateful(parsed.value);
    }
  }
}
