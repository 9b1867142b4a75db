/**
 What a selection means without reference to priorities: rules are eliminated in stages,
 and a packet whose ports are unknown is judged as if every port had to be answered for.
 */
module PolicyMeaning {
  import opened Net
  import opened RuleModel
  import opened PolicyCompiler

  // ---------------------------------------------------------------------------
  // Selection by elimination

  /** Rules that name a port, if there are any. */
  ghost function Specific(rules: set<Entry>): set<Entry> {
    set e | e in rules && forall o :: o in rules && o.filter.ports.Some? ==> e.filter.ports.Some?
  }

  ghost function Longest(rules: set<Entry>): set<Entry> {
    set e | e in rules && forall o :: o in rules ==> o.prefix.len <= e.prefix.len
  }

  /** Rules that name a protocol, if there are any. */
  ghost function Named(rules: set<Entry>): set<Entry> {
    set e | e in rules && forall o :: o in rules && o.filter.protocol.Some? ==> e.filter.protocol.Some?
  }

  function PortCount(filter: Filter): nat {
    if filter.ports.Some? then filter.ports.value.end - filter.ports.value.start + 1 else 0x1_0000
  }

  ghost function Narrowest(rules: set<Entry>): set<Entry> {
    set e | e in rules && forall o :: o in rules ==> PortCount(e.filter) <= PortCount(o.filter)
  }

  /** Blocking rules, if there are any. */
  ghost function Strictest(rules: set<Entry>): set<Entry> {
    set e | e in rules && forall o :: o in rules && o.action == Block ==> e.action == Block
  }

  /** What is left after eliminating by port, prefix, protocol, range and action, in this order. */
  ghost function Decisive(rules: set<Entry>): set<Entry> {
    Strictest(Narrowest(Named(Longest(Specific(rules)))))
  }

  /** What is left at the end tops the priority order. */
  lemma DecisiveIsTop(rules: set<Entry>, e: Entry, o: Entry)
    requires e in Decisive(rules) && o in rules
    ensures o.Rank().AtMost(e.Rank())
  {
    var specific := Specific(rules);
    var longest := Longest(specific);
    var named := Named(longest);
    if o.filter.ports.Some? == e.filter.ports.Some? {
      assert o in specific;
      if o.prefix.len == e.prefix.len {
        assert o in longest;
        if o.filter.protocol.Some? == e.filter.protocol.Some? {
          assert o in named;
          if PortCount(o.filter) == PortCount(e.filter) {
            assert o in Narrowest(named);
          }
        }
      }
    }
  }

  /** What tops the priority order is never eliminated. */
  lemma TopIsDecisive(rules: set<Entry>, e: Entry)
    requires e in rules && forall o :: o in rules ==> o.Rank().AtMost(e.Rank())
    ensures e in Decisive(rules)
  {
    assert e in Specific(rules);
    assert e in Longest(Specific(rules));
    assert e in Named(Longest(Specific(rules)));
    assert e in Narrowest(Named(Longest(Specific(rules))));
  }

  lemma WinnersAreDecisive(entries: set<Entry>, q: Query, e: Entry)
    ensures Wins(entries, q, e) <==> e in Decisive(Matching(entries, q))
  {
    var matching := Matching(entries, q);
    if Wins(entries, q, e) {
      TopIsDecisive(matching, e);
    }
    if e in Decisive(matching) {
      forall o | o in matching ensures o.Rank().AtMost(e.Rank()) {
        DecisiveIsTop(matching, e, o);
      }
      WinsOverMatching(entries, q, matching, e);
    }
  }

  /** The compiled rules do what elimination over the raw lists does; without a match they decide nothing. */
  lemma SelectionIsElimination(rules: Rules, allow: seq<Rule>, block: seq<Rule>, site: Site, direction: Direction,
                               q: Query, e: Entry)
    requires IsCompilation(rules, allow, block, site)
    ensures
      var matching := Matching(PolicyEntries(allow, block, direction, IsStateful(allow, block), site), q);
      && (Select(rules.Toward(direction), q).None? <==> matching == {})
      && (e in Decisive(matching) ==> Select(rules.Toward(direction), q) == Some(e.action))
  {
    var entries := PolicyEntries(allow, block, direction, IsStateful(allow, block), site);
    CompilerIsCorrect(rules, allow, block, site, direction, q);
    FlatSelectNone(entries, q);
    NoMatches(entries, q);
    WinnersAreDecisive(entries, q, e);
    if Wins(entries, q, e) {
      FlatSelectIsMaximum(entries, q, e);
    }
  }

  lemma NoMatches(entries: set<Entry>, q: Query)
    ensures Matching(entries, q) == {} <==> forall e :: e in entries ==> !e.Matches(q)
  {
    if e :| e in entries && e.Matches(q) {
      assert e in Matching(entries, q);
    }
  }

  // ---------------------------------------------------------------------------
  // Longest-prefix matching

  ghost predicate NamesPort(rules: set<Entry>) {
    exists e :: e in rules && e.filter.ports.Some?
  }

  lemma DecisiveExists(rules: set<Entry>) returns (e: Entry)
    requires rules != {}
    ensures e in Decisive(rules)
  {
    e := MaximumExists(rules);
    TopIsDecisive(rules, e);
  }

  /** The rules left have the longest prefix of those with a port, or of all where none has one. */
  lemma DecisiveAreLongestSpecific(rules: set<Entry>, e: Entry)
    requires e in Decisive(rules)
    ensures e in Longest(Specific(rules)) && e in rules
    ensures NamesPort(rules) ==> e.filter.ports.Some?
  {
  }

  /** The longest prefix decides if and only if no matching rule names a port, or one of the longest prefix does. */
  lemma LongestPrefixExactly(rules: set<Entry>)
    ensures Decisive(rules) <= Longest(rules) <==> !NamesPort(rules) || NamesPort(Longest(rules))
  {
    if !NamesPort(rules) {
      assert Specific(rules) == rules;
      forall e | e in Decisive(rules) ensures e in Longest(rules) {
        DecisiveAreLongestSpecific(rules, e);
      }
    } else if NamesPort(Longest(rules)) {
      var l :| l in Longest(rules) && l.filter.ports.Some?;
      assert l in Specific(rules);
      forall e | e in Decisive(rules) ensures e in Longest(rules) {
        DecisiveAreLongestSpecific(rules, e);
        assert l.prefix.len <= e.prefix.len;
      }
    } else {
      var e := DecisiveExists(rules);
      DecisiveAreLongestSpecific(rules, e);
      assert e !in Longest(rules);
    }
  }

  /**
   Compiled rules follow the longest prefix where that condition holds, and a shorter prefix with a port
   elsewhere.
   */
  lemma SelectionByLongestPrefix(rules: Rules, allow: seq<Rule>, block: seq<Rule>, site: Site, direction: Direction,
                                 q: Query)
    requires IsCompilation(rules, allow, block, site)
    requires Matching(PolicyEntries(allow, block, direction, IsStateful(allow, block), site), q) != {}
    ensures
      var matching := Matching(PolicyEntries(allow, block, direction, IsStateful(allow, block), site), q);
      exists e :: e in Decisive(matching) && Select(rules.Toward(direction), q) == Some(e.action) &&
        if !NamesPort(matching) || NamesPort(Longest(matching)) then e in Longest(matching)
        else e !in Longest(matching) && e.filter.ports.Some?
  {
    var matching := Matching(PolicyEntries(allow, block, direction, IsStateful(allow, block), site), q);
    LongestPrefixExactly(matching);
    var e := DecisiveExists(matching);
    SelectionIsElimination(rules, allow, block, site, direction, q, e);
    DecisiveAreLongestSpecific(matching, e);
  }

  /** An allow for a TCP service in one prefix. */
  function ServiceAllow(prefix: Prefix, ports: PortRange): Rule {
    Stateful(Out, ToPrefix(prefix), Filter(Some(Tcp), Some(ports)))
  }

  /** A block of everything in another. */
  function PrefixBlock(prefix: Prefix): Rule {
    Stateful(Out, ToPrefix(prefix), NO_FILTER)
  }

  lemma OneRule(rule: Rule, action: Action, stateful: bool, site: Site)
    requires rule.Stateful? && rule.direction == Out && rule.target.ToPrefix?
    ensures ListEntries([rule], action, Out, stateful, site) ==
            {Entry(rule.target.prefix.Truncated(), rule.filter, action)}
  {
    var e := Entry(rule.target.prefix.Truncated(), rule.filter, action);
    assert rule.target.prefix.Truncated() in TargetPrefixes(rule.target, site);
    assert e in RuleEntries([rule][0], action, Out, stateful, site);
  }

  lemma WinnerOfTwo(allowed: Entry, blocked: Entry, q: Query)
    requires allowed.Matches(q) && blocked.Matches(q) && allowed.prefix.len < blocked.prefix.len
    requires allowed.filter.ports.Some? && blocked.filter.ports.None?
    ensures Matching({allowed, blocked}, q) == {allowed, blocked}
    ensures Longest({allowed, blocked}) == {blocked}
    ensures FlatSelect({allowed, blocked}, q) == Some(allowed.action)
  {
    assert Wins({allowed, blocked}, q, allowed);
    FlatSelectIsMaximum({allowed, blocked}, q, allowed);
  }

  lemma BothMatch(wide: Prefix, narrow: Prefix, ports: PortRange, a: Address, port: Port)
    requires wide.Covers(a) && narrow.Covers(a) && ports.Contains(port)
    ensures Entry(wide.Truncated(), Filter(Some(Tcp), Some(ports)), Allow).Matches(Query(a, Some(Tcp), Some(port)))
    ensures Entry(narrow.Truncated(), NO_FILTER, Block).Matches(Query(a, Some(Tcp), Some(port)))
  {
    TruncatedIsTruncated(wide);
    TruncatedIsTruncated(narrow);
  }

  /** Longest-prefix matching fails here: the longest matching prefix blocks the address, and the service is allowed. */
  lemma ShorterPrefixWins(rules: Rules, site: Site, wide: Prefix, narrow: Prefix, ports: PortRange, a: Address,
                          port: Port)
    requires IsCompilation(rules, [ServiceAllow(wide, ports)], [PrefixBlock(narrow)], site)
    requires wide.len < narrow.len && wide.Covers(a) && narrow.Covers(a) && ports.Contains(port)
    ensures
      var q := Query(a, Some(Tcp), Some(port));
      var matching := Matching(PolicyEntries([ServiceAllow(wide, ports)], [PrefixBlock(narrow)], Out, true, site), q);
      && Longest(matching) == {Entry(narrow.Truncated(), NO_FILTER, Block)}
      && Select(rules.outbound, q) == Some(Allow)
  {
    var q := Query(a, Some(Tcp), Some(port));
    var allow, block := [ServiceAllow(wide, ports)], [PrefixBlock(narrow)];
    var allowed := Entry(wide.Truncated(), Filter(Some(Tcp), Some(ports)), Allow);
    var blocked := Entry(narrow.Truncated(), NO_FILTER, Block);
    TwoEntries(wide, narrow, ports, site);
    BothMatch(wide, narrow, ports, a, port);
    WinnerOfTwo(allowed, blocked, q);
    assert allow[0].Stateful?;
    CompilerIsCorrect(rules, allow, block, site, Out, q);
  }

  lemma TwoEntries(wide: Prefix, narrow: Prefix, ports: PortRange, site: Site)
    ensures PolicyEntries([ServiceAllow(wide, ports)], [PrefixBlock(narrow)], Out, true, site) ==
            {Entry(wide.Truncated(), Filter(Some(Tcp), Some(ports)), Allow),
             Entry(narrow.Truncated(), NO_FILTER, Block)}
  {
    OneRule(ServiceAllow(wide, ports), Allow, true, site);
    OneRule(PrefixBlock(narrow), Block, true, site);
  }

  const TEN: Address := 0x0A00_0000

  lemma TenCovers()
    ensures Prefix(TEN, 8).Covers(TEN + 1)
  {
    assert BlockSize(8) == 0x100_0000 by { Pow2Splits(8, 24); Pow2Splits(8, 16); assert Pow2(8) == 256; }
  }

  /** With TCP port 443 allowed everywhere and 10.0.0.0/8 blocked, 10.0.0.1 is reached on port 443. */
  lemma BlockedNetworkIsReached(rules: Rules, site: Site)
    requires IsCompilation(rules, [ServiceAllow(Prefix(0, 0), PortRange(443, 443))],
                           [PrefixBlock(Prefix(TEN, 8))], site)
    ensures Select(rules.outbound, Query(TEN + 1, Some(Tcp), Some(443))) == Some(Allow)
  {
    WholeSpaceCovers(Prefix(0, 0), TEN + 1);
    TenCovers();
    ShorterPrefixWins(rules, site, Prefix(0, 0), Prefix(TEN, 8), PortRange(443, 443), TEN + 1, 443);
  }

  // ---------------------------------------------------------------------------
  // Unknown ports

  predicate HasPorts(protocol: Option<Protocol>) {
    protocol == Some(Tcp) || protocol == Some(Udp)
  }

  /** With unknown ports a block counts if some port would meet it, an allow only if every port would. */
  lemma UnknownPortMeans(filter: Filter, address: Address, protocol: Option<Protocol>)
    requires HasPorts(protocol)
    ensures FilterMatches(filter, Block, Query(address, protocol, None)) <==>
            exists p: Port :: FilterMatches(filter, Block, Query(address, protocol, Some(p)))
    ensures FilterMatches(filter, Allow, Query(address, protocol, None)) <==>
            forall p: Port :: FilterMatches(filter, Allow, Query(address, protocol, Some(p)))
  {
    if filter.ports.Some? {
      var start := filter.ports.value.start;
      assert FilterMatches(filter, Block, Query(address, protocol, Some(start))) <==>
             FilterMatches(filter, Block, Query(address, protocol, None));
      assert !FilterMatches(filter, Allow, Query(address, protocol, Some(0)));
    } else {
      assert FilterMatches(filter, Block, Query(address, protocol, Some(0))) <==>
             FilterMatches(filter, Block, Query(address, protocol, None));
      assert FilterMatches(filter, Allow, Query(address, protocol, Some(0))) <==>
             FilterMatches(filter, Allow, Query(address, protocol, None));
    }
  }

  /** A winning allow with unknown ports leaves every port without a matching block that outranks it. */
  lemma UnknownAllowWins(entries: set<Entry>, q: Query, port: Port, e: Entry, b: Entry)
    requires HasPorts(q.protocol) && q.port.None?
    requires Wins(entries, q, e) && e.action == Allow
    requires Wins(entries, q.(port := Some(port)), b)
    ensures b.action == Allow
  {
    var known := q.(port := Some(port));
    assert e.Matches(known);
    assert e.Rank().AtMost(b.Rank());
    assert b.action == Block ==> b.Matches(q);
  }

  lemma SelectedByWinner(entries: set<Entry>, q: Query) returns (e: Entry)
    requires FlatSelect(entries, q).Some?
    ensures Wins(entries, q, e) && FlatSelect(entries, q) == Some(e.action)
  {
    e :| Wins(entries, q, e);
    FlatSelectIsMaximum(entries, q, e);
  }

  lemma FlatFailsClosed(entries: set<Entry>, q: Query, port: Port)
    requires HasPorts(q.protocol) && q.port.None?
    ensures FlatSelect(entries, q) == Some(Allow) ==> FlatSelect(entries, q.(port := Some(port))) == Some(Allow)
    ensures FlatSelect(entries, q).None? ==> FlatSelect(entries, q.(port := Some(port))) != Some(Block)
  {
    var known := q.(port := Some(port));
    FlatSelectNone(entries, q);
    FlatSelectNone(entries, known);
    if FlatSelect(entries, q) == Some(Allow) {
      var e := SelectedByWinner(entries, q);
      assert e.Matches(known);
      var b := SelectedByWinner(entries, known);
      UnknownAllowWins(entries, q, port, e, b);
    } else if FlatSelect(entries, known) == Some(Block) {
      var b := SelectedByWinner(entries, known);
      assert b.Matches(q);
    }
  }

  /** Compiled rules fail closed: where some port would be blocked, a packet with unknown ports is blocked. */
  lemma UnknownPortsFailClosed(rules: Rules, allow: seq<Rule>, block: seq<Rule>, site: Site, direction: Direction,
                               q: Query, port: Port)
    requires IsCompilation(rules, allow, block, site) && HasPorts(q.protocol) && q.port.None?
    ensures
      var unknown, known := Select(rules.Toward(direction), q), Select(rules.Toward(direction), q.(port := Some(port)));
      && (known == Some(Block) ==> unknown == Some(Block))
      && (unknown == Some(Allow) ==> known == Some(Allow))
  {
    CompilerIsCorrect(rules, allow, block, site, direction, q);
    CompilerIsCorrect(rules, allow, block, site, direction, q.(port := Some(port)));
    FlatFailsClosed(PolicyEntries(allow, block, direction, IsStateful(allow, block), site), q, port);
  }
}
