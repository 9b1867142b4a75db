/**
 The policy in terms of its rules alone: which packets a rule concerns, which rule beats which,
 and that the compiled lookup selects accordingly. Nothing here mentions entries, prefix maps or
 priorities except the proofs.
 */
module PolicyRules {
  import opened Net
  import opened RuleModel
  import opened RuleOrder
  import opened PolicyCompiler
  import opened PolicyNormal

  // ---------------------------------------------------------------------------
  // Rules and packets

  ghost predicate InTarget(target: Target, site: Site, a: Address) {
    match target
    case ToPrefix(prefix) => InBlock(prefix, a)
    case ToHost => a == site.host
    case ToPeers => a in site.peers
  }

  /** Known ports must lie in the range; an unknown TCP or UDP port is taken to lie in a blocked one. */
  ghost predicate InPorts(ports: PortRange, action: Action, q: Query) {
    match q.port
    case Some(port) => ports.start <= port <= ports.end
    case None => action == Block && (q.protocol == Some(Tcp) || q.protocol == Some(Udp))
  }

  /** The rule is about packets like this one, given the mode the policy is in. */
  ghost predicate Concerns(rule: Rule, action: Action, direction: Direction, stateful: bool, site: Site, q: Query) {
    match rule
    case Stateless(target) => (direction == Out || stateful) && InTarget(target, site, q.address)
    case Stateful(d, target, filter) =>
      && d == direction && InTarget(target, site, q.address)
      && (filter.protocol.Some? ==> q.protocol == filter.protocol)
      && (filter.ports.Some? ==> InPorts(filter.ports.value, action, q))
  }

  /** The number of leading bits the target of a rule fixes. */
  function Length(rule: Rule): int {
    if rule.target.ToPrefix? then rule.target.prefix.len else 32
  }

  predicate NamesPorts(rule: Rule) {
    rule.Stateful? && rule.filter.ports.Some?
  }

  predicate NamesProtocol(rule: Rule) {
    rule.Stateful? && rule.filter.protocol.Some?
  }

  /** How many ports a rule is about. */
  function PortsMeant(rule: Rule): int {
    if NamesPorts(rule) then rule.filter.ports.value.end - rule.filter.ports.value.start + 1 else 0x1_0000
  }

  /** `a` goes before `b`: by naming a port, by a longer prefix, by naming a protocol, by fewer ports. */
  predicate Beats(a: Rule, b: Rule) {
    if NamesPorts(a) != NamesPorts(b) then NamesPorts(a)
    else if Length(a) != Length(b) then Length(a) > Length(b)
    else if NamesProtocol(a) != NamesProtocol(b) then NamesProtocol(a)
    else PortsMeant(a) < PortsMeant(b)
  }

  ghost predicate SomeConcerns(rules: seq<Rule>, action: Action, direction: Direction, stateful: bool, site: Site,
                               q: Query) {
    exists k :: 0 <= k < |rules| && Concerns(rules[k], action, direction, stateful, site, q)
  }

  /** Some rule of the policy names a direction. */
  ghost predicate IsDirectional(allow: seq<Rule>, block: seq<Rule>) {
    (exists i :: 0 <= i < |allow| && allow[i].Stateful?) || (exists i :: 0 <= i < |block| && block[i].Stateful?)
  }

  /** A block rule concerns the packet, and no allow rule that does beats it. */
  ghost predicate Blocks(allow: seq<Rule>, block: seq<Rule>, direction: Direction, stateful: bool, site: Site,
                         q: Query) {
    exists k :: 0 <= k < |block| && Concerns(block[k], Block, direction, stateful, site, q) &&
                Unbeaten(block[k], allow, direction, stateful, site, q)
  }

  ghost predicate Unbeaten(rule: Rule, allow: seq<Rule>, direction: Direction, stateful: bool, site: Site, q: Query) {
    forall i :: 0 <= i < |allow| && Concerns(allow[i], Allow, direction, stateful, site, q) ==> !Beats(allow[i], rule)
  }

  // ---------------------------------------------------------------------------
  // Rules and entries

  lemma TargetMeans(target: Target, site: Site, a: Address)
    ensures InTarget(target, site, a) <==> exists p :: p in TargetPrefixes(target, site) && p.Covers(a)
  {
    match target {
      case ToPrefix(prefix) =>
        CoversMeans(prefix, a);
        TruncatedIsTruncated(prefix);
        assert prefix.Truncated() in TargetPrefixes(target, site);
      case ToHost =>
        SingleAddress(site.host, a);
        assert Prefix(site.host, 32) in TargetPrefixes(target, site);
      case ToPeers =>
        if a in site.peers {
          var i :| 0 <= i < |site.peers| && site.peers[i] == a;
          SingleAddress(a, a);
          assert Prefix(site.peers[i], 32) in TargetPrefixes(target, site);
        }
        if p :| p in TargetPrefixes(target, site) && p.Covers(a) {
          SingleAddress(p.address, a);
        }
    }
  }

  lemma SingleAddress(a: Address, b: Address)
    ensures Prefix(a, 32).Covers(b) <==> a == b
  {
    assert Pow2(0) == 1;
    assert BlockSize(32) == 1;
    assert Prefix(a, 32).Network() == a;
  }

  lemma TargetLength(rule: Rule, site: Site)
    ensures forall p :: p in TargetPrefixes(rule.target, site) ==> p.len == Length(rule)
  {
  }

  lemma FilterMeans(rule: Rule, action: Action, q: Query)
    ensures FilterMatches(RuleFilter(rule), action, q) <==>
            && (NamesProtocol(rule) ==> q.protocol == rule.filter.protocol)
            && (NamesPorts(rule) ==> InPorts(rule.filter.ports.value, action, q))
  {
  }

  lemma AppliesMeans(rule: Rule, direction: Direction, stateful: bool)
    ensures Applies(rule, direction, stateful) <==>
            match rule
            case Stateless(_) => direction == Out || stateful
            case Stateful(d, _, _) => d == direction
  {
  }

  lemma ConcernsParts(rule: Rule, action: Action, direction: Direction, stateful: bool, site: Site, q: Query)
    ensures Concerns(rule, action, direction, stateful, site, q) <==>
            && Applies(rule, direction, stateful) && InTarget(rule.target, site, q.address)
            && FilterMatches(RuleFilter(rule), action, q)
  {
    FilterMeans(rule, action, q);
    AppliesMeans(rule, direction, stateful);
  }

  /** A rule that concerns a packet has a matching entry, which ranks as the rule does. */
  lemma EntryOf(rule: Rule, action: Action, direction: Direction, stateful: bool, site: Site,
                q: Query) returns (e: Entry)
    requires Concerns(rule, action, direction, stateful, site, q)
    ensures e in RuleEntries(rule, action, direction, stateful, site) && e.Matches(q)
  {
    ConcernsParts(rule, action, direction, stateful, site, q);
    TargetMeans(rule.target, site, q.address);
    var p :| p in TargetPrefixes(rule.target, site) && p.Covers(q.address);
    e := Entry(p, RuleFilter(rule), action);
  }

  /** And a matching entry of a rule says that the rule concerns the packet. */
  lemma EntryConcerns(rule: Rule, action: Action, direction: Direction, stateful: bool, site: Site, q: Query, e: Entry)
    requires e in RuleEntries(rule, action, direction, stateful, site) && e.Matches(q)
    ensures Concerns(rule, action, direction, stateful, site, q)
  {
    assert e.prefix in TargetPrefixes(rule.target, site);
    TargetMeans(rule.target, site, q.address);
    ConcernsParts(rule, action, direction, stateful, site, q);
  }

  lemma EntryRank(rule: Rule, action: Action, direction: Direction, stateful: bool, site: Site, e: Entry)
    requires e in RuleEntries(rule, action, direction, stateful, site)
    ensures e.action == action && e.prefix.len == Length(rule) && e.filter == RuleFilter(rule)
  {
    TargetLength(rule, site);
  }

  /** The priority order compares rules as `Beats` does, and lets a block win a tie. */
  lemma RanksMean(a: Rule, x: Entry, b: Rule, y: Entry)
    requires x.filter == RuleFilter(a) && x.prefix.len == Length(a) && x.action == Allow
    requires y.filter == RuleFilter(b) && y.prefix.len == Length(b) && y.action == Block
    ensures y.Rank().AtMost(x.Rank()) <==> Beats(a, b)
    ensures x.Rank().AtMost(y.Rank()) <==> !Beats(a, b)
  {
  }

  // ---------------------------------------------------------------------------
  // Selection

  lemma InList(rules: seq<Rule>, action: Action, direction: Direction, stateful: bool, site: Site,
               e: Entry) returns (k: nat)
    requires e in ListEntries(rules, action, direction, stateful, site)
    ensures k < |rules| && e in RuleEntries(rules[k], action, direction, stateful, site)
  {
    k :| 0 <= k < |rules| && e in RuleEntries(rules[k], action, direction, stateful, site);
  }

  lemma OfPolicy(allow: seq<Rule>, block: seq<Rule>, direction: Direction, stateful: bool, site: Site, e: Entry)
    requires e in PolicyEntries(allow, block, direction, stateful, site)
    ensures e in ListEntries(if e.action == Allow then allow else block, e.action, direction, stateful, site)
  {
    if e in ListEntries(allow, Allow, direction, stateful, site) {
      var k := InList(allow, Allow, direction, stateful, site, e);
      EntryRank(allow[k], Allow, direction, stateful, site, e);
    } else {
      var k := InList(block, Block, direction, stateful, site, e);
      EntryRank(block[k], Block, direction, stateful, site, e);
    }
  }

  /** What is selected was selected by a rule of that list that concerns the packet. */
  lemma WinnerConcerns(allow: seq<Rule>, block: seq<Rule>, direction: Direction, stateful: bool, site: Site,
                       q: Query, e: Entry)
    returns (k: nat)
    requires Wins(PolicyEntries(allow, block, direction, stateful, site), q, e)
    ensures
      var rules := if e.action == Allow then allow else block;
      && k < |rules| && Concerns(rules[k], e.action, direction, stateful, site, q)
      && e.filter == RuleFilter(rules[k]) && e.prefix.len == Length(rules[k])
  {
    var rules := if e.action == Allow then allow else block;
    OfPolicy(allow, block, direction, stateful, site, e);
    k := InList(rules, e.action, direction, stateful, site, e);
    EntryConcerns(rules[k], e.action, direction, stateful, site, q, e);
    EntryRank(rules[k], e.action, direction, stateful, site, e);
  }

  lemma RuleEntry(rules: seq<Rule>, k: nat, action: Action, direction: Direction, stateful: bool, site: Site, q: Query)
    returns (e: Entry)
    requires k < |rules| && Concerns(rules[k], action, direction, stateful, site, q)
    ensures e in ListEntries(rules, action, direction, stateful, site) && e.Matches(q)
    ensures e.action == action && e.filter == RuleFilter(rules[k]) && e.prefix.len == Length(rules[k])
  {
    e := EntryOf(rules[k], action, direction, stateful, site, q);
    EntryRank(rules[k], action, direction, stateful, site, e);
  }

  /** Something is selected exactly when some rule concerns the packet. */
  lemma SelectedExactly(allow: seq<Rule>, block: seq<Rule>, direction: Direction, stateful: bool, site: Site, q: Query)
    ensures FlatSelect(PolicyEntries(allow, block, direction, stateful, site), q).Some? <==>
            || SomeConcerns(allow, Allow, direction, stateful, site, q)
            || SomeConcerns(block, Block, direction, stateful, site, q)
  {
    var entries := PolicyEntries(allow, block, direction, stateful, site);
    FlatSelectNone(entries, q);
    if k :| 0 <= k < |allow| && Concerns(allow[k], Allow, direction, stateful, site, q) {
      var e := RuleEntry(allow, k, Allow, direction, stateful, site, q);
    }
    if k :| 0 <= k < |block| && Concerns(block[k], Block, direction, stateful, site, q) {
      var e := RuleEntry(block, k, Block, direction, stateful, site, q);
    }
    if FlatSelect(entries, q).Some? {
      var e :| Wins(entries, q, e);
      var k := WinnerConcerns(allow, block, direction, stateful, site, q, e);
    }
  }

  lemma BlockingWinner(allow: seq<Rule>, block: seq<Rule>, direction: Direction, stateful: bool, site: Site,
                       q: Query, e: Entry)
    requires Wins(PolicyEntries(allow, block, direction, stateful, site), q, e) && e.action == Block
    ensures Blocks(allow, block, direction, stateful, site, q)
  {
    var k := WinnerConcerns(allow, block, direction, stateful, site, q, e);
    forall i | 0 <= i < |allow| && Concerns(allow[i], Allow, direction, stateful, site, q)
      ensures !Beats(allow[i], block[k])
    {
      var x := RuleEntry(allow, i, Allow, direction, stateful, site, q);
      RanksMean(allow[i], x, block[k], e);
    }
    assert Unbeaten(block[k], allow, direction, stateful, site, q);
  }

  lemma AllowingWinner(allow: seq<Rule>, block: seq<Rule>, direction: Direction, stateful: bool, site: Site,
                       q: Query, e: Entry)
    requires Wins(PolicyEntries(allow, block, direction, stateful, site), q, e) && e.action == Allow
    ensures !Blocks(allow, block, direction, stateful, site, q)
  {
    var i := WinnerConcerns(allow, block, direction, stateful, site, q, e);
    forall k | 0 <= k < |block| && Concerns(block[k], Block, direction, stateful, site, q)
      ensures !Unbeaten(block[k], allow, direction, stateful, site, q)
    {
      var y := RuleEntry(block, k, Block, direction, stateful, site, q);
      RanksMean(allow[i], e, block[k], y);
    }
  }

  /** A policy blocks exactly when a block rule concerns the packet that no allow rule concerning it beats. */
  lemma BlockedExactly(allow: seq<Rule>, block: seq<Rule>, direction: Direction, stateful: bool, site: Site, q: Query)
    ensures FlatSelect(PolicyEntries(allow, block, direction, stateful, site), q) == Some(Block) <==>
            Blocks(allow, block, direction, stateful, site, q)
  {
    var entries := PolicyEntries(allow, block, direction, stateful, site);
    SelectedExactly(allow, block, direction, stateful, site, q);
    if FlatSelect(entries, q).Some? {
      var e :| Wins(entries, q, e);
      FlatSelectIsMaximum(entries, q, e);
      if e.action == Block {
        BlockingWinner(allow, block, direction, stateful, site, q, e);
      } else {
        AllowingWinner(allow, block, direction, stateful, site, q, e);
      }
    }
  }

  /** What a policy selects, rule by rule. */
  ghost function Selection(allow: seq<Rule>, block: seq<Rule>, site: Site, direction: Direction,
                           q: Query): Option<Action> {
    var stateful := IsDirectional(allow, block);
    if Blocks(allow, block, direction, stateful, site, q) then Some(Block)
    else if SomeConcerns(allow, Allow, direction, stateful, site, q) then Some(Allow)
    else None
  }

  lemma FlatIsSelection(allow: seq<Rule>, block: seq<Rule>, site: Site, direction: Direction, q: Query)
    ensures FlatSelect(PolicyEntries(allow, block, direction, IsStateful(allow, block), site), q) ==
            Selection(allow, block, site, direction, q)
  {
    var stateful := IsStateful(allow, block);
    assert stateful == IsDirectional(allow, block);
    SelectedExactly(allow, block, direction, stateful, site, q);
    BlockedExactly(allow, block, direction, stateful, site, q);
    if SomeConcerns(block, Block, direction, stateful, site, q) &&
    !SomeConcerns(allow, Allow, direction, stateful, site, q) {
      var k :| 0 <= k < |block| && Concerns(block[k], Block, direction, stateful, site, q);
      assert Unbeaten(block[k], allow, direction, stateful, site, q);
    }
  }

  /** Compiled from the canonical lists, the rules select what the raw lists say, rule by rule. */
  lemma CompiledSelection(rules: Rules, allow: seq<Rule>, block: seq<Rule>, site: Site, direction: Direction, q: Query)
    requires IsCompilation(rules, NormalForm(allow), NormalForm(block), site)
    ensures Select(rules.Toward(direction), q) == Selection(allow, block, site, direction, q)
  {
    WholeCompilerIsCorrect(rules, allow, block, site, direction, q);
    FlatIsSelection(allow, block, site, direction, q);
  }

  /** A policy of one rule acts exactly on what that rule concerns. */
  lemma OneRuleSelects(rules: Rules, rule: Rule, action: Action, site: Site, direction: Direction, q: Query)
    requires
      var allow, block := if action == Allow then [rule] else [], if action == Block then [rule] else [];
      IsCompilation(rules, NormalForm(allow), NormalForm(block), site)
    ensures Select(rules.Toward(direction), q) ==
            if Concerns(rule, action, direction, rule.Stateful?, site, q) then Some(action) else None
  {
    var allow, block := if action == Allow then [rule] else [], if action == Block then [rule] else [];
    CompiledSelection(rules, allow, block, site, direction, q);
    assert action == Allow ==> allow[0] == rule;
    assert action == Block ==> block[0] == rule;
    assert IsDirectional(allow, block) == rule.Stateful?;
  }
}
