/**
 The rule compiler: flat allow and block lists become, per direction, a map from
 prefixes to filter lists sorted by priority; a lookup takes the first compatible
 filter of every covering prefix and keeps the best of them.

 The reference meaning is flat: among all rules that match, the one of highest
 priority decides. The main theorem says the two agree for every rule list, every
 iteration order of the hash maps and every tie-break of the unstable sort.
 */
module PolicyCompiler {
  import opened Net
  import opened RuleModel

  datatype Action = Block | Allow

  /** What a packet shows to the rules. */
  datatype Query = Query(address: Address, protocol: Option<Protocol>, port: Option<Port>)

  /** The addresses a policy is compiled for. */
  datatype Site = Site(host: Address, peers: seq<Address>)

  // ---------------------------------------------------------------------------
  // Priorities

  datatype Priority = Priority(hasPorts: bool, len: int, hasProtocol: bool, width: int, blocks: bool) {
    /** Lexicographic order; narrower port ranges rank higher. */
    predicate AtMost(other: Priority) {
      if hasPorts != other.hasPorts then other.hasPorts
      else if len != other.len then len < other.len
      else if hasProtocol != other.hasProtocol then other.hasProtocol
      else if width != other.width then width > other.width
      else blocks ==> other.blocks
    }
  }

  function RulePriority(len: PrefixLen, filter: Filter, action: Action): Priority {
    Priority(
      filter.ports.Some?,
      len,
      filter.protocol.Some?,
      if filter.ports.Some? then filter.ports.value.Width() else 0xFFFF,
      action == Block)
  }

  /** Where a packet shows no port, a filter on ports applies to it only if it blocks. */
  predicate FilterMatches(filter: Filter, action: Action, q: Query) {
    && (filter.protocol.Some? ==> filter.protocol == q.protocol)
    && (filter.ports.Some? ==>
          if q.port.Some? then filter.ports.value.Contains(q.port.value)
          else action == Block && (q.protocol == Some(Tcp) || q.protocol == Some(Udp)))
  }

  // ---------------------------------------------------------------------------
  // The flat reference semantics

  /** One rule after its target has been resolved to a prefix. */
  datatype Entry = Entry(prefix: Prefix, filter: Filter, action: Action) {
    predicate Matches(q: Query) {
      prefix.Covers(q.address) && FilterMatches(filter, action, q)
    }

    function Rank(): Priority {
      RulePriority(prefix.len, filter, action)
    }
  }

  /** A policy with at least one directional rule is stateful as a whole. */
  predicate IsStateful(allow: seq<Rule>, block: seq<Rule>) {
    || (exists i :: 0 <= i < |allow| && allow[i].Stateful?)
    || (exists i :: 0 <= i < |block| && block[i].Stateful?)
  }

  function TargetPrefixes(target: Target, site: Site): set<Prefix> {
    match target
    case ToPrefix(prefix) => {prefix.Truncated()}
    case ToHost => {Prefix(site.host, 32)}
    case ToPeers => set i | 0 <= i < |site.peers| :: Prefix(site.peers[i], 32)
  }

  /** Bare rules apply outbound, and in stateful mode in both directions. */
  predicate Applies(rule: Rule, direction: Direction, stateful: bool) {
    match rule
    case Stateless(_) => stateful || direction == Out
    case Stateful(d, _, _) => d == direction
  }

  function RuleFilter(rule: Rule): Filter {
    match rule
    case Stateless(_) => NO_FILTER
    case Stateful(_, _, filter) => filter
  }

  function RuleEntries(rule: Rule, action: Action, direction: Direction, stateful: bool, site: Site): set<Entry> {
    if Applies(rule, direction, stateful) then
      set p | p in TargetPrefixes(rule.target, site) :: Entry(p, RuleFilter(rule), action)
    else
      {}
  }

  function ListEntries(rules: seq<Rule>, action: Action, direction: Direction, stateful: bool, site: Site): set<Entry> {
    set i, e | 0 <= i < |rules| && e in RuleEntries(rules[i], action, direction, stateful, site) :: e
  }

  function PolicyEntries(allow: seq<Rule>, block: seq<Rule>, direction: Direction, stateful: bool,
                         site: Site): set<Entry> {
    ListEntries(allow, Allow, direction, stateful, site) + ListEntries(block, Block, direction, stateful, site)
  }

  /** `e` matches, and no matching entry outranks it. */
  ghost predicate Wins(entries: set<Entry>, q: Query, e: Entry) {
    && e in entries
    && e.Matches(q)
    && forall other :: other in entries && other.Matches(q) ==> other.Rank().AtMost(e.Rank())
  }

  ghost function FlatSelect(entries: set<Entry>, q: Query): Option<Action> {
    if exists e :: Wins(entries, q, e) && e.action == Block then Some(Block)
    else if exists e :: Wins(entries, q, e) then Some(Allow)
    else None
  }

  /** The winner of a lookup is a maximum of the priority order, and every maximum acts alike. */
  lemma FlatSelectIsMaximum(entries: set<Entry>, q: Query, e: Entry)
    requires Wins(entries, q, e)
    ensures FlatSelect(entries, q) == Some(e.action)
  {
    if e.action == Allow && exists b :: Wins(entries, q, b) && b.action == Block {
      var b :| Wins(entries, q, b) && b.action == Block;
      assert b.Rank().AtMost(e.Rank());
    }
  }

  /** Nothing is selected exactly when nothing matches. */
  lemma FlatSelectNone(entries: set<Entry>, q: Query)
    ensures FlatSelect(entries, q).None? <==> forall e :: e in entries ==> !e.Matches(q)
  {
    var matching := Matching(entries, q);
    if matching == {} {
      forall e | e in entries ensures !e.Matches(q) {
        assert e !in matching;
      }
    } else {
      var top := MaximumExists(matching);
      WinsOverMatching(entries, q, matching, top);
    }
  }

  lemma WinsOverMatching(entries: set<Entry>, q: Query, matching: set<Entry>, top: Entry)
    requires matching == Matching(entries, q)
    requires top in matching
    requires forall e :: e in matching ==> e.Rank().AtMost(top.Rank())
    ensures Wins(entries, q, top)
    ensures top in entries && top.Matches(q)
  {
    forall other | other in entries && other.Matches(q)
      ensures other.Rank().AtMost(top.Rank())
    {
      assert other in matching;
    }
  }

  lemma AtMostTransitive(a: Priority, b: Priority, c: Priority)
    requires a.AtMost(b) && b.AtMost(c)
    ensures a.AtMost(c)
  {
  }

  lemma {:induction false} MaximumExists(entries: set<Entry>) returns (top: Entry)
    requires entries != {}
    ensures top in entries
    ensures forall e :: e in entries ==> e.Rank().AtMost(top.Rank())
  {
    var e :| e in entries;
    var rest := entries - {e};
    if rest == {} {
      top := e;
      assert entries == {e};
    } else {
      var best := MaximumExists(rest);
      top := if best.Rank().AtMost(e.Rank()) then e else best;
      forall x | x in entries ensures x.Rank().AtMost(top.Rank()) {
        if x in rest {
          AtMostTransitive(x.Rank(), best.Rank(), top.Rank());
        }
      }
    }
  }

  // ---------------------------------------------------------------------------
  // The compiled form

  type FilterRules = seq<(Filter, Action)>
  type PendingRules = map<Prefix, map<Filter, Action>>
  type CompiledRules = map<Prefix, FilterRules>

  datatype Rules = Rules(stateful: bool, inbound: CompiledRules, outbound: CompiledRules) {
    function Toward(direction: Direction): CompiledRules {
      if direction == In then inbound else outbound
    }
  }

  /** `pending` is the merge of `entries`, in which a block overrides an identical allow. */
  ghost predicate Merges(pending: PendingRules, entries: set<Entry>) {
    && (forall e :: e in entries ==> e.prefix in pending && e.filter in pending[e.prefix])
    && (forall p, f :: p in pending && f in pending[p] ==>
          && Entry(p, f, pending[p][f]) in entries
          && (Entry(p, f, Block) in entries ==> pending[p][f] == Block))
    && (forall p :: p in pending ==> pending[p] != map[])
  }

  /** A sorted listing of one prefix's filters, in any order the ties leave open. */
  ghost predicate SortedListing(listing: FilterRules, filters: map<Filter, Action>, len: PrefixLen) {
    && (forall f, a :: (f, a) in listing <==> f in filters && filters[f] == a)
    && (forall i, j :: 0 <= i < j < |listing| ==> listing[i] != listing[j])
    && (forall i, j :: 0 <= i < j < |listing| ==>
          RulePriority(len, listing[j].0, listing[j].1).AtMost(RulePriority(len, listing[i].0, listing[i].1)))
  }

  ghost predicate Compiles(compiled: CompiledRules, pending: PendingRules) {
    && compiled.Keys == pending.Keys
    && forall p :: p in compiled ==> SortedListing(compiled[p], pending[p], p.len)
  }

  /** `compiled` is a possible compilation of `entries`. */
  ghost predicate CompilationOf(compiled: CompiledRules, entries: set<Entry>) {
    exists pending :: Merges(pending, entries) && Compiles(compiled, pending)
  }

  ghost predicate IsCompilation(rules: Rules, allow: seq<Rule>, block: seq<Rule>, site: Site) {
    && rules.stateful == IsStateful(allow, block)
    && CompilationOf(rules.inbound, PolicyEntries(allow, block, In, rules.stateful, site))
    && CompilationOf(rules.outbound, PolicyEntries(allow, block, Out, rules.stateful, site))
  }

  // ---------------------------------------------------------------------------
  // Lookup

  function FilterAction(listing: FilterRules, q: Query): Option<(Filter, Action)> {
    if listing == [] then None
    else if FilterMatches(listing[0].0, listing[0].1, q) then Some(listing[0])
    else FilterAction(listing[1..], q)
  }

  /** The key at which a lookup of `q` meets the prefixes of one length. */
  function CoverKey(q: Query, len: PrefixLen): Prefix {
    Prefix(Truncate(q.address, len), len)
  }

  /** What a lookup finds at one key. */
  function FoundAt(compiled: CompiledRules, q: Query, key: Prefix): Option<Entry> {
    if key !in compiled then None
    else
      match FilterAction(compiled[key], q)
      case None => None
      case Some((filter, action)) => Some(Entry(key, filter, action))
  }

  /** The best match over covering prefixes shorter than `n`; a later maximum replaces an equal one. */
  function Best(compiled: CompiledRules, q: Query, n: nat): Option<(Priority, Action)>
    requires n <= 33
  {
    if n == 0 then None
    else
      var best := Best(compiled, q, n - 1);
      var found := FoundAt(compiled, q, CoverKey(q, n - 1));
      if found.None? || (best.Some? && !best.value.0.AtMost(found.value.Rank())) then best
      else Some((found.value.Rank(), found.value.action))
  }

  function Select(compiled: CompiledRules, q: Query): Option<Action> {
    match Best(compiled, q, 33)
    case None => None
    case Some((_, action)) => Some(action)
  }

  // ---------------------------------------------------------------------------
  // Correctness of lookup

  lemma {:induction false} FirstMatchIsBest(listing: FilterRules, filters: map<Filter, Action>, len: PrefixLen,
                                            q: Query)
    requires SortedListing(listing, filters, len)
    ensures FilterAction(listing, q).None? ==> forall f :: f in filters ==> !FilterMatches(f, filters[f], q)
    ensures FilterAction(listing, q).Some? ==>
              var (f, a) := FilterAction(listing, q).value;
              && f in filters && filters[f] == a && FilterMatches(f, a, q)
              && forall g :: g in filters && FilterMatches(g, filters[g], q) ==>
                   RulePriority(len, g, filters[g]).AtMost(RulePriority(len, f, a))
  {
    var k := FirstMatchIndex(listing, q);
    forall g | g in filters && FilterMatches(g, filters[g], q)
      ensures exists j :: k <= j < |listing| && listing[j] == (g, filters[g])
    {
      assert (g, filters[g]) in listing;
    }
    if k < |listing| {
      var (f, a) := listing[k];
      assert (f, a) in listing;
    }
  }

  lemma {:induction false} FirstMatchIndex(listing: FilterRules, q: Query) returns (k: nat)
    ensures k <= |listing|
    ensures forall j :: 0 <= j < k ==> !FilterMatches(listing[j].0, listing[j].1, q)
    ensures k == |listing| ==> FilterAction(listing, q).None?
    ensures k < |listing| ==>
              FilterAction(listing, q) == Some(listing[k]) && FilterMatches(listing[k].0, listing[k].1, q)
  {
    if listing == [] || FilterMatches(listing[0].0, listing[0].1, q) {
      k := 0;
    } else {
      k := FirstMatchIndex(listing[1..], q);
      k := k + 1;
    }
  }

  ghost predicate Truncated(entries: set<Entry>) {
    forall e :: e in entries ==> e.prefix.Truncated() == e.prefix
  }

  ghost function Matching(entries: set<Entry>, q: Query): set<Entry> {
    set e | e in entries && e.Matches(q)
  }

  /** `best` is the top among the entries whose prefix is shorter than `n`. */
  ghost predicate TopBelow(best: Option<(Priority, Action)>, matching: set<Entry>, n: nat) {
    match best
    case None => forall e :: e in matching ==> n <= e.prefix.len
    case Some((priority, action)) =>
      exists e :: IsTopBelow(e, matching, n) && priority == e.Rank() && action == e.action
  }

  ghost predicate IsTopBelow(top: Entry, matching: set<Entry>, n: nat) {
    && top in matching && top.prefix.len < n
    && forall e :: e in matching && e.prefix.len < n ==> e.Rank().AtMost(top.Rank())
  }

  /** `here` is the top among the entries whose prefix has length `len`. */
  ghost predicate TopAt(here: Option<Entry>, matching: set<Entry>, len: PrefixLen) {
    match here
    case None => forall e :: e in matching ==> e.prefix.len != len
    case Some(top) =>
      && top in matching && top.prefix.len == len
      && forall e :: e in matching && e.prefix.len == len ==> e.Rank().AtMost(top.Rank())
  }

  lemma LevelsCombine(best: Option<(Priority, Action)>, here: Option<Entry>, matching: set<Entry>, len: PrefixLen)
    requires TopBelow(best, matching, len)
    requires TopAt(here, matching, len)
    ensures TopBelow(
              if here.None? || (best.Some? && !best.value.0.AtMost(here.value.Rank())) then best
              else Some((here.value.Rank(), here.value.action)),
              matching, len + 1)
  {
    if best.Some? {
      var e :| IsTopBelow(e, matching, len) && best.value == (e.Rank(), e.action);
      var top := if here.Some? && e.Rank().AtMost(here.value.Rank()) then here.value else e;
      forall x | x in matching && x.prefix.len < len + 1 ensures x.Rank().AtMost(top.Rank()) {
        if x.prefix.len < len {
          AtMostTransitive(x.Rank(), e.Rank(), top.Rank());
        } else {
          AtMostTransitive(x.Rank(), here.value.Rank(), top.Rank());
        }
      }
      assert IsTopBelow(top, matching, len + 1);
    } else if here.Some? {
      assert IsTopBelow(here.value, matching, len + 1);
    }
  }

  lemma MatchingAtLevel(entries: set<Entry>, q: Query, e: Entry)
    requires Truncated(entries)
    ensures e in Matching(entries, q) <==>
            e in entries && e.prefix == CoverKey(q, e.prefix.len) && FilterMatches(e.filter, e.action, q)
  {
    if e in entries {
      CoverIsUnique(e.prefix, q.address);
    }
  }

  /** One prefix level: its first compatible filter stands for every matching entry at that level. */
  lemma LevelIsBest(compiled: CompiledRules, pending: PendingRules, entries: set<Entry>, q: Query, len: PrefixLen)
    requires Truncated(entries) && Merges(pending, entries) && Compiles(compiled, pending)
    ensures TopAt(FoundAt(compiled, q, CoverKey(q, len)), Matching(entries, q), len)
  {
    var key := CoverKey(q, len);
    var found := FoundAt(compiled, q, key);
    if key in compiled {
      FirstMatchIsBest(compiled[key], pending[key], len, q);
    }
    forall e | e in Matching(entries, q) && e.prefix.len == len
      ensures found.Some? && e.Rank().AtMost(found.value.Rank())
    {
      MatchingAtLevel(entries, q, e);
      MergedOutranks(pending, entries, e, q);
    }
    if found.Some? {
      MatchingAtLevel(entries, q, found.value);
    }
  }

  /** A merged filter matches wherever one of its entries does, and ranks at least as high. */
  lemma MergedOutranks(pending: PendingRules, entries: set<Entry>, e: Entry, q: Query)
    requires Merges(pending, entries) && e in entries && FilterMatches(e.filter, e.action, q)
    ensures e.prefix in pending && e.filter in pending[e.prefix]
    ensures FilterMatches(e.filter, pending[e.prefix][e.filter], q)
    ensures e.Rank().AtMost(RulePriority(e.prefix.len, e.filter, pending[e.prefix][e.filter]))
  {
  }

  /** At every prefix length the lookup finds the top match of that length. */
  ghost predicate FindsTops(compiled: CompiledRules, q: Query, matching: set<Entry>) {
    forall len: PrefixLen :: TopAt(FoundAt(compiled, q, CoverKey(q, len)), matching, len)
  }

  lemma BestUnfold(compiled: CompiledRules, q: Query, n: nat, found: Option<Entry>)
    requires n < 33 && found == FoundAt(compiled, q, CoverKey(q, n))
    ensures
      var best := Best(compiled, q, n);
      Best(compiled, q, n + 1) ==
      if found.None? || (best.Some? && !best.value.0.AtMost(found.value.Rank())) then best
      else Some((found.value.Rank(), found.value.action))
  {
  }

  lemma {:induction false} BestIsTop(compiled: CompiledRules, q: Query, matching: set<Entry>, n: nat)
    requires n <= 33 && FindsTops(compiled, q, matching)
    ensures TopBelow(Best(compiled, q, n), matching, n)
  {
    if n > 0 {
      var found := FoundAt(compiled, q, CoverKey(q, n - 1));
      BestIsTop(compiled, q, matching, n - 1);
      BestUnfold(compiled, q, n - 1, found);
      LevelsCombine(Best(compiled, q, n - 1), found, matching, n - 1);
    }
  }

  /** Compiler correctness: lookup in any compilation is the flat maximum over all rules. */
  lemma SelectIsFlat(compiled: CompiledRules, entries: set<Entry>, q: Query)
    requires Truncated(entries)
    requires CompilationOf(compiled, entries)
    ensures Select(compiled, q) == FlatSelect(entries, q)
  {
    var pending :| Merges(pending, entries) && Compiles(compiled, pending);
    assert FindsTops(compiled, q, Matching(entries, q)) by {
      forall len: PrefixLen ensures TopAt(FoundAt(compiled, q, CoverKey(q, len)), Matching(entries, q), len) {
        LevelIsBest(compiled, pending, entries, q, len);
      }
    }
    BestIsTop(compiled, q, Matching(entries, q), 33);
    TopIsFlat(Best(compiled, q, 33), entries, q);
  }

  lemma TopIsFlat(best: Option<(Priority, Action)>, entries: set<Entry>, q: Query)
    requires TopBelow(best, Matching(entries, q), 33)
    ensures FlatSelect(entries, q) == if best.Some? then Some(best.value.1) else None
  {
    if best.Some? {
      var e :| IsTopBelow(e, Matching(entries, q), 33) && best.value == (e.Rank(), e.action);
      WinsOverMatching(entries, q, Matching(entries, q), e);
      FlatSelectIsMaximum(entries, q, e);
    } else {
      forall e | e in entries ensures !e.Matches(q) {
        assert e !in Matching(entries, q);
      }
      FlatSelectNone(entries, q);
    }
  }

  lemma PolicyEntriesTruncated(allow: seq<Rule>, block: seq<Rule>, direction: Direction, stateful: bool, site: Site)
    ensures Truncated(PolicyEntries(allow, block, direction, stateful, site))
  {
    forall e | e in PolicyEntries(allow, block, direction, stateful, site)
      ensures e.prefix.Truncated() == e.prefix
    {
      if e.prefix.len == 32 {
        assert Pow2(0) == 1;
        assert BlockSize(32) == 1;
      }
      forall rule: Rule | e.prefix in TargetPrefixes(rule.target, site)
        ensures e.prefix.Truncated() == e.prefix
      {
        if rule.target.ToPrefix? {
          TruncatedIsTruncated(rule.target.prefix);
        }
      }
    }
  }

  /** The whole compiler: raw lists in, the flat maximum of the raw lists out. */
  lemma CompilerIsCorrect(rules: Rules, allow: seq<Rule>, block: seq<Rule>, site: Site, direction: Direction, q: Query)
    requires IsCompilation(rules, allow, block, site)
    ensures Select(rules.Toward(direction), q) ==
            FlatSelect(PolicyEntries(allow, block, direction, IsStateful(allow, block), site), q)
  {
    var entries := PolicyEntries(allow, block, direction, rules.stateful, site);
    PolicyEntriesTruncated(allow, block, direction, rules.stateful, site);
    SelectIsFlat(rules.Toward(direction), entries, q);
  }
}
