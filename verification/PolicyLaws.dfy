/**
 Laws of compiled policies: how a selection moves when a rule is added, and how
 many filters a policy compiles to.
 */
module PolicyLaws {
  import opened Net
  import opened RuleModel
  import opened PolicyCompiler
  import opened PolicyBuilder

  // ---------------------------------------------------------------------------
  // Monotonicity

  /** Adding entries of one action leaves a selection alone or turns it into that action. */
  lemma AddingEntries(entries: set<Entry>, extra: set<Entry>, action: Action, q: Query)
    requires forall e :: e in extra ==> e.action == action
    ensures FlatSelect(entries + extra, q) in {FlatSelect(entries, q), Some(action)}
  {
    var all := entries + extra;
    FlatSelectNone(all, q);
    FlatSelectNone(entries, q);
    if w :| Wins(all, q, w) {
      FlatSelectIsMaximum(all, q, w);
      if w in entries {
        assert Wins(entries, q, w);
        FlatSelectIsMaximum(entries, q, w);
      }
    }
  }

  /** The list with one more rule, wherever it is put. */
  function WithRule(rules: seq<Rule>, k: nat, rule: Rule): seq<Rule>
    requires k <= |rules|
  {
    rules[..k] + [rule] + rules[k..]
  }

  lemma WithRuleEntries(rules: seq<Rule>, k: nat, rule: Rule, action: Action, direction: Direction, stateful: bool,
                        site: Site)
    requires k <= |rules|
    ensures ListEntries(WithRule(rules, k, rule), action, direction, stateful, site) ==
            ListEntries(rules, action, direction, stateful, site) + RuleEntries(rule, action, direction, stateful, site)
  {
    var more := WithRule(rules, k, rule);
    forall i | 0 <= i < |rules| ensures rules[i] == more[if i < k then i else i + 1] {
    }
    forall e | e in ListEntries(more, action, direction, stateful, site)
      ensures e in ListEntries(rules, action, direction, stateful, site) +
                   RuleEntries(rule, action, direction, stateful, site)
    {
      var i :| 0 <= i < |more| && e in RuleEntries(more[i], action, direction, stateful, site);
      if i != k {
        assert more[i] == rules[if i < k then i else i - 1];
      }
    }
    forall e | e in ListEntries(rules, action, direction, stateful, site) +
                    RuleEntries(rule, action, direction, stateful, site)
      ensures e in ListEntries(more, action, direction, stateful, site)
    {
      if e in RuleEntries(rule, action, direction, stateful, site) {
        assert more[k] == rule;
      } else {
        var i :| 0 <= i < |rules| && e in RuleEntries(rules[i], action, direction, stateful, site);
        assert more[if i < k then i else i + 1] == rules[i];
      }
    }
  }

  lemma EntriesWithBlock(allow: seq<Rule>, block: seq<Rule>, k: nat, rule: Rule, direction: Direction,
                         stateful: bool, site: Site)
    requires k <= |block|
    ensures PolicyEntries(allow, WithRule(block, k, rule), direction, stateful, site) ==
            PolicyEntries(allow, block, direction, stateful, site) + RuleEntries(rule, Block, direction, stateful, site)
  {
    WithRuleEntries(block, k, rule, Block, direction, stateful, site);
  }

  /** With the mode fixed, one more block rule can only turn a selection into a block. */
  lemma AddingABlockRule(before: Rules, after: Rules, allow: seq<Rule>, block: seq<Rule>, k: nat, rule: Rule,
                         site: Site, direction: Direction, q: Query)
    requires k <= |block|
    requires IsCompilation(before, allow, block, site)
    requires IsCompilation(after, allow, WithRule(block, k, rule), site)
    requires before.stateful == after.stateful
    ensures Select(after.Toward(direction), q) in {Select(before.Toward(direction), q), Some(Block)}
  {
    var entries := PolicyEntries(allow, block, direction, before.stateful, site);
    var extra := RuleEntries(rule, Block, direction, before.stateful, site);
    assert Select(before.Toward(direction), q) == FlatSelect(entries, q) by {
      CompilerIsCorrect(before, allow, block, site, direction, q);
    }
    assert Select(after.Toward(direction), q) == FlatSelect(entries + extra, q) by {
      CompilerIsCorrect(after, allow, WithRule(block, k, rule), site, direction, q);
      EntriesWithBlock(allow, block, k, rule, direction, before.stateful, site);
    }
    AddingEntries(entries, extra, Block, q);
  }

  lemma EntriesWithAllow(allow: seq<Rule>, block: seq<Rule>, k: nat, rule: Rule, direction: Direction,
                         stateful: bool, site: Site)
    requires k <= |allow|
    ensures PolicyEntries(WithRule(allow, k, rule), block, direction, stateful, site) ==
            PolicyEntries(allow, block, direction, stateful, site) + RuleEntries(rule, Allow, direction, stateful, site)
  {
    WithRuleEntries(allow, k, rule, Allow, direction, stateful, site);
  }

  /** With the mode fixed, one more allow rule can only turn a selection into an allow. */
  lemma AddingAnAllowRule(before: Rules, after: Rules, allow: seq<Rule>, block: seq<Rule>, k: nat, rule: Rule,
                          site: Site, direction: Direction, q: Query)
    requires k <= |allow|
    requires IsCompilation(before, allow, block, site)
    requires IsCompilation(after, WithRule(allow, k, rule), block, site)
    requires before.stateful == after.stateful
    ensures Select(after.Toward(direction), q) in {Select(before.Toward(direction), q), Some(Allow)}
  {
    var entries := PolicyEntries(allow, block, direction, before.stateful, site);
    var extra := RuleEntries(rule, Allow, direction, before.stateful, site);
    assert Select(before.Toward(direction), q) == FlatSelect(entries, q) by {
      CompilerIsCorrect(before, allow, block, site, direction, q);
    }
    assert Select(after.Toward(direction), q) == FlatSelect(entries + extra, q) by {
      CompilerIsCorrect(after, WithRule(allow, k, rule), block, site, direction, q);
      EntriesWithAllow(allow, block, k, rule, direction, before.stateful, site);
    }
    AddingEntries(entries, extra, Allow, q);
  }

  // ---------------------------------------------------------------------------
  // The rule count

  /** The distinct (prefix, filter) pairs of a set of entries. */
  ghost function Pairs(entries: set<Entry>): set<(Prefix, Filter)> {
    set e | e in entries :: (e.prefix, e.filter)
  }

  ghost function FilterSet(listing: FilterRules): set<Filter> {
    set x | x in listing :: x.0
  }

  lemma {:induction false} DistinctFilters(listing: FilterRules)
    requires forall i, j :: 0 <= i < j < |listing| ==> listing[i].0 != listing[j].0
    ensures |FilterSet(listing)| == |listing|
  {
    if listing != [] {
      var last := |listing| - 1;
      DistinctFilters(listing[..last]);
      assert listing == listing[..last] + [listing[last]];
      assert FilterSet(listing) == FilterSet(listing[..last]) + {listing[last].0};
      assert listing[last].0 !in FilterSet(listing[..last]);
    }
  }

  lemma ListingCounts(listing: FilterRules, filters: map<Filter, Action>, len: PrefixLen)
    requires SortedListing(listing, filters, len)
    ensures FilterSet(listing) == filters.Keys
    ensures |listing| == |filters.Keys|
  {
    forall i, j | 0 <= i < j < |listing| ensures listing[i].0 != listing[j].0 {
      assert (listing[i].0, listing[i].1) in listing && (listing[j].0, listing[j].1) in listing;
    }
    DistinctFilters(listing);
    forall f ensures f in FilterSet(listing) <==> f in filters {
      if f in FilterSet(listing) {
        var x :| x in listing && x.0 == f;
        assert (x.0, x.1) in listing;
      }
      if f in filters {
        assert (f, filters[f]) in listing;
      }
    }
  }

  ghost function PairsAt(pending: PendingRules, prefixes: set<Prefix>): set<(Prefix, Filter)> {
    set p, f | p in prefixes && p in pending && f in pending[p] :: (p, f)
  }

  lemma OnePrefixMore(pending: PendingRules, done: set<Prefix>, p: Prefix)
    requires p in pending && p !in done
    ensures |PairsAt(pending, done + {p})| == |PairsAt(pending, done)| + |pending[p].Keys|
  {
    var here := set f | f in pending[p] :: (p, f);
    assert PairsAt(pending, done + {p}) == PairsAt(pending, done) + here;
    assert PairsAt(pending, done) !! here;
    Tagged(p, pending[p].Keys);
    assert here == set f | f in pending[p].Keys :: (p, f);
  }

  lemma {:induction false} Tagged(p: Prefix, filters: set<Filter>)
    ensures |set f | f in filters :: (p, f)| == |filters|
  {
    if filters != {} {
      var f :| f in filters;
      Tagged(p, filters - {f});
      assert (set g | g in filters :: (p, g)) == (set g | g in filters - {f} :: (p, g)) + {(p, f)};
    }
  }

  /** Every listing is as long as its prefix has filters. */
  ghost predicate SameSizes(compiled: CompiledRules, pending: PendingRules) {
    && compiled.Keys == pending.Keys
    && forall p :: p in compiled ==> |compiled[p]| == |pending[p].Keys|
  }

  lemma CompilingKeepsSizes(compiled: CompiledRules, pending: PendingRules)
    requires Compiles(compiled, pending)
    ensures SameSizes(compiled, pending)
  {
    forall p | p in compiled ensures |compiled[p]| == |pending[p].Keys| {
      ListingCounts(compiled[p], pending[p], p.len);
    }
  }

  /** The number of filters the prefixes outside `todo` hold. */
  ghost function Counted(pending: PendingRules, todo: set<Prefix>): nat {
    |PairsAt(pending, pending.Keys - todo)|
  }

  lemma CountBounds(compiled: CompiledRules, pending: PendingRules)
    requires SameSizes(compiled, pending)
    ensures Counted(pending, compiled.Keys) == 0
    ensures Counted(pending, {}) == |PairsAt(pending, pending.Keys)|
  {
    assert PairsAt(pending, pending.Keys - compiled.Keys) == {};
    assert pending.Keys - {} == pending.Keys;
  }

  lemma CountNext(compiled: CompiledRules, pending: PendingRules, todo: set<Prefix>, p: Prefix)
    requires SameSizes(compiled, pending)
    requires p in todo && todo <= compiled.Keys
    ensures Counted(pending, todo - {p}) == Counted(pending, todo) + |compiled[p]|
  {
    OnePrefixMore(pending, pending.Keys - todo, p);
    assert pending.Keys - (todo - {p}) == pending.Keys - todo + {p};
  }

  /** Sums the list lengths of one direction, prefix by prefix. */
  method CountFilters(compiled: CompiledRules, ghost pending: PendingRules) returns (n: nat)
    requires SameSizes(compiled, pending)
    ensures n == Counted(pending, {})
  {
    n := 0;
    var todo := compiled.Keys;
    CountBounds(compiled, pending);
    while todo != {}
      invariant todo <= compiled.Keys
      invariant n == Counted(pending, todo)
      decreases todo
    {
      var p :| p in todo;
      CountNext(compiled, pending, todo, p);
      n := n + |compiled[p]|;
      todo := todo - {p};
    }
  }

  /** The merge a compilation came from has one filter per distinct pair. */
  lemma CompilationPairs(compiled: CompiledRules, entries: set<Entry>) returns (pending: PendingRules)
    requires CompilationOf(compiled, entries)
    ensures SameSizes(compiled, pending)
    ensures Counted(pending, {}) == |Pairs(entries)|
  {
    pending :| Merges(pending, entries) && Compiles(compiled, pending);
    CompilingKeepsSizes(compiled, pending);
    PairsOfMerge(pending, entries);
    CountBounds(compiled, pending);
  }

  lemma PairsOfMerge(pending: PendingRules, entries: set<Entry>)
    requires Merges(pending, entries)
    ensures PairsAt(pending, pending.Keys) == Pairs(entries)
  {
    forall p, f | p in pending && f in pending[p] ensures (p, f) in Pairs(entries) {
      assert Entry(p, f, pending[p][f]) in entries;
    }
  }

  /** The number of distinct (direction, prefix, filter) triples of a policy. */
  ghost function DistinctFilterCount(allow: seq<Rule>, block: seq<Rule>, site: Site): nat {
    var stateful := IsStateful(allow, block);
    |Pairs(PolicyEntries(allow, block, In, stateful, site))| + |Pairs(PolicyEntries(allow, block, Out, stateful, site))|
  }

  /** The count reported to the control socket. */
  method CountRules(rules: Rules, ghost allow: seq<Rule>, ghost block: seq<Rule>, ghost site: Site) returns (n: nat)
    requires IsCompilation(rules, allow, block, site)
    ensures n == DistinctFilterCount(allow, block, site)
  {
    ghost var ins := CompilationPairs(rules.inbound, PolicyEntries(allow, block, In, rules.stateful, site));
    ghost var outs := CompilationPairs(rules.outbound, PolicyEntries(allow, block, Out, rules.stateful, site));
    var inbound := CountFilters(rules.inbound, ins);
    var outbound := CountFilters(rules.outbound, outs);
    n := inbound + outbound;
  }
}
