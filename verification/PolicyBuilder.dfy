/**
 Building a compiled policy. Iteration over a hash map and the unstable sort are
 left open: whichever prefix comes next and whichever of several equally ranked
 filters goes first, the result is a compilation of the rule lists.
 */
module PolicyBuilder {
  import opened Net
  import opened RuleModel
  import opened PolicyCompiler

  function Insert(pending: PendingRules, prefix: Prefix, filter: Filter, action: Action): PendingRules {
    var filters := if prefix in pending then pending[prefix] else map[];
    pending[prefix := filters[filter := action]]
  }

  /** Allows are inserted before blocks, so an allow never overwrites a block. */
  ghost predicate MayInsert(entries: set<Entry>, action: Action) {
    action == Allow ==> forall e :: e in entries ==> e.action == Allow
  }

  lemma InsertMerges(pending: PendingRules, entries: set<Entry>, prefix: Prefix, filter: Filter, action: Action)
    requires Merges(pending, entries) && MayInsert(entries, action)
    ensures Merges(Insert(pending, prefix, filter, action), entries + {Entry(prefix, filter, action)})
  {
    var after := Insert(pending, prefix, filter, action);
    var entries' := entries + {Entry(prefix, filter, action)};
    forall p, f | p in after && f in after[p]
      ensures Entry(p, f, after[p][f]) in entries'
      ensures Entry(p, f, Block) in entries' ==> after[p][f] == Block
    {
      if p == prefix && f == filter {
        assert after[p][f] == action;
      } else {
        assert p in pending && f in pending[p] && after[p][f] == pending[p][f];
      }
    }
  }

  ghost function TargetEntries(target: Target, filter: Filter, action: Action, site: Site): set<Entry> {
    set p | p in TargetPrefixes(target, site) :: Entry(p, filter, action)
  }

  ghost function PeerEntries(peers: seq<Address>, filter: Filter, action: Action): set<Entry> {
    set i | 0 <= i < |peers| :: Entry(Prefix(peers[i], 32), filter, action)
  }

  method InsertPeers(pending: PendingRules, filter: Filter, action: Action, peers: seq<Address>,
                     ghost entries: set<Entry>)
    returns (after: PendingRules)
    requires Merges(pending, entries) && MayInsert(entries, action)
    ensures Merges(after, entries + PeerEntries(peers, filter, action))
  {
    after := pending;
    ghost var sofar := entries;
    for k := 0 to |peers|
      invariant sofar == entries + PeerEntries(peers[..k], filter, action)
      invariant Merges(after, sofar) && MayInsert(sofar, action)
    {
      InsertMerges(after, sofar, Prefix(peers[k], 32), filter, action);
      after := Insert(after, Prefix(peers[k], 32), filter, action);
      sofar := sofar + {Entry(Prefix(peers[k], 32), filter, action)};
      PeerEntriesStep(peers, k, filter, action);
    }
    assert peers[..|peers|] == peers;
  }

  lemma PeerEntriesStep(peers: seq<Address>, k: nat, filter: Filter, action: Action)
    requires k < |peers|
    ensures PeerEntries(peers[..k + 1], filter, action) ==
            PeerEntries(peers[..k], filter, action) + {Entry(Prefix(peers[k], 32), filter, action)}
  {
    forall e | e in PeerEntries(peers[..k], filter, action) + {Entry(Prefix(peers[k], 32), filter, action)}
      ensures e in PeerEntries(peers[..k + 1], filter, action)
    {
      if e in PeerEntries(peers[..k], filter, action) {
        var i :| 0 <= i < k && e == Entry(Prefix(peers[..k][i], 32), filter, action);
        assert peers[..k + 1][i] == peers[..k][i];
      } else {
        assert peers[..k + 1][k] == peers[k];
      }
    }
  }

  method InsertFilter(pending: PendingRules, target: Target, filter: Filter, action: Action, site: Site,
                      ghost entries: set<Entry>)
    returns (after: PendingRules)
    requires Merges(pending, entries) && MayInsert(entries, action)
    ensures Merges(after, entries + TargetEntries(target, filter, action, site))
  {
    var prefix;
    match target {
      case ToPrefix(p) =>
        prefix := p.Truncated();
      case ToHost =>
        prefix := Prefix(site.host, 32);
      case ToPeers =>
        after := InsertPeers(pending, filter, action, site.peers, entries);
        assert TargetEntries(target, filter, action, site) == PeerEntries(site.peers, filter, action);
        return;
    }
    InsertMerges(pending, entries, prefix, filter, action);
    after := Insert(pending, prefix, filter, action);
    assert TargetEntries(target, filter, action, site) == {Entry(prefix, filter, action)};
  }

  lemma ListEntriesStep(rules: seq<Rule>, k: nat, action: Action, direction: Direction, stateful: bool, site: Site)
    requires k < |rules|
    ensures ListEntries(rules[..k + 1], action, direction, stateful, site) ==
            ListEntries(rules[..k], action, direction, stateful, site) +
            RuleEntries(rules[k], action, direction, stateful, site)
  {
    forall e | e in ListEntries(rules[..k + 1], action, direction, stateful, site)
      ensures e in ListEntries(rules[..k], action, direction, stateful, site) +
                   RuleEntries(rules[k], action, direction, stateful, site)
    {
      var i :| 0 <= i < k + 1 && e in RuleEntries(rules[..k + 1][i], action, direction, stateful, site);
      assert i < k ==> rules[..k][i] == rules[i];
    }
    forall e | e in ListEntries(rules[..k], action, direction, stateful, site) +
                    RuleEntries(rules[k], action, direction, stateful, site)
      ensures e in ListEntries(rules[..k + 1], action, direction, stateful, site)
    {
      if e in RuleEntries(rules[k], action, direction, stateful, site) {
        assert rules[..k + 1][k] == rules[k];
      } else {
        var i :| 0 <= i < k && e in RuleEntries(rules[..k][i], action, direction, stateful, site);
        assert rules[..k + 1][i] == rules[..k][i];
      }
    }
  }

  /** Adds one rule to the directions it applies to. */
  method AddRule(inbound: PendingRules, outbound: PendingRules, rule: Rule, action: Action, stateful: bool,
                 site: Site, ghost ins: set<Entry>, ghost outs: set<Entry>)
    returns (inbound': PendingRules, outbound': PendingRules)
    requires Merges(inbound, ins) && MayInsert(ins, action)
    requires Merges(outbound, outs) && MayInsert(outs, action)
    ensures Merges(inbound', ins + RuleEntries(rule, action, In, stateful, site))
    ensures Merges(outbound', outs + RuleEntries(rule, action, Out, stateful, site))
  {
    inbound', outbound' := inbound, outbound;
    var direction, target, filter;
    match rule {
      case Stateless(t) =>
        target, filter, direction := t, NO_FILTER, Out;
        if stateful {
          inbound' := InsertFilter(inbound', target, filter, action, site, ins);
        }
      case Stateful(d, t, f) =>
        direction, target, filter := d, t, f;
    }
    match direction {
      case In => inbound' := InsertFilter(inbound', target, filter, action, site, ins);
      case Out => outbound' := InsertFilter(outbound', target, filter, action, site, outs);
    }
    assert ins + {} == ins && outs + {} == outs;
  }

  /** Adds one list, allow or block, to both directions. */
  method AddRules(inbound: PendingRules, outbound: PendingRules, rules: seq<Rule>, action: Action, stateful: bool,
                  site: Site, ghost ins: set<Entry>, ghost outs: set<Entry>)
    returns (inbound': PendingRules, outbound': PendingRules)
    requires Merges(inbound, ins) && MayInsert(ins, action)
    requires Merges(outbound, outs) && MayInsert(outs, action)
    ensures Merges(inbound', ins + ListEntries(rules, action, In, stateful, site))
    ensures Merges(outbound', outs + ListEntries(rules, action, Out, stateful, site))
  {
    inbound', outbound' := inbound, outbound;
    ghost var ins', outs' := ins, outs;
    for k := 0 to |rules|
      invariant ins' == ins + ListEntries(rules[..k], action, In, stateful, site)
      invariant outs' == outs + ListEntries(rules[..k], action, Out, stateful, site)
      invariant Merges(inbound', ins') && MayInsert(ins', action)
      invariant Merges(outbound', outs') && MayInsert(outs', action)
    {
      inbound', outbound' := AddRule(inbound', outbound', rules[k], action, stateful, site, ins', outs');
      ListEntriesStep(rules, k, action, In, stateful, site);
      ListEntriesStep(rules, k, action, Out, stateful, site);
      ins' := ins' + RuleEntries(rules[k], action, In, stateful, site);
      outs' := outs' + RuleEntries(rules[k], action, Out, stateful, site);
    }
    assert rules[..|rules|] == rules;
  }

  lemma {:induction false} TopFilterExists(filters: map<Filter, Action>, len: PrefixLen) returns (top: Filter)
    requires filters != map[]
    ensures top in filters
    ensures forall f :: f in filters ==> RulePriority(len, f, filters[f]).AtMost(RulePriority(len, top, filters[top]))
  {
    var entries := set f | f in filters :: Entry(Prefix(0, len), f, filters[f]);
    var f :| f in filters;
    assert Entry(Prefix(0, len), f, filters[f]) in entries;
    var e := MaximumExists(entries);
    top := e.filter;
    forall g | g in filters
      ensures RulePriority(len, g, filters[g]).AtMost(RulePriority(len, top, filters[top]))
    {
      assert Entry(Prefix(0, len), g, filters[g]) in entries;
    }
  }

  /** The filters already listed are sorted and rank at least as high as those left. */
  ghost predicate ListedSoFar(listing: FilterRules, rest: map<Filter, Action>, filters: map<Filter, Action>,
                              len: PrefixLen) {
    && rest.Keys <= filters.Keys
    && (forall f :: f in rest ==> rest[f] == filters[f])
    && SortedListing(listing, filters - rest.Keys, len)
    && forall i, f :: 0 <= i < |listing| && f in rest ==>
         RulePriority(len, f, rest[f]).AtMost(RulePriority(len, listing[i].0, listing[i].1))
  }

  lemma ListNext(listing: FilterRules, rest: map<Filter, Action>, filters: map<Filter, Action>, len: PrefixLen,
                 f: Filter)
    requires ListedSoFar(listing, rest, filters, len)
    requires f in rest && forall g :: g in rest ==> RulePriority(len, g, rest[g]).AtMost(RulePriority(len, f, rest[f]))
    ensures ListedSoFar(listing + [(f, rest[f])], rest - {f}, filters, len)
  {
    var listing' := listing + [(f, rest[f])];
    var done := filters - (rest - {f}).Keys;
    assert (f, rest[f]) !in listing;
    forall g, a ensures (g, a) in listing' <==> g in done && done[g] == a {
      assert (g, a) in listing' <==> (g, a) in listing || (g, a) == (f, rest[f]);
    }
  }

  /** Any sort by descending priority: among equally ranked filters any may come first. */
  method SortFilters(filters: map<Filter, Action>, len: PrefixLen) returns (listing: FilterRules)
    ensures SortedListing(listing, filters, len)
  {
    listing := [];
    var rest := filters;
    assert filters - rest.Keys == map[];
    while rest != map[]
      invariant ListedSoFar(listing, rest, filters, len)
      decreases rest.Keys
    {
      ghost var top := TopFilterExists(rest, len);
      var f :| f in rest && forall g :: g in rest ==>
               RulePriority(len, g, rest[g]).AtMost(RulePriority(len, f, rest[f]));
      ListNext(listing, rest, filters, len, f);
      listing := listing + [(f, rest[f])];
      rest := rest - {f};
    }
    assert filters - rest.Keys == filters;
  }

  method CompileRules(pending: PendingRules) returns (compiled: CompiledRules)
    ensures Compiles(compiled, pending)
  {
    compiled := map[];
    var todo := pending.Keys;
    while todo != {}
      invariant todo <= pending.Keys
      invariant compiled.Keys == pending.Keys - todo
      invariant forall p :: p in compiled ==> SortedListing(compiled[p], pending[p], p.len)
      decreases todo
    {
      var p :| p in todo;
      var listing := SortFilters(pending[p], p.len);
      compiled := compiled[p := listing];
      todo := todo - {p};
    }
  }

  method BuildRules(site: Site, allow: seq<Rule>, block: seq<Rule>) returns (rules: Rules)
    ensures IsCompilation(rules, allow, block, site)
  {
    var stateful := IsStateful(allow, block);
    ghost var none: set<Entry> := {};
    var inbound, outbound := AddRules(map[], map[], allow, Allow, stateful, site, none, none);
    ghost var ins := none + ListEntries(allow, Allow, In, stateful, site);
    ghost var outs := none + ListEntries(allow, Allow, Out, stateful, site);
    inbound, outbound := AddRules(inbound, outbound, block, Block, stateful, site, ins, outs);
    assert ins + ListEntries(block, Block, In, stateful, site) == PolicyEntries(allow, block, In, stateful, site);
    assert outs + ListEntries(block, Block, Out, stateful, site) == PolicyEntries(allow, block, Out, stateful, site);
    var compiledIn := CompileRules(inbound);
    var compiledOut := CompileRules(outbound);
    rules := Rules(stateful, compiledIn, compiledOut);
  }

  lemma EveryPrefixHasAnEntry(pending: PendingRules, entries: set<Entry>, p: Prefix)
    requires Merges(pending, entries)
    requires p in pending
    ensures entries != {}
  {
    var filters := pending[p];
    assert filters != map[];
    var f :| f in filters;
    assert Entry(p, f, filters[f]) in entries;
  }

  lemma NothingCompilesToNothing(compiled: CompiledRules, entries: set<Entry>)
    requires CompilationOf(compiled, entries)
    ensures entries == {} ==> compiled == map[]
  {
    var pending :| Merges(pending, entries) && Compiles(compiled, pending);
    if p :| p in pending {
      EveryPrefixHasAnEntry(pending, entries, p);
    } else {
      assert compiled.Keys == {};
    }
  }

  lemma LegacyHasNoInboundEntries(allow: seq<Rule>, block: seq<Rule>, site: Site)
    requires !IsStateful(allow, block)
    ensures PolicyEntries(allow, block, In, false, site) == {}
  {
  }

  /** Legacy policies compile to an empty inbound map. */
  lemma LegacyInboundIsEmpty(rules: Rules, allow: seq<Rule>, block: seq<Rule>, site: Site)
    requires IsCompilation(rules, allow, block, site)
    requires !rules.stateful
    ensures rules.inbound == map[]
  {
    LegacyHasNoInboundEntries(allow, block, site);
    NothingCompilesToNothing(rules.inbound, PolicyEntries(allow, block, In, false, site));
  }
}
