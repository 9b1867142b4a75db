/**
 Normalizing a policy keeps its meaning. The lists that are compiled are truncated, sorted and without
 repetitions; what they select is what the lists as given select.
 */
module PolicyNormal {
  import opened Net
  import opened RuleModel
  import opened SortedLists
  import opened RuleOrder
  import opened PolicyCompiler
  import opened PolicyLaws

  lemma NormalizedTarget(target: Target, site: Site)
    ensures TargetPrefixes(target.Normalized(), site) == TargetPrefixes(target, site)
  {
    if target.ToPrefix? {
      TruncatedIsTruncated(target.prefix);
    }
  }

  lemma NormalizedRule(rule: Rule, action: Action, direction: Direction, stateful: bool, site: Site)
    ensures RuleEntries(rule.Normalized(), action, direction, stateful, site) ==
            RuleEntries(rule, action, direction, stateful, site)
    ensures rule.Normalized().Stateful? == rule.Stateful?
  {
    NormalizedTarget(rule.target, site);
  }

  /** The normal form holds the truncated form of every rule given, and nothing else. */
  lemma NormalFormMembers(rules: seq<Rule>)
    ensures forall i :: 0 <= i < |rules| ==> rules[i].Normalized() in NormalForm(rules)
    ensures forall k :: 0 <= k < |NormalForm(rules)| ==>
                          exists i :: 0 <= i < |rules| && rules[i].Normalized() == NormalForm(rules)[k]
  {
    NormalFormIsNormal(rules);
    var normal := NormalForm(rules);
    forall i | 0 <= i < |rules| ensures rules[i].Normalized() in normal {
      assert rules[i].Normalized() in NormalizedSet(rules);
      assert rules[i].Normalized() in Elements(normal);
    }
    forall k | 0 <= k < |normal| ensures exists i :: 0 <= i < |rules| && rules[i].Normalized() == normal[k] {
      assert normal[k] in Elements(normal);
      assert normal[k] in NormalizedSet(rules);
    }
  }

  lemma NormalFormEntries(rules: seq<Rule>, action: Action, direction: Direction, stateful: bool, site: Site)
    ensures ListEntries(NormalForm(rules), action, direction, stateful, site) ==
            ListEntries(rules, action, direction, stateful, site)
  {
    var normal := NormalForm(rules);
    NormalFormMembers(rules);
    forall e | e in ListEntries(normal, action, direction, stateful, site)
      ensures e in ListEntries(rules, action, direction, stateful, site)
    {
      var k :| 0 <= k < |normal| && e in RuleEntries(normal[k], action, direction, stateful, site);
      var i :| 0 <= i < |rules| && rules[i].Normalized() == normal[k];
      NormalizedRule(rules[i], action, direction, stateful, site);
    }
    forall e | e in ListEntries(rules, action, direction, stateful, site)
      ensures e in ListEntries(normal, action, direction, stateful, site)
    {
      var i :| 0 <= i < |rules| && e in RuleEntries(rules[i], action, direction, stateful, site);
      NormalizedRule(rules[i], action, direction, stateful, site);
      var k :| 0 <= k < |normal| && normal[k] == rules[i].Normalized();
    }
  }

  ghost predicate HasDirectional(rules: seq<Rule>) {
    exists i :: 0 <= i < |rules| && rules[i].Stateful?
  }

  lemma NormalFormDirectional(rules: seq<Rule>)
    ensures HasDirectional(NormalForm(rules)) <==> HasDirectional(rules)
  {
    var normal := NormalForm(rules);
    NormalFormMembers(rules);
    if k :| 0 <= k < |normal| && normal[k].Stateful? {
      var i :| 0 <= i < |rules| && rules[i].Normalized() == normal[k];
      assert rules[i].Stateful?;
    }
    if i :| 0 <= i < |rules| && rules[i].Stateful? {
      var k :| 0 <= k < |normal| && normal[k] == rules[i].Normalized();
      assert normal[k].Stateful?;
    }
  }

  lemma NormalFormMode(allow: seq<Rule>, block: seq<Rule>)
    ensures IsStateful(NormalForm(allow), NormalForm(block)) == IsStateful(allow, block)
  {
    NormalFormDirectional(allow);
    NormalFormDirectional(block);
    assert IsStateful(allow, block) == (HasDirectional(allow) || HasDirectional(block));
  }

  /** A policy and its normal form have the same entries in the same mode. */
  lemma NormalizingKeepsEntries(allow: seq<Rule>, block: seq<Rule>, direction: Direction, site: Site)
    ensures PolicyEntries(NormalForm(allow), NormalForm(block), direction,
                          IsStateful(NormalForm(allow), NormalForm(block)), site) ==
            PolicyEntries(allow, block, direction, IsStateful(allow, block), site)
  {
    NormalFormMode(allow, block);
    NormalFormEntries(allow, Allow, direction, IsStateful(allow, block), site);
    NormalFormEntries(block, Block, direction, IsStateful(allow, block), site);
  }

  /**
   Raw lists in, the flat maximum of the raw lists out: normalizing, grouping, sorting and looking up change
   nothing.
   */
  lemma WholeCompilerIsCorrect(rules: Rules, allow: seq<Rule>, block: seq<Rule>, site: Site, direction: Direction,
                               q: Query)
    requires IsCompilation(rules, NormalForm(allow), NormalForm(block), site)
    ensures Select(rules.Toward(direction), q) ==
            FlatSelect(PolicyEntries(allow, block, direction, IsStateful(allow, block), site), q)
  {
    CompilerIsCorrect(rules, NormalForm(allow), NormalForm(block), site, direction, q);
    NormalizingKeepsEntries(allow, block, direction, site);
  }

  /** Normalizing also keeps the number of distinct triples that is reported. */
  lemma NormalizingKeepsCount(allow: seq<Rule>, block: seq<Rule>, site: Site)
    ensures DistinctFilterCount(NormalForm(allow), NormalForm(block), site) == DistinctFilterCount(allow, block, site)
  {
    NormalizingKeepsEntries(allow, block, In, site);
    NormalizingKeepsEntries(allow, block, Out, site);
  }
}
