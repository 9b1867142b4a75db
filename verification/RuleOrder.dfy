/**
 Normal forms of rule lists: truncate, sort by printed form, drop repetitions. Since
 no two rules print alike, two lists have the same normal form exactly when they
 hold the same truncated rules.
 */
module RuleOrder {
  import opened Net
  import opened RuleModel
  import opened RuleText
  import opened SortedLists

  // ---------------------------------------------------------------------------
  // The order of texts

  predicate TextAtMost(a: string, b: string) {
    a == "" || (b != "" && (a[0] < b[0] || (a[0] == b[0] && TextAtMost(a[1..], b[1..]))))
  }

  lemma {:induction false} TextOrderTotal(a: string, b: string)
    ensures TextAtMost(a, b) || TextAtMost(b, a)
  {
    if a != "" && b != "" {
      TextOrderTotal(a[1..], b[1..]);
    }
  }

  lemma {:induction false} TextOrderAntisymmetric(a: string, b: string)
    requires TextAtMost(a, b) && TextAtMost(b, a)
    ensures a == b
  {
    if a != "" && b != "" {
      TextOrderAntisymmetric(a[1..], b[1..]);
      assert a == [a[0]] + a[1..] && b == [b[0]] + b[1..];
    }
  }

  lemma {:induction false} TextOrderTransitive(a: string, b: string, c: string)
    requires TextAtMost(a, b) && TextAtMost(b, c)
    ensures TextAtMost(a, c)
  {
    if a != "" && b != "" && c != "" && a[0] == b[0] == c[0] {
      TextOrderTransitive(a[1..], b[1..], c[1..]);
    }
  }

  /** Texts are ordered by their first difference, and a text comes before its extensions. */
  lemma {:induction false} TextOrderIsLexicographic(a: string, b: string)
    ensures TextAtMost(a, b) <==>
            a <= b || exists k :: 0 <= k < |a| && k < |b| && a[..k] == b[..k] && a[k] < b[k]
  {
    if a != "" && b != "" {
      forall k | 0 < k <= |a| && k <= |b| && a[..k] == b[..k] ensures a[0] == b[0] {
        assert a[..k][0] == b[..k][0];
      }
      if a[0] == b[0] {
        TextOrderIsLexicographic(a[1..], b[1..]);
        FirstDifference(a, b);
      } else {
        assert a[..0] == b[..0];
      }
    }
  }

  lemma FirstDifference(a: string, b: string)
    requires a != "" && b != "" && a[0] == b[0]
    ensures a <= b <==> a[1..] <= b[1..]
    ensures (exists k :: 0 <= k < |a| && k < |b| && a[..k] == b[..k] && a[k] < b[k]) <==>
            (exists k :: 0 <= k < |a[1..]| && k < |b[1..]| && a[1..][..k] == b[1..][..k] && a[1..][k] < b[1..][k])
  {
    if a[1..] <= b[1..] {
      assert forall i :: 0 <= i < |a| ==> a[i] == if i == 0 then b[0] else a[1..][i - 1];
      assert forall i :: 0 < i < |a| ==> b[i] == b[1..][i - 1];
    }
    if k :| 0 <= k < |a| && k < |b| && a[..k] == b[..k] && a[k] < b[k] {
      assert k > 0;
      assert a[1..][..k - 1] == a[..k][1..] && b[1..][..k - 1] == b[..k][1..];
      assert a[1..][k - 1] < b[1..][k - 1];
    }
    if k :| 0 <= k < |a[1..]| && k < |b[1..]| && a[1..][..k] == b[1..][..k] && a[1..][k] < b[1..][k] {
      assert a[..k + 1] == [a[0]] + a[1..][..k] && b[..k + 1] == [b[0]] + b[1..][..k];
      assert a[k + 1] < b[k + 1];
    }
  }

  /** The order of rules by their printed form. */
  predicate AtMost(a: Rule, b: Rule) {
    TextAtMost(Display(a), Display(b))
  }

  /** The printer is injective, so the order by printed form is a total order of rules. */
  lemma PrintedOrderIsTotal()
    ensures TotalOrder(AtMost)
  {
    forall a: Rule, b: Rule ensures AtMost(a, b) || AtMost(b, a) {
      TextOrderTotal(Display(a), Display(b));
    }
    forall a: Rule, b: Rule | AtMost(a, b) && AtMost(b, a) ensures a == b {
      TextOrderAntisymmetric(Display(a), Display(b));
      DisplayIsInjective(a, b);
    }
    forall a: Rule, b: Rule, c: Rule | AtMost(a, b) && AtMost(b, c) ensures AtMost(a, c) {
      TextOrderTransitive(Display(a), Display(b), Display(c));
    }
  }

  // ---------------------------------------------------------------------------
  // The normal form

  ghost function NormalizedSet(rules: seq<Rule>): set<Rule> {
    set i | 0 <= i < |rules| :: rules[i].Normalized()
  }

  function NormalForm(rules: seq<Rule>): seq<Rule> {
    if rules == [] then [] else Insert(rules[0].Normalized(), NormalForm(rules[1..]), AtMost)
  }

  lemma NormalizedSetStep(rules: seq<Rule>)
    requires rules != []
    ensures NormalizedSet(rules) == NormalizedSet(rules[1..]) + {rules[0].Normalized()}
  {
    forall i | 0 < i < |rules| ensures rules[i].Normalized() in NormalizedSet(rules[1..]) {
      assert rules[1..][i - 1] == rules[i];
    }
    forall i | 0 <= i < |rules[1..]| ensures rules[1..][i].Normalized() in NormalizedSet(rules) {
      assert rules[i + 1] == rules[1..][i];
    }
  }

  lemma {:induction false} NormalFormIsNormal(rules: seq<Rule>)
    ensures IsNormal(NormalForm(rules), AtMost)
    ensures Elements(NormalForm(rules)) == NormalizedSet(rules)
  {
    if rules != [] {
      NormalFormIsNormal(rules[1..]);
      PrintedOrderIsTotal();
      InsertKeepsNormal(rules[0].Normalized(), NormalForm(rules[1..]), AtMost);
      NormalizedSetStep(rules);
    }
  }

  /** Two lists normalize alike exactly when they hold the same truncated rules. */
  lemma NormalFormsAgree(a: seq<Rule>, b: seq<Rule>)
    ensures NormalForm(a) == NormalForm(b) <==> NormalizedSet(a) == NormalizedSet(b)
  {
    NormalFormIsNormal(a);
    NormalFormIsNormal(b);
    if NormalizedSet(a) == NormalizedSet(b) {
      PrintedOrderIsTotal();
      NormalFormIsUnique(NormalForm(a), NormalForm(b), AtMost);
    }
  }

  // ---------------------------------------------------------------------------
  // What the normal form means

  /** Two targets are the same kind of target, and as prefixes of one length they hold the same addresses. */
  ghost predicate SameTarget(a: Target, b: Target) {
    match (a, b)
    case (ToPrefix(p), ToPrefix(o)) => p.len == o.len && forall x: Address :: InBlock(p, x) <==> InBlock(o, x)
    case (ToHost, ToHost) => true
    case (ToPeers, ToPeers) => true
    case _ => false
  }

  ghost predicate SameRule(a: Rule, b: Rule) {
    match (a, b)
    case (Stateless(t), Stateless(u)) => SameTarget(t, u)
    case (Stateful(d, t, f), Stateful(e, u, g)) => d == e && SameTarget(t, u) && f == g
    case _ => false
  }

  ghost predicate Matched(a: Rule, rules: seq<Rule>) {
    exists j :: 0 <= j < |rules| && SameRule(a, rules[j])
  }

  /** Each rule of one list says the same as some rule of the other. */
  ghost predicate SameRules(a: seq<Rule>, b: seq<Rule>) {
    (forall i :: 0 <= i < |a| ==> Matched(a[i], b)) && (forall j :: 0 <= j < |b| ==> Matched(b[j], a))
  }

  lemma SameTargetExactly(a: Target, b: Target)
    ensures a.Normalized() == b.Normalized() <==> SameTarget(a, b)
  {
    if a.ToPrefix? && b.ToPrefix? && a.prefix.len == b.prefix.len {
      TruncatedAlike(a.prefix, b.prefix);
      assert InBlock(b.prefix, b.prefix.address);
    }
  }

  /** Rules are truncated alike exactly when they say the same. */
  lemma SameRuleExactly(a: Rule, b: Rule)
    ensures a.Normalized() == b.Normalized() <==> SameRule(a, b)
  {
    SameTargetExactly(a.target, b.target);
  }

  lemma SubsetMeans(a: seq<Rule>, b: seq<Rule>)
    ensures NormalizedSet(a) <= NormalizedSet(b) <==> forall i :: 0 <= i < |a| ==> Matched(a[i], b)
  {
    if NormalizedSet(a) <= NormalizedSet(b) {
      forall i | 0 <= i < |a| ensures Matched(a[i], b) {
        assert a[i].Normalized() in NormalizedSet(a);
        var j :| 0 <= j < |b| && b[j].Normalized() == a[i].Normalized();
        SameRuleExactly(a[i], b[j]);
      }
    }
    if forall i :: 0 <= i < |a| ==> Matched(a[i], b) {
      forall rule | rule in NormalizedSet(a) ensures rule in NormalizedSet(b) {
        var i :| 0 <= i < |a| && a[i].Normalized() == rule;
        assert Matched(a[i], b);
        var j :| 0 <= j < |b| && SameRule(a[i], b[j]);
        SameRuleExactly(a[i], b[j]);
      }
    }
  }

  /** Two lists hold the same truncated rules exactly when they say the same. */
  lemma SameSetsExactly(a: seq<Rule>, b: seq<Rule>)
    ensures NormalizedSet(a) == NormalizedSet(b) <==> SameRules(a, b)
  {
    SubsetMeans(a, b);
    SubsetMeans(b, a);
  }

  /** Two lists normalize alike exactly when they say the same, rule by rule. */
  lemma NormalFormsMean(a: seq<Rule>, b: seq<Rule>)
    ensures NormalForm(a) == NormalForm(b) <==> SameRules(a, b)
  {
    NormalFormsAgree(a, b);
    SameSetsExactly(a, b);
  }

  /** Every prefix of a normal form is written by the first address of its block. */
  lemma NormalFormTruncates(rules: seq<Rule>, k: nat)
    requires k < |NormalForm(rules)| && NormalForm(rules)[k].target.ToPrefix?
    ensures
      var p := NormalForm(rules)[k].target.prefix;
      p.address % Pow2(32 - p.len) == 0 && forall a: Address :: InBlock(p, a) ==> p.address <= a
  {
    NormalFormIsNormal(rules);
    var rule := NormalForm(rules)[k];
    assert rule in Elements(NormalForm(rules));
    var i :| 0 <= i < |rules| && rules[i].Normalized() == rule;
    FirstOfBlock(rules[i].target.prefix);
  }

  lemma FirstOfBlock(p: Prefix)
    ensures
      var t := p.Truncated();
      t.address % Pow2(32 - t.len) == 0 && forall a: Address :: InBlock(t, a) ==> t.address <= a
  {
    var t := p.Truncated();
    TruncatedIsTruncated(p);
    forall a: Address | InBlock(t, a) ensures t.address <= a {
      CoversMeans(t, a);
    }
  }

  /** A normal form says what the list says. */
  lemma NormalFormSaysTheSame(rules: seq<Rule>)
    ensures SameRules(NormalForm(rules), rules)
  {
    NormalFormIsNormal(rules);
    NormalAgain(rules);
    SameSetsExactly(NormalForm(rules), rules);
  }

  lemma NormalAgain(rules: seq<Rule>)
    ensures NormalizedSet(NormalForm(rules)) == NormalizedSet(rules)
  {
    NormalFormIsNormal(rules);
    var normal := NormalForm(rules);
    forall k | 0 <= k < |normal| ensures normal[k].Normalized() == normal[k] {
      assert normal[k] in Elements(normal);
      var i :| 0 <= i < |rules| && rules[i].Normalized() == normal[k];
      NormalizedTwice(rules[i]);
    }
    forall rule ensures rule in NormalizedSet(normal) <==> rule in Elements(normal) {
    }
  }

  lemma NormalizedTwice(rule: Rule)
    ensures rule.Normalized().Normalized() == rule.Normalized()
  {
    if rule.target.ToPrefix? {
      TruncatedIsTruncated(rule.target.prefix);
    }
  }

  // ---------------------------------------------------------------------------
  // Normalizing a list

  /** Truncates in place, sorts by printed form and drops repetitions. */
  method NormalizeRules(rules: seq<Rule>) returns (normal: seq<Rule>)
    ensures normal == NormalForm(rules)
  {
    normal := rules;
    for k := 0 to |rules|
      invariant |normal| == |rules|
      invariant forall i :: 0 <= i < |rules| ==> normal[i] == if i < k then rules[i].Normalized() else rules[i]
    {
      normal := normal[k := normal[k].Normalized()];
    }
    ghost var truncated := normal;
    TruncatedElements(rules, truncated);
    PrintedOrderIsTotal();
    normal := Sort(normal, AtMost);
    SameElements(normal, truncated);
    normal := Dedup(normal, AtMost);
    NormalFormIsNormal(rules);
    NormalFormIsUnique(normal, NormalForm(rules), AtMost);
  }

  lemma TruncatedElements(rules: seq<Rule>, truncated: seq<Rule>)
    requires |truncated| == |rules|
    requires forall i :: 0 <= i < |rules| ==> truncated[i] == rules[i].Normalized()
    ensures Elements(truncated) == NormalizedSet(rules)
  {
    forall i | 0 <= i < |rules| ensures rules[i].Normalized() in truncated {
      assert truncated[i] == rules[i].Normalized();
    }
  }
}
