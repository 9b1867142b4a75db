/**
 What an operator is promised: a policy means its lists as they were given, from the time it is set until
 the next one, and blocking 0.0.0.0/0 leaves nothing forwarded without an allow rule behind it.
 */
module ProxyPromises {
  import opened Net
  import opened RuleModel
  import opened RuleOrder
  import opened PolicyCompiler
  import opened PolicyNormal
  import opened PolicyRules
  import opened Packets
  import opened FlowTable
  import opened FlowLaws
  import opened ProxyMachine
  import opened ProxyFields
  import opened ProxyRuns
  import opened ProxyTheorems

  // ---------------------------------------------------------------------------
  // A policy means its lists

  /** The lists in force are the normal forms of these. */
  ghost predicate InForce(s: State, allow: seq<Rule>, block: seq<Rule>) {
    s.allow == NormalForm(allow) && s.block == NormalForm(block)
  }

  lemma InForceDecides(c: Config, s: State, allow: seq<Rule>, block: seq<Rule>, direction: Direction, q: Query)
    requires InForce(s, allow, block)
    ensures Selected(c, s, direction, q) == Selection(allow, block, Site(c.gateway, c.peers), direction, q)
    ensures IsStateful(s.allow, s.block) == IsDirectional(allow, block)
  {
    NormalizingKeepsEntries(allow, block, direction, c.Site());
    FlatIsSelection(allow, block, c.Site(), direction, q);
    NormalFormMode(allow, block);
    assert IsStateful(allow, block) == IsDirectional(allow, block);
  }

  lemma {:induction false} StaysInForce(r: Run, m: nat, n: nat, allow: seq<Rule>, block: seq<Rule>)
    requires r.Valid() && m <= n <= |r.events| && InForce(r.states[m], allow, block)
    requires forall k :: m <= k < n ==> r.events[k].IsPacket()
    ensures InForce(r.states[n], allow, block)
    decreases n
  {
    if m < n {
      StaysInForce(r, m, n - 1, allow, block);
      EventEffect(r, n - 1);
    }
  }

  lemma PolicyComesInForce(r: Run, i: nat)
    requires r.Valid() && i < |r.events| && r.events[i].NewPolicy?
    ensures InForce(r.states[i + 1], r.events[i].allow, r.events[i].block)
  {
    EventEffect(r, i);
  }

  /** From a policy change until the next, packets are decided rule by rule by the lists as they were given. */
  lemma PolicyMeansItsLists(r: Run, i: nat, n: nat, direction: Direction, q: Query)
    requires r.Valid() && i < n <= |r.events| && r.events[i].NewPolicy?
    requires forall k :: i < k < n ==> r.events[k].IsPacket()
    ensures Selected(r.config, r.states[n], direction, q) ==
            Selection(r.events[i].allow, r.events[i].block, Site(r.config.gateway, r.config.peers), direction, q)
    ensures r.states[n].flows.Some? <==> IsDirectional(r.events[i].allow, r.events[i].block)
  {
    PolicyComesInForce(r, i);
    StaysInForce(r, i + 1, n, r.events[i].allow, r.events[i].block);
    InForceDecides(r.config, r.states[n], r.events[i].allow, r.events[i].block, direction, q);
    RunIsConsistent(r, n);
  }

  /** The same holds of the lists a filter starts with. */
  lemma FirstPolicyMeansItsLists(r: Run, allow: seq<Rule>, block: seq<Rule>, n: nat, direction: Direction, q: Query)
    requires r.Valid() && r.states[0] == Start(allow, block, r.start) && n <= |r.events|
    requires forall k :: 0 <= k < n ==> r.events[k].IsPacket()
    ensures Selected(r.config, r.states[n], direction, q) ==
            Selection(allow, block, Site(r.config.gateway, r.config.peers), direction, q)
    ensures r.states[n].flows.Some? <==> IsDirectional(allow, block)
  {
    StaysInForce(r, 0, n, allow, block);
    InForceDecides(r.config, r.states[n], allow, block, direction, q);
    RunIsConsistent(r, n);
  }

  // ---------------------------------------------------------------------------
  // Default deny

  function DirectionOf(side: Side): Direction {
    if side == FromHost then In else Out
  }

  /**
   An allow rule in force concerns the packet: its direction, its peer, its protocol and a destination port it
   shows.
   */
  ghost predicate SomeRulePermits(c: Config, s: State, p: Packet, side: Side) {
    SomeConcerns(s.allow, Allow, DirectionOf(side), IsDirectional(s.allow, s.block), Site(c.gateway, c.peers),
                 Asked(p, DirectionOf(side)))
  }

  /** The block list holds a bare rule for the whole address space. */
  ghost predicate DeniesByDefault(s: State) {
    exists k :: 0 <= k < |s.block| && s.block[k].Stateless? && s.block[k].target.ToPrefix? &&
                s.block[k].target.prefix.len == 0
  }

  lemma BareBlockConcerns(rule: Rule, direction: Direction, stateful: bool, site: Site, q: Query)
    requires rule.Stateless? && rule.target.ToPrefix? && rule.target.prefix.len == 0 && (direction == Out || stateful)
    ensures Concerns(rule, Block, direction, stateful, site, q)
  {
    WholeSpaceCovers(rule.target.prefix, q.address);
    CoversMeans(rule.target.prefix, q.address);
  }

  /** Under such a block list every packet outbound, and in stateful mode every packet, meets a rule. */
  lemma EverythingIsDecided(c: Config, s: State, direction: Direction, q: Query)
    requires DeniesByDefault(s) && (direction == Out || IsStateful(s.allow, s.block))
    ensures Selected(c, s, direction, q).Some?
  {
    var stateful := IsStateful(s.allow, s.block);
    var k :| 0 <= k < |s.block| && s.block[k].Stateless? && s.block[k].target.ToPrefix? &&
             s.block[k].target.prefix.len == 0;
    BareBlockConcerns(s.block[k], direction, stateful, c.Site(), q);
    SelectedExactly(s.allow, s.block, direction, stateful, c.Site(), q);
  }

  /** A packet the rules allow has an allow rule that concerns it. */
  lemma AllowedByARule(c: Config, s: State, p: Packet, side: Side)
    requires Selected(c, s, DirectionOf(side), PolicyQuery(p, DirectionOf(side))) == Some(Allow)
    ensures SomeRulePermits(c, s, p, side)
  {
    QueryIsAsked(p, DirectionOf(side));
    SelectedByRules(c, s, DirectionOf(side), Asked(p, DirectionOf(side)));
  }

  /** A packet is blocked exactly if a block rule concerns it that no allow rule concerning it beats. */
  lemma BlockedByARule(c: Config, s: State, p: Packet, side: Side)
    ensures Selected(c, s, DirectionOf(side), PolicyQuery(p, DirectionOf(side))) == Some(Block) <==>
            Blocks(s.allow, s.block, DirectionOf(side), IsDirectional(s.allow, s.block), Site(c.gateway, c.peers),
                   Asked(p, DirectionOf(side)))
  {
    QueryIsAsked(p, DirectionOf(side));
    SelectedByRules(c, s, DirectionOf(side), Asked(p, DirectionOf(side)));
  }

  lemma AdmittedByARule(c: Config, s: State, p: Packet, side: Side, now: int)
    requires DeniesByDefault(s) && (side == FromVm || IsStateful(s.allow, s.block))
    requires PolicyAdmits(c, s, p, side, now)
    ensures SomeRulePermits(c, s, p, side)
  {
    EverythingIsDecided(c, s, DirectionOf(side), PolicyQuery(p, DirectionOf(side)));
    AllowedByARule(c, s, p, side);
  }

  /** Return traffic exists in stateful mode only. */
  lemma ReturnTrafficIsStateful(r: Run, i: nat, j: nat)
    requires r.Valid() && j < i < |r.events| && Answers(r, i, j)
    ensures IsStateful(r.states[i].allow, r.states[i].block)
  {
    EventEffect(r, j);
    assert r.SamePolicy(j, i);
  }

  /**
   With 0.0.0.0/0 blocked, every packet a VM gets out, and in stateful mode every packet
   forwarded to it, has an allow rule in force that concerns it or the packet it answers.
   */
  lemma DefaultDenyHolds(r: Run, i: nat)
    requires r.Valid() && i < |r.events| && r.results[i].Some? && !r.results[i].value.Dropped?
    requires DeniesByDefault(r.states[i])
    requires r.events[i].VmPacket? || IsStateful(r.states[i].allow, r.states[i].block)
    ensures r.events[i].IsPacket()
    ensures
      || SomeRulePermits(r.config, r.states[i], r.events[i].packet, r.events[i].Side())
      || exists j :: 0 <= j < i && Answers(r, i, j) &&
                     SomeRulePermits(r.config, r.states[i], r.events[j].packet, r.events[j].Side())
  {
    ForwardedIsJustified(r, i);
    if Justified(r, i) {
      AdmittedByARule(r.config, r.states[i], r.events[i].packet, r.events[i].Side(), r.events[i].now);
    } else {
      var j :| 0 <= j < i && Answers(r, i, j) && Justified(r, j);
      ReturnTrafficIsStateful(r, i, j);
      assert r.SamePolicy(j, i);
      AdmittedByARule(r.config, r.states[j], r.events[j].packet, r.events[j].Side(), r.events[j].now);
    }
  }
}
