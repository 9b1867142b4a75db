/**
 The proxy object: compiled rules, the lists they were compiled from, and the flow
 table. Every operation is one step of the machine over the flat rules.
 */
module Proxy {
  import opened Net
  import opened RuleModel
  import opened RuleOrder
  import opened PolicyCompiler
  import opened PolicyBuilder
  import opened PolicyLaws
  import opened PolicyNormal
  import opened PolicyRules
  import opened Packets
  import opened FlowTable
  import opened ProxyMachine

  datatype Policy = Policy(allow: seq<Rule>, block: seq<Rule>, ruleCount: nat)

  class Proxy {
    const config: Config
    var rules: Rules
    var allow: seq<Rule>
    var block: seq<Rule>
    var flows: FlowTable?

    ghost predicate Valid()
      reads this
    {
      && IsCompilation(rules, allow, block, config.Site())
      && (flows != null <==> rules.stateful)
    }

    ghost function View(): State
      reads this, flows
    {
      State(allow, block, if flows == null then None else Some(flows.View()))
    }

    /** The compiled rules select what the two lists, as given, say rule by rule. */
    ghost predicate Enforces(allow: seq<Rule>, block: seq<Rule>)
      reads this
    {
      forall direction, q :: Select(rules.Toward(direction), q) ==
        Selection(allow, block, Site(config.gateway, config.peers), direction, q)
    }

    lemma EnforcesGivenLists(allow: seq<Rule>, block: seq<Rule>)
      requires Valid() && this.allow == NormalForm(allow) && this.block == NormalForm(block)
      ensures Enforces(allow, block)
    {
      forall direction, q
        ensures Select(rules.Toward(direction), q) ==
                Selection(allow, block, Site(config.gateway, config.peers), direction, q)
      {
        CompiledSelection(rules, allow, block, config.Site(), direction, q);
      }
    }

    constructor (config: Config, allow: seq<Rule>, block: seq<Rule>, now: int)
      ensures Valid() && this.config == config
      ensures View() == Start(allow, block, now)
      ensures Enforces(allow, block)
      ensures flows != null ==> fresh(flows)
    {
      this.config := config;
      var a := NormalizeRules(allow);
      var b := NormalizeRules(block);
      var compiled := BuildRules(config.Site(), a, b);
      this.allow, this.block, rules := a, b, compiled;
      if compiled.stateful {
        var table := new FlowTable(now);
        flows := table;
      } else {
        flows := null;
      }
      new;
      EnforcesGivenLists(allow, block);
    }

    /** The compiled decision is the flat decision. */
    lemma DecisionIsFlat(direction: Direction, q: Query)
      requires Valid()
      ensures Select(rules.Toward(direction), q) == Selected(config, View(), direction, q)
    {
      CompilerIsCorrect(rules, allow, block, config.Site(), direction, q);
    }

    method Decide(p: Packet, direction: Direction) returns (d: Option<Decision>)
      requires Valid()
      ensures d == PolicyDecision(config, View(), p, direction)
    {
      var q := PolicyQuery(p, direction);
      DecisionIsFlat(direction, q);
      d := ToDecision(Select(rules.Toward(direction), q), rules.stateful);
    }

    method AdmitWithTracking(pending: PendingFlow) returns (ok: bool)
      requires Valid()
      modifies flows
      ensures Valid() && View() == AdmitTracked(old(View()), pending).0
      ensures ok == !AdmitTracked(old(View()), pending).1.Dropped?
    {
      if flows == null {
        return false;
      }
      ok := flows.Commit(pending);
    }

    method AdmitWithTrackingIfTrackable(pending: Option<PendingFlow>) returns (ok: bool)
      requires Valid()
      modifies flows
      ensures Valid() && View() == AdmitIfTrackable(old(View()), pending).0
      ensures ok == !AdmitIfTrackable(old(View()), pending).1.Dropped?
    {
      match pending {
        case Some(flow) => ok := AdmitWithTracking(flow);
        case None => ok := true;
      }
    }

    method AdmitWithTrackingIfStateful(pending: Option<PendingFlow>, p: Packet, back: Direction) returns (ok: bool)
      requires Valid()
      modifies flows
      ensures Valid() && View() == AdmitIfStateful(config, old(View()), pending, p, back).0
      ensures ok == !AdmitIfStateful(config, old(View()), pending, p, back).1.Dropped?
    {
      var q := ReturnQuery(p, back);
      DecisionIsFlat(back, q);
      if rules.stateful && Select(rules.Toward(back), q).Some? {
        ok := AdmitWithTrackingIfTrackable(pending);
      } else {
        ok := true;
      }
    }

    method AllowedInbound(p: Packet, pending: Option<PendingFlow>) returns (ok: bool)
      requires Valid()
      modifies flows
      ensures Valid() && View() == InboundPolicy(config, old(View()), p, pending).0
      ensures ok == !InboundPolicy(config, old(View()), p, pending).1.Dropped?
    {
      var decision := Decide(p, In);
      match decision {
        case Some(Blocked) => ok := false;
        case Some(AllowStateless) => ok := false;
        case Some(AllowStateful) =>
          if pending.None? {
            return false;
          }
          ok := AdmitWithTracking(pending.value);
        case None => ok := AdmitWithTrackingIfStateful(pending, p, Out);
      }
    }

    method AllowedOutbound(p: Packet, pending: Option<PendingFlow>) returns (ok: bool)
      requires Valid()
      modifies flows
      ensures Valid() && View() == OutboundPolicy(config, old(View()), p, pending).0
      ensures ok == !OutboundPolicy(config, old(View()), p, pending).1.Dropped?
    {
      var decision := Decide(p, Out);
      match decision {
        case Some(Blocked) => return false;
        case Some(AllowStateless) =>
          ok := AdmitWithTrackingIfStateful(pending, p, In);
          return;
        case Some(AllowStateful) =>
          if pending.None? {
            return false;
          }
          ok := AdmitWithTracking(pending.value);
          return;
        case None =>
      }
      if config.isGlobal(p.destination) {
        ok := AdmitWithTrackingIfTrackable(pending);
        return;
      }
      if p.destination == config.gateway {
        ok := AdmitWithTrackingIfTrackable(pending);
        return;
      }
      ok := false;
    }

    method AllowedFromHostIpv4(p: Packet, now: int) returns (ok: bool)
      requires Valid()
      modifies flows
      ensures Valid() && View() == HostStep(config, old(View()), p, now).0
      ensures ok == !HostStep(config, old(View()), p, now).1.Dropped?
    {
      if IsDhcpReply(p) {
        return false;
      }
      if flows == null {
        return true;
      }
      var pending := None;
      if config.vm == p.destination {
        var found := flows.InspectAt(p, FromHost, now);
        match found {
          case Allowed => return true;
          case Denied => return false;
          case Candidate(flow) => pending := Some(flow);
          case Untracked =>
        }
      }
      ok := AllowedInbound(p, pending);
    }

    method AllowedFromVmIpv4(p: Packet, now: int, dnsAnswers: bool) returns (ok: bool)
      requires Valid()
      modifies flows
      ensures Valid() && View() == VmStep(config, old(View()), p, now, dnsAnswers).0
      ensures ok == !VmStep(config, old(View()), p, now, dnsAnswers).1.Dropped?
    {
      if IsDhcpRequest(p) {
        return false;
      }
      if config.vm == p.source {
        if dnsAnswers && MayBeDns(config, p) {
          return false;
        }
        var found := Untracked;
        if flows != null {
          found := flows.InspectAt(p, FromVm, now);
        }
        var pending := None;
        match found {
          case Allowed => return true;
          case Denied => return false;
          case Candidate(flow) => pending := Some(flow);
          case Untracked =>
        }
        ok := AllowedOutbound(p, pending);
        return;
      }
      ok := false;
    }

    /** The lists in force and the number of distinct (direction, prefix, filter) triples they compile to. */
    ghost function Report(): Policy
      reads this
    {
      Policy(allow, block, DistinctFilterCount(allow, block, config.Site()))
    }

    method PolicyGet() returns (policy: Policy)
      requires Valid()
      ensures policy == Report()
    {
      var n := CountRules(rules, allow, block, config.Site());
      policy := Policy(allow, block, n);
    }

    method SetPolicy(allow: seq<Rule>, block: seq<Rule>, now: int) returns (policy: Policy)
      requires Valid()
      modifies this
      ensures Valid() && View() == PolicySet(old(View()), allow, block, now)
      ensures flows == old(flows) || flows == null || fresh(flows)
      ensures Enforces(allow, block)
      ensures policy == Report() && policy.ruleCount == DistinctFilterCount(allow, block, config.Site())
    {
      Update(allow, block, now);
      EnforcesGivenLists(allow, block);
      NormalizingKeepsCount(allow, block, config.Site());
      policy := PolicyGet();
    }

    method Update(allow: seq<Rule>, block: seq<Rule>, now: int)
      requires Valid()
      modifies this
      ensures Valid() && View() == PolicySet(old(View()), allow, block, now)
      ensures flows == old(flows) || flows == null || fresh(flows)
    {
      var a := NormalizeRules(allow);
      var b := NormalizeRules(block);
      if this.allow != a || this.block != b {
        Install(a, b, now);
      }
    }

    /** Replaces the policy in force and starts over with an empty flow table. */
    method Install(allow: seq<Rule>, block: seq<Rule>, now: int)
      modifies this
      ensures Valid()
      ensures View() == State(allow, block, if IsStateful(allow, block) then Some(EmptyTable(now)) else None)
      ensures flows == null || fresh(flows)
    {
      rules := BuildRules(config.Site(), allow, block);
      this.allow := allow;
      this.block := block;
      if rules.stateful {
        flows := new FlowTable(now);
      } else {
        flows := null;
      }
    }
  }
}
