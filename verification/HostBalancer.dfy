/** Client-side balancing: the rewrite of a routing document by app/xray/host_balancer.py, and what the document
    means before and after. */
module HostBalancer {
  import opened Options
  import opened Strings
  import opened XrayRouting

  const PROXY_OUTBOUND_TAG := "proxy"
  const HOST_BALANCER_TAG := "proxy-balancer"
  const HOST_BALANCER_STRATEGY := "leastPing"
  const OBSERVATORY_PROBE_URL := "https://www.google.com/generate_204"
  const OBSERVATORY_INTERVAL := "15s"

  function ProxyOutboundTag(index: nat): string {
    if index == 0 then PROXY_OUTBOUND_TAG else PROXY_OUTBOUND_TAG + "-" + Dec(index)
  }

  datatype BalancerDoc = BalancerDoc(tag: string, selector: seq<string>, strategy: string, settings: Option<string>, fallbackTag: string)

  datatype Probe =
    | Ping(url: string, interval: string, enableConcurrency: Option<bool>)
    | Burst(url: string, interval: string, timeout: string, sampling: int, connectivity: string)

  datatype ObservatoryDoc = ObservatoryDoc(subjects: seq<string>, probe: Probe)

  datatype Balancing = Balancing(strategy: string, settings: Option<string>, probe: Option<Probe>)

  /** What the settings model admits: the observing strategies carry the probe they need. */
  predicate ProbeFits(b: Balancing) {
    && (b.strategy == "leastPing" ==> b.probe.Some? && b.probe.value.Ping?)
    && (b.strategy == "leastLoad" ==> b.probe.Some? && b.probe.value.Burst?)
  }

  function BuildBalancer(): BalancerDoc {
    BalancerDoc(HOST_BALANCER_TAG, [PROXY_OUTBOUND_TAG], HOST_BALANCER_STRATEGY, None, "")
  }

  function BuildBalancerRule(): Rule {
    Rule(None, Some(HOST_BALANCER_TAG), Some("tcp,udp"), None, None, map[])
  }

  function BuildObservatory(): ObservatoryDoc {
    ObservatoryDoc([PROXY_OUTBOUND_TAG], Ping(OBSERVATORY_PROBE_URL, OBSERVATORY_INTERVAL, None))
  }

  predicate CatchAll(r: Rule) {
    && r.balancerTag == Some(HOST_BALANCER_TAG)
    && r.network.Some? && BothNetworks(r.network.value)
    && r.outboundTag == None && r.inboundTag == None && r.others == map[]
  }

  /** Whatever went to a balancer or to the first proxy goes to the host's balancer. */
  function Retarget(r: Rule): Rule {
    if Present(r.balancerTag) || r.outboundTag == Some(PROXY_OUTBOUND_TAG)
    then r.(outboundTag := None, balancerTag := Some(HOST_BALANCER_TAG))
    else r
  }

  /** The rules of a managed document, given whether a catch-all was already kept. */
  function ManagedFrom(rules: seq<Rule>, hasCatchAll: bool): seq<Rule> {
    if rules == [] then (if hasCatchAll then [] else [BuildBalancerRule()])
    else
      var r := Retarget(rules[0]);
      if CatchAll(r) && hasCatchAll then ManagedFrom(rules[1..], hasCatchAll)
      else [r] + ManagedFrom(rules[1..], hasCatchAll || CatchAll(r))
  }

  function ManagedRules(rules: seq<Rule>): seq<Rule> {
    ManagedFrom(rules, false)
  }

  // ---- Meaning of a managed document

  function Managed(t: Target): Target {
    match t
    case Outbound(tag) => if tag == PROXY_OUTBOUND_TAG then Balanced(HOST_BALANCER_TAG) else t
    case Balanced(_) => Balanced(HOST_BALANCER_TAG)
    case NoTarget => NoTarget
    case Default => Balanced(HOST_BALANCER_TAG)
  }

  /** A rule that names a balancer beside a direct outbound; the outbound wins in xray, the rewrite drops it. */
  predicate Conflicted(r: Rule) {
    Present(r.balancerTag) && Present(r.outboundTag) && r.outboundTag.value != PROXY_OUTBOUND_TAG
  }

  lemma RetargetIff(holds: Conditions, r: Rule, p: Packet)
    ensures Matches(holds, Retarget(r), p) <==> Matches(holds, r, p)
    ensures TargetOf(Retarget(r)) == Managed(TargetOf(r)) <==> !Conflicted(r)
  {
  }

  /** For every packet, the managed rules send it where the original rules did, with "proxy", every balancer and the
      default merged into the host's balancer, exactly when the rule that decided names a single target. */
  lemma {:induction false} ManagedMeaningIff(holds: Conditions, rules: seq<Rule>, p: Packet)
    ensures Eval(holds, ManagedRules(rules), p) == Managed(Eval(holds, rules, p)) <==>
              (FirstMatch(holds, rules, p).Some? ==> !Conflicted(FirstMatch(holds, rules, p).value))
  {
    if rules != [] {
      var r := Retarget(rules[0]);
      RetargetIff(holds, rules[0], p);
      var rest := ManagedFrom(rules[1..], CatchAll(r));
      assert ManagedRules(rules) == [r] + rest && ([r] + rest)[1..] == rest;
      if !Matches(holds, rules[0], p) {
        assert !CatchAll(r);
        ManagedMeaningIff(holds, rules[1..], p);
      }
    }
  }

  /** With one target per rule the meaning is preserved for every packet, and nothing is left to the default. */
  lemma ManagedPreservesMeaning(holds: Conditions, rules: seq<Rule>, p: Packet)
    requires forall r | r in rules :: !Conflicted(r)
    ensures Eval(holds, ManagedRules(rules), p) == Managed(Eval(holds, rules, p))
    ensures Eval(holds, ManagedRules(rules), p) != Default
  {
    FirstMatchIsMember(holds, rules, p);
    ManagedMeaningIff(holds, rules, p);
  }

  lemma ConflictedRuleChangesMeaning(holds: Conditions, p: Packet)
    ensures var r := Rule(Some("direct"), Some("b"), None, None, None, map[]);
            && Eval(holds, [r], p) == Outbound("direct")
            && Eval(holds, ManagedRules([r]), p) == Balanced(HOST_BALANCER_TAG)
  {
    var r := Rule(Some("direct"), Some("b"), None, None, None, map[]);
    assert [r][1..] == [];
    assert ManagedRules([r]) == [Retarget(r)] + ManagedFrom([], false);
  }

  /** A judgement that refuses every other condition. */
  function Refusing(): Conditions {
    (name: string, value: string, p: Packet) => false
  }

  lemma RefusedOthers(r: Rule, p: Packet)
    ensures Matches(Refusing(), r, p) ==>
              && r.others == map[] && (r.network.Some? ==> BothNetworks(r.network.value))
              && (r.inboundTag.Some? ==> p.inbound in r.inboundTag.value)
  {
    if r.others != map[] {
      var k :| k in r.others;
      assert !Refusing()(k, r.others[k], p);
    }
  }

  /** A catch-all is a rule for both networks that sends every packet to the host's balancer, whatever else is judged how. */
  lemma CatchAllIff(r: Rule)
    ensures CatchAll(r) <==>
              && r.network.Some? && r.outboundTag == None && r.balancerTag == Some("proxy-balancer")
              && forall holds: Conditions, p: Packet :: Matches(holds, r, p)
  {
    var elsewhere := Packet(Tcp, if r.inboundTag.Some? then Strange(r.inboundTag.value) else "", 0);
    RefusedOthers(r, elsewhere);
    if r.inboundTag.Some? {
      StrangeIsStrange(r.inboundTag.value);
    }
    if forall holds: Conditions, p: Packet :: Matches(holds, r, p) {
      assert Matches(Refusing(), r, elsewhere);
    }
  }

  /** A text that is longer than all of a list. */
  function Strange(tags: seq<string>): string {
    if tags == [] then "x" else Strange(tags[1..]) + tags[0]
  }

  lemma {:induction false} StrangeIsStrange(tags: seq<string>)
    ensures forall t | t in tags :: |t| < |Strange(tags)|
    ensures Strange(tags) !in tags && Strange(tags) != ""
  {
    if tags != [] {
      StrangeIsStrange(tags[1..]);
      assert tags == [tags[0]] + tags[1..];
    }
  }

  /** Rules other than catch-alls are kept, in order, with their conditions. */
  function Conditional(rules: seq<Rule>): seq<Rule> {
    if rules == [] then []
    else (if CatchAll(Retarget(rules[0])) then [] else [Retarget(rules[0])]) + Conditional(rules[1..])
  }

  function CatchAlls(rules: seq<Rule>): nat {
    if rules == [] then 0 else (if CatchAll(rules[0]) then 1 else 0) + CatchAlls(rules[1..])
  }

  lemma {:induction false} ConditionalMembers(rules: seq<Rule>)
    ensures forall r :: r in Conditional(rules) <==> !CatchAll(r) && exists from :: from in rules && Retarget(from) == r
    ensures |Conditional(rules)| <= |rules|
    ensures (forall r | r in rules :: !CatchAll(Retarget(r))) ==> |Conditional(rules)| == |rules|
  {
    if rules != [] {
      ConditionalMembers(rules[1..]);
      assert forall r :: r in rules <==> r == rules[0] || r in rules[1..];
    }
  }

  lemma {:induction false} ManagedKeepsConditional(rules: seq<Rule>, hasCatchAll: bool)
    ensures Conditional(ManagedFrom(rules, hasCatchAll)) == Conditional(rules)
    ensures CatchAlls(ManagedFrom(rules, hasCatchAll)) == if hasCatchAll then 0 else 1
  {
    if rules == [] {
      assert [BuildBalancerRule()][1..] == [];
    } else {
      var r := Retarget(rules[0]);
      assert Retarget(r) == r;
      if CatchAll(r) && hasCatchAll {
        ManagedKeepsConditional(rules[1..], hasCatchAll);
      } else {
        var rest := ManagedFrom(rules[1..], hasCatchAll || CatchAll(r));
        ManagedKeepsConditional(rules[1..], hasCatchAll || CatchAll(r));
        assert ([r] + rest)[1..] == rest;
      }
    }
  }

  /** Rewriting a managed document again changes nothing. */
  lemma {:induction false} ManagedIsIdempotent(rules: seq<Rule>, hasCatchAll: bool)
    ensures ManagedFrom(ManagedFrom(rules, hasCatchAll), hasCatchAll) == ManagedFrom(rules, hasCatchAll)
  {
    if rules == [] {
      var added := [BuildBalancerRule()];
      assert added[1..] == [];
      assert ManagedFrom(added, false) == [BuildBalancerRule()] + ManagedFrom([], true);
    } else {
      var r := Retarget(rules[0]);
      assert Retarget(r) == r;
      if CatchAll(r) && hasCatchAll {
        ManagedIsIdempotent(rules[1..], hasCatchAll);
      } else {
        var rest := ManagedFrom(rules[1..], hasCatchAll || CatchAll(r));
        ManagedIsIdempotent(rules[1..], hasCatchAll || CatchAll(r));
        assert ([r] + rest)[1..] == rest;
      }
    }
  }

  /** Without explicit balancing and without balancers in the template, only the default changes. */
  lemma UnmanagedChangesOnlyDefault(holds: Conditions, rules: seq<Rule>, p: Packet)
    ensures Eval(holds, rules + [BuildBalancerRule()], p) ==
            if FirstMatch(holds, rules, p) == None then Balanced(HOST_BALANCER_TAG) else Eval(holds, rules, p)
  {
    FirstMatchAppend(holds, rules, [BuildBalancerRule()], p);
  }

  // ---- The document, updated in place

  lemma ManagedStep(rules: seq<Rule>, hasCatchAll: bool, kept: seq<Rule>)
    requires rules != []
    ensures var r := Retarget(rules[0]);
            kept + ManagedFrom(rules, hasCatchAll) ==
            if CatchAll(r) && hasCatchAll then kept + ManagedFrom(rules[1..], hasCatchAll)
            else (kept + [r]) + ManagedFrom(rules[1..], hasCatchAll || CatchAll(r))
  {
  }

  method RewriteRules(rules: seq<Rule>) returns (kept: seq<Rule>)
    ensures kept == ManagedRules(rules)
  {
    kept := [];
    var hasCatchAll := false;
    for i := 0 to |rules|
      invariant kept + ManagedFrom(rules[i..], hasCatchAll) == ManagedRules(rules)
    {
      var rule := rules[i];
      if Present(rule.balancerTag) || rule.outboundTag == Some(PROXY_OUTBOUND_TAG) {
        rule := rule.(outboundTag := None, balancerTag := Some(HOST_BALANCER_TAG));
      }
      ManagedStep(rules[i..], hasCatchAll, kept);
      assert rules[i..][1..] == rules[i + 1..];
      if CatchAll(rule) {
        if hasCatchAll {
          continue;
        }
        hasCatchAll := true;
      }
      kept := kept + [rule];
    }
    if !hasCatchAll {
      kept := kept + [BuildBalancerRule()];
    }
  }

  class ClientConfig {
    var rules: seq<Rule>
    var balancers: seq<BalancerDoc>
    var observatory: Option<ObservatoryDoc>
    var burstObservatory: Option<ObservatoryDoc>

    constructor (rules: seq<Rule>, balancers: seq<BalancerDoc>, observatory: Option<ObservatoryDoc>, burst: Option<ObservatoryDoc>)
      ensures this.rules == rules && this.balancers == balancers && this.observatory == observatory && burstObservatory == burst
    {
      this.rules, this.balancers, this.observatory, burstObservatory := rules, balancers, observatory, burst;
    }

    method ApplyTemplateBalancing()
      modifies this
      ensures old(balancers) != [] ==>
                rules == old(rules) && balancers == old(balancers) &&
                observatory == old(observatory) && burstObservatory == old(burstObservatory)
      ensures old(balancers) == [] ==>
                && rules == old(rules) + [BuildBalancerRule()] && balancers == [BuildBalancer()]
                && burstObservatory == old(burstObservatory)
                && observatory == (if old(observatory) == None && old(burstObservatory) == None
                                   then Some(BuildObservatory()) else old(observatory))
    {
      if balancers != [] {
        return;
      }
      balancers := [BuildBalancer()];
      rules := rules + [BuildBalancerRule()];
      if observatory == None && burstObservatory == None {
        observatory := Some(BuildObservatory());
      }
    }

    /** All balancing sections are replaced; exactly the observatory of the strategy is left. */
    method ApplyHostBalancing(balancing: Balancing, participants: Option<seq<string>>)
      requires ProbeFits(balancing)
      modifies this
      ensures rules == ManagedRules(old(rules))
      ensures balancers == [BalancerDoc(HOST_BALANCER_TAG, participants.GetOr([PROXY_OUTBOUND_TAG]), balancing.strategy, balancing.settings, "")]
      ensures observatory == if balancing.strategy == "leastPing"
                             then Some(ObservatoryDoc(participants.GetOr([PROXY_OUTBOUND_TAG]), balancing.probe.value)) else None
      ensures burstObservatory == if balancing.strategy == "leastLoad"
                                  then Some(ObservatoryDoc(participants.GetOr([PROXY_OUTBOUND_TAG]), balancing.probe.value)) else None
    {
      var selectors := participants.GetOr([PROXY_OUTBOUND_TAG]);
      balancers := [BalancerDoc(HOST_BALANCER_TAG, selectors, balancing.strategy, balancing.settings, "")];
      rules := RewriteRules(rules);
      observatory, burstObservatory := None, None;
      if balancing.strategy == "leastPing" {
        observatory := Some(ObservatoryDoc(selectors, balancing.probe.value));
      } else if balancing.strategy == "leastLoad" {
        burstObservatory := Some(ObservatoryDoc(selectors, balancing.probe.value));
      }
    }
  }

  // ---- Which outbounds the balancer of a multi-address host reaches

  lemma ProxyTagsAreDistinct(i: nat, j: nat)
    ensures ProxyOutboundTag(i) == ProxyOutboundTag(j) <==> i == j
    ensures PROXY_OUTBOUND_TAG <= ProxyOutboundTag(i)
  {
    if i > 0 && j > 0 {
      CommonFront(PROXY_OUTBOUND_TAG + "-", Dec(i), Dec(j));
      DecInjective(i, j);
    }
    assert ProxyOutboundTag(i)[..5] == PROXY_OUTBOUND_TAG;
    assert |Dec(i)| > 0 && |Dec(j)| > 0;
  }

  function ProxyTags(count: nat): set<string> {
    set i | 0 <= i < count :: ProxyOutboundTag(i)
  }

  /** The balancer selects by the prefix "proxy", so it reaches exactly the host's own addresses exactly when no
      other outbound of the document has a tag that starts with "proxy". */
  lemma BalancedSelectsIff(count: nat, others: set<string>)
    requires others !! ProxyTags(count)
    ensures Selected([PROXY_OUTBOUND_TAG], ProxyTags(count) + others) == ProxyTags(count) <==>
              forall t | t in others :: !(PROXY_OUTBOUND_TAG <= t)
  {
    var selected := Selected([PROXY_OUTBOUND_TAG], ProxyTags(count) + others);
    forall t
      ensures SelectedBy([PROXY_OUTBOUND_TAG], t) <==> PROXY_OUTBOUND_TAG <= t
    {
      assert PROXY_OUTBOUND_TAG in [PROXY_OUTBOUND_TAG];
    }
    forall t | t in ProxyTags(count)
      ensures t in selected
    {
      var i :| 0 <= i < count && t == ProxyOutboundTag(i);
      ProxyTagsAreDistinct(i, i);
    }
    if t :| t in others && PROXY_OUTBOUND_TAG <= t {
      assert t in selected && t !in ProxyTags(count);
    }
  }
}
