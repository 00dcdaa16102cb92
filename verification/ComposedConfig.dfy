/** Turning a composition into one client document: outbounds, the managed balancer, and the checks that keep its
    selectors and references honest. */
module ComposedConfig {
  import opened Options
  import opened Strings
  import opened XrayRouting
  import opened HostBalancer
  import opened ComposeEndpoints

  /** "" is an absent key. */
  datatype OutboundDoc = OutboundDoc(tag: string, proxyTag: string, dialerProxy: string)

  datatype Document = Document(outbounds: seq<OutboundDoc>, rules: seq<Rule>, balancers: seq<BalancerDoc>,
                               observatory: Option<ObservatoryDoc>, burstObservatory: Option<ObservatoryDoc>)

  datatype DocumentError =
    | TagCollision
    | PrefixCollision
    | DuplicateBalancerTag
    | UnresolvedOutboundTag
    | UnresolvedBalancerTag
    | EmptyBalancerSelector

  const DEFAULT_BALANCING := Balancing("leastPing", None, Some(Ping("https://www.google.com/generate_204", "15s", Some(false))))

  const DIALER_TAG := "dialer"

  function HelperTag(index: nat): string {
    "__npvpn_dialer_" + Dec(index)
  }

  function EndpointOutbounds(n: Named, index: nat): seq<OutboundDoc> {
    if n.endpoint.dialer
    then [OutboundDoc(n.tag, "", HelperTag(index)), OutboundDoc(HelperTag(index), "", "")]
    else [OutboundDoc(n.tag, "", "")]
  }

  function BuiltOutbounds(endpoints: seq<Named>): seq<OutboundDoc> {
    if endpoints == [] then []
    else BuiltOutbounds(endpoints[..|endpoints| - 1]) + EndpointOutbounds(endpoints[|endpoints| - 1], |endpoints| - 1)
  }

  function Participants(endpoints: seq<Named>): seq<string> {
    if endpoints == [] then [] else Participants(endpoints[..|endpoints| - 1]) + [endpoints[|endpoints| - 1].tag]
  }

  /** The tags that are present, with repetitions. */
  function TagList(outbounds: seq<OutboundDoc>): seq<string> {
    if outbounds == [] then []
    else TagList(outbounds[..|outbounds| - 1]) + (if outbounds[|outbounds| - 1].tag == "" then [] else [outbounds[|outbounds| - 1].tag])
  }

  // ---- The reference check of app/xray/host_injection.py

  predicate Resolves(tags: set<string>, tag: string) {
    tag == "" || tag in tags
  }

  function RuleError(tags: set<string>, balancerTags: set<string>, rules: seq<Rule>): Option<DocumentError> {
    if rules == [] then None
    else
      var r := rules[0];
      if !Resolves(tags, r.outboundTag.GetOr("")) then Some(UnresolvedOutboundTag)
      else if !Resolves(balancerTags, r.balancerTag.GetOr("")) then Some(UnresolvedBalancerTag)
      else RuleError(tags, balancerTags, rules[1..])
  }

  function BalancerError(tags: set<string>, balancers: seq<BalancerDoc>): Option<DocumentError> {
    if balancers == [] then None
    else
      var b := balancers[0];
      if !Resolves(tags, b.fallbackTag) then Some(UnresolvedOutboundTag)
      else if Selected(b.selector, tags) == {} then Some(EmptyBalancerSelector)
      else BalancerError(tags, balancers[1..])
  }

  function OutboundError(tags: set<string>, outbounds: seq<OutboundDoc>): Option<DocumentError> {
    if outbounds == [] then None
    else if !Resolves(tags, outbounds[0].proxyTag) || !Resolves(tags, outbounds[0].dialerProxy) then Some(UnresolvedOutboundTag)
    else OutboundError(tags, outbounds[1..])
  }

  function BalancerTagList(balancers: seq<BalancerDoc>): seq<string> {
    if balancers == [] then [] else BalancerTagList(balancers[..|balancers| - 1]) + [balancers[|balancers| - 1].tag]
  }

  function GraphError(d: Document): Option<DocumentError> {
    var tags := AsSet(TagList(d.outbounds));
    var balancerTags := BalancerTagList(d.balancers);
    if |AsSet(balancerTags)| != |balancerTags| then Some(DuplicateBalancerTag)
    else
      match RuleError(tags, AsSet(balancerTags), d.rules)
      case Some(e) => Some(e)
      case None =>
        match BalancerError(tags, d.balancers)
        case Some(e) => Some(e)
        case None => OutboundError(tags, d.outbounds)
  }

  // ---- The document

  function Rewritten(template: Document, outbounds: seq<OutboundDoc>, participants: seq<string>, b: Balancing): Document
    requires ProbeFits(b)
  {
    Document(outbounds, ManagedRules(template.rules),
             [BalancerDoc(HOST_BALANCER_TAG, participants, b.strategy, b.settings, "")],
             if b.strategy == "leastPing" then Some(ObservatoryDoc(participants, b.probe.value)) else None,
             if b.strategy == "leastLoad" then Some(ObservatoryDoc(participants, b.probe.value)) else None)
  }

  predicate IsManaged(template: Document, balancing: Option<Balancing>) {
    balancing.Some? || template.balancers == []
  }

  function ComposedDocument(template: Document, endpoints: seq<Named>, balancing: Option<Balancing>): Result<Document, DocumentError>
    requires balancing.Some? ==> ProbeFits(balancing.value)
  {
    var outbounds := BuiltOutbounds(endpoints) + template.outbounds;
    var tags, participants := TagList(outbounds), Participants(endpoints);
    if |AsSet(tags)| != |tags| then Err(TagCollision)
    else if IsManaged(template, balancing) && SomeContinues(AsSet(participants), AsSet(tags) - AsSet(participants)) then
      Err(PrefixCollision)
    else
      var document :=
        if IsManaged(template, balancing)
        then Rewritten(template, outbounds, participants, balancing.GetOr(DEFAULT_BALANCING))
        else template.(outbounds := outbounds);
      match GraphError(document)
      case Some(e) => Err(e)
      case None => Ok(document)
  }

  // ---- What a composed document guarantees

  lemma {:induction false} TagListMembers(outbounds: seq<OutboundDoc>)
    ensures forall t :: t in TagList(outbounds) <==> t != "" && exists o :: o in outbounds && o.tag == t
  {
    if outbounds != [] {
      var before, last := outbounds[..|outbounds| - 1], outbounds[|outbounds| - 1];
      TagListMembers(before);
      assert forall o :: o in outbounds <==> o in before || o == last by {
        assert outbounds == before + [last];
      }
    }
  }

  lemma {:induction false} BuiltHas(endpoints: seq<Named>, n: Named)
    requires n in endpoints
    ensures exists o :: o in BuiltOutbounds(endpoints) && o.tag == n.tag
  {
    var before, last := endpoints[..|endpoints| - 1], endpoints[|endpoints| - 1];
    assert endpoints == before + [last];
    if n in before {
      BuiltHas(before, n);
    } else {
      assert EndpointOutbounds(last, |endpoints| - 1)[0] in BuiltOutbounds(endpoints);
    }
  }

  lemma HelpersDiffer(i: nat, j: nat)
    ensures HelperTag(i) == HelperTag(j) <==> i == j
  {
    CommonFront("__npvpn_dialer_", Dec(i), Dec(j));
    DecInjective(i, j);
  }

  /** The endpoint at a position has its outbound, which dials through a helper of its own exactly when it needs one. */
  lemma {:induction false} BuiltAt(endpoints: seq<Named>, i: nat)
    requires i < |endpoints|
    ensures OutboundDoc(endpoints[i].tag, "", if endpoints[i].endpoint.dialer then HelperTag(i) else "") in BuiltOutbounds(endpoints)
    ensures endpoints[i].endpoint.dialer ==> OutboundDoc(HelperTag(i), "", "") in BuiltOutbounds(endpoints)
  {
    var before, last := endpoints[..|endpoints| - 1], endpoints[|endpoints| - 1];
    if i < |before| {
      BuiltAt(before, i);
    } else {
      var own := EndpointOutbounds(last, i);
      assert own[0] in own && (last.endpoint.dialer ==> own[1] in own);
    }
  }

  lemma {:induction false} ParticipantTags(endpoints: seq<Named>)
    ensures forall t :: t in Participants(endpoints) <==> exists n :: n in endpoints && n.tag == t
    ensures AsSet(Participants(endpoints)) == TagSet(endpoints)
  {
    if endpoints != [] {
      var before, last := endpoints[..|endpoints| - 1], endpoints[|endpoints| - 1];
      ParticipantTags(before);
      assert forall n :: n in endpoints <==> n in before || n == last by {
        assert endpoints == before + [last];
      }
    }
  }

  lemma {:induction false} RulesResolve(tags: set<string>, balancerTags: set<string>, rules: seq<Rule>)
    requires RuleError(tags, balancerTags, rules) == None
    ensures forall r | r in rules :: Resolves(tags, r.outboundTag.GetOr("")) && Resolves(balancerTags, r.balancerTag.GetOr(""))
  {
    if rules != [] {
      RulesResolve(tags, balancerTags, rules[1..]);
    }
  }

  lemma {:induction false} OutboundsResolve(tags: set<string>, outbounds: seq<OutboundDoc>)
    requires OutboundError(tags, outbounds) == None
    ensures forall o | o in outbounds :: Resolves(tags, o.proxyTag) && Resolves(tags, o.dialerProxy)
  {
    if outbounds != [] {
      OutboundsResolve(tags, outbounds[1..]);
    }
  }

  /** Tags of endpoints are present and among the tags of the document. */
  lemma EndpointTagsArePresent(endpoints: seq<Named>, rest: seq<OutboundDoc>)
    requires forall n | n in endpoints :: n.tag != ""
    ensures TagSet(endpoints) <= AsSet(TagList(BuiltOutbounds(endpoints) + rest))
  {
    var all := BuiltOutbounds(endpoints) + rest;
    TagListMembers(all);
    forall n | n in endpoints
      ensures n.tag in TagList(all)
    {
      BuiltHas(endpoints, n);
      var o :| o in BuiltOutbounds(endpoints) && o.tag == n.tag;
      assert o in all;
    }
  }

  /** A managed composed document selects exactly the composed endpoints, all tags are distinct, and there is at
      least one endpoint. */
  lemma ComposedSelectsMembers(template: Document, endpoints: seq<Named>, balancing: Option<Balancing>)
    requires balancing.Some? ==> ProbeFits(balancing.value)
    requires IsManaged(template, balancing) && (forall n | n in endpoints :: n.tag != "")
    requires ComposedDocument(template, endpoints, balancing).Ok?
    ensures var d := ComposedDocument(template, endpoints, balancing).value;
            var tags := TagList(d.outbounds);
            && |d.balancers| == 1 && d.balancers[0].tag == HOST_BALANCER_TAG
            && Selected(d.balancers[0].selector, AsSet(tags)) == TagSet(endpoints)
            && |AsSet(tags)| == |tags|
            && endpoints != []
  {
    var d := ComposedDocument(template, endpoints, balancing).value;
    var tags, participants := AsSet(TagList(d.outbounds)), Participants(endpoints);
    EndpointTagsArePresent(endpoints, template.outbounds);
    ParticipantTags(endpoints);
    SelectedExactlyIff(participants, tags);
    assert BalancerError(tags, d.balancers) == None;
    assert Selected(participants, tags) != {};
  }

  /** Every packet of a managed composed document is taken by some rule, and whatever it is sent to exists: an outbound
      of the document or the host's balancer. Where rules name one target, it is the template's decision. */
  lemma ComposedRouting(holds: Conditions, template: Document, endpoints: seq<Named>, balancing: Option<Balancing>, p: Packet)
    requires balancing.Some? ==> ProbeFits(balancing.value)
    requires IsManaged(template, balancing) && ComposedDocument(template, endpoints, balancing).Ok?
    ensures var d := ComposedDocument(template, endpoints, balancing).value;
            match Eval(holds, d.rules, p)
            case Outbound(t) => t in TagList(d.outbounds)
            case Balanced(b) => b == HOST_BALANCER_TAG
            case NoTarget => true
            case Default => false
    ensures (forall r | r in template.rules :: !Conflicted(r)) ==>
              Eval(holds, ComposedDocument(template, endpoints, balancing).value.rules, p) == Managed(Eval(holds, template.rules, p))
  {
    var d := ComposedDocument(template, endpoints, balancing).value;
    var tags := AsSet(TagList(d.outbounds));
    var balancers := AsSet(BalancerTagList(d.balancers));
    assert BalancerTagList(d.balancers) == [HOST_BALANCER_TAG] by {
      assert d.balancers[..0] == [];
    }
    RulesResolve(tags, balancers, d.rules);
    FirstMatchIsMember(holds, d.rules, p);
    ManagedHasCatchAll(holds, template.rules, p);
    if forall r | r in template.rules :: !Conflicted(r) {
      ManagedPreservesMeaning(holds, template.rules, p);
    }
  }

  /** Managed rules take every packet. */
  lemma {:induction false} ManagedHasCatchAll(holds: Conditions, rules: seq<Rule>, p: Packet)
    ensures FirstMatch(holds, ManagedRules(rules), p).Some?
  {
    if rules == [] {
      assert Matches(holds, BuildBalancerRule(), p);
    } else {
      var r := Retarget(rules[0]);
      var rest := ManagedFrom(rules[1..], CatchAll(r));
      assert ManagedRules(rules) == [r] + rest && ([r] + rest)[1..] == rest;
      if !CatchAll(r) {
        ManagedHasCatchAll(holds, rules[1..], p);
      } else {
        assert Matches(holds, r, p);
      }
    }
  }

  /** All references between outbounds of a composed document resolve. */
  lemma ComposedReferences(template: Document, endpoints: seq<Named>, balancing: Option<Balancing>, o: OutboundDoc)
    requires balancing.Some? ==> ProbeFits(balancing.value)
    requires ComposedDocument(template, endpoints, balancing).Ok?
    requires o in ComposedDocument(template, endpoints, balancing).value.outbounds
    ensures var tags := TagList(ComposedDocument(template, endpoints, balancing).value.outbounds);
            && (o.proxyTag == "" || o.proxyTag in tags)
            && (o.dialerProxy == "" || o.dialerProxy in tags)
  {
    var d := ComposedDocument(template, endpoints, balancing).value;
    OutboundsResolve(AsSet(TagList(d.outbounds)), d.outbounds);
  }

  /** From the recipient to the document: the balancer of the document reaches exactly the composed endpoints, at most
      512 of them, under distinct tags that are not blank. */
  lemma ComposedEndToEnd(r: Recipient, template: Document, balancing: Option<Balancing>)
    requires balancing.Some? ==> ProbeFits(balancing.value)
    requires IsManaged(template, balancing)
    ensures Compose(r).Ok? && ComposedDocument(template, Compose(r).value.selected, balancing).Ok? ==>
              var selected := Compose(r).value.selected;
              var d := ComposedDocument(template, selected, balancing).value;
              && |d.balancers| == 1
              && Selected(d.balancers[0].selector, AsSet(TagList(d.outbounds))) == TagSet(selected)
              && 1 <= |TagSet(selected)| == |selected| <= MAX_ENDPOINTS
              && forall n | n in selected :: !Blank(n.tag)
  {
    if Compose(r).Ok? && ComposedDocument(template, Compose(r).value.selected, balancing).Ok? {
      var selected := Compose(r).value.selected;
      ComposedTags(r);
      assert forall n | n in selected :: n.tag != "";
      ComposedSelectsMembers(template, selected, balancing);
    }
  }

  // ---- What the two documents are observed by, and where they send packets

  /** One balancer over the selector, and the observatory its strategy needs over the same tags, and no other. */
  ghost predicate ManagedBy(d: Document, strategy: string, settings: Option<string>, probe: Option<Probe>, selector: seq<string>) {
    && d.balancers == [BalancerDoc("proxy-balancer", selector, strategy, settings, "")]
    && (d.observatory.Some? <==> strategy == "leastPing")
    && (d.burstObservatory.Some? <==> strategy == "leastLoad")
    && (forall o | d.observatory == Some(o) || d.burstObservatory == Some(o) :: o.subjects == selector && probe == Some(o.probe))
  }

  lemma RewrittenIsManaged(template: Document, outbounds: seq<OutboundDoc>, participants: seq<string>, b: Balancing)
    requires ProbeFits(b)
    ensures ManagedBy(Rewritten(template, outbounds, participants, b), b.strategy, b.settings, b.probe, participants)
    ensures Rewritten(template, outbounds, participants, b).outbounds == outbounds
  {
  }

  /** A managed composed document is observed the way its strategy asks for, over the tags of its endpoints; without a strategy
      it is the one of least ping. */
  lemma ComposedIsManaged(template: Document, endpoints: seq<Named>, balancing: Option<Balancing>)
    requires balancing.Some? ==> ProbeFits(balancing.value)
    requires IsManaged(template, balancing) && ComposedDocument(template, endpoints, balancing).Ok?
    ensures var d := ComposedDocument(template, endpoints, balancing).value;
            match balancing
            case Some(b) => ManagedBy(d, b.strategy, b.settings, b.probe, Participants(endpoints))
            case None => ManagedBy(d, "leastPing", None, Some(Ping("https://www.google.com/generate_204", "15s", Some(false))),
                                   Participants(endpoints))
  {
    RewrittenIsManaged(template, BuiltOutbounds(endpoints) + template.outbounds, Participants(endpoints),
                       balancing.GetOr(DEFAULT_BALANCING));
  }

  /** A composed document that is not managed is the template with the endpoints before its outbounds. */
  lemma ComposedOtherwise(template: Document, endpoints: seq<Named>)
    requires template.balancers != [] && ComposedDocument(template, endpoints, None).Ok?
    ensures var d := ComposedDocument(template, endpoints, None).value;
            && d.rules == template.rules && d.balancers == template.balancers
            && d.observatory == template.observatory && d.burstObservatory == template.burstObservatory
  {
    assert !IsManaged(template, None);
  }

  // ---- The document of a host with several addresses

  /** The addresses of the host in order, then the dialer if the host has one. */
  function BalancedOutbounds(count: nat, dialer: bool): seq<OutboundDoc> {
    seq(count, i requires 0 <= i => OutboundDoc(ProxyOutboundTag(i), "", if dialer then DIALER_TAG else "")) +
    (if dialer then [OutboundDoc(DIALER_TAG, "", "")] else [])
  }

  /** Here the template keeps its own balancers unless the host chose a strategy. */
  function BalancedDocument(template: Document, count: nat, dialer: bool, balancing: Option<Balancing>): Document
    requires balancing.Some? ==> ProbeFits(balancing.value)
  {
    var d := template.(outbounds := BalancedOutbounds(count, dialer) + template.outbounds);
    if balancing.Some? then Rewritten(template, d.outbounds, [PROXY_OUTBOUND_TAG], balancing.value)
    else if d.balancers != [] then d
    else d.(rules := d.rules + [BuildBalancerRule()],
            balancers := [BuildBalancer()],
            observatory := if d.observatory == None && d.burstObservatory == None then Some(BuildObservatory()) else d.observatory)
  }

  /** The outbounds of the addresses come first, under "proxy", "proxy-1" and so on; each dials through the helper, which comes
      next, exactly when the host has one, and the outbounds of the template follow. */
  lemma BalancedOutboundsAre(template: Document, count: nat, dialer: bool, balancing: Option<Balancing>)
    requires balancing.Some? ==> ProbeFits(balancing.value)
    ensures var outbounds := BalancedDocument(template, count, dialer, balancing).outbounds;
            && |outbounds| == count + (if dialer then 1 else 0) + |template.outbounds|
            && (forall i | 0 <= i < count ::
                  && outbounds[i].tag == (if i == 0 then "proxy" else "proxy-" + Dec(i)) && outbounds[i].proxyTag == ""
                  && (if dialer then outbounds[i].dialerProxy == outbounds[count].tag != "" else outbounds[i].dialerProxy == ""))
            && outbounds[|outbounds| - |template.outbounds|..] == template.outbounds
  {
  }

  /** A chosen strategy merges the template's targets into the host's balancer; without one a template with balancers keeps
      everything, and to any other only a last rule, its balancer and a missing observatory are added. */
  lemma BalancedRouting(holds: Conditions, template: Document, count: nat, dialer: bool, balancing: Option<Balancing>, p: Packet)
    requires balancing.Some? ==> ProbeFits(balancing.value)
    ensures var d := BalancedDocument(template, count, dialer, balancing);
            match balancing
            case Some(b) =>
              && ManagedBy(d, b.strategy, b.settings, b.probe, ["proxy"])
              && ((forall r | r in template.rules :: !Conflicted(r)) ==>
                    Eval(holds, d.rules, p) == Managed(Eval(holds, template.rules, p)) != Default)
            case None =>
              if template.balancers != [] then d == template.(outbounds := d.outbounds)
              else
                && d.balancers == [BalancerDoc("proxy-balancer", ["proxy"], "leastPing", None, "")]
                && d.burstObservatory == template.burstObservatory
                && (template.observatory.Some? ==> d.observatory == template.observatory)
                && (d.observatory.Some? || d.burstObservatory.Some?)
                && (template.observatory == None && d.observatory.Some? ==>
                      template.burstObservatory == None && d.observatory.value.subjects == ["proxy"])
                && Eval(holds, d.rules, p) == (if FirstMatch(holds, template.rules, p) == None then Balanced("proxy-balancer")
                                               else Eval(holds, template.rules, p))
  {
    if balancing.Some? {
      RewrittenIsManaged(template, BalancedDocument(template, count, dialer, balancing).outbounds, ["proxy"], balancing.value);
      if forall r | r in template.rules :: !Conflicted(r) {
        ManagedPreservesMeaning(holds, template.rules, p);
      }
    } else {
      UnmanagedChangesOnlyDefault(holds, template.rules, p);
    }
  }

  /** The positions of the outbounds a balancer may use. */
  function Reached(selector: seq<string>, outbounds: seq<OutboundDoc>): set<nat> {
    set i | 0 <= i < |outbounds| && outbounds[i].tag != "" && SelectedBy(selector, outbounds[i].tag)
  }

  function Below(count: nat): (s: set<nat>)
    ensures forall i: nat :: i in s <==> i < count
  {
    if count == 0 then {} else Below(count - 1) + {count - 1}
  }

  lemma OwnTags(count: nat, dialer: bool, i: nat)
    requires i < |BalancedOutbounds(count, dialer)|
    ensures count <= |BalancedOutbounds(count, dialer)|
    ensures PROXY_OUTBOUND_TAG <= BalancedOutbounds(count, dialer)[i].tag <==> i < count
  {
    ProxyTagsAreDistinct(i, i);
    assert DIALER_TAG[0] != PROXY_OUTBOUND_TAG[0];
  }

  lemma ReachedAt(outbounds: seq<OutboundDoc>, i: nat)
    requires i < |outbounds|
    ensures i in Reached([PROXY_OUTBOUND_TAG], outbounds) <==> PROXY_OUTBOUND_TAG <= outbounds[i].tag
  {
    assert PROXY_OUTBOUND_TAG in [PROXY_OUTBOUND_TAG];
  }

  lemma FrontReachedIff(own: seq<OutboundDoc>, rest: seq<OutboundDoc>, count: nat)
    requires count <= |own| && forall i | 0 <= i < |own| :: PROXY_OUTBOUND_TAG <= own[i].tag <==> i < count
    ensures Reached([PROXY_OUTBOUND_TAG], own + rest) == Below(count) <==> forall o | o in rest :: !(PROXY_OUTBOUND_TAG <= o.tag)
  {
    var reached := Reached([PROXY_OUTBOUND_TAG], own + rest);
    forall i | 0 <= i < |own|
      ensures i in reached <==> i < count
    {
      ReachedAt(own + rest, i);
    }
    forall k | 0 <= k < |rest|
      ensures |own| + k in reached <==> PROXY_OUTBOUND_TAG <= rest[k].tag
    {
      ReachedAt(own + rest, |own| + k);
    }
    if forall o | o in rest :: !(PROXY_OUTBOUND_TAG <= o.tag) {
      forall i: nat
        ensures i in reached <==> i < count
      {
        assert i >= |own| && i < |own + rest| ==> i == |own| + (i - |own|) && rest[i - |own|] in rest;
      }
    }
    if reached == Below(count) {
      forall o | o in rest
        ensures !(PROXY_OUTBOUND_TAG <= o.tag)
      {
        var k :| 0 <= k < |rest| && rest[k] == o;
        assert |own| + k !in Below(count);
      }
    }
  }

  /** The balancer written for a host with several addresses reaches exactly the outbounds of these addresses, exactly when
      no outbound of the template has a tag that starts with "proxy". There is no check for that, unlike for composed
      hosts. */
  lemma BalancedReachesIff(template: Document, count: nat, dialer: bool, balancing: Option<Balancing>)
    requires balancing.Some? ==> ProbeFits(balancing.value)
    requires IsManaged(template, balancing)
    ensures var d := BalancedDocument(template, count, dialer, balancing);
            && |d.balancers| == 1 && d.balancers[0].tag == HOST_BALANCER_TAG
            && (Reached(d.balancers[0].selector, d.outbounds) == Below(count) <==>
                forall o | o in template.outbounds :: !(PROXY_OUTBOUND_TAG <= o.tag))
  {
    var own := BalancedOutbounds(count, dialer);
    forall i | 0 <= i < |own|
      ensures PROXY_OUTBOUND_TAG <= own[i].tag <==> i < count
    {
      OwnTags(count, dialer, i);
    }
    FrontReachedIff(own, template.outbounds, count);
  }

  /** A template outbound "proxy-eu" is taken for an address of the host. */
  lemma TemplateProxyIsReached()
    ensures var template := Document([OutboundDoc("proxy-eu", "", "")], [], [], None, None);
            var d := BalancedDocument(template, 2, false, None);
            && |d.outbounds| == 3 && d.outbounds[2].tag == "proxy-eu"
            && 2 in Reached(d.balancers[0].selector, d.outbounds)
  {
    var template := Document([OutboundDoc("proxy-eu", "", "")], [], [], None, None);
    var d := BalancedDocument(template, 2, false, None);
    assert d.outbounds[2] == template.outbounds[0];
    ReachedAt(d.outbounds, 2);
  }

  // ---- The methods of the subscription

  method BuildOutbounds(endpoints: seq<Named>) returns (outbounds: seq<OutboundDoc>, participants: seq<string>)
    ensures outbounds == BuiltOutbounds(endpoints) && participants == Participants(endpoints)
  {
    outbounds, participants := [], [];
    for index := 0 to |endpoints|
      invariant outbounds == BuiltOutbounds(endpoints[..index])
      invariant participants == Participants(endpoints[..index])
    {
      assert endpoints[..index + 1][..index] == endpoints[..index];
      outbounds := outbounds + EndpointOutbounds(endpoints[index], index);
      participants := participants + [endpoints[index].tag];
    }
    assert endpoints[..|endpoints|] == endpoints;
  }

  class Subscription {
    var config: seq<Document>

    constructor ()
      ensures config == []
    {
      config := [];
    }

    /** A document is appended only when all checks pass. */
    method AddComposed(template: Document, endpoints: seq<Named>, balancing: Option<Balancing>) returns (r: Result<(), DocumentError>)
      requires balancing.Some? ==> ProbeFits(balancing.value)
      modifies this
      ensures match ComposedDocument(template, endpoints, balancing)
              case Ok(d) => r == Ok(()) && config == old(config) + [d]
              case Err(e) => r == Err(e) && config == old(config)
    {
      var built, participants := BuildOutbounds(endpoints);
      var outbounds := built + template.outbounds;
      var tags := TagList(outbounds);
      if |AsSet(tags)| != |tags| {
        return Err(TagCollision);
      }
      var document := template.(outbounds := outbounds);
      if balancing.Some? || template.balancers == [] {
        var others := AsSet(tags) - AsSet(participants);
        if exists p, t :: p in AsSet(participants) && t in others && p <= t {
          return Err(PrefixCollision);
        }
        var client := new ClientConfig(template.rules, template.balancers, template.observatory, template.burstObservatory);
        client.ApplyHostBalancing(balancing.GetOr(DEFAULT_BALANCING), Some(participants));
        document := Document(outbounds, client.rules, client.balancers, client.observatory, client.burstObservatory);
      }
      var error := GraphError(document);
      if error.Some? {
        return Err(error.value);
      }
      config := config + [document];
      r := Ok(());
    }

    method AddBalanced(template: Document, count: nat, dialer: bool, balancing: Option<Balancing>)
      requires balancing.Some? ==> ProbeFits(balancing.value)
      modifies this
      ensures config == old(config) + [BalancedDocument(template, count, dialer, balancing)]
    {
      var outbounds := BalancedOutbounds(count, dialer) + template.outbounds;
      var client := new ClientConfig(template.rules, template.balancers, template.observatory, template.burstObservatory);
      if balancing.Some? {
        client.ApplyHostBalancing(balancing.value, None);
      } else {
        client.ApplyTemplateBalancing();
      }
      config := config + [Document(outbounds, client.rules, client.balancers, client.observatory, client.burstObservatory)];
    }
  }
}
