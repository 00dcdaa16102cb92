/** The cascade part of a node's configuration: outbounds and rules of an entry node, the service client of an
    exit node, and where packets go afterwards. */
module CascadeConfig {
  import opened Options
  import opened Strings
  import opened XrayRouting

  const CASCADE_CLIENT_FLOW := "xtls-rprx-vision"
  const CASCADE_FINGERPRINT := "chrome"
  const CASCADE_OUTBOUND_PREFIX := "CASCADE_OUT_"
  const CASCADE_BALANCER_PREFIX := "CASCADE_BAL_"

  function CascadeOutboundTag(exitNodeId: nat, cascadeInboundTag: string): string {
    CASCADE_OUTBOUND_PREFIX + (Dec(exitNodeId) + ['_'] + cascadeInboundTag)
  }

  function CascadeBalancerTag(entryInboundTag: string): string {
    CASCADE_BALANCER_PREFIX + entryInboundTag
  }

  /** The connection data of a route travels into its outbound unchanged. */
  datatype Route = Route(entryInboundTag: string, exitNodeId: nat, cascadeInboundTag: string,
                         address: string, port: int, uuid: string, publicKey: string, shortId: string,
                         sni: string, fingerprint: Option<string>)

  datatype OutboundDoc =
    | BaseOutbound(tag: string)
    | CascadeOutbound(tag: string, address: string, port: int, uuid: string, flow: string,
                      fingerprint: string, serverName: string, publicKey: string, shortId: string)

  datatype BalancerDoc = BalancerDoc(tag: string, selector: seq<string>, strategy: string)

  datatype Client = Client(id: string, flow: string)

  datatype Inbound = Inbound(tag: string, clients: seq<Client>)

  datatype Observing = NotObserving | Observatory | BurstObservatory

  datatype Config = Config(inbounds: seq<Inbound>, outbounds: seq<OutboundDoc>, rules: seq<Rule>,
                           balancers: seq<BalancerDoc>, added: Observing)

  function TagOf(r: Route): string {
    CascadeOutboundTag(r.exitNodeId, r.cascadeInboundTag)
  }

  function BuildCascadeOutbound(r: Route): OutboundDoc {
    CascadeOutbound(TagOf(r), r.address, r.port, r.uuid, CASCADE_CLIENT_FLOW,
                    if Present(r.fingerprint) then r.fingerprint.value else CASCADE_FINGERPRINT,
                    r.sni, r.publicKey, r.shortId)
  }

  function EntryRule(entry: string, outboundTag: Option<string>, balancerTag: Option<string>): Rule {
    Rule(outboundTag, balancerTag, None, Some([entry]), None, map[])
  }

  function BuildBalancer(tag: string, selector: seq<string>, strategy: string): BalancerDoc {
    BalancerDoc(tag, selector, if strategy in ["random", "roundRobin", "leastPing", "leastLoad"] then strategy else "random")
  }

  // ---- Tags

  /** Two routes share an outbound exactly when they agree on exit and inbound. */
  lemma TagsIdentifyRoutes(e1: nat, t1: string, e2: nat, t2: string)
    ensures CascadeOutboundTag(e1, t1) == CascadeOutboundTag(e2, t2) <==> e1 == e2 && t1 == t2
    ensures CascadeOutboundTag(e1, t1) <= CascadeOutboundTag(e2, t2) <==> e1 == e2 && t1 <= t2
  {
    CommonFront(CASCADE_OUTBOUND_PREFIX, Dec(e1) + ['_'] + t1, Dec(e2) + ['_'] + t2);
    DelimitedPrefix(Dec(e1), Dec(e2), '_', t1, t2);
    DelimitedPrefix(Dec(e2), Dec(e1), '_', t2, t1);
    DecInjective(e1, e2);
  }

  // ---- What an entry node adds, as a function of the routes

  function TagsOf(routes: seq<Route>): set<string> {
    set r | r in routes :: TagOf(r)
  }

  function RouteTags(routes: seq<Route>, entry: string): set<string> {
    set r | r in routes && r.entryInboundTag == entry :: TagOf(r)
  }

  function EntrySet(routes: seq<Route>): set<string> {
    set r | r in routes :: r.entryInboundTag
  }

  /** Entry tags in the order they first occur. */
  function Entries(routes: seq<Route>): seq<string> {
    if routes == [] then []
    else
      var before, last := Entries(routes[..|routes| - 1]), routes[|routes| - 1].entryInboundTag;
      if last in before then before else before + [last]
  }

  /** The distinct outbound tags of one entry, in order. */
  function SelectorOf(routes: seq<Route>, entry: string): seq<string> {
    if routes == [] then []
    else
      var before, last := SelectorOf(routes[..|routes| - 1], entry), routes[|routes| - 1];
      if last.entryInboundTag != entry || TagOf(last) in before then before else before + [TagOf(last)]
  }

  function EntryRuleOf(routes: seq<Route>, entry: string): Rule {
    var selector := SelectorOf(routes, entry);
    if |selector| > 1 then EntryRule(entry, None, Some(CascadeBalancerTag(entry)))
    else EntryRule(entry, if selector == [] then None else Some(selector[0]), None)
  }

  function EntryRules(routes: seq<Route>, entries: seq<string>): seq<Rule> {
    if entries == [] then []
    else EntryRules(routes, entries[..|entries| - 1]) + [EntryRuleOf(routes, entries[|entries| - 1])]
  }

  /** One balancer for every entry with more than one outbound. */
  function EntryBalancers(routes: seq<Route>, entries: seq<string>, strategy: string): seq<BalancerDoc> {
    if entries == [] then []
    else
      var last := entries[|entries| - 1];
      var selector := SelectorOf(routes, last);
      EntryBalancers(routes, entries[..|entries| - 1], strategy) +
      (if |selector| > 1 then [BuildBalancer(CascadeBalancerTag(last), selector, strategy)] else [])
  }

  function EntryConfigOf(base: Config, routes: seq<Route>, strategy: string): Config {
    if routes == [] then base
    else
      var balancers := EntryBalancers(routes, Entries(routes), strategy);
      Config(base.inbounds,
             base.outbounds + Added(routes),
             base.rules + EntryRules(routes, Entries(routes)),
             base.balancers + balancers,
             if balancers != [] && strategy == "leastPing" then Observatory
             else if balancers != [] && strategy == "leastLoad" then BurstObservatory
             else base.added)
  }

  function Front(routes: seq<Route>): seq<Route>
    requires routes != []
  {
    routes[..|routes| - 1]
  }

  function Last(routes: seq<Route>): Route
    requires routes != []
  {
    routes[|routes| - 1]
  }

  lemma LastRoute(routes: seq<Route>)
    requires routes != []
    ensures TagsOf(routes) == TagsOf(Front(routes)) + {TagOf(Last(routes))}
    ensures EntrySet(routes) == EntrySet(Front(routes)) + {Last(routes).entryInboundTag}
  {
    assert routes == Front(routes) + [Last(routes)];
    assert forall r :: r in routes <==> r in Front(routes) || r == Last(routes);
  }

  lemma LastRouteOfEntry(routes: seq<Route>, e: string)
    requires routes != []
    ensures RouteTags(routes, e) ==
            RouteTags(Front(routes), e) + (if Last(routes).entryInboundTag == e then {TagOf(Last(routes))} else {})
  {
    assert routes == Front(routes) + [Last(routes)];
    assert forall r :: r in routes <==> r in Front(routes) || r == Last(routes);
  }

  lemma MembersSnoc(s: seq<string>, t: string)
    ensures AsSet(s + [t]) == AsSet(s) + {t}
  {
  }

  ghost predicate Distinct(s: seq<string>) {
    forall i, j | 0 <= i < j < |s| :: s[i] != s[j]
  }

  lemma {:induction false} SelectorMembers(routes: seq<Route>, entry: string)
    ensures AsSet(SelectorOf(routes, entry)) == RouteTags(routes, entry)
    ensures Distinct(SelectorOf(routes, entry))
  {
    if routes != [] {
      var before, last := SelectorOf(Front(routes), entry), TagOf(Last(routes));
      SelectorMembers(Front(routes), entry);
      LastRouteOfEntry(routes, entry);
      MembersSnoc(before, last);
      assert last in before <==> last in AsSet(before);
    }
  }

  lemma {:induction false} EntryMembers(routes: seq<Route>)
    ensures AsSet(Entries(routes)) == EntrySet(routes)
    ensures Distinct(Entries(routes))
  {
    if routes != [] {
      var before, last := Entries(Front(routes)), Last(routes).entryInboundTag;
      EntryMembers(Front(routes));
      LastRoute(routes);
      MembersSnoc(before, last);
      assert last in before <==> last in AsSet(before);
    }
  }

  function DocTags(outbounds: seq<OutboundDoc>): set<string> {
    set o | o in outbounds :: o.tag
  }

  lemma DocTagsAppend(a: seq<OutboundDoc>, b: seq<OutboundDoc>)
    ensures DocTags(a + b) == DocTags(a) + DocTags(b)
  {
    assert forall o :: o in a + b <==> o in a || o in b;
  }

  /** The outbounds added for the routes. */
  function Added(routes: seq<Route>): seq<OutboundDoc> {
    if routes == [] then []
    else Added(Front(routes)) + AddedBy(TagsOf(Front(routes)), Last(routes))
  }

  function AddedBy(seen: set<string>, r: Route): seq<OutboundDoc> {
    if TagOf(r) in seen then [] else [BuildCascadeOutbound(r)]
  }

  lemma AddedByTag(seen: set<string>, r: Route)
    ensures seen + DocTags(AddedBy(seen, r)) == seen + {TagOf(r)}
    ensures |seen| + |AddedBy(seen, r)| == |seen + {TagOf(r)}|
  {
    if TagOf(r) in seen {
      assert seen + {TagOf(r)} == seen;
    } else {
      assert BuildCascadeOutbound(r) in AddedBy(seen, r);
    }
  }

  /** They have pairwise distinct tags: one for every tag of a route. */
  lemma {:induction false} AddedOutbounds(routes: seq<Route>)
    ensures DocTags(Added(routes)) == TagsOf(routes)
    ensures |Added(routes)| == |TagsOf(routes)|
  {
    if routes != [] {
      var seen := TagsOf(Front(routes));
      AddedOutbounds(Front(routes));
      LastRoute(routes);
      AddedByTag(seen, Last(routes));
      DocTagsAppend(Added(Front(routes)), AddedBy(seen, Last(routes)));
    }
  }

  /** The outbound leads where the route leads: its address, keys and identity are the route's, the fingerprint is that of a
      browser unless the route has one, and the flow is that of the service client. */
  predicate LeadsTo(o: OutboundDoc, r: Route) {
    && o.CascadeOutbound? && o.tag == "CASCADE_OUT_" + Dec(r.exitNodeId) + "_" + r.cascadeInboundTag
    && o.address == r.address && o.port == r.port && o.uuid == r.uuid && o.serverName == r.sni
    && o.publicKey == r.publicKey && o.shortId == r.shortId && o.flow == "xtls-rprx-vision"
    && (if r.fingerprint.Some? && r.fingerprint.value != "" then o.fingerprint == r.fingerprint.value else o.fingerprint == "chrome")
  }

  lemma BuiltLeads(r: Route)
    ensures LeadsTo(BuildCascadeOutbound(r), r)
  {
    assert CASCADE_OUTBOUND_PREFIX + (Dec(r.exitNodeId) + ['_'] + r.cascadeInboundTag) ==
           "CASCADE_OUT_" + Dec(r.exitNodeId) + "_" + r.cascadeInboundTag;
  }

  /** It leads where the first route of its tag leads. */
  ghost predicate LeadsByFirst(o: OutboundDoc, routes: seq<Route>) {
    exists i :: FirstOfTag(routes, i) && LeadsTo(o, routes[i])
  }

  predicate FirstOfTag(routes: seq<Route>, i: int) {
    0 <= i < |routes| && TagOf(routes[i]) !in TagsOf(routes[..i])
  }

  lemma LeadsStill(o: OutboundDoc, routes: seq<Route>, last: Route)
    requires LeadsByFirst(o, routes)
    ensures LeadsByFirst(o, routes + [last])
  {
    var i :| FirstOfTag(routes, i) && LeadsTo(o, routes[i]);
    assert (routes + [last])[..i] == routes[..i];
    assert FirstOfTag(routes + [last], i);
  }

  /** So do all added outbounds; AddedOutbounds says that every tag of a route has one. */
  lemma {:induction false} AddedLead(routes: seq<Route>)
    ensures forall o | o in Added(routes) :: LeadsByFirst(o, routes)
  {
    if routes != [] {
      var before, last := Front(routes), Last(routes);
      AddedLead(before);
      assert routes == before + [last];
      forall o | o in Added(routes)
        ensures LeadsByFirst(o, routes)
      {
        if o in Added(before) {
          LeadsStill(o, before, last);
        } else {
          BuiltLeads(last);
          assert FirstOfTag(routes, |before|);
        }
      }
    }
  }

  // ---- The generator

  lemma AddedUpTo(routes: seq<Route>, i: nat)
    requires i < |routes|
    ensures Added(routes[..i + 1]) == Added(routes[..i]) + AddedBy(TagsOf(routes[..i]), routes[i])
    ensures TagsOf(routes[..i + 1]) == TagsOf(routes[..i]) + {TagOf(routes[i])}
  {
    assert Front(routes[..i + 1]) == routes[..i] && Last(routes[..i + 1]) == routes[i];
    LastRoute(routes[..i + 1]);
  }

  method AppendOutbounds(base: seq<OutboundDoc>, routes: seq<Route>) returns (outbounds: seq<OutboundDoc>)
    ensures outbounds == base + Added(routes)
  {
    outbounds := base;
    var seen: set<string> := {};
    for i := 0 to |routes|
      invariant outbounds == base + Added(routes[..i])
      invariant seen == TagsOf(routes[..i])
    {
      var route := routes[i];
      AddedUpTo(routes, i);
      if TagOf(route) !in seen {
        outbounds := outbounds + [BuildCascadeOutbound(route)];
        seen := seen + {TagOf(route)};
      }
    }
    assert routes[..|routes|] == routes;
  }

  function OfEntry(routes: seq<Route>, entry: string): seq<Route> {
    if routes == [] then []
    else
      var last := routes[|routes| - 1];
      OfEntry(routes[..|routes| - 1], entry) + (if last.entryInboundTag == entry then [last] else [])
  }

  /** A group has the selector of its entry. */
  lemma {:induction false} GroupSelector(routes: seq<Route>, entry: string)
    ensures SelectorOf(OfEntry(routes, entry), entry) == SelectorOf(routes, entry)
    ensures forall r | r in OfEntry(routes, entry) :: r.entryInboundTag == entry
    ensures OfEntry(routes, entry) != [] <==> entry in EntrySet(routes)
  {
    if routes != [] {
      var group := OfEntry(Front(routes), entry);
      GroupSelector(Front(routes), entry);
      LastRoute(routes);
      if Last(routes).entryInboundTag == entry {
        assert (group + [Last(routes)])[..|group|] == group;
      } else {
        assert OfEntry(routes, entry) == group;
      }
    }
  }

  ghost predicate Groups(groups: map<string, seq<Route>>, routes: seq<Route>) {
    && groups.Keys == EntrySet(routes)
    && forall e | e in groups :: groups[e] == OfEntry(routes, e)
  }

  lemma GroupsStep(groups: map<string, seq<Route>>, routes: seq<Route>)
    requires routes != [] && Groups(groups, Front(routes))
    ensures var entry := Last(routes).entryInboundTag;
            var group := if entry in groups then groups[entry] else [];
            Groups(groups[entry := group + [Last(routes)]], routes)
  {
    LastRoute(routes);
    GroupSelector(Front(routes), Last(routes).entryInboundTag);
    assert forall e | e != Last(routes).entryInboundTag :: OfEntry(routes, e) == OfEntry(Front(routes), e) + [];
  }

  /** groups.setdefault(entry, []).append(route), with the order of first occurrence kept beside the dictionary. */
  method GroupRoutes(routes: seq<Route>) returns (entries: seq<string>, groups: map<string, seq<Route>>)
    ensures entries == Entries(routes)
    ensures groups.Keys == EntrySet(routes)
    ensures forall e | e in groups :: groups[e] == OfEntry(routes, e)
  {
    entries, groups := [], map[];
    for i := 0 to |routes|
      invariant entries == Entries(routes[..i]) && Groups(groups, routes[..i])
    {
      var entry := routes[i].entryInboundTag;
      assert Front(routes[..i + 1]) == routes[..i] && Last(routes[..i + 1]) == routes[i];
      EntryMembers(routes[..i]);
      assert entry in entries <==> entry in AsSet(entries);
      GroupsStep(groups, routes[..i + 1]);
      if entry !in groups {
        entries := entries + [entry];
      }
      groups := groups[entry := (if entry in groups then groups[entry] else []) + [routes[i]]];
    }
    assert routes[..|routes|] == routes;
  }

  method CollectSelector(group: seq<Route>, ghost entry: string) returns (selector: seq<string>)
    requires forall r | r in group :: r.entryInboundTag == entry
    ensures selector == SelectorOf(group, entry)
  {
    selector := [];
    for i := 0 to |group|
      invariant selector == SelectorOf(group[..i], entry)
    {
      assert group[..i + 1][..i] == group[..i];
      assert group[i] in group;
      if TagOf(group[i]) !in selector {
        selector := selector + [TagOf(group[i])];
      }
    }
    assert group[..|group|] == group;
  }

  /** The rule of one entry, and its balancer when it has several outbounds. */
  method BuildEntry(ghost routes: seq<Route>, entry: string, group: seq<Route>, strategy: string)
    returns (rule: Rule, balancers: seq<BalancerDoc>)
    requires group == OfEntry(routes, entry) && group != []
    ensures rule == EntryRuleOf(routes, entry)
    ensures balancers == if |SelectorOf(routes, entry)| > 1
                         then [BuildBalancer(CascadeBalancerTag(entry), SelectorOf(routes, entry), strategy)] else []
  {
    GroupSelector(routes, entry);
    var selector := CollectSelector(group, entry);
    if |selector| > 1 {
      var tag := CascadeBalancerTag(entry);
      rule, balancers := EntryRule(entry, None, Some(tag)), [BuildBalancer(tag, selector, strategy)];
    } else {
      SelectorMembers(group, entry);
      assert group[0] in group && TagOf(group[0]) in AsSet(selector);
      rule, balancers := EntryRule(entry, Some(TagOf(group[0])), None), [];
    }
  }

  method BuildEntries(routes: seq<Route>, entries: seq<string>, groups: map<string, seq<Route>>, strategy: string)
    returns (rules: seq<Rule>, balancers: seq<BalancerDoc>)
    requires forall e | e in entries :: e in groups && groups[e] == OfEntry(routes, e) && groups[e] != []
    ensures rules == EntryRules(routes, entries)
    ensures balancers == EntryBalancers(routes, entries, strategy)
  {
    rules, balancers := [], [];
    for i := 0 to |entries|
      invariant rules == EntryRules(routes, entries[..i])
      invariant balancers == EntryBalancers(routes, entries[..i], strategy)
    {
      assert entries[..i + 1][..i] == entries[..i];
      var entry := entries[i];
      assert entry in entries;
      var rule, added := BuildEntry(routes, entry, groups[entry], strategy);
      rules, balancers := rules + [rule], balancers + added;
    }
    assert entries[..|entries|] == entries;
  }

  /** The configuration of an entry node; without routes the base is returned as it is. */
  method EntryConfig(base: Config, routes: seq<Route>, strategy: string) returns (cfg: Config)
    ensures cfg == EntryConfigOf(base, routes, strategy)
  {
    if routes == [] {
      return base;
    }
    var outbounds := AppendOutbounds(base.outbounds, routes);
    var entries, groups := GroupRoutes(routes);
    EntryMembers(routes);
    forall e | e in entries
      ensures e in groups && groups[e] != []
    {
      assert e in AsSet(entries);
      GroupSelector(routes, e);
    }
    var rules, balancers := BuildEntries(routes, entries, groups, strategy);
    var added := base.added;
    if balancers != [] {
      if strategy == "leastPing" {
        added := Observatory;
      } else if strategy == "leastLoad" {
        added := BurstObservatory;
      }
    }
    cfg := Config(base.inbounds, outbounds, base.rules + rules, base.balancers + balancers, added);
  }

  // ---- Where packets go

  /** A later balancer with the same tag replaces an earlier one. */
  function BalancerNamed(balancers: seq<BalancerDoc>, tag: string): Option<BalancerDoc> {
    if balancers == [] then None
    else
      var last := balancers[|balancers| - 1];
      if last.tag == tag then Some(last) else BalancerNamed(balancers[..|balancers| - 1], tag)
  }

  function FirstTag(outbounds: seq<OutboundDoc>): set<string> {
    if outbounds == [] then {} else {outbounds[0].tag}
  }

  /** The outbounds a target may use. */
  function Reaches(cfg: Config, t: Target): set<string> {
    match t
    case Outbound(tag) => {tag}
    case Balanced(tag) =>
      (match BalancerNamed(cfg.balancers, tag)
       case Some(b) => Selected(b.selector, DocTags(cfg.outbounds))
       case None => {})
    case NoTarget => {}
    case Default => FirstTag(cfg.outbounds)
  }

  lemma {:induction false} EntryRuleIsFirst(holds: Conditions, routes: seq<Route>, entries: seq<string>, p: Packet)
    ensures FirstMatch(holds, EntryRules(routes, entries), p) ==
            if p.inbound in entries then Some(EntryRuleOf(routes, p.inbound)) else None
  {
    if entries != [] {
      var before, last := entries[..|entries| - 1], entries[|entries| - 1];
      assert entries == before + [last];
      var rule := EntryRuleOf(routes, last);
      EntryRuleIsFirst(holds, routes, before, p);
      FirstMatchAppend(holds, EntryRules(routes, before), [rule], p);
      assert p.inbound in [last] <==> p.inbound == last;
      assert [rule][1..] == [];
    }
  }

  lemma {:induction false} BalancerOfEntry(base: seq<BalancerDoc>, routes: seq<Route>, entries: seq<string>, strategy: string, entry: string)
    requires entry in entries && |SelectorOf(routes, entry)| > 1
    ensures BalancerNamed(base + EntryBalancers(routes, entries, strategy), CascadeBalancerTag(entry)) ==
            Some(BuildBalancer(CascadeBalancerTag(entry), SelectorOf(routes, entry), strategy))
  {
    var before, last := entries[..|entries| - 1], entries[|entries| - 1];
    assert entries == before + [last];
    var all := base + EntryBalancers(routes, entries, strategy);
    CommonFront(CASCADE_BALANCER_PREFIX, last, entry);
    if |SelectorOf(routes, last)| > 1 {
      var own := BuildBalancer(CascadeBalancerTag(last), SelectorOf(routes, last), strategy);
      assert all == base + EntryBalancers(routes, before, strategy) + [own];
      assert all[..|all| - 1] == base + EntryBalancers(routes, before, strategy);
      if last != entry {
        BalancerOfEntry(base, routes, before, strategy, entry);
      }
    } else {
      assert all == base + EntryBalancers(routes, before, strategy);
      BalancerOfEntry(base, routes, before, strategy, entry);
    }
  }

  /** The outbounds of an entry node: those of the base and one per distinct route tag. */
  lemma TagsOfEntryConfig(base: Config, routes: seq<Route>, strategy: string)
    ensures DocTags(EntryConfigOf(base, routes, strategy).outbounds) == DocTags(base.outbounds) + TagsOf(routes)
  {
    AddedOutbounds(routes);
    DocTagsAppend(base.outbounds, Added(routes));
  }

  /** Packets of the base rules keep their target; of the others, those of an entry are taken by its own rule and the
      rest still fall through. */
  lemma EntryDispatch(holds: Conditions, base: Config, routes: seq<Route>, strategy: string, p: Packet)
    ensures Eval(holds, EntryConfigOf(base, routes, strategy).rules, p) ==
            if FirstMatch(holds, base.rules, p).Some? then Eval(holds, base.rules, p)
            else if p.inbound in EntrySet(routes) then TargetOf(EntryRuleOf(routes, p.inbound))
            else Default
  {
    FirstMatchAppend(holds, base.rules, EntryRules(routes, Entries(routes)), p);
    EntryRuleIsFirst(holds, routes, Entries(routes), p);
    EntryMembers(routes);
    assert p.inbound in Entries(routes) <==> p.inbound in AsSet(Entries(routes));
  }

  lemma {:induction false} SeqCard(s: seq<string>)
    requires Distinct(s)
    ensures |AsSet(s)| == |s|
  {
    if s != [] {
      SeqCard(s[1..]);
      assert s == [s[0]] + s[1..];
      assert AsSet(s) == AsSet(s[1..]) + {s[0]};
    }
  }

  lemma SingleTag(routes: seq<Route>, entry: string)
    requires |SelectorOf(routes, entry)| == 1
    ensures RouteTags(routes, entry) == {SelectorOf(routes, entry)[0]} && SelectorOf(routes, entry)[0] != ""
  {
    var selector := SelectorOf(routes, entry);
    SelectorMembers(routes, entry);
    assert AsSet(selector) == {selector[0]};
    assert selector[0] in RouteTags(routes, entry);
  }

  lemma EntryHasTags(routes: seq<Route>, entry: string)
    requires entry in EntrySet(routes)
    ensures RouteTags(routes, entry) != {} && entry in Entries(routes)
    ensures |SelectorOf(routes, entry)| == |RouteTags(routes, entry)| > 0
  {
    SelectorMembers(routes, entry);
    SeqCard(SelectorOf(routes, entry));
    EntryMembers(routes);
    assert entry in AsSet(Entries(routes));
    var r :| r in routes && r.entryInboundTag == entry;
    assert TagOf(r) in RouteTags(routes, entry);
  }

  lemma EntryRuleTarget(routes: seq<Route>, entry: string)
    requires entry in EntrySet(routes)
    ensures |SelectorOf(routes, entry)| == |RouteTags(routes, entry)| > 0
    ensures TargetOf(EntryRuleOf(routes, entry)) ==
            if |RouteTags(routes, entry)| == 1 then Outbound(SelectorOf(routes, entry)[0]) else Balanced(CascadeBalancerTag(entry))
  {
    EntryHasTags(routes, entry);
    if |SelectorOf(routes, entry)| == 1 {
      SingleTag(routes, entry);
    }
    assert CascadeBalancerTag(entry) != "";
  }

  /** What a packet of an entry reaches: its single outbound, or everything its selector takes by prefix. */
  lemma EntryReaches(holds: Conditions, base: Config, routes: seq<Route>, strategy: string, p: Packet)
    requires FirstMatch(holds, base.rules, p) == None && p.inbound in EntrySet(routes)
    ensures var cfg, own := EntryConfigOf(base, routes, strategy), RouteTags(routes, p.inbound);
            && own != {}
            && Reaches(cfg, Eval(holds, cfg.rules, p)) ==
               if |own| == 1 then own else Selected(SelectorOf(routes, p.inbound), DocTags(cfg.outbounds))
  {
    EntryDispatch(holds, base, routes, strategy, p);
    EntryHasTags(routes, p.inbound);
    EntryRuleTarget(routes, p.inbound);
    if |RouteTags(routes, p.inbound)| == 1 {
      SingleTag(routes, p.inbound);
    } else {
      BalancerOfEntry(base.balancers, routes, Entries(routes), strategy, p.inbound);
    }
  }

  /** In terms of routes: a cascade tag of another route continues ours exactly when that route leaves by the same
      exit and its inbound tag continues ours. */
  lemma ContinuedByRoute(own: Route, other: Route)
    ensures TagOf(own) <= TagOf(other) && TagOf(own) != TagOf(other) <==>
              own.exitNodeId == other.exitNodeId && own.cascadeInboundTag < other.cascadeInboundTag
  {
    TagsIdentifyRoutes(own.exitNodeId, own.cascadeInboundTag, other.exitNodeId, other.cascadeInboundTag);
  }

  /** In terms of the document: what is reached beyond the entry's own outbounds are those whose tags continue theirs. */
  lemma EntryReachesExactly(holds: Conditions, base: Config, routes: seq<Route>, strategy: string, p: Packet)
    requires FirstMatch(holds, base.rules, p) == None && p.inbound in EntrySet(routes)
    ensures var cfg, own := EntryConfigOf(base, routes, strategy), RouteTags(routes, p.inbound);
            var reached := Reaches(cfg, Eval(holds, cfg.rules, p));
            && own <= reached <= DocTags(cfg.outbounds)
            && (reached == own <==> |own| == 1 || !SomeContinues(own, DocTags(cfg.outbounds) - own))
  {
    var tags, own := DocTags(EntryConfigOf(base, routes, strategy).outbounds), RouteTags(routes, p.inbound);
    EntryReaches(holds, base, routes, strategy, p);
    TagsOfEntryConfig(base, routes, strategy);
    SelectorMembers(routes, p.inbound);
    assert own <= TagsOf(routes) <= tags;
    SelectedExactlyIff(SelectorOf(routes, p.inbound), tags);
  }

  /** Some route leaves by the same exit as a route of the entry, over an inbound whose tag continues that of the entry's
      route, and is not one of the entry's routes itself. */
  ghost predicate ForeignRoute(routes: seq<Route>, entry: string) {
    exists a, b :: IsForeign(routes, entry, a, b)
  }

  predicate IsForeign(routes: seq<Route>, entry: string, a: Route, b: Route) {
    && a in routes && b in routes && a.entryInboundTag == entry
    && a.exitNodeId == b.exitNodeId && a.cascadeInboundTag < b.cascadeInboundTag
    && forall r | r in routes && r.entryInboundTag == entry ::
         !(r.exitNodeId == b.exitNodeId && r.cascadeInboundTag == b.cascadeInboundTag)
  }

  lemma OwnTagIff(routes: seq<Route>, entry: string, b: Route)
    ensures TagOf(b) in RouteTags(routes, entry) <==>
              exists r :: r in routes && r.entryInboundTag == entry
                          && r.exitNodeId == b.exitNodeId && r.cascadeInboundTag == b.cascadeInboundTag
  {
    forall r | r in routes && r.entryInboundTag == entry
      ensures TagOf(r) == TagOf(b) <==> r.exitNodeId == b.exitNodeId && r.cascadeInboundTag == b.cascadeInboundTag
    {
      TagsIdentifyRoutes(r.exitNodeId, r.cascadeInboundTag, b.exitNodeId, b.cascadeInboundTag);
    }
    if exists r :: r in routes && r.entryInboundTag == entry && r.exitNodeId == b.exitNodeId && r.cascadeInboundTag == b.cascadeInboundTag {
      var r :| r in routes && r.entryInboundTag == entry && r.exitNodeId == b.exitNodeId && r.cascadeInboundTag == b.cascadeInboundTag;
      assert TagOf(r) in RouteTags(routes, entry);
    }
  }

  /** Among the outbounds of the routes, a foreign tag continues an own one exactly when there is a foreign route. */
  lemma ForeignRouteIff(routes: seq<Route>, entry: string)
    ensures SomeContinues(RouteTags(routes, entry), TagsOf(routes) - RouteTags(routes, entry)) <==> ForeignRoute(routes, entry)
  {
    var own, others := RouteTags(routes, entry), TagsOf(routes) - RouteTags(routes, entry);
    if SomeContinues(own, others) {
      var s, t :| s in own && t in others && s <= t;
      var a :| a in routes && a.entryInboundTag == entry && TagOf(a) == s;
      var b :| b in routes && TagOf(b) == t;
      ContinuedByRoute(a, b);
      OwnTagIff(routes, entry, b);
      assert IsForeign(routes, entry, a, b);
    }
    if ForeignRoute(routes, entry) {
      var a, b :| IsForeign(routes, entry, a, b);
      ContinuedByRoute(a, b);
      OwnTagIff(routes, entry, b);
      assert TagOf(a) in own && TagOf(b) in others;
    }
  }

  lemma ContinuesEither(own: set<string>, a: set<string>, b: set<string>)
    ensures SomeContinues(own, a + b - own) <==> SomeContinues(own, a - own) || SomeContinues(own, b - own)
  {
    if SomeContinues(own, a + b - own) {
      var s, t :| s in own && t in a + b - own && s <= t;
      assert t in a - own || t in b - own;
    }
    if SomeContinues(own, a - own) {
      var s, t :| s in own && t in a - own && s <= t;
      assert t in a + b - own;
    }
    if SomeContinues(own, b - own) {
      var s, t :| s in own && t in b - own && s <= t;
      assert t in a + b - own;
    }
  }

  /** An unmatched packet of an entry may leave by the de-duplicated outbounds of the entry's routes and by nothing else
      exactly when the entry has a single outbound, or no outbound of the base document continues one of its tags and no
      foreign route does: xray selects by prefix. The outbounds of the routes are always among those it may leave by, and
      all exist. */
  lemma EntryReachesIff(holds: Conditions, base: Config, routes: seq<Route>, strategy: string, p: Packet)
    requires FirstMatch(holds, base.rules, p) == None && p.inbound in EntrySet(routes)
    ensures var cfg, own := EntryConfigOf(base, routes, strategy), RouteTags(routes, p.inbound);
            var reached := Reaches(cfg, Eval(holds, cfg.rules, p));
            && own <= reached <= DocTags(cfg.outbounds)
            && (reached == own <==>
                || |own| == 1
                || (!SomeContinues(own, DocTags(base.outbounds) - own) && !ForeignRoute(routes, p.inbound)))
  {
    EntryReachesExactly(holds, base, routes, strategy, p);
    TagsOfEntryConfig(base, routes, strategy);
    ContinuesEither(RouteTags(routes, p.inbound), DocTags(base.outbounds), TagsOf(routes));
    ForeignRouteIff(routes, p.inbound);
  }

  /** It does happen: an entry with two exits takes the outbound of a third route, meant for another entry, when that
      route leaves by one of the exits and its inbound tag continues the one of ours. */
  lemma SelectorTakesForeignOutbound(holds: Conditions, base: Config, strategy: string, p: Packet, routes: seq<Route>, a1: Route, a2: Route, b: Route)
    requires FirstMatch(holds, base.rules, p) == None
    requires a1 in routes && a2 in routes && b in routes
    requires a1.entryInboundTag == a2.entryInboundTag == p.inbound && TagOf(a1) != TagOf(a2)
    requires a1.exitNodeId == b.exitNodeId && a1.cascadeInboundTag < b.cascadeInboundTag
    ensures TagOf(b) in Reaches(EntryConfigOf(base, routes, strategy), Eval(holds, EntryConfigOf(base, routes, strategy).rules, p))
  {
    var own := RouteTags(routes, p.inbound);
    assert a1.entryInboundTag in EntrySet(routes);
    assert TagOf(a1) in own && TagOf(a2) in own;
    EntryReaches(holds, base, routes, strategy, p);
    TagsOfEntryConfig(base, routes, strategy);
    SelectorMembers(routes, p.inbound);
    ContinuedByRoute(a1, b);
    assert |own| != 1 by {
      var rest := own - {TagOf(a1)};
      assert TagOf(a2) in rest;
      assert |own| == |rest| + 1;
    }
    assert TagOf(a1) in SelectorOf(routes, p.inbound) by {
      assert TagOf(a1) in AsSet(SelectorOf(routes, p.inbound));
    }
    assert TagOf(b) in TagsOf(routes);
  }

  lemma ForeignOfThree(holds: Conditions, strategy: string, a1: Route, a2: Route, b: Route)
    requires a1.entryInboundTag == a2.entryInboundTag != b.entryInboundTag
    requires a1.exitNodeId == b.exitNodeId != a2.exitNodeId && a1.cascadeInboundTag < b.cascadeInboundTag
    ensures var cfg := EntryConfigOf(Config([], [], [], [], NotObserving), [a1, a2, b], strategy);
            && TagOf(b) in Reaches(cfg, Eval(holds, cfg.rules, Packet(Tcp, a1.entryInboundTag, 0)))
            && TagOf(b) !in RouteTags([a1, a2, b], a1.entryInboundTag)
  {
    TagsIdentifyRoutes(a1.exitNodeId, a1.cascadeInboundTag, a2.exitNodeId, a2.cascadeInboundTag);
    TagsIdentifyRoutes(a1.exitNodeId, a1.cascadeInboundTag, b.exitNodeId, b.cascadeInboundTag);
    TagsIdentifyRoutes(a2.exitNodeId, a2.cascadeInboundTag, b.exitNodeId, b.cascadeInboundTag);
    SelectorTakesForeignOutbound(holds, Config([], [], [], [], NotObserving), strategy, Packet(Tcp, a1.entryInboundTag, 0),
                                 [a1, a2, b], a1, a2, b);
  }

  lemma ForeignOutboundExample(holds: Conditions, strategy: string)
    ensures var a1 := Route("A", 1, "X", "", 0, "", "", "", "", None);
            var a2, b := a1.(exitNodeId := 2), a1.(entryInboundTag := "B", cascadeInboundTag := "XY");
            var cfg := EntryConfigOf(Config([], [], [], [], NotObserving), [a1, a2, b], strategy);
            && TagOf(b) in Reaches(cfg, Eval(holds, cfg.rules, Packet(Tcp, "A", 0)))
            && TagOf(b) !in RouteTags([a1, a2, b], "A")
  {
    var a1 := Route("A", 1, "X", "", 0, "", "", "", "", None);
    var a2, b := a1.(exitNodeId := 2), a1.(entryInboundTag := "B", cascadeInboundTag := "XY");
    ForeignOfThree(holds, strategy, a1, a2, b);
  }

  // ---- Balancing and observing

  /** Some entry has several outbounds. */
  ghost predicate Balances(routes: seq<Route>) {
    exists e :: e in EntrySet(routes) && |RouteTags(routes, e)| > 1
  }

  lemma {:induction false} BalancersOfMany(routes: seq<Route>, entries: seq<string>, strategy: string)
    ensures EntryBalancers(routes, entries, strategy) != [] <==> exists e :: e in entries && |SelectorOf(routes, e)| > 1
    ensures forall b | b in EntryBalancers(routes, entries, strategy) ::
              b.strategy == if strategy == "roundRobin" || strategy == "leastPing" || strategy == "leastLoad" then strategy else "random"
  {
    if entries != [] {
      var before, last := entries[..|entries| - 1], entries[|entries| - 1];
      BalancersOfMany(routes, before, strategy);
      assert forall e :: e in entries <==> e in before || e == last by {
        assert entries == before + [last];
      }
      if |SelectorOf(routes, last)| > 1 {
        assert last in entries;
      }
    }
  }

  /** The balancers of an entry node have the strategy that was asked for, or "random" for an unknown one; an observatory is
      added exactly when some entry is balanced by a strategy that observes. */
  lemma ObservedIff(base: Config, routes: seq<Route>, strategy: string)
    requires base.added == NotObserving
    ensures var added := EntryConfigOf(base, routes, strategy).added;
            && (added == Observatory <==> Balances(routes) && strategy == "leastPing")
            && (added == BurstObservatory <==> Balances(routes) && strategy == "leastLoad")
    ensures forall b | b in EntryBalancers(routes, Entries(routes), strategy) ::
              b.strategy == if strategy == "roundRobin" || strategy == "leastPing" || strategy == "leastLoad" then strategy else "random"
  {
    BalancersOfMany(routes, Entries(routes), strategy);
    EntryMembers(routes);
    forall e
      ensures e in Entries(routes) <==> e in EntrySet(routes)
      ensures e in EntrySet(routes) ==> |SelectorOf(routes, e)| == |RouteTags(routes, e)|
    {
      assert e in Entries(routes) <==> e in AsSet(Entries(routes));
      if e in EntrySet(routes) {
        EntryHasTags(routes, e);
      }
    }
  }

  // ---- Packets that no entry takes

  lemma {:induction false} OtherBalancer(base: seq<BalancerDoc>, routes: seq<Route>, entries: seq<string>, strategy: string, tag: string)
    requires forall e | e in entries && |SelectorOf(routes, e)| > 1 :: tag != CascadeBalancerTag(e)
    ensures BalancerNamed(base + EntryBalancers(routes, entries, strategy), tag) == BalancerNamed(base, tag)
  {
    if entries == [] {
      assert base + EntryBalancers(routes, entries, strategy) == base;
    } else {
      var before, last := entries[..|entries| - 1], entries[|entries| - 1];
      var all := base + EntryBalancers(routes, entries, strategy);
      OtherBalancer(base, routes, before, strategy, tag);
      if |SelectorOf(routes, last)| > 1 {
        var own := BuildBalancer(CascadeBalancerTag(last), SelectorOf(routes, last), strategy);
        assert all == base + EntryBalancers(routes, before, strategy) + [own];
        assert all[..|all| - 1] == base + EntryBalancers(routes, before, strategy);
      } else {
        assert all == base + EntryBalancers(routes, before, strategy);
      }
    }
  }

  lemma SelectedMore(selector: seq<string>, tags: set<string>, more: set<string>)
    ensures Selected(selector, tags) <= Selected(selector, tags + more)
    ensures Selected(selector, tags + more) == Selected(selector, tags) <==> forall t | t in more - tags :: !SelectedBy(selector, t)
  {
    if t :| t in more - tags && SelectedBy(selector, t) {
      assert t in Selected(selector, tags + more) && t !in Selected(selector, tags);
    }
  }

  /** The balancer of a base rule takes an added outbound by its prefix, or an added outbound becomes the first of all. */
  ghost predicate Widened(base: Config, routes: seq<Route>, t: Target) {
    match t
    case Balanced(tag) =>
      var b := BalancerNamed(base.balancers, tag);
      b.Some? && exists route :: route in TagsOf(routes) - DocTags(base.outbounds) && SelectedBy(b.value.selector, route)
    case Default => base.outbounds == [] && routes != []
    case _ => false
  }

  lemma FirstOutbound(base: Config, routes: seq<Route>, strategy: string)
    ensures Reaches(base, Default) <= Reaches(EntryConfigOf(base, routes, strategy), Default)
    ensures Reaches(EntryConfigOf(base, routes, strategy), Default) == Reaches(base, Default) <==> !Widened(base, routes, Default)
  {
    var cfg, more := EntryConfigOf(base, routes, strategy), if routes == [] then [] else Added(routes);
    assert cfg.outbounds == base.outbounds + more;
    if routes != [] {
      AddedOutbounds(routes);
      assert TagOf(routes[0]) in TagsOf(routes);
    }
    FirstOfBoth(base.outbounds, more);
  }

  lemma FirstOfBoth(a: seq<OutboundDoc>, b: seq<OutboundDoc>)
    ensures FirstTag(a + b) == if a == [] then FirstTag(b) else FirstTag(a)
    ensures FirstTag(b) == {} <==> b == []
  {
    if a == [] {
      assert a + b == b;
    }
  }

  lemma BaseBalancerReaches(base: Config, routes: seq<Route>, strategy: string, tag: string)
    requires forall e | e in Entries(routes) && |SelectorOf(routes, e)| > 1 :: tag != CascadeBalancerTag(e)
    ensures var cfg, t := EntryConfigOf(base, routes, strategy), Balanced(tag);
            && Reaches(base, t) <= Reaches(cfg, t)
            && (Reaches(cfg, t) == Reaches(base, t) <==> !Widened(base, routes, t))
  {
    TagsOfEntryConfig(base, routes, strategy);
    OtherBalancer(base.balancers, routes, Entries(routes), strategy, tag);
    var b := BalancerNamed(base.balancers, tag);
    if b.Some? {
      SelectedMore(b.value.selector, DocTags(base.outbounds), TagsOf(routes));
    }
  }

  /** A packet that no entry takes may leave by every outbound it left by without the cascade. It may leave by no other
      exactly when no base balancer takes an added outbound by its prefix and, if no rule matches, the base has an outbound. */
  lemma BaseReachesIff(holds: Conditions, base: Config, routes: seq<Route>, strategy: string, p: Packet)
    requires FirstMatch(holds, base.rules, p).Some? || p.inbound !in EntrySet(routes)
    requires forall e | e in EntrySet(routes) && |RouteTags(routes, e)| > 1 :: Eval(holds, base.rules, p) != Balanced(CascadeBalancerTag(e))
    ensures var cfg := EntryConfigOf(base, routes, strategy);
            var before, after := Reaches(base, Eval(holds, base.rules, p)), Reaches(cfg, Eval(holds, cfg.rules, p));
            before <= after && (after == before <==> !Widened(base, routes, Eval(holds, base.rules, p)))
  {
    var t := Eval(holds, base.rules, p);
    EntryDispatch(holds, base, routes, strategy, p);
    match t
    case Default => FirstOutbound(base, routes, strategy);
    case Balanced(tag) =>
      forall e | e in Entries(routes) && |SelectorOf(routes, e)| > 1
        ensures tag != CascadeBalancerTag(e)
      {
        EntryMembers(routes);
        assert e in AsSet(Entries(routes));
        EntryHasTags(routes, e);
      }
      BaseBalancerReaches(base, routes, strategy, tag);
    case _ =>
  }

  /** A base rule that names the balancer of an entry goes where that entry goes. */
  lemma BalancerTakenOver(holds: Conditions, base: Config, routes: seq<Route>, strategy: string, p: Packet, entry: string)
    requires entry in EntrySet(routes) && |RouteTags(routes, entry)| > 1
    requires Eval(holds, base.rules, p) == Balanced(CascadeBalancerTag(entry))
    ensures var cfg := EntryConfigOf(base, routes, strategy);
            Reaches(cfg, Eval(holds, cfg.rules, p)) == Selected(SelectorOf(routes, entry), DocTags(cfg.outbounds))
  {
    EntryDispatch(holds, base, routes, strategy, p);
    EntryHasTags(routes, entry);
    BalancerOfEntry(base.balancers, routes, Entries(routes), strategy, entry);
  }

  lemma OneRouteBalanced(holds: Conditions, base: Config, route: Route, strategy: string, p: Packet, rule: Rule, doc: BalancerDoc)
    requires base.rules == [rule] && base.balancers == [doc] && Matches(holds, rule, p) && TargetOf(rule) == Balanced(doc.tag)
    ensures var cfg := EntryConfigOf(base, [route], strategy);
            && Reaches(base, Eval(holds, base.rules, p)) == Selected(doc.selector, DocTags(base.outbounds))
            && Reaches(cfg, Eval(holds, cfg.rules, p)) == Selected(doc.selector, DocTags(base.outbounds) + {TagOf(route)})
  {
    EntryDispatch(holds, base, [route], strategy, p);
    TagsOfEntryConfig(base, [route], strategy);
    assert TagsOf([route]) == {TagOf(route)};
    assert BalancerNamed([doc], doc.tag) == Some(doc);
    OneRouteOneTag(route);
    OtherBalancer([doc], [route], Entries([route]), strategy, doc.tag);
  }

  lemma OneRouteOneTag(route: Route)
    ensures forall e :: |SelectorOf([route], e)| <= 1
  {
    assert [route][..0] == [];
  }

  lemma SelectsBoth(selector: seq<string>, a: string, b: string)
    requires |selector| == 2 && selector[1] <= a && selector[0] <= b
    ensures Selected(selector, {a}) == {a} && Selected(selector, {a} + {b}) == {a, b}
  {
    assert selector[0] in selector && selector[1] in selector;
  }

  /** A base balancer whose selector has an entry "C" takes the outbound of the route along. */
  lemma BaseBalancerExample(holds: Conditions, strategy: string)
    ensures var route := Route("A", 1, "X", "", 0, "", "", "", "", None);
            var rule := Rule(None, Some("B"), None, None, None, map[]);
            var base := Config([], [BaseOutbound("DIRECT")], [rule], [BalancerDoc("B", ["C", "D"], "random")], NotObserving);
            var cfg, p := EntryConfigOf(base, [route], strategy), Packet(Tcp, "E", 0);
            && Reaches(base, Eval(holds, base.rules, p)) == {"DIRECT"}
            && Reaches(cfg, Eval(holds, cfg.rules, p)) == {"DIRECT", "CASCADE_OUT_1_X"}
  {
    var route := Route("A", 1, "X", "", 0, "", "", "", "", None);
    var rule := Rule(None, Some("B"), None, None, None, map[]);
    var doc := BalancerDoc("B", ["C", "D"], "random");
    var base := Config([], [BaseOutbound("DIRECT")], [rule], [doc], NotObserving);
    var p := Packet(Tcp, "E", 0);
    assert Dec(1) == "1" && TagOf(route) == "CASCADE_OUT_1_X";
    assert DocTags(base.outbounds) == {"DIRECT"};
    OneRouteBalanced(holds, base, route, strategy, p, rule, doc);
    SelectsBoth(["C", "D"], "DIRECT", "CASCADE_OUT_1_X");
  }

  // ---- The exit role

  function InjectCascadeClient(inbound: Inbound, uuid: string): Inbound {
    if exists c :: c in inbound.clients && c.id == uuid then inbound
    else inbound.(clients := inbound.clients + [Client(uuid, CASCADE_CLIENT_FLOW)])
  }

  datatype CascadeClient = CascadeClient(inboundTag: string, uuid: string)

  /** uuid_by_tag.setdefault: the first client of a tag wins. */
  function UuidByTag(clients: seq<CascadeClient>): map<string, string> {
    if clients == [] then map[]
    else
      var before, last := UuidByTag(clients[..|clients| - 1]), clients[|clients| - 1];
      if last.inboundTag in before then before else before[last.inboundTag := last.uuid]
  }

  function InjectAll(inbounds: seq<Inbound>, uuidByTag: map<string, string>): (r: seq<Inbound>)
    ensures |r| == |inbounds|
    ensures forall i | 0 <= i < |inbounds| ::
              r[i] == if inbounds[i].tag in uuidByTag then InjectCascadeClient(inbounds[i], uuidByTag[inbounds[i].tag]) else inbounds[i]
  {
    if inbounds == [] then []
    else
      var first := inbounds[0];
      [if first.tag in uuidByTag then InjectCascadeClient(first, uuidByTag[first.tag]) else first] + InjectAll(inbounds[1..], uuidByTag)
  }

  method CollectUuids(clients: seq<CascadeClient>) returns (uuidByTag: map<string, string>)
    ensures uuidByTag == UuidByTag(clients)
  {
    uuidByTag := map[];
    for i := 0 to |clients|
      invariant uuidByTag == UuidByTag(clients[..i])
    {
      assert clients[..i + 1][..i] == clients[..i];
      if clients[i].inboundTag !in uuidByTag {
        uuidByTag := uuidByTag[clients[i].inboundTag := clients[i].uuid];
      }
    }
    assert clients[..|clients|] == clients;
  }

  lemma {:induction false} FirstUuidWins(clients: seq<CascadeClient>, i: nat)
    requires i < |clients| && forall j | 0 <= j < i :: clients[j].inboundTag != clients[i].inboundTag
    ensures clients[i].inboundTag in UuidByTag(clients) && UuidByTag(clients)[clients[i].inboundTag] == clients[i].uuid
  {
    var before := clients[..|clients| - 1];
    UuidTags(before);
    if i < |before| {
      FirstUuidWins(before, i);
    }
  }

  lemma {:induction false} UuidTags(clients: seq<CascadeClient>)
    ensures forall t :: t in UuidByTag(clients) <==> exists c :: c in clients && c.inboundTag == t
  {
    if clients != [] {
      var before, last := clients[..|clients| - 1], clients[|clients| - 1];
      UuidTags(before);
      assert forall c :: c in clients <==> c in before || c == last by {
        assert clients == before + [last];
      }
    }
  }

  /** The exit role keeps every client, gives the named inbounds their service client, and repeating it does nothing. */
  lemma ExitRoleLaws(inbounds: seq<Inbound>, clients: seq<CascadeClient>, i: nat)
    requires i < |inbounds|
    ensures var uuids := UuidByTag(clients);
            var once := InjectAll(inbounds, uuids);
            && InjectAll(once, uuids) == once
            && once[i].tag == inbounds[i].tag
            && inbounds[i].clients <= once[i].clients
            && |once[i].clients| <= |inbounds[i].clients| + 1
            && (inbounds[i].tag !in uuids ==> once[i] == inbounds[i])
            && (inbounds[i].tag in uuids ==> exists c :: c in once[i].clients && c.id == uuids[inbounds[i].tag])
  {
    var uuids := UuidByTag(clients);
    var once := InjectAll(inbounds, uuids);
    forall j | 0 <= j < |inbounds|
      ensures InjectAll(once, uuids)[j] == once[j]
      ensures inbounds[j].tag in uuids ==> exists c :: c in once[j].clients && c.id == uuids[inbounds[j].tag]
    {
      if inbounds[j].tag in uuids {
        InjectedTwice(inbounds[j], uuids[inbounds[j].tag]);
      }
    }
  }

  lemma InjectedTwice(inbound: Inbound, uuid: string)
    ensures exists c :: c in InjectCascadeClient(inbound, uuid).clients && c.id == uuid
    ensures InjectCascadeClient(InjectCascadeClient(inbound, uuid), uuid) == InjectCascadeClient(inbound, uuid)
  {
    if !(exists c :: c in inbound.clients && c.id == uuid) {
      assert Client(uuid, CASCADE_CLIENT_FLOW) in InjectCascadeClient(inbound, uuid).clients;
    }
  }

  /** What becomes of one inbound of an exit node: it keeps its clients, and has the service client of the first entry
      that names it; an inbound that no entry names stays as it is. */
  predicate Served(before: Inbound, after: Inbound, clients: seq<CascadeClient>) {
    && after.tag == before.tag && before.clients <= after.clients
    && (forall k | 0 <= k < |clients| && IsFirstFor(clients, k, before.tag) ::
          if exists c :: c in before.clients && c.id == clients[k].uuid then after == before
          else after.clients == before.clients + [Client(clients[k].uuid, CASCADE_CLIENT_FLOW)])
    && ((forall c | c in clients :: c.inboundTag != before.tag) ==> after == before)
  }

  predicate IsFirstFor(clients: seq<CascadeClient>, k: nat, tag: string) {
    k < |clients| && clients[k].inboundTag == tag && forall j | 0 <= j < k :: clients[j].inboundTag != tag
  }

  lemma InjectedIsServed(inbound: Inbound, clients: seq<CascadeClient>)
    ensures var uuids := UuidByTag(clients);
            Served(inbound, if inbound.tag in uuids then InjectCascadeClient(inbound, uuids[inbound.tag]) else inbound, clients)
  {
    UuidTags(clients);
    forall k | 0 <= k < |clients| && IsFirstFor(clients, k, inbound.tag)
      ensures inbound.tag in UuidByTag(clients) && UuidByTag(clients)[inbound.tag] == clients[k].uuid
    {
      FirstUuidWins(clients, k);
    }
  }

  method ExitConfig(base: Config, clients: seq<CascadeClient>) returns (cfg: Config)
    ensures cfg == base.(inbounds := cfg.inbounds) && |cfg.inbounds| == |base.inbounds|
    ensures forall i | 0 <= i < |base.inbounds| :: Served(base.inbounds[i], cfg.inbounds[i], clients)
    ensures InjectAll(cfg.inbounds, UuidByTag(clients)) == cfg.inbounds
  {
    var uuidByTag := CollectUuids(clients);
    cfg := base.(inbounds := InjectAll(base.inbounds, uuidByTag));
    forall i | 0 <= i < |base.inbounds|
      ensures Served(base.inbounds[i], cfg.inbounds[i], clients)
    {
      InjectedIsServed(base.inbounds[i], clients);
    }
    if base.inbounds != [] {
      ExitRoleLaws(base.inbounds, clients, 0);
    }
  }
}
