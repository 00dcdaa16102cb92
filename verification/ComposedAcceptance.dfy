/** When the document of a composed host is accepted, in terms of its outbounds, rules and balancers, and which check refuses
    it otherwise. */
module ComposedAcceptance {
  import opened Options
  import opened Strings
  import opened XrayRouting
  import opened HostBalancer
  import opened ComposeEndpoints
  import opened ComposedConfig

  // ---- References between the parts of a document

  ghost predicate IsTagOf(outbounds: seq<OutboundDoc>, tag: string) {
    tag != "" && exists o :: o in outbounds && o.tag == tag
  }

  ghost predicate RuleLeads(d: Document, r: Rule) {
    && (Present(r.outboundTag) ==> IsTagOf(d.outbounds, r.outboundTag.value))
    && (Present(r.balancerTag) ==> exists b :: b in d.balancers && b.tag == r.balancerTag.value)
  }

  /** It selects some outbound, and what it falls back to exists. */
  ghost predicate BalancerWorks(d: Document, b: BalancerDoc) {
    && (b.fallbackTag != "" ==> IsTagOf(d.outbounds, b.fallbackTag))
    && exists s, o :: s in b.selector && o in d.outbounds && o.tag != "" && s <= o.tag
  }

  ghost predicate OutboundLeads(d: Document, o: OutboundDoc) {
    && (o.proxyTag != "" ==> IsTagOf(d.outbounds, o.proxyTag))
    && (o.dialerProxy != "" ==> IsTagOf(d.outbounds, o.dialerProxy))
  }

  ghost predicate DistinctBalancers(balancers: seq<BalancerDoc>) {
    forall i, j | 0 <= i < j < |balancers| :: balancers[i].tag != balancers[j].tag
  }

  ghost predicate Consistent(d: Document) {
    && DistinctBalancers(d.balancers)
    && (forall r | r in d.rules :: RuleLeads(d, r))
    && (forall b | b in d.balancers :: BalancerWorks(d, b))
    && (forall o | o in d.outbounds :: OutboundLeads(d, o))
  }

  lemma TagsAre(outbounds: seq<OutboundDoc>, tag: string)
    ensures tag in AsSet(TagList(outbounds)) <==> IsTagOf(outbounds, tag)
    ensures Resolves(AsSet(TagList(outbounds)), tag) <==> tag == "" || IsTagOf(outbounds, tag)
  {
    TagListMembers(outbounds);
  }

  lemma {:induction false} BalancerTagsAre(balancers: seq<BalancerDoc>)
    ensures |BalancerTagList(balancers)| == |balancers|
    ensures forall i | 0 <= i < |balancers| :: BalancerTagList(balancers)[i] == balancers[i].tag
    ensures forall t :: t in AsSet(BalancerTagList(balancers)) <==> exists b :: b in balancers && b.tag == t
  {
    if balancers != [] {
      var before, last := balancers[..|balancers| - 1], balancers[|balancers| - 1];
      BalancerTagsAre(before);
      assert forall b :: b in balancers <==> b in before || b == last by {
        assert balancers == before + [last];
      }
    }
  }

  lemma OccursLater(s: seq<string>)
    requires s != []
    ensures s[0] in AsSet(s[1..]) <==> exists j :: 0 < j < |s| && s[j] == s[0]
  {
    if j :| 0 < j < |s| && s[j] == s[0] {
      assert s[1..][j - 1] == s[0];
    }
  }

  lemma {:induction false} CardIsDistinct(s: seq<string>)
    ensures |AsSet(s)| <= |s|
    ensures |AsSet(s)| == |s| <==> forall i, j | 0 <= i < j < |s| :: s[i] != s[j]
  {
    if s != [] {
      var rest := s[1..];
      CardIsDistinct(rest);
      assert s == [s[0]] + rest;
      assert AsSet(s) == AsSet(rest) + {s[0]};
      OccursLater(s);
    }
  }

  lemma DuplicatesIff(balancers: seq<BalancerDoc>)
    ensures |AsSet(BalancerTagList(balancers))| == |BalancerTagList(balancers)| <==> DistinctBalancers(balancers)
  {
    BalancerTagsAre(balancers);
    CardIsDistinct(BalancerTagList(balancers));
  }

  lemma RuleLeadsIff(d: Document, r: Rule)
    ensures RuleLeads(d, r) <==>
              && Resolves(AsSet(TagList(d.outbounds)), r.outboundTag.GetOr(""))
              && Resolves(AsSet(BalancerTagList(d.balancers)), r.balancerTag.GetOr(""))
  {
    TagsAre(d.outbounds, r.outboundTag.GetOr(""));
    BalancerTagsAre(d.balancers);
  }

  lemma {:induction false} RulesLeadIff(d: Document, rules: seq<Rule>)
    ensures RuleError(AsSet(TagList(d.outbounds)), AsSet(BalancerTagList(d.balancers)), rules) == None <==>
              forall r | r in rules :: RuleLeads(d, r)
  {
    if rules != [] {
      RuleLeadsIff(d, rules[0]);
      RulesLeadIff(d, rules[1..]);
      assert rules == [rules[0]] + rules[1..];
    }
  }

  lemma SelectsSomething(d: Document, b: BalancerDoc)
    ensures Selected(b.selector, AsSet(TagList(d.outbounds))) != {} <==>
              exists s, o :: s in b.selector && o in d.outbounds && o.tag != "" && s <= o.tag
  {
    var tags := AsSet(TagList(d.outbounds));
    TagListMembers(d.outbounds);
    if Selected(b.selector, tags) != {} {
      var t :| t in Selected(b.selector, tags);
      var s :| s in b.selector && s <= t;
      var o :| o in d.outbounds && o.tag == t;
    }
    if s, o :| s in b.selector && o in d.outbounds && o.tag != "" && s <= o.tag {
      assert o.tag in TagList(d.outbounds);
      assert o.tag in Selected(b.selector, tags);
    }
  }

  lemma BalancerWorksIff(d: Document, b: BalancerDoc)
    ensures BalancerWorks(d, b) <==>
              && Resolves(AsSet(TagList(d.outbounds)), b.fallbackTag)
              && Selected(b.selector, AsSet(TagList(d.outbounds))) != {}
  {
    TagsAre(d.outbounds, b.fallbackTag);
    SelectsSomething(d, b);
  }

  lemma {:induction false} BalancersWorkIff(d: Document, balancers: seq<BalancerDoc>)
    ensures BalancerError(AsSet(TagList(d.outbounds)), balancers) == None <==> forall b | b in balancers :: BalancerWorks(d, b)
  {
    if balancers != [] {
      BalancerWorksIff(d, balancers[0]);
      BalancersWorkIff(d, balancers[1..]);
      assert balancers == [balancers[0]] + balancers[1..];
    }
  }

  lemma OutboundLeadsIff(d: Document, o: OutboundDoc)
    ensures OutboundLeads(d, o) <==>
              Resolves(AsSet(TagList(d.outbounds)), o.proxyTag) && Resolves(AsSet(TagList(d.outbounds)), o.dialerProxy)
  {
    TagsAre(d.outbounds, o.proxyTag);
    TagsAre(d.outbounds, o.dialerProxy);
  }

  lemma {:induction false} OutboundsLeadIff(d: Document, outbounds: seq<OutboundDoc>)
    ensures OutboundError(AsSet(TagList(d.outbounds)), outbounds) == None <==> forall o | o in outbounds :: OutboundLeads(d, o)
  {
    if outbounds != [] {
      OutboundLeadsIff(d, outbounds[0]);
      OutboundsLeadIff(d, outbounds[1..]);
      assert outbounds == [outbounds[0]] + outbounds[1..];
    }
  }

  /** The reference check passes exactly a consistent document. */
  lemma GraphPassesIff(d: Document)
    ensures GraphError(d) == None <==> Consistent(d)
    ensures GraphError(d) == Some(DuplicateBalancerTag) <==> !DistinctBalancers(d.balancers)
  {
    DuplicatesIff(d.balancers);
    RulesLeadIff(d, d.rules);
    BalancersWorkIff(d, d.balancers);
    OutboundsLeadIff(d, d.outbounds);
    RuleErrorsAre(AsSet(TagList(d.outbounds)), AsSet(BalancerTagList(d.balancers)), d.rules);
    BalancerErrorsAre(AsSet(TagList(d.outbounds)), d.balancers);
    OutboundErrorsAre(AsSet(TagList(d.outbounds)), d.outbounds);
  }

  lemma {:induction false} RuleErrorsAre(tags: set<string>, balancerTags: set<string>, rules: seq<Rule>)
    ensures RuleError(tags, balancerTags, rules) in {None, Some(UnresolvedOutboundTag), Some(UnresolvedBalancerTag)}
  {
    if rules != [] {
      RuleErrorsAre(tags, balancerTags, rules[1..]);
    }
  }

  lemma {:induction false} BalancerErrorsAre(tags: set<string>, balancers: seq<BalancerDoc>)
    ensures BalancerError(tags, balancers) in {None, Some(UnresolvedOutboundTag), Some(EmptyBalancerSelector)}
  {
    if balancers != [] {
      BalancerErrorsAre(tags, balancers[1..]);
    }
  }

  lemma {:induction false} OutboundErrorsAre(tags: set<string>, outbounds: seq<OutboundDoc>)
    ensures OutboundError(tags, outbounds) in {None, Some(UnresolvedOutboundTag)}
  {
    if outbounds != [] {
      OutboundErrorsAre(tags, outbounds[1..]);
    }
  }

  // ---- The tags of a document

  /** Outbounds that have a tag have different ones. */
  ghost predicate DistinctTags(outbounds: seq<OutboundDoc>) {
    forall i, j | 0 <= i < j < |outbounds| && outbounds[i].tag != "" :: outbounds[i].tag != outbounds[j].tag
  }

  lemma {:induction false} TagListDistinct(outbounds: seq<OutboundDoc>)
    ensures (forall i, j | 0 <= i < j < |TagList(outbounds)| :: TagList(outbounds)[i] != TagList(outbounds)[j]) <==> DistinctTags(outbounds)
  {
    if outbounds != [] {
      var before, last := outbounds[..|outbounds| - 1], outbounds[|outbounds| - 1];
      TagListDistinct(before);
      TagListMembers(before);
      DistinctWithLast(before, last);
      assert outbounds == before + [last];
      if last.tag == "" {
        assert TagList(outbounds) == TagList(before);
      } else {
        assert TagList(outbounds) == TagList(before) + [last.tag];
        assert IsTagOf(before, last.tag) <==> last.tag in TagList(before);
        ListWithLast(TagList(before), last.tag);
      }
    }
  }

  lemma ListWithLast(s: seq<string>, t: string)
    ensures (forall i, j | 0 <= i < j < |s + [t]| :: (s + [t])[i] != (s + [t])[j]) <==>
              t !in s && forall i, j | 0 <= i < j < |s| :: s[i] != s[j]
  {
    var all := s + [t];
    assert forall i | 0 <= i < |s| :: all[i] == s[i];
    assert all[|s|] == t;
  }

  lemma DistinctWithLast(outbounds: seq<OutboundDoc>, last: OutboundDoc)
    ensures DistinctTags(outbounds + [last]) <==> DistinctTags(outbounds) && !IsTagOf(outbounds, last.tag)
  {
    var all := outbounds + [last];
    assert forall i | 0 <= i < |outbounds| :: all[i] == outbounds[i];
    assert all[|outbounds|] == last;
  }

  lemma CollisionIff(outbounds: seq<OutboundDoc>)
    ensures |AsSet(TagList(outbounds))| == |TagList(outbounds)| <==> DistinctTags(outbounds)
  {
    CardIsDistinct(TagList(outbounds));
    TagListDistinct(outbounds);
  }

  /** Some outbound that is no endpoint has a tag that continues the tag of an endpoint. */
  ghost predicate ForeignContinues(endpoints: seq<Named>, outbounds: seq<OutboundDoc>) {
    exists n, o :: n in endpoints && o in outbounds && o.tag != "" && n.tag <= o.tag && forall m | m in endpoints :: m.tag != o.tag
  }

  lemma ForeignIff(endpoints: seq<Named>, outbounds: seq<OutboundDoc>)
    ensures SomeContinues(AsSet(Participants(endpoints)), AsSet(TagList(outbounds)) - AsSet(Participants(endpoints))) <==>
              ForeignContinues(endpoints, outbounds)
  {
    var own, others := AsSet(Participants(endpoints)), AsSet(TagList(outbounds)) - AsSet(Participants(endpoints));
    ParticipantTags(endpoints);
    TagListMembers(outbounds);
    if SomeContinues(own, others) {
      var p, t :| p in own && t in others && p <= t;
      var n :| n in endpoints && n.tag == p;
      var o :| o in outbounds && o.tag == t;
      assert forall m | m in endpoints :: m.tag != o.tag;
    }
    if n, o :| n in endpoints && o in outbounds && o.tag != "" && n.tag <= o.tag && forall m | m in endpoints :: m.tag != o.tag {
      assert n.tag in own && o.tag in others;
    }
  }

  // ---- The document that is checked

  /** The outbounds of the endpoints before those of the template; rules, balancer and observatory rewritten when managed. */
  function Drafted(template: Document, endpoints: seq<Named>, balancing: Option<Balancing>): Document
    requires balancing.Some? ==> ProbeFits(balancing.value)
  {
    var outbounds := BuiltOutbounds(endpoints) + template.outbounds;
    if balancing.Some? then Rewritten(template, outbounds, Participants(endpoints), balancing.value)
    else if template.balancers == [] then Rewritten(template, outbounds, Participants(endpoints), DEFAULT_BALANCING)
    else template.(outbounds := outbounds)
  }

  /** A composed document is accepted exactly when its tags are distinct, in a managed one no foreign outbound continues the tag
      of an endpoint, and its references lead somewhere; it is then the drafted one. */
  lemma AcceptedIff(template: Document, endpoints: seq<Named>, balancing: Option<Balancing>)
    requires balancing.Some? ==> ProbeFits(balancing.value)
    ensures var r, d := ComposedDocument(template, endpoints, balancing), Drafted(template, endpoints, balancing);
            var managed := balancing.Some? || template.balancers == [];
            && (r.Ok? <==> DistinctTags(d.outbounds) && !(managed && ForeignContinues(endpoints, d.outbounds)) && Consistent(d))
            && (r.Ok? ==> r.value == d)
            && (r == Err(TagCollision) <==> !DistinctTags(d.outbounds))
            && (r == Err(PrefixCollision) <==> DistinctTags(d.outbounds) && managed && ForeignContinues(endpoints, d.outbounds))
  {
    var d := Drafted(template, endpoints, balancing);
    CollisionIff(d.outbounds);
    ForeignIff(endpoints, d.outbounds);
    GraphPassesIff(d);
    GraphErrorsAre(d);
  }

  lemma GraphErrorsAre(d: Document)
    ensures GraphError(d) !in {Some(TagCollision), Some(PrefixCollision)}
  {
    RuleErrorsAre(AsSet(TagList(d.outbounds)), AsSet(BalancerTagList(d.balancers)), d.rules);
    BalancerErrorsAre(AsSet(TagList(d.outbounds)), d.balancers);
    OutboundErrorsAre(AsSet(TagList(d.outbounds)), d.outbounds);
  }
}
