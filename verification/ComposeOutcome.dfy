/** When a composition succeeds, under which tags, and with which error it fails: read off the sources, the prefixes and the
    selectors of the recipient, without composing. */
module ComposeOutcome {
  import opened Options
  import opened Strings
  import opened ComposeEndpoints

  // ---- The tags that sources ask for

  /** The tag of the i-th endpoint of a source that follows `origins`. Numbers of a prefix go on where the sources before
      stopped; a name starts again in every source. */
  function WantedTag(origins: seq<Naming>, naming: Naming, i: nat): string {
    match naming
    case ByPrefix(p) => NumberedTag(p, Occurrences(origins, naming) + i + 1)
    case ByName(n) => NumberedTag(n, i + 1)
  }

  function WantedBy(origins: seq<Naming>, naming: Naming, n: nat): (tags: seq<string>)
    ensures |tags| == n
  {
    seq(n, i requires 0 <= i < n => WantedTag(origins, naming, i))
  }

  /** One tag for every endpoint of a source that is not blocked, in order. */
  function WantedTags(sources: seq<Source>): seq<string> {
    if sources == [] then []
    else
      var before, s := sources[..|sources| - 1], sources[|sources| - 1];
      WantedTags(before) + WantedBy(Origins(before), s.naming, |OriginsOf(s)|)
  }

  // ---- What is wrong with a list of tags

  predicate Unusable(tags: seq<string>, k: nat)
    requires k < |tags|
  {
    Blank(tags[k]) || tags[k] in tags[..k]
  }

  predicate Bad(tags: seq<string>, k: nat)
    requires k < |tags|
  {
    Unusable(tags, k) || k >= 512
  }

  ghost predicate FirstBad(tags: seq<string>, k: nat) {
    k < |tags| && Bad(tags, k) && forall j | 0 <= j < k :: !Bad(tags, j)
  }

  function ErrorAt(tags: seq<string>, k: nat): ComposeError
    requires k < |tags|
  {
    if Unusable(tags, k) then OutboundTagCollision else TooManyEndpoints
  }

  /** Pairwise distinct, not blank, and at most 512. */
  ghost predicate Fits(tags: seq<string>) {
    && (forall i, j | 0 <= i < j < |tags| :: tags[i] != tags[j])
    && (forall t | t in tags :: !Blank(t))
    && |tags| <= 512
  }

  lemma FitsIff(tags: seq<string>)
    ensures Fits(tags) <==> forall k | 0 <= k < |tags| :: !Bad(tags, k)
  {
    if Fits(tags) {
      forall k | 0 <= k < |tags|
        ensures !Bad(tags, k)
      {
        assert tags[k] in tags;
      }
    }
    if forall k | 0 <= k < |tags| :: !Bad(tags, k) {
      forall i, j | 0 <= i < j < |tags|
        ensures tags[i] != tags[j]
      {
        assert !Bad(tags, j) && tags[i] == tags[..j][i];
      }
      assert |tags| > 512 ==> Bad(tags, 512);
      forall t | t in tags
        ensures !Blank(t)
      {
        var k :| 0 <= k < |tags| && tags[k] == t;
        assert !Bad(tags, k);
      }
    }
  }

  lemma OnlyFirst(tags: seq<string>, j: nat, k: nat)
    requires FirstBad(tags, j) && FirstBad(tags, k)
    ensures j == k
  {
  }

  lemma BadStays(tags: seq<string>, more: seq<string>, k: nat)
    requires k < |tags|
    ensures Bad(tags + more, k) == Bad(tags, k) && ErrorAt(tags + more, k) == ErrorAt(tags, k)
  {
    assert (tags + more)[..k] == tags[..k];
  }

  lemma FirstBadStays(tags: seq<string>, more: seq<string>, k: nat)
    requires FirstBad(tags, k)
    ensures FirstBad(tags + more, k) && ErrorAt(tags + more, k) == ErrorAt(tags, k)
  {
    forall j | 0 <= j <= k
      ensures Bad(tags + more, j) == Bad(tags, j) && ErrorAt(tags + more, j) == ErrorAt(tags, j)
    {
      BadStays(tags, more, j);
    }
  }

  // ---- Adding endpoints takes the wanted tags

  function TagsTaken(selected: seq<Named>): seq<string> {
    if selected == [] then [] else TagsTaken(selected[..|selected| - 1]) + [selected[|selected| - 1].tag]
  }

  /** The composition holds these tags, none of them bad, with the counts of these origins. */
  ghost predicate Holds(c: Composition, tags: seq<string>, origins: seq<Naming>) {
    && TagsTaken(c.selected) == tags && |c.selected| == |tags|
    && (forall t :: t in c.used <==> t in tags)
    && (forall k | 0 <= k < |tags| :: !Bad(tags, k))
    && forall p :: CountOf(c.counts, p) == Occurrences(origins, ByPrefix(p))
  }

  /** The outcome of adding sources: these tags are held, or the first bad one is the error. */
  ghost predicate Outcome(r: Result<Composition, ComposeError>, tags: seq<string>, origins: seq<Naming>) {
    match r
    case Ok(c) => Holds(c, tags, origins)
    case Err(e) => exists k :: FirstBad(tags, k) && e == ErrorAt(tags, k)
  }

  lemma TakenLast(selected: seq<Named>, last: Named)
    ensures TagsTaken(selected + [last]) == TagsTaken(selected) + [last.tag]
  {
    assert (selected + [last])[..|selected|] == selected;
  }

  lemma LastIsBadIff(tags: seq<string>, tag: string)
    ensures Bad(tags + [tag], |tags|) <==> Blank(tag) || tag in tags || |tags| >= 512
    ensures ErrorAt(tags + [tag], |tags|) == if Blank(tag) || tag in tags then OutboundTagCollision else TooManyEndpoints
    ensures forall k | 0 <= k < |tags| :: Bad(tags + [tag], k) == Bad(tags, k)
  {
    assert (tags + [tag])[..|tags|] == tags;
    forall k | 0 <= k < |tags|
      ensures Bad(tags + [tag], k) == Bad(tags, k)
    {
      BadStays(tags, [tag], k);
    }
  }

  lemma EndpointOutcome(c: Composition, naming: Naming, index: nat, e: Endpoint, tags: seq<string>, origins: seq<Naming>)
    requires Holds(c, tags, origins)
    ensures Outcome(AddEndpoint(c, naming, index, e), tags + [TagFor(c, naming, index)], origins + [naming])
  {
    var tag := TagFor(c, naming, index);
    LastIsBadIff(tags, tag);
    if AddEndpoint(c, naming, index, e).Ok? {
      TakenLast(c.selected, Named(tag, e));
      forall p
        ensures Occurrences(origins + [naming], ByPrefix(p)) == Occurrences(origins, ByPrefix(p)) + (if naming == ByPrefix(p) then 1 else 0)
      {
        OccurrencesLast(origins, naming, ByPrefix(p));
      }
    } else {
      assert FirstBad(tags + [tag], |tags|);
    }
  }

  lemma {:induction false} OccurrencesRepeat(origins: seq<Naming>, naming: Naming, n: nat)
    ensures Occurrences(origins + Repeat(naming, n), naming) == Occurrences(origins, naming) + n
  {
    if n == 0 {
      assert origins + Repeat(naming, 0) == origins;
    } else {
      OccurrencesRepeat(origins, naming, n - 1);
      OneMoreOrigin(origins, naming, n);
      OccurrencesLast(origins + Repeat(naming, n - 1), naming, naming);
    }
  }

  lemma WantedNext(origins: seq<Naming>, naming: Naming, n: nat)
    ensures WantedBy(origins, naming, n + 1) == WantedBy(origins, naming, n) + [WantedTag(origins, naming, n)]
  {
  }

  lemma ErrorStays(r: Result<Composition, ComposeError>, tags: seq<string>, more: seq<string>, origins: seq<Naming>, origins': seq<Naming>)
    requires r.Err? && Outcome(r, tags, origins)
    ensures Outcome(r, tags + more, origins')
  {
    var k :| FirstBad(tags, k) && r.error == ErrorAt(tags, k);
    FirstBadStays(tags, more, k);
  }

  lemma OneMoreOutcome(r: Result<Composition, ComposeError>, naming: Naming, n: nat, e: Endpoint, tags: seq<string>, origins: seq<Naming>)
    requires Outcome(r, tags + WantedBy(origins, naming, n), origins + Repeat(naming, n))
    ensures Outcome(if r.Err? then r else AddEndpoint(r.value, naming, n, e),
                    tags + WantedBy(origins, naming, n) + [WantedTag(origins, naming, n)], origins + Repeat(naming, n) + [naming])
  {
    var held, named := tags + WantedBy(origins, naming, n), origins + Repeat(naming, n);
    if r.Err? {
      ErrorStays(r, held, [WantedTag(origins, naming, n)], named, named + [naming]);
    } else {
      OccurrencesRepeat(origins, naming, n);
      assert TagFor(r.value, naming, n) == WantedTag(origins, naming, n);
      EndpointOutcome(r.value, naming, n, e, held, named);
    }
  }

  lemma WantedGrown(tags: seq<string>, origins: seq<Naming>, naming: Naming, n: nat)
    ensures tags + WantedBy(origins, naming, n + 1) == tags + WantedBy(origins, naming, n) + [WantedTag(origins, naming, n)]
    ensures origins + Repeat(naming, n + 1) == origins + Repeat(naming, n) + [naming]
    ensures tags + WantedBy(origins, naming, 0) == tags && origins + Repeat(naming, 0) == origins
  {
    WantedNext(origins, naming, n);
    OneMoreOrigin(origins, naming, n + 1);
  }

  lemma {:induction false} EndpointsOutcome(c: Composition, naming: Naming, endpoints: seq<Endpoint>, tags: seq<string>, origins: seq<Naming>)
    requires Holds(c, tags, origins)
    ensures Outcome(AddEndpoints(c, naming, endpoints), tags + WantedBy(origins, naming, |endpoints|), origins + Repeat(naming, |endpoints|))
  {
    if endpoints == [] {
      WantedGrown(tags, origins, naming, 0);
    } else {
      var before, n := endpoints[..|endpoints| - 1], |endpoints| - 1;
      EndpointsOutcome(c, naming, before, tags, origins);
      WantedGrown(tags, origins, naming, n);
      OneMoreOutcome(AddEndpoints(c, naming, before), naming, n, endpoints[n], tags, origins);
    }
  }

  lemma SourceOutcome(c: Composition, s: Source, tags: seq<string>, origins: seq<Naming>)
    requires Holds(c, tags, origins)
    ensures Outcome(AddSource(c, s), tags + WantedBy(origins, s.naming, |OriginsOf(s)|), origins + OriginsOf(s))
  {
    RepeatLength(s.naming, |s.item.endpoints|);
    if s.item.blocked || s.item.endpoints == [] {
      assert tags + WantedBy(origins, s.naming, 0) == tags && origins + OriginsOf(s) == origins;
    } else {
      EndpointsOutcome(c.(hasBs := c.hasBs || s.item.isBs), s.naming, s.item.endpoints, tags, origins);
    }
  }

  lemma {:induction false} RepeatLength(naming: Naming, n: nat)
    ensures |Repeat(naming, n)| == n
  {
    if n > 0 {
      RepeatLength(naming, n - 1);
    }
  }

  lemma {:induction false} SourcesOutcome(sources: seq<Source>)
    ensures Outcome(AddSources(EMPTY, sources), WantedTags(sources), Origins(sources))
  {
    if sources != [] {
      var before, s := sources[..|sources| - 1], sources[|sources| - 1];
      SourcesOutcome(before);
      var more := WantedBy(Origins(before), s.naming, |OriginsOf(s)|);
      match AddSources(EMPTY, before) {
        case Err(e) => ErrorStays(AddSources(EMPTY, before), WantedTags(before), more, Origins(before), Origins(sources));
        case Ok(c) =>
          SourceOutcome(c, s, WantedTags(before), Origins(before));
      }
    }
  }

  // ---- Groups

  /** An earlier group has the prefix of this one. */
  ghost predicate RepeatsPrefix(groups: seq<Group>, i: nat)
    requires i < |groups|
  {
    groups[i].tagPrefix.Some? && exists j :: 0 <= j < i && groups[j].tagPrefix == groups[i].tagPrefix
  }

  /** The group stops the composition by itself. */
  ghost predicate Stops(groups: seq<Group>, i: nat)
    requires i < |groups|
  {
    RepeatsPrefix(groups, i) || groups[i].selected.Err?
  }

  /** The first g groups go through, and the next one, if there is one, does not. */
  ghost predicate GoesThrough(groups: seq<Group>, g: nat) {
    && g <= |groups|
    && (forall i | 0 <= i < g :: !Stops(groups, i))
    && (g < |groups| ==> Stops(groups, g))
  }

  lemma RepeatsIff(groups: seq<Group>, i: nat)
    requires i < |groups|
    ensures RepeatsPrefix(groups, i) <==> groups[i].tagPrefix.Some? && groups[i].tagPrefix.value in PrefixesOf(groups[..i])
  {
    if groups[i].tagPrefix.Some? && groups[i].tagPrefix.value in PrefixesOf(groups[..i]) {
      var other :| other in groups[..i] && other.tagPrefix.Some? && other.tagPrefix.value == groups[i].tagPrefix.value;
      var j :| 0 <= j < i && groups[..i][j] == other;
      assert groups[j].tagPrefix == groups[i].tagPrefix;
    }
    if RepeatsPrefix(groups, i) {
      var j :| 0 <= j < i && groups[j].tagPrefix == groups[i].tagPrefix;
      assert groups[..i][j] == groups[j] && groups[j] in groups[..i];
    }
  }

  lemma NextGroup(c: Composition, groups: seq<Group>, i: nat)
    requires i < |groups|
    ensures AddGroups(c, groups[..i + 1]) ==
            match AddGroups(c, groups[..i])
            case Err(e) => Err(e)
            case Ok(c') => AddGroup(c', PrefixesOf(groups[..i]), groups[i])
    ensures GroupSources(groups[..i + 1]) ==
            GroupSources(groups[..i]) + (if groups[i].selected.Ok? then SourcesOf(groups[i], groups[i].selected.value) else [])
  {
    assert groups[..i + 1][..i] == groups[..i];
  }

  /** Groups that go through add their sources and nothing else. */
  lemma {:induction false} GroupsAdd(c: Composition, groups: seq<Group>, g: nat)
    requires g <= |groups| && forall i | 0 <= i < g :: !Stops(groups, i)
    ensures AddGroups(c, groups[..g]) == AddSources(c, GroupSources(groups[..g]))
    decreases g
  {
    if g > 0 {
      GroupsAdd(c, groups, g - 1);
      NextGroup(c, groups, g - 1);
      RepeatsIff(groups, g - 1);
      assert !Stops(groups, g - 1);
      AddSourcesAppend(c, GroupSources(groups[..g - 1]), SourcesOf(groups[g - 1], groups[g - 1].selected.value));
    }
  }

  lemma {:induction false} GroupErrorStays(c: Composition, groups: seq<Group>, g: nat)
    requires g <= |groups| && AddGroups(c, groups[..g]).Err?
    ensures AddGroups(c, groups) == AddGroups(c, groups[..g])
    decreases |groups| - g
  {
    if g < |groups| {
      NextGroup(c, groups, g);
      GroupErrorStays(c, groups, g + 1);
    } else {
      assert groups[..g] == groups;
    }
  }

  /** The error of a group that stops the composition. */
  ghost function StopError(groups: seq<Group>, g: nat): ComposeError
    requires g < |groups| && Stops(groups, g)
  {
    if RepeatsPrefix(groups, g) then DuplicateGroupPrefix else groups[g].selected.error
  }

  lemma GroupStops(c: Composition, groups: seq<Group>, g: nat)
    requires g < |groups| && Stops(groups, g) && AddGroups(c, groups[..g]).Ok?
    ensures AddGroups(c, groups) == Err(StopError(groups, g))
  {
    NextGroup(c, groups, g);
    RepeatsIff(groups, g);
    GroupErrorStays(c, groups, g + 1);
  }

  /** The sources that come before the group that stops. */
  function SourcesBefore(r: Recipient, g: nat): seq<Source>
    requires g <= |r.groups|
  {
    OwnSources(r) + GroupSources(r.groups[..g])
  }

  lemma ComposeUpTo(r: Recipient, g: nat)
    requires GoesThrough(r.groups, g)
    ensures var added := AddSources(EMPTY, SourcesBefore(r, g));
            Compose(r) == if added.Err? || g == |r.groups| then added else Err(StopError(r.groups, g))
  {
    var own := AddSources(EMPTY, OwnSources(r));
    AddSourcesAppend(EMPTY, OwnSources(r), GroupSources(r.groups[..g]));
    if own.Ok? {
      GroupsAdd(own.value, r.groups, g);
      if AddGroups(own.value, r.groups[..g]).Err? {
        GroupErrorStays(own.value, r.groups, g);
      } else if g < |r.groups| {
        GroupStops(own.value, r.groups, g);
      } else {
        assert r.groups[..g] == r.groups;
      }
    }
  }

  /** The outcome of every composition. The tags wanted before the group that stops, if any does, are taken in order; the
      first bad one is the error; without one the error is that of the group; and with neither the composition has
      exactly the wanted tags. */
  lemma ComposeOutcomes(r: Recipient, g: nat)
    requires GoesThrough(r.groups, g)
    ensures var tags := WantedTags(SourcesBefore(r, g));
            if !Fits(tags) then exists k :: FirstBad(tags, k) && Compose(r) == Err(ErrorAt(tags, k))
            else if g < |r.groups| then Compose(r) == Err(StopError(r.groups, g))
            else Compose(r).Ok? && TagsTaken(Compose(r).value.selected) == tags
  {
    var tags := WantedTags(SourcesBefore(r, g));
    ComposeUpTo(r, g);
    SourcesOutcome(SourcesBefore(r, g));
    FitsIff(tags);
  }

  lemma {:induction false} SomeGoThrough(groups: seq<Group>, from: nat) returns (g: nat)
    requires from <= |groups| && forall i | 0 <= i < from :: !Stops(groups, i)
    ensures GoesThrough(groups, g)
    decreases |groups| - from
  {
    if from == |groups| || Stops(groups, from) {
      g := from;
    } else {
      g := SomeGoThrough(groups, from + 1);
    }
  }

  ghost predicate DistinctPrefixes(groups: seq<Group>) {
    forall i, j | 0 <= i < j < |groups| && groups[i].tagPrefix.Some? :: groups[i].tagPrefix != groups[j].tagPrefix
  }

  /** A composition succeeds exactly when all selectors answer, no two groups share a prefix, and the tags that all sources
      ask for are pairwise distinct, not blank and at most 512. */
  lemma ComposeSucceedsIff(r: Recipient)
    ensures Compose(r).Ok? <==>
              && (forall g | g in r.groups :: g.selected.Ok?)
              && DistinctPrefixes(r.groups)
              && Fits(WantedTags(AllSources(r)))
    ensures Compose(r).Ok? ==> TagsTaken(Compose(r).value.selected) == WantedTags(AllSources(r))
  {
    var g := SomeGoThrough(r.groups, 0);
    ComposeOutcomes(r, g);
    NothingStopsIff(r.groups, g);
    assert r.groups[..|r.groups|] == r.groups;
  }

  lemma NothingStopsIff(groups: seq<Group>, g: nat)
    requires GoesThrough(groups, g)
    ensures g == |groups| <==> (forall s | s in groups :: s.selected.Ok?) && DistinctPrefixes(groups)
  {
    if g == |groups| {
      forall s | s in groups
        ensures s.selected.Ok?
      {
        var i :| 0 <= i < |groups| && groups[i] == s;
        assert !Stops(groups, i);
      }
      forall i, j | 0 <= i < j < |groups| && groups[i].tagPrefix.Some?
        ensures groups[i].tagPrefix != groups[j].tagPrefix
      {
        assert !Stops(groups, j);
      }
    }
  }

  // ---- Which hosts are sources

  /** Hosts that offer a connection of their own. */
  function Offering(items: seq<Item>): nat {
    if items == [] then 0 else Offering(items[..|items| - 1]) + (if items[|items| - 1].virtualOnly then 0 else 1)
  }

  /** The source is this host, numbered under the prefix of the group if it has one, else named after the host: after its group
      tag when the group asks for that and the tag is not empty, else after its remark. */
  predicate IsSourceOf(s: Source, g: Group, item: Item) {
    && s.item == item
    && (g.tagPrefix.Some? ==> s.naming == ByPrefix(g.tagPrefix.value))
    && (g.tagPrefix == None && g.useHostTagAsTag && item.groupTag != "" ==> s.naming == ByName(item.groupTag))
    && (g.tagPrefix == None && (!g.useHostTagAsTag || item.groupTag == "") ==> s.naming == ByName(item.remark))
  }

  /** The sources of a group are the selected hosts that offer a connection of their own, in order. */
  lemma {:induction false} SourcesAre(g: Group, items: seq<Item>)
    ensures |SourcesOf(g, items)| == Offering(items)
    ensures forall i | 0 <= i < |items| && !items[i].virtualOnly ::
              Offering(items[..i]) < |SourcesOf(g, items)| && IsSourceOf(SourcesOf(g, items)[Offering(items[..i])], g, items[i])
  {
    if items != [] {
      var before, n := items[..|items| - 1], |items| - 1;
      SourcesAre(g, before);
      forall i | 0 <= i < |items| && !items[i].virtualOnly
        ensures Offering(items[..i]) < |SourcesOf(g, items)| && IsSourceOf(SourcesOf(g, items)[Offering(items[..i])], g, items[i])
      {
        if i < n {
          assert items[..i] == before[..i] && items[i] == before[i];
        }
      }
    }
  }

  /** The recipient itself is a source, before all others and under the prefix "proxy", exactly when it asks for it. */
  lemma OwnSourceIff(r: Recipient)
    ensures r.addVirtualHostAsOutbound ==> AllSources(r) == [Source(r.item, ByPrefix("proxy"))] + GroupSources(r.groups)
    ensures !r.addVirtualHostAsOutbound ==> AllSources(r) == GroupSources(r.groups)
  {
    assert [] + GroupSources(r.groups) == GroupSources(r.groups);
  }

  /** A composition says that everything is blocked exactly when some source is, and every other source has an endpoint. */
  lemma AllBlockedIff(r: Recipient)
    requires Compose(r).Ok?
    ensures AllBlocked(Compose(r).value) <==>
              && (exists s :: s in AllSources(r) && s.item.blocked)
              && forall s | s in AllSources(r) && !s.item.blocked :: s.item.endpoints != []
  {
    ComposeAddsSources(r);
    ComposedEndpoints(AllSources(r));
  }

  // ---- In particular

  lemma TwoTagsFit()
    ensures Dec(2) == "2" && "proxy" + ("-" + "2") == "proxy-2"
    ensures Fits(["proxy", "proxy-2"])
  {
    var tags := ["proxy", "proxy-2"];
    assert !IsSpace('p') && tags[0][0] == 'p' && tags[1][0] == 'p';
    assert |tags[0]| != |tags[1]|;
  }

  lemma TwoWanted(s: Source)
    requires s.naming == ByPrefix("proxy") && |OriginsOf(s)| == 2
    ensures WantedTags([s]) == ["proxy", "proxy-2"]
  {
    assert [s][..0] == [];
    TwoTagsFit();
    assert WantedTags([s]) == WantedTags([]) + WantedBy(Origins([]), s.naming, 2);
    assert Occurrences([], s.naming) == 0;
    assert WantedTag([], s.naming, 0) == "proxy" && WantedTag([], s.naming, 1) == "proxy-2";
  }

  /** A recipient with two endpoints of its own gets "proxy" and "proxy-2". */
  lemma TwoOwnEndpoints(r: Recipient)
    requires r.addVirtualHostAsOutbound && !r.item.blocked && |r.item.endpoints| == 2 && r.groups == []
    ensures Compose(r).Ok? && TagsTaken(Compose(r).value.selected) == ["proxy", "proxy-2"]
  {
    var s := Source(r.item, ByPrefix("proxy"));
    assert AllSources(r) == [s];
    RepeatLength(s.naming, 2);
    TwoWanted(s);
    TwoTagsFit();
    ComposeSucceedsIff(r);
  }
}
