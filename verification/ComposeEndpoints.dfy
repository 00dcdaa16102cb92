/** Collecting the endpoints of a composed subscription and naming them. */
module ComposeEndpoints {
  import opened Options
  import opened Strings

  const MAX_ENDPOINTS := 512

  type HostId = int

  /** `dialer` tells whether the endpoint needs a helper outbound for fragments or noises. */
  datatype Endpoint = Endpoint(host: HostId, address: string, dialer: bool)

  /** A prepared host. `virtualOnly`: it is composed itself and does not offer its own connection. */
  datatype Item = Item(id: HostId, remark: string, groupTag: string, isBs: bool, blocked: bool, virtualOnly: bool,
                       endpoints: seq<Endpoint>)

  datatype ComposeError = DuplicateGroupPrefix | OutboundTagCollision | TooManyEndpoints | SelectionFailed

  /** `selected`: what the selector of the group answers, any list of prepared hosts or an error. */
  datatype Group = Group(tagPrefix: Option<string>, useHostTagAsTag: bool, selected: Result<seq<Item>, ComposeError>)

  datatype Recipient = Recipient(item: Item, addVirtualHostAsOutbound: bool, groups: seq<Group>)

  /** How the endpoints of a source are named: numbered under a shared prefix, or after the host. */
  datatype Naming = ByPrefix(prefix: string) | ByName(name: string)

  datatype Source = Source(item: Item, naming: Naming)

  datatype Named = Named(tag: string, endpoint: Endpoint)

  datatype Composition = Composition(
    selected: seq<Named>,
    counts: map<string, nat>,
    used: set<string>,
    hasBs: bool,
    blocked: bool,
    unavailable: bool)

  const EMPTY := Composition([], map[], {}, false, false, false)

  /** The i-th tag of a prefix or name, counted from 1. */
  function NumberedTag(base: string, i: nat): string {
    if i == 1 then base else base + ("-" + Dec(i))
  }

  /** The first has the bare name; from any other the number can be read after the hyphen, so no two are the same. */
  lemma NumberedTagIs(base: string, i: nat, j: nat)
    ensures NumberedTag(base, 1) == base
    ensures i != 1 ==> var tag := NumberedTag(base, i);
                       |tag| > |base| + 1 && tag[..|base| + 1] == base + "-" &&
                       AllDigits(tag[|base| + 1..]) && DecValue(tag[|base| + 1..]) == i
    ensures NumberedTag(base, i) == NumberedTag(base, j) <==> i == j
  {
    assert base + ("-" + Dec(i)) == base + "-" + Dec(i) && base + ("-" + Dec(j)) == base + "-" + Dec(j);
    assert (base + "-" + Dec(i))[|base| + 1..] == Dec(i);
    CommonFront(base + "-", Dec(i), Dec(j));
    DecInjective(i, j);
  }

  /** The characters that str.strip() removes. */
  predicate IsSpace(c: char) {
    var n := c as int;
    || 0x09 <= n <= 0x0d || 0x1c <= n <= 0x20 || n in {0x85, 0xa0, 0x1680}
    || 0x2000 <= n <= 0x200a || n in {0x2028, 0x2029, 0x202f, 0x205f, 0x3000}
  }

  predicate Blank(s: string) {
    forall c | c in s :: IsSpace(c)
  }

  function CountOf(counts: map<string, nat>, prefix: string): nat {
    if prefix in counts then counts[prefix] else 0
  }

  function TagFor(c: Composition, naming: Naming, index: nat): string {
    match naming
    case ByPrefix(p) => NumberedTag(p, CountOf(c.counts, p) + 1)
    case ByName(n) => NumberedTag(n, index + 1)
  }

  function AddEndpoint(c: Composition, naming: Naming, index: nat, e: Endpoint): Result<Composition, ComposeError> {
    var tag := TagFor(c, naming, index);
    if Blank(tag) || tag in c.used then Err(OutboundTagCollision)
    else if |c.selected| + 1 > MAX_ENDPOINTS then Err(TooManyEndpoints)
    else Ok(c.(selected := c.selected + [Named(tag, e)],
               used := c.used + {tag},
               counts := if naming.ByPrefix? then c.counts[naming.prefix := CountOf(c.counts, naming.prefix) + 1] else c.counts))
  }

  /** The endpoints of one source up to a count. */
  function AddEndpoints(c: Composition, naming: Naming, endpoints: seq<Endpoint>): Result<Composition, ComposeError> {
    if endpoints == [] then Ok(c)
    else
      match AddEndpoints(c, naming, endpoints[..|endpoints| - 1])
      case Err(e) => Err(e)
      case Ok(before) => AddEndpoint(before, naming, |endpoints| - 1, endpoints[|endpoints| - 1])
  }

  function AddSource(c: Composition, s: Source): Result<Composition, ComposeError> {
    if s.item.blocked then Ok(c.(blocked := true))
    else if s.item.endpoints == [] then Ok(c.(unavailable := true))
    else AddEndpoints(c.(hasBs := c.hasBs || s.item.isBs), s.naming, s.item.endpoints)
  }

  function AddSources(c: Composition, sources: seq<Source>): Result<Composition, ComposeError> {
    if sources == [] then Ok(c)
    else
      match AddSources(c, sources[..|sources| - 1])
      case Err(e) => Err(e)
      case Ok(before) => AddSource(before, sources[|sources| - 1])
  }

  /** A host is named after its group tag when the group asks for it and the host has one, else after its remark. */
  function NamingOf(g: Group, item: Item): Naming {
    match g.tagPrefix
    case Some(p) => ByPrefix(p)
    case None => ByName(if g.useHostTagAsTag && item.groupTag != "" then item.groupTag else item.remark)
  }

  /** Composed hosts without a connection of their own are skipped. */
  function SourcesOf(g: Group, items: seq<Item>): seq<Source> {
    if items == [] then []
    else
      var last := items[|items| - 1];
      SourcesOf(g, items[..|items| - 1]) + (if last.virtualOnly then [] else [Source(last, NamingOf(g, last))])
  }

  function PrefixesOf(groups: seq<Group>): set<string> {
    set g | g in groups && g.tagPrefix.Some? :: g.tagPrefix.value
  }

  function AddGroup(c: Composition, prefixes: set<string>, g: Group): Result<Composition, ComposeError> {
    if g.tagPrefix.Some? && g.tagPrefix.value in prefixes then Err(DuplicateGroupPrefix)
    else
      match g.selected
      case Err(e) => Err(e)
      case Ok(items) => AddSources(c, SourcesOf(g, items))
  }

  function AddGroups(c: Composition, groups: seq<Group>): Result<Composition, ComposeError> {
    if groups == [] then Ok(c)
    else
      var before, g := groups[..|groups| - 1], groups[|groups| - 1];
      match AddGroups(c, before)
      case Err(e) => Err(e)
      case Ok(c') =>
        AddGroup(c', PrefixesOf(before), g)
  }

  function OwnSources(r: Recipient): seq<Source> {
    if r.addVirtualHostAsOutbound then [Source(r.item, ByPrefix("proxy"))] else []
  }

  function Compose(r: Recipient): Result<Composition, ComposeError> {
    match AddSources(EMPTY, OwnSources(r))
    case Err(e) => Err(e)
    case Ok(c) => AddGroups(c, r.groups)
  }

  /** All sources of a composition whose selectors answered. */
  function GroupSources(groups: seq<Group>): seq<Source> {
    if groups == [] then []
    else
      var g := groups[|groups| - 1];
      GroupSources(groups[..|groups| - 1]) + (if g.selected.Ok? then SourcesOf(g, g.selected.value) else [])
  }

  function AllSources(r: Recipient): seq<Source> {
    OwnSources(r) + GroupSources(r.groups)
  }

  // ---- A successful composition adds all sources one after the other

  lemma ConcatLast<T>(a: seq<T>, b: seq<T>)
    requires b != []
    ensures (a + b)[..|a + b| - 1] == a + b[..|b| - 1]
    ensures (a + b)[|a + b| - 1] == b[|b| - 1]
    ensures a + b[..|b| - 1] + [b[|b| - 1]] == a + b
  {
  }

  lemma {:induction false} AddSourcesAppend(c: Composition, a: seq<Source>, b: seq<Source>)
    ensures AddSources(c, a + b) == match AddSources(c, a) case Err(e) => Err(e) case Ok(c') => AddSources(c', b)
  {
    if b == [] {
      assert a + b == a;
    } else {
      ConcatLast(a, b);
      AddSourcesAppend(c, a, b[..|b| - 1]);
    }
  }

  lemma {:induction false} GroupsAddSources(c: Composition, groups: seq<Group>)
    requires AddGroups(c, groups).Ok?
    ensures AddGroups(c, groups) == AddSources(c, GroupSources(groups))
  {
    if groups != [] {
      var before, g := groups[..|groups| - 1], groups[|groups| - 1];
      GroupsAddSources(c, before);
      AddSourcesAppend(c, GroupSources(before), SourcesOf(g, g.selected.value));
    }
  }

  lemma ComposeAddsSources(r: Recipient)
    requires Compose(r).Ok?
    ensures Compose(r) == AddSources(EMPTY, AllSources(r))
  {
    var c := AddSources(EMPTY, OwnSources(r)).value;
    GroupsAddSources(c, r.groups);
    AddSourcesAppend(EMPTY, OwnSources(r), GroupSources(r.groups));
  }

  // ---- Tags

  function TagSet(selected: seq<Named>): set<string> {
    set n | n in selected :: n.tag
  }

  /** What every added endpoint keeps. */
  ghost predicate WellNamed(c: Composition) {
    && c.used == TagSet(c.selected)
    && |c.used| == |c.selected| <= MAX_ENDPOINTS
    && (forall n | n in c.selected :: !Blank(n.tag))
    && (forall p | p in c.counts :: c.counts[p] >= 1 && NumberedUpTo(c.used, p, c.counts[p]))
  }

  ghost predicate NumberedUpTo(used: set<string>, p: string, count: nat) {
    forall i | 1 <= i <= count :: NumberedTag(p, i) in used
  }

  lemma NumberedOneMore(used: set<string>, p: string, count: nat, tag: string)
    requires NumberedUpTo(used, p, count)
    ensures NumberedUpTo(used + {tag}, p, count)
    ensures tag == NumberedTag(p, count + 1) ==> NumberedUpTo(used + {tag}, p, count + 1)
  {
  }

  lemma TagsWithLast(selected: seq<Named>, last: Named)
    ensures TagSet(selected + [last]) == TagSet(selected) + {last.tag}
    ensures forall n :: n in selected + [last] <==> n in selected || n == last
  {
  }

  lemma AddEndpointKeeps(c: Composition, naming: Naming, index: nat, e: Endpoint)
    requires WellNamed(c) && AddEndpoint(c, naming, index, e).Ok?
    ensures WellNamed(AddEndpoint(c, naming, index, e).value)
  {
    var c' := AddEndpoint(c, naming, index, e).value;
    var tag := TagFor(c, naming, index);
    TagsWithLast(c.selected, Named(tag, e));
    forall p | p in c'.counts
      ensures c'.counts[p] >= 1 && NumberedUpTo(c'.used, p, c'.counts[p])
    {
      NumberedOneMore(c.used, p, CountOf(c.counts, p), tag);
    }
  }

  lemma {:induction false} AddEndpointsKeeps(c: Composition, naming: Naming, endpoints: seq<Endpoint>)
    requires WellNamed(c) && AddEndpoints(c, naming, endpoints).Ok?
    ensures WellNamed(AddEndpoints(c, naming, endpoints).value)
  {
    if endpoints != [] {
      var before, n := endpoints[..|endpoints| - 1], |endpoints| - 1;
      AddEndpointsKeeps(c, naming, before);
      var mid := AddEndpoints(c, naming, before).value;
      assert AddEndpoints(c, naming, endpoints) == AddEndpoint(mid, naming, n, endpoints[n]);
      AddEndpointKeeps(mid, naming, n, endpoints[n]);
    }
  }

  lemma {:induction false} AddSourcesKeeps(c: Composition, sources: seq<Source>)
    requires WellNamed(c) && AddSources(c, sources).Ok?
    ensures WellNamed(AddSources(c, sources).value)
  {
    if sources != [] {
      var before, s := sources[..|sources| - 1], sources[|sources| - 1];
      AddSourcesKeeps(c, before);
      var c' := AddSources(c, before).value;
      if !s.item.blocked && s.item.endpoints != [] {
        AddEndpointsKeeps(c'.(hasBs := c'.hasBs || s.item.isBs), s.naming, s.item.endpoints);
      }
    }
  }

  /** On success the tags are pairwise distinct, not blank and at most 512, and every prefix in use is numbered
      from 1 to its count without a gap. */
  lemma ComposedTags(r: Recipient)
    requires Compose(r).Ok?
    ensures WellNamed(Compose(r).value)
    ensures forall i, j | 0 <= i < j < |Compose(r).value.selected| ::
              Compose(r).value.selected[i].tag != Compose(r).value.selected[j].tag
  {
    ComposeAddsSources(r);
    AddSourcesKeeps(EMPTY, AllSources(r));
    DistinctByCard(Compose(r).value.selected);
  }

  lemma TagsOfFirst(selected: seq<Named>)
    requires selected != []
    ensures TagSet(selected) == TagSet(selected[1..]) + {selected[0].tag}
  {
    assert selected == [selected[0]] + selected[1..];
  }

  lemma {:induction false} FewTags(selected: seq<Named>)
    ensures |TagSet(selected)| <= |selected|
  {
    if selected != [] {
      FewTags(selected[1..]);
      TagsOfFirst(selected);
    }
  }

  lemma TagsAfter(selected: seq<Named>, k: nat)
    requires k < |selected|
    ensures selected[k].tag in TagSet(selected)
  {
    assert selected[k] in selected;
  }

  lemma {:induction false} DistinctByCard(selected: seq<Named>)
    requires |TagSet(selected)| == |selected|
    ensures forall i, j | 0 <= i < j < |selected| :: selected[i].tag != selected[j].tag
  {
    if selected != [] {
      FewTags(selected[1..]);
      TagsOfFirst(selected);
      DistinctByCard(selected[1..]);
      forall j | 0 < j < |selected|
        ensures selected[j].tag in TagSet(selected[1..])
      {
        TagsAfter(selected[1..], j - 1);
      }
    }
  }

  // ---- Endpoints

  /** Sources that contribute: not blocked, with at least one endpoint. */
  function Contributing(sources: seq<Source>): seq<Source> {
    if sources == [] then []
    else
      var last := sources[|sources| - 1];
      Contributing(sources[..|sources| - 1]) + (if last.item.blocked || last.item.endpoints == [] then [] else [last])
  }

  function EndpointsOf(sources: seq<Source>): seq<Endpoint> {
    if sources == [] then [] else EndpointsOf(sources[..|sources| - 1]) + sources[|sources| - 1].item.endpoints
  }

  function JustEndpoints(selected: seq<Named>): seq<Endpoint> {
    if selected == [] then [] else JustEndpoints(selected[..|selected| - 1]) + [selected[|selected| - 1].endpoint]
  }

  lemma AddEndpointAdds(c: Composition, naming: Naming, index: nat, e: Endpoint)
    requires AddEndpoint(c, naming, index, e).Ok?
    ensures var c' := AddEndpoint(c, naming, index, e).value;
            && JustEndpoints(c'.selected) == JustEndpoints(c.selected) + [e]
            && c'.hasBs == c.hasBs && c'.blocked == c.blocked && c'.unavailable == c.unavailable
  {
    assert (c.selected + [Named(TagFor(c, naming, index), e)])[..|c.selected|] == c.selected;
  }

  lemma {:induction false} AddEndpointsAdds(c: Composition, naming: Naming, endpoints: seq<Endpoint>)
    requires AddEndpoints(c, naming, endpoints).Ok?
    ensures var c' := AddEndpoints(c, naming, endpoints).value;
            && JustEndpoints(c'.selected) == JustEndpoints(c.selected) + endpoints
            && c'.hasBs == c.hasBs && c'.blocked == c.blocked && c'.unavailable == c.unavailable
  {
    if endpoints == [] {
      assert JustEndpoints(c.selected) + [] == JustEndpoints(c.selected);
    } else {
      var before, n := endpoints[..|endpoints| - 1], |endpoints| - 1;
      AddEndpointsAdds(c, naming, before);
      var mid := AddEndpoints(c, naming, before).value;
      assert AddEndpoints(c, naming, endpoints) == AddEndpoint(mid, naming, n, endpoints[n]);
      AddEndpointAdds(mid, naming, n, endpoints[n]);
      ConcatLast(JustEndpoints(c.selected), endpoints);
    }
  }

  function EndpointsFrom(s: Source): seq<Endpoint> {
    if s.item.blocked then [] else s.item.endpoints
  }

  lemma AddSourceAdds(c: Composition, s: Source)
    requires AddSource(c, s).Ok?
    ensures var c' := AddSource(c, s).value;
            && JustEndpoints(c'.selected) == JustEndpoints(c.selected) + EndpointsFrom(s)
            && c'.hasBs == (c.hasBs || (!s.item.blocked && s.item.endpoints != [] && s.item.isBs))
            && c'.blocked == (c.blocked || s.item.blocked)
            && c'.unavailable == (c.unavailable || (!s.item.blocked && s.item.endpoints == []))
  {
    if !s.item.blocked && s.item.endpoints != [] {
      AddEndpointsAdds(c.(hasBs := c.hasBs || s.item.isBs), s.naming, s.item.endpoints);
    } else {
      assert JustEndpoints(c.selected) + EndpointsFrom(s) == JustEndpoints(c.selected);
    }
  }

  lemma ContributingLast(sources: seq<Source>)
    requires sources != []
    ensures var before, s := sources[..|sources| - 1], sources[|sources| - 1];
            && EndpointsOf(Contributing(sources)) == EndpointsOf(Contributing(before)) + EndpointsFrom(s)
            && (forall x :: x in Contributing(sources) <==>
                  x in Contributing(before) || (x == s && !s.item.blocked && s.item.endpoints != []))
            && (forall x :: x in sources <==> x in before || x == s)
  {
    var before, s := Contributing(sources[..|sources| - 1]), sources[|sources| - 1];
    assert sources == sources[..|sources| - 1] + [s];
    assert (before + [s])[..|before|] == before;
    assert before + [] == before;
  }

  /** Nothing is lost, repeated, reordered or taken from a blocked host: the endpoints are those of the contributing
      sources, in order; and the flags say which sources there were. */
  lemma {:induction false} ComposedEndpoints(sources: seq<Source>)
    requires AddSources(EMPTY, sources).Ok?
    ensures var c := AddSources(EMPTY, sources).value;
            && JustEndpoints(c.selected) == EndpointsOf(Contributing(sources))
            && (c.hasBs <==> exists s :: s in Contributing(sources) && s.item.isBs)
            && (c.blocked <==> exists s :: s in sources && s.item.blocked)
            && (c.unavailable <==> exists s :: s in sources && !s.item.blocked && s.item.endpoints == [])
  {
    if sources != [] {
      var before := sources[..|sources| - 1];
      ComposedEndpoints(before);
      ContributingLast(sources);
      AddSourceAdds(AddSources(EMPTY, before).value, sources[|sources| - 1]);
    }
  }

  lemma {:induction false} ContributingAreOpen(sources: seq<Source>)
    ensures forall s | s in Contributing(sources) :: s in sources && !s.item.blocked && s.item.endpoints != []
  {
    if sources != [] {
      ContributingAreOpen(sources[..|sources| - 1]);
    }
  }

  lemma {:induction false} EndpointsCome(sources: seq<Source>)
    ensures forall e | e in EndpointsOf(sources) :: exists s :: s in sources && e in s.item.endpoints
  {
    if sources != [] {
      var before, s := sources[..|sources| - 1], sources[|sources| - 1];
      EndpointsCome(before);
      forall e | e in EndpointsOf(sources)
        ensures exists s :: s in sources && e in s.item.endpoints
      {
        if e !in EndpointsOf(before) {
          assert s in sources;
        }
      }
    }
  }

  /** Every endpoint of a composition belongs to a source that is not blocked. */
  lemma ComposedEndpointsAreOpen(r: Recipient, e: Endpoint)
    requires Compose(r).Ok? && e in JustEndpoints(Compose(r).value.selected)
    ensures exists s :: s in AllSources(r) && !s.item.blocked && e in s.item.endpoints
  {
    ComposeAddsSources(r);
    ComposedEndpoints(AllSources(r));
    ContributingAreOpen(AllSources(r));
    EndpointsCome(Contributing(AllSources(r)));
  }

  // ---- The tags in the order of their origin

  function Repeat(naming: Naming, n: nat): seq<Naming> {
    if n == 0 then [] else Repeat(naming, n - 1) + [naming]
  }

  /** The sources' namings, once per endpoint: the origin of every selected entry. */
  function Origins(sources: seq<Source>): seq<Naming> {
    if sources == [] then []
    else
      var s := sources[|sources| - 1];
      Origins(sources[..|sources| - 1]) + OriginsOf(s)
  }

  function Occurrences(origins: seq<Naming>, naming: Naming): nat {
    if origins == [] then 0
    else Occurrences(origins[..|origins| - 1], naming) + (if origins[|origins| - 1] == naming then 1 else 0)
  }

  /** The entries of a prefix carry the numbers 1, 2, 3, ... in the order they were added. */
  ghost predicate NumberedInOrder(selected: seq<Named>, origins: seq<Naming>) {
    && |selected| == |origins|
    && forall i | 0 <= i < |selected| && origins[i].ByPrefix? ::
         selected[i].tag == NumberedTag(origins[i].prefix, Occurrences(origins[..i], origins[i]) + 1)
  }

  ghost predicate Counted(selected: seq<Named>, counts: map<string, nat>, origins: seq<Naming>) {
    && NumberedInOrder(selected, origins)
    && forall p :: CountOf(counts, p) == Occurrences(origins, ByPrefix(p))
  }

  lemma OccurrencesLast(origins: seq<Naming>, last: Naming, naming: Naming)
    ensures Occurrences(origins + [last], naming) == Occurrences(origins, naming) + (if last == naming then 1 else 0)
  {
    assert (origins + [last])[..|origins|] == origins;
  }

  lemma AddEndpointNumbers(c: Composition, naming: Naming, index: nat, e: Endpoint, origins: seq<Naming>)
    requires Counted(c.selected, c.counts, origins) && AddEndpoint(c, naming, index, e).Ok?
    ensures NumberedInOrder(AddEndpoint(c, naming, index, e).value.selected, origins + [naming])
  {
    var all := origins + [naming];
    forall i | 0 <= i <= |origins|
      ensures all[..i] == origins[..i]
    {
    }
    assert origins[..|origins|] == origins;
  }

  lemma AddEndpointCounts(c: Composition, naming: Naming, index: nat, e: Endpoint, origins: seq<Naming>)
    requires Counted(c.selected, c.counts, origins) && AddEndpoint(c, naming, index, e).Ok?
    ensures var c' := AddEndpoint(c, naming, index, e).value;
            Counted(c'.selected, c'.counts, origins + [naming])
  {
    AddEndpointNumbers(c, naming, index, e, origins);
    forall p
      ensures CountOf(AddEndpoint(c, naming, index, e).value.counts, p) == Occurrences(origins + [naming], ByPrefix(p))
    {
      OccurrencesLast(origins, naming, ByPrefix(p));
    }
  }

  lemma OneMoreOrigin(origins: seq<Naming>, naming: Naming, n: nat)
    requires n > 0
    ensures origins + Repeat(naming, n) == origins + Repeat(naming, n - 1) + [naming]
  {
  }

  lemma {:induction false} AddEndpointsCounts(c: Composition, naming: Naming, endpoints: seq<Endpoint>, origins: seq<Naming>)
    requires Counted(c.selected, c.counts, origins) && AddEndpoints(c, naming, endpoints).Ok?
    ensures var c' := AddEndpoints(c, naming, endpoints).value;
            Counted(c'.selected, c'.counts, origins + Repeat(naming, |endpoints|))
  {
    if endpoints == [] {
      assert origins + Repeat(naming, 0) == origins;
    } else {
      var before, n := endpoints[..|endpoints| - 1], |endpoints| - 1;
      AddEndpointsCounts(c, naming, before, origins);
      var mid := AddEndpoints(c, naming, before).value;
      AddEndpointCounts(mid, naming, n, endpoints[n], origins + Repeat(naming, n));
      OneMoreOrigin(origins, naming, |endpoints|);
    }
  }

  function OriginsOf(s: Source): seq<Naming> {
    if s.item.blocked then [] else Repeat(s.naming, |s.item.endpoints|)
  }

  lemma AddSourceCounts(c: Composition, s: Source, origins: seq<Naming>)
    requires Counted(c.selected, c.counts, origins) && AddSource(c, s).Ok?
    ensures var c' := AddSource(c, s).value;
            Counted(c'.selected, c'.counts, origins + OriginsOf(s))
  {
    if s.item.blocked || s.item.endpoints == [] {
      assert origins + OriginsOf(s) == origins;
    } else {
      AddEndpointsCounts(c.(hasBs := c.hasBs || s.item.isBs), s.naming, s.item.endpoints, origins);
    }
  }

  /** On success the entries of each prefix are numbered in the order of the sources, across groups. */
  lemma {:induction false} ComposedNumbers(sources: seq<Source>)
    requires AddSources(EMPTY, sources).Ok?
    ensures var c := AddSources(EMPTY, sources).value;
            Counted(c.selected, c.counts, Origins(sources))
  {
    if sources != [] {
      var before, s := sources[..|sources| - 1], sources[|sources| - 1];
      ComposedNumbers(before);
      AddSourceCounts(AddSources(EMPTY, before).value, s, Origins(before));
    }
  }

  // ---- The collector, as the code runs it

  lemma OneEndpointMore(c: Composition, naming: Naming, endpoints: seq<Endpoint>, index: nat)
    requires index < |endpoints|
    ensures AddEndpoints(c, naming, endpoints[..index + 1]) ==
            match AddEndpoints(c, naming, endpoints[..index])
            case Err(e) => Err(e)
            case Ok(before) => AddEndpoint(before, naming, index, endpoints[index])
  {
    assert endpoints[..index + 1][..index] == endpoints[..index];
  }

  class Collector {
    var selected: seq<Named>
    var counts: map<string, nat>
    var used: set<string>
    var hasBs: bool
    var blocked: bool
    var unavailable: bool

    function View(): Composition
      reads this
    {
      Composition(selected, counts, used, hasBs, blocked, unavailable)
    }

    constructor ()
      ensures View() == EMPTY
    {
      selected, counts, used := [], map[], {};
      hasBs, blocked, unavailable := false, false, false;
    }

    method AddOne(naming: Naming, index: nat, e: Endpoint) returns (r: Result<(), ComposeError>)
      modifies this
      ensures match old(AddEndpoint(View(), naming, index, e))
              case Ok(c) => r == Ok(()) && View() == c
              case Err(error) => r == Err(error)
    {
      var tag := TagFor(View(), naming, index);
      if naming.ByPrefix? {
        counts := counts[naming.prefix := CountOf(counts, naming.prefix) + 1];
      }
      if Blank(tag) || tag in used {
        return Err(OutboundTagCollision);
      }
      used := used + {tag};
      selected := selected + [Named(tag, e)];
      if |selected| > MAX_ENDPOINTS {
        return Err(TooManyEndpoints);
      }
      r := Ok(());
    }

    method AddList(naming: Naming, endpoints: seq<Endpoint>) returns (r: Result<(), ComposeError>)
      modifies this
      ensures match old(AddEndpoints(View(), naming, endpoints))
              case Ok(c) => r == Ok(()) && View() == c
              case Err(error) => r == Err(error)
    {
      ghost var start := View();
      for index := 0 to |endpoints|
        invariant AddEndpoints(start, naming, endpoints[..index]) == Ok(View())
      {
        OneEndpointMore(start, naming, endpoints, index);
        r := AddOne(naming, index, endpoints[index]);
        if r.Err? {
          FirstErrorStays(start, naming, endpoints, index + 1);
          return;
        }
      }
      assert endpoints[..|endpoints|] == endpoints;
      r := Ok(());
    }

    method Add(s: Source) returns (r: Result<(), ComposeError>)
      modifies this
      ensures match old(AddSource(View(), s))
              case Ok(c) => r == Ok(()) && View() == c
              case Err(error) => r == Err(error)
    {
      if s.item.blocked {
        blocked := true;
        return Ok(());
      }
      if s.item.endpoints == [] {
        unavailable := true;
        return Ok(());
      }
      hasBs := hasBs || s.item.isBs;
      r := AddList(s.naming, s.item.endpoints);
    }

    method AddAll(sources: seq<Source>) returns (r: Result<(), ComposeError>)
      modifies this
      ensures match old(AddSources(View(), sources))
              case Ok(c) => r == Ok(()) && View() == c
              case Err(error) => r == Err(error)
    {
      ghost var start := View();
      for i := 0 to |sources|
        invariant AddSources(start, sources[..i]) == Ok(View())
      {
        assert sources[..i + 1][..i] == sources[..i];
        r := Add(sources[i]);
        if r.Err? {
          FirstSourceErrorStays(start, sources, i + 1);
          return;
        }
      }
      assert sources[..|sources|] == sources;
      r := Ok(());
    }
  }

  lemma {:induction false} FirstErrorStays(c: Composition, naming: Naming, endpoints: seq<Endpoint>, n: nat)
    requires n <= |endpoints| && AddEndpoints(c, naming, endpoints[..n]).Err?
    ensures AddEndpoints(c, naming, endpoints) == AddEndpoints(c, naming, endpoints[..n])
    decreases |endpoints| - n
  {
    if n < |endpoints| {
      assert endpoints[..n + 1][..n] == endpoints[..n];
      FirstErrorStays(c, naming, endpoints, n + 1);
    } else {
      assert endpoints[..n] == endpoints;
    }
  }

  lemma {:induction false} FirstSourceErrorStays(c: Composition, sources: seq<Source>, n: nat)
    requires n <= |sources| && AddSources(c, sources[..n]).Err?
    ensures AddSources(c, sources) == AddSources(c, sources[..n])
    decreases |sources| - n
  {
    if n < |sources| {
      assert sources[..n + 1][..n] == sources[..n];
      FirstSourceErrorStays(c, sources, n + 1);
    } else {
      assert sources[..n] == sources;
    }
  }

  lemma {:induction false} FirstGroupErrorStays(c: Composition, groups: seq<Group>, n: nat)
    requires n <= |groups| && AddGroups(c, groups[..n]).Err?
    ensures AddGroups(c, groups) == AddGroups(c, groups[..n])
    decreases |groups| - n
  {
    if n < |groups| {
      assert groups[..n + 1][..n] == groups[..n];
      FirstGroupErrorStays(c, groups, n + 1);
    } else {
      assert groups[..n] == groups;
    }
  }

  /** Nothing to show but blocked sources, and none that is merely unavailable. */
  function AllBlocked(c: Composition): bool {
    c.blocked && !c.unavailable
  }

  method ListSources(g: Group, items: seq<Item>) returns (sources: seq<Source>)
    ensures sources == SourcesOf(g, items)
  {
    sources := [];
    for i := 0 to |items|
      invariant sources == SourcesOf(g, items[..i])
    {
      assert items[..i + 1][..i] == items[..i];
      if !items[i].virtualOnly {
        sources := sources + [Source(items[i], NamingOf(g, items[i]))];
      }
    }
    assert items[..|items|] == items;
  }

  method AddOneGroup(collector: Collector, prefixes: set<string>, group: Group) returns (r: Result<(), ComposeError>)
    modifies collector
    ensures match old(AddGroup(collector.View(), prefixes, group))
            case Ok(c) => r == Ok(()) && collector.View() == c
            case Err(e) => r == Err(e)
  {
    if group.tagPrefix.Some? && group.tagPrefix.value in prefixes {
      return Err(DuplicateGroupPrefix);
    }
    if group.selected.Err? {
      return Err(group.selected.error);
    }
    var sources := ListSources(group, group.selected.value);
    r := collector.AddAll(sources);
  }

  method ComposeGroups(collector: Collector, groups: seq<Group>) returns (r: Result<(), ComposeError>)
    modifies collector
    ensures match old(AddGroups(collector.View(), groups))
            case Ok(c) => r == Ok(()) && collector.View() == c
            case Err(e) => r == Err(e)
  {
    ghost var start := collector.View();
    var prefixes: set<string> := {};
    for i := 0 to |groups|
      invariant AddGroups(start, groups[..i]) == Ok(collector.View())
      invariant prefixes == PrefixesOf(groups[..i])
    {
      var group := groups[i];
      GroupsLast(start, groups, i);
      r := AddOneGroup(collector, prefixes, group);
      if r.Err? {
        FirstGroupErrorStays(start, groups, i + 1);
        return;
      }
      if group.tagPrefix.Some? {
        prefixes := prefixes + {group.tagPrefix.value};
      }
    }
    assert groups[..|groups|] == groups;
    r := Ok(());
  }

  method ComposeEndpoints(recipient: Recipient) returns (r: Result<(seq<Named>, bool, bool), ComposeError>)
    ensures match Compose(recipient)
            case Ok(c) => r == Ok((c.selected, c.hasBs, AllBlocked(c)))
            case Err(e) => r == Err(e)
  {
    var collector := new Collector();
    var added := collector.AddAll(OwnSources(recipient));
    if added.Ok? {
      added := ComposeGroups(collector, recipient.groups);
    }
    if added.Err? {
      return Err(added.error);
    }
    r := Ok((collector.selected, collector.hasBs, collector.blocked && !collector.unavailable));
  }

  lemma GroupsLast(c: Composition, groups: seq<Group>, i: nat)
    requires i < |groups|
    ensures AddGroups(c, groups[..i + 1]) == match AddGroups(c, groups[..i])
                                             case Err(e) => Err(e)
                                             case Ok(c') => AddGroup(c', PrefixesOf(groups[..i]), groups[i])
    ensures PrefixesOf(groups[..i + 1]) ==
            PrefixesOf(groups[..i]) + (if groups[i].tagPrefix.Some? then {groups[i].tagPrefix.value} else {})
  {
    assert groups[..i + 1][..i] == groups[..i];
    assert groups[..i + 1] == groups[..i] + [groups[i]];
  }
}
