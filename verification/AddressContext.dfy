/** Which addresses of a host one user gets: pins first, then narrowing by nodes or by static addresses. */
module AddressContext {
  import opened Options
  import opened Strings
  import opened Medians
  import opened AddressPolicy

  type NodeId = nat
  type HostId = int

  const DEFAULT_ROTATION_DAYS := 2

  datatype Settings = Settings(enabled: bool, size: int, rotationDays: int) {
    predicate Narrows() {
      enabled && size > 0
    }
  }

  const DISABLED_SETTINGS := Settings(false, 0, 1)

  function SettingsFromHost(enabled: bool, size: Option<int>, rotationDays: Option<int>): Settings {
    if !enabled || size.GetOr(0) <= 0 then DISABLED_SETTINGS
    else
      var days := if rotationDays.GetOr(0) == 0 then DEFAULT_ROTATION_DAYS else rotationDays.value;
      Settings(true, size.value, Max(1, days))
  }

  /** Narrowing is on exactly for an enabled host with a positive size; its rotation has the days the host gives, at least one,
      and two when the host gives none or zero. */
  lemma HostSettings(enabled: bool, size: Option<int>, rotationDays: Option<int>)
    ensures var s := SettingsFromHost(enabled, size, rotationDays);
            && (s.Narrows() <==> enabled && size.Some? && size.value > 0)
            && (s.Narrows() ==> s.size == size.value)
            && (s.Narrows() && (rotationDays == None || rotationDays == Some(0)) ==> s.rotationDays == 2)
            && (s.Narrows() && rotationDays.Some? && rotationDays.value > 0 ==> s.rotationDays == rotationDays.value)
            && (s.Narrows() && rotationDays.Some? && rotationDays.value < 0 ==> s.rotationDays == 1)
            && s.rotationDays >= 1
  {
  }

  // ---- Weights of the nodes of one host

  function KnownWeights(weights: map<NodeId, real>, nodes: seq<NodeId>): seq<real> {
    if nodes == [] then []
    else (if nodes[0] in weights then [weights[nodes[0]]] else []) + KnownWeights(weights, nodes[1..])
  }

  /** Unknown nodes weigh the median of the known ones; with none known all weigh nothing. */
  function WeightOf(weights: map<NodeId, real>, nodes: seq<NodeId>, n: NodeId): real {
    var known := KnownWeights(weights, nodes);
    if known == [] then 0.0 else if n in weights then weights[n] else Median(known)
  }

  /** A dictionary keeps the first occurrence of a key. */
  function Dedup(nodes: seq<NodeId>): seq<NodeId> {
    if nodes == [] then []
    else
      var front := Dedup(nodes[..|nodes| - 1]);
      var last := nodes[|nodes| - 1];
      if last in front then front else front + [last]
  }

  function CandidatesFor(weights: map<NodeId, real>, nodes: seq<NodeId>, of: seq<NodeId>): (cs: seq<Candidate>)
    ensures |cs| == |of|
    ensures forall i | 0 <= i < |of| :: cs[i] == Candidate(Dec(of[i]), WeightOf(weights, nodes, of[i]))
  {
    if of == [] then []
    else [Candidate(Dec(of[0]), WeightOf(weights, nodes, of[0]))] + CandidatesFor(weights, nodes, of[1..])
  }

  function WeightedCandidates(weights: map<NodeId, real>, nodes: seq<NodeId>): seq<Candidate> {
    CandidatesFor(weights, nodes, Dedup(nodes))
  }

  function Alive(nodes: seq<NodeId>, exhausted: set<NodeId>): seq<NodeId> {
    if nodes == [] then []
    else (if nodes[0] in exhausted then [] else [nodes[0]]) + Alive(nodes[1..], exhausted)
  }

  /** What is chosen from: the nodes that are not exhausted, or all of them when all are. */
  function Pool(nodes: seq<NodeId>, exhausted: set<NodeId>): seq<NodeId> {
    var alive := Alive(nodes, exhausted);
    if alive == [] then nodes else alive
  }

  function NodesOf(nodes: seq<NodeId>): set<NodeId> {
    set n | n in nodes
  }

  function ChooseNodes(d: Draw, nodes: seq<NodeId>, weights: map<NodeId, real>, exhausted: set<NodeId>, size: int): set<NodeId> {
    var pool := Pool(nodes, exhausted);
    if |pool| <= size then NodesOf(pool)
    else
      NodesNamed(pool, PickKeys(d, WeightedCandidates(weights, pool), size))
  }

  function NodesNamed(pool: seq<NodeId>, names: seq<string>): set<NodeId> {
    set n | n in pool && Dec(n) in names
  }

  // ---- The per-user context

  datatype Context = Context(
    hashes: Hashes,
    userId: int,
    dayIndex: int,
    offset: int,
    weightsByDay: map<int, map<NodeId, real>>,
    exhausted: set<NodeId>,
    enabled: bool,
    pins: map<HostId, seq<NodeId>>)

  function WeightsOn(c: Context, settings: Settings): map<NodeId, real> {
    var day := EpochStartDay(c.hashes, c.userId, c.dayIndex, settings.rotationDays);
    if day in c.weightsByDay then c.weightsByDay[day] else map[]
  }

  function DrawOf(c: Context, settings: Settings): Draw {
    Draw(c.hashes, c.userId, EpochFor(c.hashes, c.userId, c.dayIndex, settings.rotationDays, c.offset))
  }

  /** The addresses whose node is kept; like zip, it ends with the shorter list. */
  function KeepNodes(addresses: seq<string>, nodes: seq<NodeId>, kept: set<NodeId>): seq<string> {
    if addresses == [] || nodes == [] then []
    else (if nodes[0] in kept then [addresses[0]] else []) + KeepNodes(addresses[1..], nodes[1..], kept)
  }

  function StaticCandidates(addresses: seq<string>): (cs: seq<Candidate>)
    ensures |cs| == |addresses|
    ensures forall i | 0 <= i < |addresses| :: cs[i] == Candidate(addresses[i], 0.0)
  {
    if addresses == [] then [] else [Candidate(addresses[0], 0.0)] + StaticCandidates(addresses[1..])
  }

  function KeepAddresses(addresses: seq<string>, kept: seq<string>): seq<string> {
    if addresses == [] then []
    else (if addresses[0] in kept then [addresses[0]] else []) + KeepAddresses(addresses[1..], kept)
  }

  /** The part of a pin that the host really has; empty means no effective pin. */
  function EffectivePin(c: Context, nodes: seq<NodeId>, fromNodes: bool, host: Option<HostId>): set<NodeId> {
    if fromNodes && host.Some? && host.value in c.pins
    then (set n | n in c.pins[host.value]) * NodesOf(nodes)
    else {}
  }

  function NarrowStatic(d: Draw, addresses: seq<string>, size: int): seq<string> {
    if |addresses| <= size then addresses
    else KeepAddresses(addresses, PickKeys(d, StaticCandidates(addresses), size))
  }

  function Pick(c: Context, addresses: seq<string>, nodes: seq<NodeId>, fromNodes: bool, host: Option<HostId>, settings: Settings): seq<string> {
    var pinned := EffectivePin(c, nodes, fromNodes, host);
    if pinned != {} then KeepNodes(addresses, nodes, pinned)
    else if !c.enabled || !settings.Narrows() then addresses
    else if fromNodes && nodes != [] then
      KeepNodes(addresses, nodes, ChooseNodes(DrawOf(c, settings), nodes, WeightsOn(c, settings), c.exhausted, settings.size))
    else NarrowStatic(DrawOf(c, settings), addresses, settings.size)
  }

  // ---- The nodes that are chosen

  lemma {:induction false} DedupLaws(nodes: seq<NodeId>)
    ensures NodesOf(Dedup(nodes)) == NodesOf(nodes)
    ensures forall i, j | 0 <= i < j < |Dedup(nodes)| :: Dedup(nodes)[i] != Dedup(nodes)[j]
    ensures |Dedup(nodes)| == |NodesOf(nodes)| <= |nodes|
  {
    if nodes != [] {
      var front, last := nodes[..|nodes| - 1], nodes[|nodes| - 1];
      DedupLaws(front);
      assert nodes == front + [last];
      assert NodesOf(nodes) == NodesOf(front) + {last};
      assert last in Dedup(front) <==> last in NodesOf(Dedup(front));
      assert NodesOf(Dedup(front) + [last]) == NodesOf(Dedup(front)) + {last};
    }
  }

  lemma NodesOfFirst(nodes: seq<NodeId>)
    requires nodes != []
    ensures NodesOf(nodes) == NodesOf(nodes[1..]) + {nodes[0]}
  {
    assert nodes == [nodes[0]] + nodes[1..];
  }

  lemma {:induction false} AliveLaws(nodes: seq<NodeId>, exhausted: set<NodeId>)
    ensures NodesOf(Alive(nodes, exhausted)) == NodesOf(nodes) - exhausted
    ensures |Alive(nodes, exhausted)| <= |nodes|
    ensures NodesOf(nodes) !! exhausted <==> Alive(nodes, exhausted) == nodes
  {
    if nodes != [] {
      AliveLaws(nodes[1..], exhausted);
      NodesOfFirst(nodes);
      var alive := Alive(nodes, exhausted);
      assert alive == (if nodes[0] in exhausted then [] else [nodes[0]]) + Alive(nodes[1..], exhausted);
      assert NodesOf(alive) == NodesOf(Alive(nodes[1..], exhausted)) + (if nodes[0] in exhausted then {} else {nodes[0]});
      if nodes[0] in exhausted {
        assert alive == Alive(nodes[1..], exhausted);
        assert |alive| < |nodes|;
      }
    }
  }

  lemma PoolNodes(nodes: seq<NodeId>, exhausted: set<NodeId>)
    ensures NodesOf(Pool(nodes, exhausted)) ==
            if NodesOf(nodes) <= exhausted then NodesOf(nodes) else NodesOf(nodes) - exhausted
    ensures nodes != [] ==> Pool(nodes, exhausted) != []
  {
    AliveLaws(nodes, exhausted);
    var alive := Alive(nodes, exhausted);
    if alive != [] {
      assert alive[0] in NodesOf(alive);
    } else {
      assert NodesOf(alive) == {};
      assert NodesOf(nodes) <= exhausted + (NodesOf(nodes) - exhausted);
    }
  }

  lemma CandidatesAreDistinct(weights: map<NodeId, real>, nodes: seq<NodeId>)
    ensures DistinctKeys(WeightedCandidates(weights, nodes))
    ensures |WeightedCandidates(weights, nodes)| == |NodesOf(nodes)|
    ensures forall n: NodeId :: Dec(n) in KeysOf(WeightedCandidates(weights, nodes)) <==> n in nodes
  {
    var cs, of := WeightedCandidates(weights, nodes), Dedup(nodes);
    DedupLaws(nodes);
    forall i, j | 0 <= i < j < |cs|
      ensures cs[i].key != cs[j].key
    {
      DecInjective(of[i], of[j]);
    }
    forall n: NodeId
      ensures Dec(n) in KeysOf(cs) <==> n in nodes
    {
      if Dec(n) in KeysOf(cs) {
        var i :| 0 <= i < |cs| && cs[i].key == Dec(n);
        DecInjective(n, of[i]);
        assert of[i] in NodesOf(of);
      }
      if n in nodes {
        assert n in NodesOf(of);
        var i :| 0 <= i < |of| && of[i] == n;
        assert cs[i] in cs;
      }
    }
  }

  ghost function Names(s: set<NodeId>): set<string> {
    set n | n in s :: Dec(n)
  }

  lemma NamesInsert(s: set<NodeId>, n: NodeId)
    requires n !in s
    ensures Names(s + {n}) == Names(s) + {Dec(n)} && Dec(n) !in Names(s)
  {
    forall m | m in s
      ensures Dec(m) != Dec(n)
    {
      DecInjective(m, n);
    }
  }

  lemma NamesCard(s: set<NodeId>)
    ensures |Names(s)| == |s|
    decreases |s|
  {
    if s != {} {
      var n := AnElement(s);
      NamesCard(s - {n});
      NamesInsert(s - {n}, n);
      assert s == s - {n} + {n};
    }
  }

  /** The nodes of a pool whose names are in a set of keys. */
  ghost function NamedIn(pool: set<NodeId>, keys: set<string>): set<NodeId> {
    set n | n in pool && Dec(n) in keys
  }

  lemma NamedInNames(pool: set<NodeId>, keys: set<string>)
    requires keys <= Names(pool)
    ensures Names(NamedIn(pool, keys)) == keys
  {
    forall k | k in keys
      ensures k in Names(NamedIn(pool, keys))
    {
      var n :| n in pool && Dec(n) == k;
      assert n in NamedIn(pool, keys);
    }
  }

  /** The chosen nodes are the reference choice among the pool: both branches of the source compute it. */
  lemma ChosenNodesAreTop(d: Draw, nodes: seq<NodeId>, weights: map<NodeId, real>, exhausted: set<NodeId>, size: nat)
    ensures var pool := Pool(nodes, exhausted);
            var top := KeySet(Top(d, Elements(WeightedCandidates(weights, pool)), size));
            && ChooseNodes(d, nodes, weights, exhausted, size) == NamedIn(NodesOf(pool), top)
            && top <= Names(NodesOf(pool))
  {
    var pool := Pool(nodes, exhausted);
    var cs := WeightedCandidates(weights, pool);
    CandidatesAreDistinct(weights, pool);
    CandidateNames(weights, pool);
    TopKeys(d, cs, size);
    if |pool| <= size {
      DedupLaws(pool);
      TopOfAll(d, cs, size);
    } else {
      PickedIsTop(d, cs, size);
    }
  }

  lemma TopKeys(d: Draw, cs: seq<Candidate>, size: nat)
    ensures KeySet(Elements(cs)) == KeysOf(cs)
    ensures KeySet(Top(d, Elements(cs), size)) <= KeysOf(cs)
  {
  }

  lemma CandidateNames(weights: map<NodeId, real>, nodes: seq<NodeId>)
    ensures KeysOf(WeightedCandidates(weights, nodes)) == Names(NodesOf(nodes))
  {
    CandidatesAreDistinct(weights, nodes);
    var cs, of := WeightedCandidates(weights, nodes), Dedup(nodes);
    DedupLaws(nodes);
    forall k | k in KeysOf(cs)
      ensures k in Names(NodesOf(nodes))
    {
      var i :| 0 <= i < |cs| && cs[i].key == k;
      assert of[i] in NodesOf(of);
    }
  }

  /** How many nodes are chosen and which are never chosen. */
  lemma ChosenNodesLaws(d: Draw, nodes: seq<NodeId>, weights: map<NodeId, real>, exhausted: set<NodeId>, size: nat)
    ensures var chosen := ChooseNodes(d, nodes, weights, exhausted, size);
            && chosen <= NodesOf(Pool(nodes, exhausted)) <= NodesOf(nodes)
            && |chosen| == Min(size, |NodesOf(Pool(nodes, exhausted))|)
            && (NodesOf(nodes) <= exhausted || chosen !! exhausted)
  {
    var pool := Pool(nodes, exhausted);
    var cs := WeightedCandidates(weights, pool);
    var chosen := ChooseNodes(d, nodes, weights, exhausted, size);
    PoolNodes(nodes, exhausted);
    CandidatesAreDistinct(weights, pool);
    ChosenNodesAreTop(d, nodes, weights, exhausted, size);
    ChosenAreTop(d, cs, size);
    PickedIsTop(d, cs, size);
    KeySetCard(Top(d, Elements(cs), size));
    NamedInNames(NodesOf(pool), KeySet(Top(d, Elements(cs), size)));
    NamesCard(chosen);
  }

  // ---- What pick returns

  predicate IsSubsequence(a: seq<string>, b: seq<string>) {
    a == [] || (b != [] && ((a[0] == b[0] && IsSubsequence(a[1..], b[1..])) || IsSubsequence(a, b[1..])))
  }

  /** Positions of b, in increasing order, where the entries of a stand. */
  ghost predicate Positions(a: seq<string>, b: seq<string>, at: seq<nat>) {
    && |at| == |a|
    && (forall i | 0 <= i < |at| :: at[i] < |b| && b[at[i]] == a[i])
    && forall i, j | 0 <= i < j < |at| :: at[i] < at[j]
  }

  lemma {:induction false} SubsequencePositions(a: seq<string>, b: seq<string>) returns (at: seq<nat>)
    requires IsSubsequence(a, b)
    ensures Positions(a, b, at)
  {
    if a == [] {
      at := [];
    } else if a[0] == b[0] && IsSubsequence(a[1..], b[1..]) {
      var rest := SubsequencePositions(a[1..], b[1..]);
      at := [0] + Shifted(rest);
    } else {
      var rest := SubsequencePositions(a, b[1..]);
      at := Shifted(rest);
    }
  }

  function Shifted(at: seq<nat>): (r: seq<nat>)
    ensures |r| == |at| && forall i | 0 <= i < |at| :: r[i] == at[i] + 1
  {
    seq(|at|, i requires 0 <= i < |at| => at[i] + 1)
  }

  lemma {:induction false} SelfSubsequence(a: seq<string>)
    ensures IsSubsequence(a, a)
  {
    if a != [] {
      SelfSubsequence(a[1..]);
    }
  }

  lemma {:induction false} KeptIsSubsequence(addresses: seq<string>, nodes: seq<NodeId>, kept: set<NodeId>)
    ensures IsSubsequence(KeepNodes(addresses, nodes, kept), addresses)
  {
    if addresses != [] && nodes != [] {
      KeptIsSubsequence(addresses[1..], nodes[1..], kept);
      var rest := KeepNodes(addresses[1..], nodes[1..], kept);
      assert ([addresses[0]] + rest)[1..] == rest;
      if nodes[0] !in kept {
        assert KeepNodes(addresses, nodes, kept) == rest;
      }
    }
  }

  lemma {:induction false} KeptAddressesAreSubsequence(addresses: seq<string>, kept: seq<string>)
    ensures IsSubsequence(KeepAddresses(addresses, kept), addresses)
  {
    if addresses != [] {
      KeptAddressesAreSubsequence(addresses[1..], kept);
      var rest := KeepAddresses(addresses[1..], kept);
      assert ([addresses[0]] + rest)[1..] == rest;
      if addresses[0] !in kept {
        assert KeepAddresses(addresses, kept) == rest;
      }
    }
  }

  lemma PickIsSubsequence(c: Context, addresses: seq<string>, nodes: seq<NodeId>, fromNodes: bool, host: Option<HostId>, settings: Settings)
    ensures IsSubsequence(Pick(c, addresses, nodes, fromNodes, host, settings), addresses)
    ensures exists at :: Positions(Pick(c, addresses, nodes, fromNodes, host, settings), addresses, at)
  {
    SelfSubsequence(addresses);
    KeptIsSubsequence(addresses, nodes, EffectivePin(c, nodes, fromNodes, host));
    KeptIsSubsequence(addresses, nodes, ChooseNodes(DrawOf(c, settings), nodes, WeightsOn(c, settings), c.exhausted, settings.size));
    KeptAddressesAreSubsequence(addresses, PickKeys(DrawOf(c, settings), StaticCandidates(addresses), settings.size));
    var at := SubsequencePositions(Pick(c, addresses, nodes, fromNodes, host, settings), addresses);
  }

  lemma {:induction false} KeptNodeCount(addresses: seq<string>, nodes: seq<NodeId>, kept: set<NodeId>)
    requires |addresses| == |nodes| && forall i, j | 0 <= i < j < |nodes| :: nodes[i] != nodes[j]
    ensures |KeepNodes(addresses, nodes, kept)| == |kept * NodesOf(nodes)|
  {
    if nodes != [] {
      KeptNodeCount(addresses[1..], nodes[1..], kept);
      NodesOfFirst(nodes);
      OneMoreCommon(kept, NodesOf(nodes[1..]), nodes[0]);
    }
  }

  lemma {:induction false} SomethingKept(addresses: seq<string>, nodes: seq<NodeId>, kept: set<NodeId>, n: NodeId)
    requires |addresses| == |nodes| && n in nodes && n in kept
    ensures KeepNodes(addresses, nodes, kept) != []
  {
    if nodes[0] !in kept {
      SomethingKept(addresses[1..], nodes[1..], kept, n);
    }
  }

  lemma {:induction false} StaticKept(addresses: seq<string>, kept: seq<string>)
    ensures forall a :: a in KeepAddresses(addresses, kept) <==> a in addresses && a in kept
    ensures KeepAddresses(addresses, kept) == KeptKeys(StaticCandidates(addresses), set k | k in kept)
  {
    if addresses != [] {
      StaticKept(addresses[1..], kept);
      assert StaticCandidates(addresses)[1..] == StaticCandidates(addresses[1..]);
    }
  }

  /** A host that has addresses never loses all of them. */
  lemma PickNeverEmpties(c: Context, addresses: seq<string>, nodes: seq<NodeId>, fromNodes: bool, host: Option<HostId>, settings: Settings)
    requires addresses != [] && (fromNodes && nodes != [] ==> |nodes| == |addresses|)
    ensures Pick(c, addresses, nodes, fromNodes, host, settings) != []
  {
    var pinned := EffectivePin(c, nodes, fromNodes, host);
    if pinned != {} {
      var n := AnElement(pinned);
      SomethingKept(addresses, nodes, pinned, n);
    } else if c.enabled && settings.Narrows() {
      var d := DrawOf(c, settings);
      if fromNodes && nodes != [] {
        var chosen := ChooseNodes(d, nodes, WeightsOn(c, settings), c.exhausted, settings.size);
        ChosenNodesLaws(d, nodes, WeightsOn(c, settings), c.exhausted, settings.size);
        PoolNodes(nodes, c.exhausted);
        assert Pool(nodes, c.exhausted)[0] in NodesOf(Pool(nodes, c.exhausted));
        assert chosen != {};
        var n := AnElement(chosen);
        SomethingKept(addresses, nodes, chosen, n);
      } else if |addresses| > settings.size {
        SomeStaticKept(d, addresses, settings.size);
      }
    }
  }

  lemma SomeStaticKept(d: Draw, addresses: seq<string>, size: nat)
    requires 0 < size < |addresses|
    ensures NarrowStatic(d, addresses, size) != []
  {
    var cs := StaticCandidates(addresses);
    RankedKeeps(d, cs);
    var first := Ranked(d, cs)[0];
    assert first in cs;
    assert first in Ranked(d, cs)[..size];
    KeptMembers(cs, KeysOf(Ranked(d, cs)[..size]));
    assert first.key in PickKeys(d, cs, size);
    StaticKept(addresses, PickKeys(d, cs, size));
    assert first.key in NarrowStatic(d, addresses, size);
  }

  /** With narrowing on and no effective pin: exactly min(size, available) nodes, none of them exhausted unless
      all are; a host without nodes answers exactly min(size, count) of its distinct addresses. */
  lemma PickNarrows(c: Context, addresses: seq<string>, nodes: seq<NodeId>, fromNodes: bool, host: Option<HostId>, settings: Settings)
    returns (chosen: set<NodeId>)
    requires c.enabled && settings.Narrows() && EffectivePin(c, nodes, fromNodes, host) == {}
    ensures fromNodes && nodes != [] ==>
              && Pick(c, addresses, nodes, fromNodes, host, settings) == KeepNodes(addresses, nodes, chosen)
              && |chosen| == Min(settings.size, |NodesOf(Pool(nodes, c.exhausted))|)
              && (NodesOf(nodes) <= c.exhausted || chosen !! c.exhausted)
    ensures fromNodes && nodes != [] && |addresses| == |nodes| && (forall i, j | 0 <= i < j < |nodes| :: nodes[i] != nodes[j]) ==>
              |Pick(c, addresses, nodes, fromNodes, host, settings)| == |chosen|
    ensures !(fromNodes && nodes != []) && (forall i, j | 0 <= i < j < |addresses| :: addresses[i] != addresses[j]) ==>
              |Pick(c, addresses, nodes, fromNodes, host, settings)| == Min(settings.size, |addresses|)
  {
    var d := DrawOf(c, settings);
    chosen := ChooseNodes(d, nodes, WeightsOn(c, settings), c.exhausted, settings.size);
    ChosenNodesLaws(d, nodes, WeightsOn(c, settings), c.exhausted, settings.size);
    if fromNodes && nodes != [] {
      if |addresses| == |nodes| && (forall i, j | 0 <= i < j < |nodes| :: nodes[i] != nodes[j]) {
        KeptNodeCount(addresses, nodes, chosen);
        assert chosen * NodesOf(nodes) == chosen;
      }
    } else if |addresses| > settings.size && (forall i, j | 0 <= i < j < |addresses| :: addresses[i] != addresses[j]) {
      StaticCount(d, addresses, settings.size);
    }
  }

  lemma StaticCount(d: Draw, addresses: seq<string>, size: nat)
    requires forall i, j | 0 <= i < j < |addresses| :: addresses[i] != addresses[j]
    requires size < |addresses|
    ensures |NarrowStatic(d, addresses, size)| == size
  {
    var cs := StaticCandidates(addresses);
    PickSizeAndOrder(d, cs, cs, size);
    StaticKept(addresses, PickKeys(d, cs, size));
    KeptCount(cs, Picked(d, cs, size));
    PickedIsTop(d, cs, size);
    assert Picked(d, cs, size) * KeysOf(cs) == Picked(d, cs, size);
  }

  /** An effective pin replaces the choice: exactly the pinned nodes of the host, exhausted or not. */
  lemma PinOverrides(c: Context, addresses: seq<string>, nodes: seq<NodeId>, host: HostId, settings: Settings, n: NodeId)
    requires |addresses| == |nodes| && forall i, j | 0 <= i < j < |nodes| :: nodes[i] != nodes[j]
    requires host in c.pins && n in c.pins[host] && n in nodes
    ensures Pick(c, addresses, nodes, true, Some(host), settings) ==
            KeepNodes(addresses, nodes, set m | m in c.pins[host])
    ensures |Pick(c, addresses, nodes, true, Some(host), settings)| == |(set m | m in c.pins[host]) * NodesOf(nodes)|
  {
    var pinned := set m | m in c.pins[host];
    assert n in pinned * NodesOf(nodes);
    KeepNodesOfHost(addresses, nodes, pinned, pinned * NodesOf(nodes));
    KeptNodeCount(addresses, nodes, pinned);
  }

  lemma {:induction false} KeepNodesOfHost(addresses: seq<string>, nodes: seq<NodeId>, kept: set<NodeId>, kept': set<NodeId>)
    requires forall n | n in nodes :: n in kept <==> n in kept'
    ensures KeepNodes(addresses, nodes, kept) == KeepNodes(addresses, nodes, kept')
  {
    if addresses != [] && nodes != [] {
      KeepNodesOfHost(addresses[1..], nodes[1..], kept, kept');
    }
  }
}
