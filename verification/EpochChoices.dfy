/** What an epoch is for: two epochs are drawn independently, so a rotation or a later period can change what a user gets
    wherever there is something to choose. */
module EpochChoices {
  import opened Options
  import opened Strings
  import opened Ratios
  import opened AddressPolicy
  import opened AddressContext
  import opened NodeRanking
  import opened NodeChoices
  import opened StaticAddresses

  type KeyHash = (int, string, int) -> Positive

  /** The context of the same user on another day, with another offset, under another hash of the keys. */
  ghost function OnDay(c: Context, energy: KeyHash, day: int, offset: int): Context {
    c.(hashes := Hashes(energy, c.hashes.unit), dayIndex := day, offset := offset)
  }

  ghost function EpochOn(c: Context, settings: Settings, day: int, offset: int): int {
    EpochFor(c.hashes, c.userId, day, settings.rotationDays, offset)
  }

  /** A rotation by k draws what is drawn k periods later. */
  lemma RotationDrawsLater(c: Context, energy: KeyHash, settings: Settings, day: int, offset: int, k: int)
    ensures DrawOf(OnDay(c, energy, day, offset + k), settings) ==
            DrawOf(OnDay(c, energy, day + k * Max(1, settings.rotationDays), offset), settings)
  {
    RotationIsLater(Hashes(energy, c.hashes.unit), c.userId, day, settings.rotationDays, offset, k);
  }

  // ---- Only the hashes of one epoch matter for a draw

  ghost predicate SameEnergies(d: Draw, d': Draw) {
    forall key: string :: Energy(d, key) == Energy(d', key)
  }

  lemma {:induction false} SameRanked(d: Draw, d': Draw, cs: seq<Candidate>)
    requires SameEnergies(d, d')
    ensures Ranked(d, cs) == Ranked(d', cs)
  {
    if cs != [] {
      SameRanked(d, d', cs[1..]);
      SameInsert(d, d', cs[0], Ranked(d, cs[1..]));
    }
  }

  lemma {:induction false} SameInsert(d: Draw, d': Draw, c: Candidate, ranked: seq<Candidate>)
    requires SameEnergies(d, d')
    ensures Insert(d, c, ranked) == Insert(d', c, ranked)
  {
    if ranked != [] {
      assert Energy(d, c.key) == Energy(d', c.key) && Energy(d, ranked[0].key) == Energy(d', ranked[0].key);
      SameInsert(d, d', c, ranked[1..]);
    }
  }

  lemma SamePicks(d: Draw, d': Draw, cs: seq<Candidate>, n: int)
    requires SameEnergies(d, d')
    ensures PickKeys(d, cs, n) == PickKeys(d', cs, n)
  {
    SameRanked(d, d', cs);
  }

  lemma SameChoice(d: Draw, d': Draw, nodes: seq<NodeId>, weights: map<NodeId, real>, exhausted: set<NodeId>, size: nat)
    requires SameEnergies(d, d')
    ensures ChooseNodes(d, nodes, weights, exhausted, size) == ChooseNodes(d', nodes, weights, exhausted, size)
  {
    SamePicks(d, d', WeightedCandidates(weights, Pool(nodes, exhausted)), size);
  }

  /** A hash that draws like d in one epoch and like d' in all others. */
  ghost function Joined(d: Draw, d': Draw, epoch: int): KeyHash {
    (user: int, key: string, e: int) => JoinedEnergy(d, d', epoch, key, e)
  }

  ghost function JoinedEnergy(d: Draw, d': Draw, epoch: int, key: string, e: int): Positive {
    if e == epoch then Energy(d, key) else Energy(d', key)
  }

  lemma JoinedDraws(c: Context, settings: Settings, d: Draw, d': Draw, day: int, offset: int, day': int, offset': int)
    requires EpochOn(c, settings, day, offset) != EpochOn(c, settings, day', offset')
    ensures var energy := Joined(d, d', EpochOn(c, settings, day, offset));
            && SameEnergies(d, DrawOf(OnDay(c, energy, day, offset), settings))
            && SameEnergies(d', DrawOf(OnDay(c, energy, day', offset'), settings))
  {
    var epoch := EpochOn(c, settings, day, offset);
    EnergyOnDay(c, settings, Joined(d, d', epoch), day, offset);
    EnergyOnDay(c, settings, Joined(d, d', epoch), day', offset');
  }

  lemma EnergyOnDay(c: Context, settings: Settings, energy: KeyHash, day: int, offset: int)
    ensures forall key :: Energy(DrawOf(OnDay(c, energy, day, offset), settings), key) == energy(c.userId, key, EpochOn(c, settings, day, offset))
  {
    SameSmear(Hashes(energy, c.hashes.unit), c.hashes, c.userId, day, settings.rotationDays, offset);
  }

  /** The epoch depends on the unit hash of the user alone. */
  lemma SameSmear(h: Hashes, h': Hashes, user: int, day: int, periodDays: int, offset: int)
    requires h.unit(user) == h'.unit(user)
    ensures EpochFor(h, user, day, periodDays, offset) == EpochFor(h', user, day, periodDays, offset)
  {
    assert Smear(h, user, Max(1, periodDays)) == Smear(h', user, Max(1, periodDays));
  }

  // ---- Hosts with nodes

  /** Every set of nodes is drawn by some hash. */
  lemma DrawnCut(pool: set<NodeId>, c: NodeId -> real, cut: set<NodeId>) returns (d: Draw)
    requires cut <= pool
    ensures NodeTop(d, pool, c, |cut|) == cut
  {
    var energy := (n: NodeId) => if n in cut then FrontEnergy(1.0) else BackEnergy(Worth(c, n), 1.0);
    forall a, b | a in cut && b in pool - cut
      ensures NodeScore(energy, c, a) > NodeScore(energy, c, b)
    {
      FrontIsHigh(Worth(c, a), 1.0);
      BackIsLow(Worth(c, b), Worth(c, b), 1.0);
    }
    ScoredCut(energy, c, pool, cut);
    d := NodeDraw(energy);
  }

  ghost predicate DistinctNodes(nodes: seq<NodeId>) {
    forall i, j | 0 <= i < j < |nodes| :: nodes[i] != nodes[j]
  }

  /** One more kept node shows its address. */
  lemma {:induction false} KeptOneMore(addresses: seq<string>, nodes: seq<NodeId>, kept: set<NodeId>, i: nat)
    requires |addresses| == |nodes| && DistinctNodes(nodes) && i < |nodes| && nodes[i] !in kept
    ensures multiset(KeepNodes(addresses, nodes, kept + {nodes[i]})) == multiset(KeepNodes(addresses, nodes, kept)) + multiset{addresses[i]}
  {
    var more := kept + {nodes[i]};
    if i == 0 {
      KeepNodesOfHost(addresses[1..], nodes[1..], kept, more);
    } else {
      KeptOneMore(addresses[1..], nodes[1..], kept, i - 1);
      assert nodes[0] in more <==> nodes[0] in kept;
    }
  }

  lemma SwappedAnswer(addresses: seq<string>, nodes: seq<NodeId>, first: set<NodeId>, i: nat, j: nat)
    requires |addresses| == |nodes| && DistinctNodes(nodes) && i < |nodes| && j < |nodes| && addresses[i] != addresses[j]
    requires nodes[i] !in first && nodes[j] !in first
    ensures KeepNodes(addresses, nodes, first + {nodes[i]}) != KeepNodes(addresses, nodes, first + {nodes[j]})
  {
    KeptOneMore(addresses, nodes, first, i);
    KeptOneMore(addresses, nodes, first, j);
    var a, b := multiset(KeepNodes(addresses, nodes, first + {nodes[i]})), multiset(KeepNodes(addresses, nodes, first + {nodes[j]}));
    assert a[addresses[i]] == b[addresses[i]] + 1;
  }

  lemma {:induction false} KeptAddressesOf(addresses: seq<string>, nodes: seq<NodeId>, kept: set<NodeId>, shown: string)
    requires |addresses| == |nodes| && forall i | 0 <= i < |nodes| && nodes[i] in kept :: addresses[i] == shown
    ensures forall a | a in KeepNodes(addresses, nodes, kept) :: a == shown
  {
    if addresses != [] {
      KeptAddressesOf(addresses[1..], nodes[1..], kept, shown);
    }
  }

  /** Two nodes of the pool have different addresses. */
  ghost predicate AddressesDiffer(addresses: seq<string>, nodes: seq<NodeId>, pool: set<NodeId>)
    requires |addresses| == |nodes|
  {
    exists i, j :: 0 <= i < |nodes| && 0 <= j < |nodes| && nodes[i] in pool && nodes[j] in pool && addresses[i] != addresses[j]
  }

  lemma SameAnswer(addresses: seq<string>, nodes: seq<NodeId>, pool: set<NodeId>, a: set<NodeId>, b: set<NodeId>)
    requires |addresses| == |nodes| && DistinctNodes(nodes) && pool <= NodesOf(nodes) && a <= pool && b <= pool && |a| == |b|
    requires !AddressesDiffer(addresses, nodes, pool)
    ensures KeepNodes(addresses, nodes, a) == KeepNodes(addresses, nodes, b)
  {
    KeptNodeCount(addresses, nodes, a);
    KeptNodeCount(addresses, nodes, b);
    assert a * NodesOf(nodes) == a && b * NodesOf(nodes) == b;
    if a != {} {
      var n := AnElement(a);
      var i :| 0 <= i < |nodes| && nodes[i] == n;
      KeptAddressesOf(addresses, nodes, a, addresses[i]);
      KeptAddressesOf(addresses, nodes, b, addresses[i]);
      var x, y := KeepNodes(addresses, nodes, a), KeepNodes(addresses, nodes, b);
      assert forall k | 0 <= k < |x| :: x[k] in x && y[k] in y;
    } else {
      assert b == {};
    }
  }

  /** Whatever is chosen in one epoch and in another, some hash chooses it: any two sets of the right size. */
  lemma AnyTwoCuts(c: Context, settings: Settings, day: int, offset: int, day': int, offset': int, nodes: seq<NodeId>,
                   a: set<NodeId>, b: set<NodeId>) returns (energy: KeyHash)
    requires settings.size >= 0 && EpochOn(c, settings, day, offset) != EpochOn(c, settings, day', offset')
    requires a <= NodesOf(Pool(nodes, c.exhausted)) && b <= NodesOf(Pool(nodes, c.exhausted)) && |a| == |b| == settings.size
    ensures var c1, c2 := OnDay(c, energy, day, offset), OnDay(c, energy, day', offset');
            && ChooseNodes(DrawOf(c1, settings), nodes, WeightsOn(c1, settings), c.exhausted, settings.size) == a
            && ChooseNodes(DrawOf(c2, settings), nodes, WeightsOn(c2, settings), c.exhausted, settings.size) == b
  {
    var pool := Pool(nodes, c.exhausted);
    var weights, weights' := DayWeights(c, settings, day), DayWeights(c, settings, day');
    var d := DrawnCut(NodesOf(pool), Weigh(weights, pool), a);
    var d' := DrawnCut(NodesOf(pool), Weigh(weights', pool), b);
    energy := Joined(d, d', EpochOn(c, settings, day, offset));
    JoinedDraws(c, settings, d, d', day, offset, day', offset');
    WeightsOnDay(c, settings, energy, day, offset);
    WeightsOnDay(c, settings, energy, day', offset');
    ChooseIsNodeTop(d, nodes, weights, c.exhausted, settings.size);
    ChooseIsNodeTop(d', nodes, weights', c.exhausted, settings.size);
    SameChoice(d, DrawOf(OnDay(c, energy, day, offset), settings), nodes, weights, c.exhausted, settings.size);
    SameChoice(d', DrawOf(OnDay(c, energy, day', offset'), settings), nodes, weights', c.exhausted, settings.size);
  }

  ghost function DayWeights(c: Context, settings: Settings, day: int): map<NodeId, real> {
    WeightsOn(c.(dayIndex := day), settings)
  }

  lemma WeightsOnDay(c: Context, settings: Settings, energy: KeyHash, day: int, offset: int)
    ensures WeightsOn(OnDay(c, energy, day, offset), settings) == DayWeights(c, settings, day)
  {
    SameStart(Hashes(energy, c.hashes.unit), c.hashes, c.userId, day, settings.rotationDays);
  }

  lemma SameStart(h: Hashes, h': Hashes, user: int, day: int, periodDays: int)
    requires h.unit(user) == h'.unit(user)
    ensures EpochStartDay(h, user, day, periodDays) == EpochStartDay(h', user, day, periodDays)
  {
    assert Smear(h, user, Max(1, periodDays)) == Smear(h', user, Max(1, periodDays));
  }

  /** What a host with nodes shows without an effective pin. */
  lemma PickOfNodes(c: Context, energy: KeyHash, settings: Settings, day: int, offset: int, addresses: seq<string>, nodes: seq<NodeId>,
                    host: Option<HostId>)
    requires c.enabled && settings.Narrows() && nodes != [] && EffectivePin(c, nodes, true, host) == {}
    ensures var c1 := OnDay(c, energy, day, offset);
            Pick(c1, addresses, nodes, true, host, settings) ==
              KeepNodes(addresses, nodes, ChooseNodes(DrawOf(c1, settings), nodes, WeightsOn(c1, settings), c.exhausted, settings.size))
  {
    assert EffectivePin(OnDay(c, energy, day, offset), nodes, true, host) == {};
  }

  /** On days or with offsets of different epochs, a host with nodes can show different addresses exactly when its size cuts the
      nodes to choose from and two of these have different addresses. */
  lemma NodesMoveIff(c: Context, settings: Settings, day: int, offset: int, day': int, offset': int,
                     addresses: seq<string>, nodes: seq<NodeId>, host: Option<HostId>)
    requires c.enabled && settings.Narrows() && nodes != [] && EffectivePin(c, nodes, true, host) == {}
    requires |addresses| == |nodes| && DistinctNodes(nodes)
    requires EpochOn(c, settings, day, offset) != EpochOn(c, settings, day', offset')
    ensures (exists energy: KeyHash ::
               Pick(OnDay(c, energy, day, offset), addresses, nodes, true, host, settings) !=
               Pick(OnDay(c, energy, day', offset'), addresses, nodes, true, host, settings)) <==>
            var pool := NodesOf(Pool(nodes, c.exhausted));
            settings.size < |pool| && AddressesDiffer(addresses, nodes, pool)
  {
    var pool := NodesOf(Pool(nodes, c.exhausted));
    if settings.size < |pool| && AddressesDiffer(addresses, nodes, pool) {
      var energy := NodesMove(c, settings, day, offset, day', offset', addresses, nodes, host);
    } else {
      forall energy: KeyHash
        ensures Pick(OnDay(c, energy, day, offset), addresses, nodes, true, host, settings) ==
                Pick(OnDay(c, energy, day', offset'), addresses, nodes, true, host, settings)
      {
        NodesStay(c, energy, settings, day, offset, day', offset', addresses, nodes, host);
      }
    }
  }

  lemma NodesMove(c: Context, settings: Settings, day: int, offset: int, day': int, offset': int,
                  addresses: seq<string>, nodes: seq<NodeId>, host: Option<HostId>) returns (energy: KeyHash)
    requires c.enabled && settings.Narrows() && nodes != [] && EffectivePin(c, nodes, true, host) == {}
    requires |addresses| == |nodes| && DistinctNodes(nodes)
    requires EpochOn(c, settings, day, offset) != EpochOn(c, settings, day', offset')
    requires var pool := NodesOf(Pool(nodes, c.exhausted));
             settings.size < |pool| && AddressesDiffer(addresses, nodes, pool)
    ensures Pick(OnDay(c, energy, day, offset), addresses, nodes, true, host, settings) !=
            Pick(OnDay(c, energy, day', offset'), addresses, nodes, true, host, settings)
  {
    var pool := NodesOf(Pool(nodes, c.exhausted));
    var i, j :| 0 <= i < |nodes| && 0 <= j < |nodes| && nodes[i] in pool && nodes[j] in pool && addresses[i] != addresses[j];
    var first := FillUp(pool - {nodes[i], nodes[j]}, {}, pool, settings.size, nodes[i], nodes[j]);
    energy := AnyTwoCuts(c, settings, day, offset, day', offset', nodes, first + {nodes[i]}, first + {nodes[j]});
    PickOfNodes(c, energy, settings, day, offset, addresses, nodes, host);
    PickOfNodes(c, energy, settings, day', offset', addresses, nodes, host);
    SwappedAnswer(addresses, nodes, first, i, j);
  }

  lemma NodesStay(c: Context, energy: KeyHash, settings: Settings, day: int, offset: int, day': int, offset': int,
                  addresses: seq<string>, nodes: seq<NodeId>, host: Option<HostId>)
    requires c.enabled && settings.Narrows() && nodes != [] && EffectivePin(c, nodes, true, host) == {}
    requires |addresses| == |nodes| && DistinctNodes(nodes)
    requires var pool := NodesOf(Pool(nodes, c.exhausted));
             !(settings.size < |pool|) || !AddressesDiffer(addresses, nodes, pool)
    ensures Pick(OnDay(c, energy, day, offset), addresses, nodes, true, host, settings) ==
            Pick(OnDay(c, energy, day', offset'), addresses, nodes, true, host, settings)
  {
    var pool := NodesOf(Pool(nodes, c.exhausted));
    var c1, c2 := OnDay(c, energy, day, offset), OnDay(c, energy, day', offset');
    var a := ChooseNodes(DrawOf(c1, settings), nodes, WeightsOn(c1, settings), c.exhausted, settings.size);
    var b := ChooseNodes(DrawOf(c2, settings), nodes, WeightsOn(c2, settings), c.exhausted, settings.size);
    PickOfNodes(c, energy, settings, day, offset, addresses, nodes, host);
    PickOfNodes(c, energy, settings, day', offset', addresses, nodes, host);
    ChosenNodesLaws(DrawOf(c1, settings), nodes, WeightsOn(c1, settings), c.exhausted, settings.size);
    ChosenNodesLaws(DrawOf(c2, settings), nodes, WeightsOn(c2, settings), c.exhausted, settings.size);
    if settings.size < |pool| {
      SameAnswer(addresses, nodes, pool, a, b);
    } else {
      SubsetCard(a, pool);
      SubsetCard(b, pool);
    }
  }

  // ---- Hosts with static addresses

  /** Some address is listed so rarely that the size can be filled without it. */
  ghost predicate SomeCanBeLeftOut(addresses: seq<string>, size: int) {
    exists a :: a in addresses && Times(StaticCandidates(addresses), a) + size <= |addresses|
  }

  /** Drawn first, a key is picked. */
  lemma FirstIsPicked(cs: seq<Candidate>, n: nat, key: string)
    requires 0 < n <= |cs| && Unweighted(cs) && key in KeysOf(cs)
    ensures key in Front(Levels({key}, "", ""), cs, n)
  {
    var d := Levels({key}, "", "");
    RankedKeeps(d, cs);
    var other := Ranked(d, cs)[..n][0].key;
    assert Ranked(d, cs)[0] in cs && other in Front(d, cs, n);
    if other != key {
      LowerLevelIsFirst({key}, "", "", key, other);
      FrontIsClosed(d, cs, n, other, key);
    }
  }

  /** Drawn last, it is picked only if the others do not fill the size. */
  lemma LastIsLeftOut(cs: seq<Candidate>, n: nat, key: string)
    requires 0 < n <= |cs| && Unweighted(cs) && key in KeysOf(cs) && Times(cs, key) + n <= |cs|
    ensures key !in Front(Levels(KeysOf(cs) - {key}, "", ""), cs, n)
  {
    var others := KeysOf(cs) - {key};
    var d := Levels(others, "", "");
    var r := Ranked(d, cs);
    RankedKeeps(d, cs);
    RankedIsSorted(d, cs);
    CountSplits(cs, others, {key});
    assert others + {key} == KeysOf(cs);
    CountAll(cs, KeysOf(cs));
    forall i | 0 <= i < n
      ensures r[i].key != key
    {
      OthersBefore(cs, others, key, i);
      FewBefore(d, cs, others, i);
    }
    assert forall c | c in r[..n] :: exists i :: 0 <= i < n && r[i] == c;
  }

  /** In that draw nothing but the key stands from its first copy on. */
  lemma OthersBefore(cs: seq<Candidate>, others: set<string>, key: string, i: nat)
    requires Unweighted(cs) && key !in others && others <= KeysOf(cs) && i < |cs|
    ensures var r := Ranked(Levels(others, "", ""), cs);
            r[i].key == key ==> forall j | i <= j < |r| :: r[j].key !in others
  {
    var d := Levels(others, "", "");
    var r := Ranked(d, cs);
    RankedKeeps(d, cs);
    RankedIsSorted(d, cs);
    if r[i].key == key {
      forall j | i <= j < |r|
        ensures r[j].key !in others
      {
        assert r[i] in cs && r[j] in cs;
        assert r[i] == Candidate(key, 0.0) && r[j] == Candidate(r[j].key, 0.0);
        if r[j].key in others {
          LowerLevelIsFirst(others, "", "", r[j].key, key);
        }
      }
    }
  }

  lemma FewBefore(d: Draw, cs: seq<Candidate>, keys: set<string>, i: nat)
    requires i < |cs|
    ensures (forall j | i <= j < |cs| :: Ranked(d, cs)[j].key !in keys) ==> Count(cs, keys) <= i
  {
    if forall j | i <= j < |cs| :: Ranked(d, cs)[j].key !in keys {
      CountUpTo(d, cs, i, keys);
      CountNone(Ranked(d, cs)[i..], keys);
      KeptMembers(Ranked(d, cs)[..i], keys);
    }
  }

  lemma LeftOutIsRare(d: Draw, addresses: seq<string>, size: nat, key: string)
    requires 0 < size < |addresses| && key in addresses
    ensures key !in Front(d, StaticCandidates(addresses), size) ==> SomeCanBeLeftOut(addresses, size)
  {
    var cs := StaticCandidates(addresses);
    var front := Front(d, cs, size);
    if key !in front {
      var last := FrontCount(d, cs, size);
      CountWith(cs, front, key);
      CountAll(cs, KeysOf(cs));
      AddressKeys(addresses);
      CountWithin(cs, front + {key}, KeysOf(cs));
    }
  }

  lemma AddressKeys(addresses: seq<string>)
    ensures forall a :: a in addresses <==> a in KeysOf(StaticCandidates(addresses))
    ensures Unweighted(StaticCandidates(addresses))
  {
    var cs := StaticCandidates(addresses);
    forall a | a in addresses
      ensures a in KeysOf(cs)
    {
      var i :| 0 <= i < |addresses| && addresses[i] == a;
      assert cs[i] in cs;
    }
  }

  /** If no address can be left out, all are shown. */
  lemma AllAreShown(d: Draw, addresses: seq<string>, size: nat)
    requires size > 0 && !SomeCanBeLeftOut(addresses, size)
    ensures NarrowStatic(d, addresses, size) == addresses
  {
    if |addresses| > size {
      var cs := StaticCandidates(addresses);
      var front := Front(d, cs, size);
      AddressKeys(addresses);
      forall key | key in KeysOf(cs)
        ensures key in front
      {
        LeftOutIsRare(d, addresses, size, key);
      }
      CountAll(cs, front);
      StaticKept(addresses, PickKeys(d, cs, size));
      NarrowedCount(d, addresses, size);
      NothingLeftOut(addresses, PickKeys(d, cs, size));
    }
  }

  /** On days or with offsets of different epochs, a host with static addresses can show different ones exactly when some
      address can be left out. */
  lemma StaticMoveIff(c: Context, settings: Settings, day: int, offset: int, day': int, offset': int,
                      addresses: seq<string>, nodes: seq<NodeId>, host: Option<HostId>)
    requires c.enabled && settings.Narrows()
    requires EpochOn(c, settings, day, offset) != EpochOn(c, settings, day', offset')
    ensures (exists energy: KeyHash ::
               Pick(OnDay(c, energy, day, offset), addresses, nodes, false, host, settings) !=
               Pick(OnDay(c, energy, day', offset'), addresses, nodes, false, host, settings)) <==>
            SomeCanBeLeftOut(addresses, settings.size)
  {
    forall energy: KeyHash, on: int, o: int
      ensures Pick(OnDay(c, energy, on, o), addresses, nodes, false, host, settings) ==
              NarrowStatic(DrawOf(OnDay(c, energy, on, o), settings), addresses, settings.size)
    {
    }
    if SomeCanBeLeftOut(addresses, settings.size) {
      var energy := StaticMove(c, settings, day, offset, day', offset', addresses);
    } else {
      forall d: Draw
        ensures NarrowStatic(d, addresses, settings.size) == addresses
      {
        AllAreShown(d, addresses, settings.size);
      }
    }
  }

  lemma StaticMove(c: Context, settings: Settings, day: int, offset: int, day': int, offset': int, addresses: seq<string>)
    returns (energy: KeyHash)
    requires settings.size > 0 && EpochOn(c, settings, day, offset) != EpochOn(c, settings, day', offset')
    requires SomeCanBeLeftOut(addresses, settings.size)
    ensures NarrowStatic(DrawOf(OnDay(c, energy, day, offset), settings), addresses, settings.size) !=
            NarrowStatic(DrawOf(OnDay(c, energy, day', offset'), settings), addresses, settings.size)
  {
    var cs := StaticCandidates(addresses);
    var a :| a in addresses && Times(cs, a) + settings.size <= |addresses|;
    var d, d' := Levels({a}, "", ""), Levels(KeysOf(cs) - {a}, "", "");
    energy := Joined(d, d', EpochOn(c, settings, day, offset));
    JoinedDraws(c, settings, d, d', day, offset, day', offset');
    SamePicks(d, DrawOf(OnDay(c, energy, day, offset), settings), cs, settings.size);
    SamePicks(d', DrawOf(OnDay(c, energy, day', offset'), settings), cs, settings.size);
    AddressKeys(addresses);
    ListedIsCounted(cs, a);
    FirstIsPicked(cs, settings.size, a);
    LastIsLeftOut(cs, settings.size, a);
    PickedOrNot(d, addresses, settings.size, a);
    PickedOrNot(d', addresses, settings.size, a);
  }

  lemma PickedOrNot(d: Draw, addresses: seq<string>, size: nat, a: string)
    requires 0 < size < |addresses| && a in addresses
    ensures a in NarrowStatic(d, addresses, size) <==> a in Front(d, StaticCandidates(addresses), size)
  {
    var cs := StaticCandidates(addresses);
    AddressKeys(addresses);
    KeptMembers(cs, Front(d, cs, size));
    StaticKept(addresses, PickKeys(d, cs, size));
  }

  // ---- A manual rotation

  /** On one day a rotation to another offset can change what a host shows, under the same conditions. */
  lemma RotationMovesIff(c: Context, settings: Settings, day: int, offset: int, offset': int,
                         addresses: seq<string>, nodes: seq<NodeId>, host: Option<HostId>)
    requires c.enabled && settings.Narrows() && nodes != [] && EffectivePin(c, nodes, true, host) == {}
    requires |addresses| == |nodes| && DistinctNodes(nodes) && offset != offset'
    ensures (exists energy: KeyHash ::
               Pick(OnDay(c, energy, day, offset), addresses, nodes, true, host, settings) !=
               Pick(OnDay(c, energy, day, offset'), addresses, nodes, true, host, settings)) <==>
            var pool := NodesOf(Pool(nodes, c.exhausted));
            settings.size < |pool| && AddressesDiffer(addresses, nodes, pool)
    ensures (exists energy: KeyHash ::
               Pick(OnDay(c, energy, day, offset), addresses, nodes, false, host, settings) !=
               Pick(OnDay(c, energy, day, offset'), addresses, nodes, false, host, settings)) <==>
            SomeCanBeLeftOut(addresses, settings.size)
  {
    OffsetMovesEpoch(c.hashes, c.userId, day, settings.rotationDays, offset, offset');
    NodesMoveIff(c, settings, day, offset, day, offset', addresses, nodes, host);
    StaticMoveIff(c, settings, day, offset, day, offset', addresses, nodes, host);
  }
}
