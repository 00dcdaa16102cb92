/** Building the per-user context of a render, and the journal entry of a host and day. The main theorems tie
    the two: what the journal calls restorable is what the render gave. */
module AddressJournal {
  import opened Options
  import opened AddressPolicy
  import opened AddressContext
  import opened AddressHistory

  // ---- The context of a render

  ghost function SnapshotsFor(h: Hashes, user: int, today: int, table: Snapshots, periods: set<int>): map<int, map<NodeId, real>> {
    map day | day in (set p | p in periods :: EpochStartDay(h, user, today, p)) :: NearestSnapshot(table, day)
  }

  /** One snapshot per epoch start; periods whose epochs start on the same day share it. The per-day query is
      the parameter `query`. */
  method CollectSnapshots(h: Hashes, user: int, today: int, ghost table: Snapshots, periods: set<int>,
                          query: int -> map<NodeId, real>)
    returns (weightsByDay: map<int, map<NodeId, real>>)
    requires forall day :: query(day) == NearestSnapshot(table, day)
    ensures weightsByDay == SnapshotsFor(h, user, today, table, periods)
  {
    weightsByDay := map[];
    var todo := periods;
    while todo != {}
      invariant todo <= periods
      invariant forall p | p in periods - todo :: EpochStartDay(h, user, today, p) in weightsByDay
      invariant forall day | day in weightsByDay ::
                  (exists p :: p in periods && EpochStartDay(h, user, today, p) == day) &&
                  weightsByDay[day] == NearestSnapshot(table, day)
      decreases |todo|
    {
      var period, rest := TakeOne(todo);
      var snapshotDay := EpochStartDay(h, user, today, period);
      if snapshotDay !in weightsByDay {
        weightsByDay := weightsByDay[snapshotDay := query(snapshotDay)];
      }
      todo := rest;
    }
    assert forall p | p in periods :: EpochStartDay(h, user, today, p) in weightsByDay;
    forall day | day in weightsByDay
      ensures day in SnapshotsFor(h, user, today, table, periods)
    {
      var p :| p in periods && EpochStartDay(h, user, today, p) == day;
    }
  }

  /** Nothing is narrowed for a revoked or expired subscription, and without a narrowing host no weight or
      exhaustion is read. */
  ghost function BuildContext(h: Hashes, user: int, now: Time, offset: int, table: Snapshots, exhausted: set<NodeId>,
                              pinRows: seq<PinRow>, periods: set<int>, closed: bool): Context {
    if closed then Context(h, 0, 0, 0, map[], {}, false, map[])
    else
      Context(h, user, DayIndex(now), offset, SnapshotsFor(h, user, DayIndex(now), table, periods),
              if periods == {} then {} else exhausted, true, ActivePins(pinRows, now))
  }

  lemma WeightsOfBuilt(c: Context, h: Hashes, user: int, now: Time, offset: int, table: Snapshots, exhausted: set<NodeId>,
                       pinRows: seq<PinRow>, periods: set<int>, settings: Settings)
    requires c == BuildContext(h, user, now, offset, table, exhausted, pinRows, periods, false)
    requires settings.rotationDays in periods
    ensures WeightsOn(c, settings) == WeightsFor(h, user, table, DayIndex(now), settings.rotationDays)
  {
    var day := EpochStartDay(h, user, DayIndex(now), settings.rotationDays);
    assert day in (set p | p in periods :: EpochStartDay(h, user, DayIndex(now), p));
  }

  /** Stability: two renders in one epoch of a host give the same list, even though snapshots of later days were
      written in between and other hosts were switched on or off, as long as the exhausted nodes, the offset and the pins
      of the host are the same. */
  lemma PickIsStableInEpoch(h: Hashes, user: int, now1: Time, now2: Time, offset: int, table1: Snapshots, table2: Snapshots,
                            exhausted: set<NodeId>, pins1: seq<PinRow>, pins2: seq<PinRow>, periods1: set<int>, periods2: set<int>,
                            addresses: seq<string>, nodes: seq<NodeId>, fromNodes: bool, host: HostId, settings: Settings)
    requires settings.Narrows() ==> settings.rotationDays in periods1 && settings.rotationDays in periods2
    requires EpochFor(h, user, DayIndex(now1), settings.rotationDays, offset) == EpochFor(h, user, DayIndex(now2), settings.rotationDays, offset)
    requires var start := EpochStartDay(h, user, DayIndex(now1), settings.rotationDays);
             forall d | d <= start :: (d in table1 <==> d in table2) && (d in table1 ==> table1[d] == table2[d])
    requires host in ActivePins(pins1, now1) <==> host in ActivePins(pins2, now2)
    requires host in ActivePins(pins1, now1) ==> ActivePins(pins1, now1)[host] == ActivePins(pins2, now2)[host]
    ensures var c1 := BuildContext(h, user, now1, offset, table1, exhausted, pins1, periods1, false);
            var c2 := BuildContext(h, user, now2, offset, table2, exhausted, pins2, periods2, false);
            Pick(c1, addresses, nodes, fromNodes, Some(host), settings) ==
            Pick(c2, addresses, nodes, fromNodes, Some(host), settings)
  {
    var c1 := BuildContext(h, user, now1, offset, table1, exhausted, pins1, periods1, false);
    var c2 := BuildContext(h, user, now2, offset, table2, exhausted, pins2, periods2, false);
    SameEpochIffSameStart(h, user, DayIndex(now1), DayIndex(now2), settings.rotationDays, offset);
    if settings.Narrows() {
      WeightsOfBuilt(c1, h, user, now1, offset, table1, exhausted, pins1, periods1, settings);
      WeightsOfBuilt(c2, h, user, now2, offset, table2, exhausted, pins2, periods2, settings);
      NearestDependsOnThreeDays(table1, table2, EpochStartDay(h, user, DayIndex(now1), settings.rotationDays));
    }
  }

  // ---- The journal entry of one host and day

  datatype Item = Item(nodeId: Option<NodeId>, address: string)

  datatype HostRow = HostRow(id: HostId, remark: string, subsetEnabled: bool, subsetSize: Option<int>, rotationDays: Option<int>)

  datatype Source = FromPin | Auto | Unknown

  datatype HostAssignment = HostAssignment(host: HostId, remark: string, source: Source, restorable: bool,
                                           nodeIds: seq<NodeId>, addresses: seq<string>)

  datatype Scope = Scope(
    hashes: Hashes,
    userId: int,
    offset: int,
    rotationAt: Option<Time>,
    hosts: seq<HostRow>,
    composition: map<int, map<HostId, seq<Item>>>,
    pins: seq<PinRow>,
    snapshots: Snapshots,
    nodeLimits: map<NodeId, real>,
    cutoffPercent: int)

  function NodeIdsOf(payload: seq<Item>): seq<NodeId> {
    if payload == [] then []
    else (if payload[0].nodeId.Some? then [payload[0].nodeId.value] else []) + NodeIdsOf(payload[1..])
  }

  function AddressesOf(payload: seq<Item>): (a: seq<string>)
    ensures |a| == |payload|
  {
    if payload == [] then [] else [payload[0].address] + AddressesOf(payload[1..])
  }

  predicate PayloadFromNodes(payload: seq<Item>) {
    payload != [] && forall item | item in payload :: item.nodeId.Some?
  }

  function KeepIds(nodes: seq<NodeId>, kept: set<NodeId>): seq<NodeId> {
    if nodes == [] then [] else (if nodes[0] in kept then [nodes[0]] else []) + KeepIds(nodes[1..], kept)
  }

  function SettingsOf(host: HostRow): Settings {
    SettingsFromHost(host.subsetEnabled, host.subsetSize, host.rotationDays)
  }

  function ExhaustedFromSnapshot(weights: map<NodeId, real>, limits: map<NodeId, real>, percent: int): set<NodeId> {
    set n | n in weights && n in limits && IsExhausted(Some(limits[n] - weights[n]), Some(limits[n]), percent)
  }

  /** Weights are remainders: a node counts as exhausted exactly when at most the cut-off share is left. */
  lemma ExhaustedMeansLittleLeft(weights: map<NodeId, real>, limits: map<NodeId, real>, percent: int, n: NodeId)
    ensures n in ExhaustedFromSnapshot(weights, limits, percent) <==>
              && n in weights && n in limits && limits[n] > 0.0
              && (if 1 <= percent <= 100 then weights[n] * 100.0 <= limits[n] * (100 - percent) as real else weights[n] <= 0.0)
  {
    if n in weights && n in limits {
      ExhaustedIff(Some(limits[n] - weights[n]), Some(limits[n]), percent);
      assert limits[n] * (100 - percent) as real == limits[n] * 100.0 - limits[n] * percent as real;
    }
  }

  /** One host of one day; `dayPins` and `dayWeights` are what the day's loaded data gives. */
  ghost function ReconstructHost(scope: Scope, day: int, dayPins: map<HostId, seq<NodeId>>, host: HostRow): HostAssignment {
    var unknown := HostAssignment(host.id, host.remark, Unknown, false, [], []);
    if day !in scope.composition || host.id !in scope.composition[day] then unknown
    else
      var payload := scope.composition[day][host.id];
      var nodes, addresses := NodeIdsOf(payload), AddressesOf(payload);
      var fromNodes := PayloadFromNodes(payload);
      var pinned := if host.id in dayPins && fromNodes then (set n | n in dayPins[host.id]) * NodesOf(nodes) else {};
      if pinned != {} then
        HostAssignment(host.id, host.remark, FromPin, true, KeepIds(nodes, pinned), KeepNodes(addresses, nodes, pinned))
      else
        var settings := SettingsOf(host);
        if !settings.Narrows() || |addresses| <= settings.size then
          HostAssignment(host.id, host.remark, Auto, true, nodes, addresses)
        else
          var weights := WeightsFor(scope.hashes, scope.userId, scope.snapshots, day, settings.rotationDays);
          if weights == map[] || !DayOffsetKnown(scope.rotationAt, day) then unknown
          else
            var d := Draw(scope.hashes, scope.userId, EpochFor(scope.hashes, scope.userId, day, settings.rotationDays, scope.offset));
            if fromNodes then
              var exhausted := ExhaustedFromSnapshot(weights, scope.nodeLimits, scope.cutoffPercent);
              var chosen := ChooseNodes(d, nodes, weights, exhausted, settings.size);
              HostAssignment(host.id, host.remark, Auto, true, KeepIds(nodes, chosen), KeepNodes(addresses, nodes, chosen))
            else
              HostAssignment(host.id, host.remark, Auto, true, [],
                             KeepAddresses(addresses, PickKeys(d, StaticCandidates(addresses), settings.size)))
  }

  // ---- Agreement with the render

  lemma {:induction false} NodeIdsOfPayload(payload: seq<Item>)
    requires forall item | item in payload :: item.nodeId.Some?
    ensures |NodeIdsOf(payload)| == |payload|
  {
    if payload != [] {
      NodeIdsOfPayload(payload[1..]);
    }
  }

  lemma {:induction false} KeepAll(addresses: seq<string>, nodes: seq<NodeId>, kept: set<NodeId>)
    requires |addresses| == |nodes|
    ensures KeepNodes(addresses, nodes, kept) == addresses <==> NodesOf(nodes) <= kept
    ensures |KeepNodes(addresses, nodes, kept)| <= |addresses|
  {
    if nodes != [] {
      KeepAll(addresses[1..], nodes[1..], kept);
      var rest := KeepNodes(addresses[1..], nodes[1..], kept);
      assert nodes == [nodes[0]] + nodes[1..] && addresses == [addresses[0]] + addresses[1..];
      assert NodesOf(nodes) == NodesOf(nodes[1..]) + {nodes[0]};
      if nodes[0] in kept {
        assert ([addresses[0]] + rest)[1..] == rest;
      } else {
        assert KeepNodes(addresses, nodes, kept) == rest;
      }
    }
  }

  lemma {:induction false} PoolOfAgreeing(nodes: seq<NodeId>, a: set<NodeId>, b: set<NodeId>)
    requires forall n | n in nodes :: n in a <==> n in b
    ensures Alive(nodes, a) == Alive(nodes, b) && Pool(nodes, a) == Pool(nodes, b)
  {
    if nodes != [] {
      PoolOfAgreeing(nodes[1..], a, b);
    }
  }

  /** The render and the journal look at the same host on the same day. */
  ghost predicate SameInputs(scope: Scope, day: int, dayPins: map<HostId, seq<NodeId>>, host: HostRow, c: Context,
                             addresses: seq<string>, nodes: seq<NodeId>, fromNodes: bool)
  {
    && day in scope.composition && host.id in scope.composition[day]
    && c.hashes == scope.hashes && c.userId == scope.userId && c.dayIndex == day && c.enabled
    && (DayOffsetKnown(scope.rotationAt, day) ==> c.offset == scope.offset)
    && (host.id in c.pins <==> host.id in dayPins)
    && (host.id in dayPins ==> c.pins[host.id] == dayPins[host.id])
    && (var payload := scope.composition[day][host.id];
        && addresses == AddressesOf(payload)
        && (payload != [] ==> fromNodes == PayloadFromNodes(payload))
        && (fromNodes ==> nodes == NodeIdsOf(payload)))
    && (var settings := SettingsOf(host);
        settings.Narrows() ==>
          var weights := WeightsFor(scope.hashes, scope.userId, scope.snapshots, day, settings.rotationDays);
          && WeightsOn(c, settings) == weights
          && forall n | n in nodes ::
               n in c.exhausted <==> n in ExhaustedFromSnapshot(weights, scope.nodeLimits, scope.cutoffPercent))
  }

  /** The journal's shortcut for short lists: it does not look at exhaustion, the render does. */
  ghost predicate ShortcutMissesExhaustion(host: HostRow, c: Context, addresses: seq<string>, nodes: seq<NodeId>, fromNodes: bool) {
    && SettingsOf(host).Narrows()
    && fromNodes
    && |addresses| <= SettingsOf(host).size
    && EffectivePin(c, nodes, fromNodes, Some(host.id)) == {}
    && !(NodesOf(nodes) <= c.exhausted)
    && !(NodesOf(nodes) !! c.exhausted)
  }

  lemma ShortListPick(c: Context, addresses: seq<string>, nodes: seq<NodeId>, host: HostRow)
    requires c.enabled && SettingsOf(host).Narrows() && |addresses| == |nodes| <= SettingsOf(host).size && nodes != []
    requires EffectivePin(c, nodes, true, Some(host.id)) == {}
    ensures Pick(c, addresses, nodes, true, Some(host.id), SettingsOf(host)) == addresses <==>
              NodesOf(nodes) <= c.exhausted || NodesOf(nodes) !! c.exhausted
  {
    PoolNodes(nodes, c.exhausted);
    AliveLaws(nodes, c.exhausted);
    KeepAll(addresses, nodes, NodesOf(Pool(nodes, c.exhausted)));
  }

  /** Every restorable entry of the journal is what the render gave, except exactly when the journal took its
      shortcut for a short list on a host where some, but not all, nodes were exhausted. */
  lemma JournalAgreesIff(scope: Scope, day: int, dayPins: map<HostId, seq<NodeId>>, host: HostRow, c: Context,
                         addresses: seq<string>, nodes: seq<NodeId>, fromNodes: bool)
    requires SameInputs(scope, day, dayPins, host, c, addresses, nodes, fromNodes)
    ensures var entry := ReconstructHost(scope, day, dayPins, host);
            entry.restorable ==>
              (entry.addresses == Pick(c, addresses, nodes, fromNodes, Some(host.id), SettingsOf(host)) <==>
               !ShortcutMissesExhaustion(host, c, addresses, nodes, fromNodes))
  {
    var payload := scope.composition[day][host.id];
    var settings := SettingsOf(host);
    if payload == [] {
      assert NodesOf(NodeIdsOf(payload)) == {};
      assert EffectivePin(c, nodes, fromNodes, Some(host.id)) == {};
    } else if fromNodes {
      NodeIdsOfPayload(payload);
      if EffectivePin(c, nodes, fromNodes, Some(host.id)) == {} && settings.Narrows() {
        if |addresses| <= settings.size {
          ShortListPick(c, addresses, nodes, host);
        } else {
          var weights := WeightsFor(scope.hashes, scope.userId, scope.snapshots, day, settings.rotationDays);
          PoolOfAgreeing(nodes, c.exhausted, ExhaustedFromSnapshot(weights, scope.nodeLimits, scope.cutoffPercent));
        }
      }
    }
  }

  /** Whenever the shortcut is taken like that, the entry is wrong: it shows addresses the render withheld. */
  lemma ShortcutShowsWithheld(scope: Scope, day: int, dayPins: map<HostId, seq<NodeId>>, host: HostRow, c: Context,
                              addresses: seq<string>, nodes: seq<NodeId>)
    requires SameInputs(scope, day, dayPins, host, c, addresses, nodes, true)
    requires ShortcutMissesExhaustion(host, c, addresses, nodes, true)
    ensures var entry := ReconstructHost(scope, day, dayPins, host);
            && entry.restorable && entry.addresses == addresses
            && |Pick(c, addresses, nodes, true, Some(host.id), SettingsOf(host))| < |addresses|
  {
    JournalAgreesIff(scope, day, dayPins, host, c, addresses, nodes, true);
    assert NodesOf(nodes) != {};
    var payload := scope.composition[day][host.id];
    if payload != [] {
      NodeIdsOfPayload(payload);
      var chosen := ChooseNodes(DrawOf(c, SettingsOf(host)), nodes, WeightsOn(c, SettingsOf(host)), c.exhausted, SettingsOf(host).size);
      KeepAll(addresses, nodes, chosen);
      FewerKept(addresses, nodes, chosen);
    }
  }

  lemma {:induction false} FewerKept(addresses: seq<string>, nodes: seq<NodeId>, kept: set<NodeId>)
    requires |addresses| == |nodes|
    ensures |KeepNodes(addresses, nodes, kept)| == |addresses| ==> KeepNodes(addresses, nodes, kept) == addresses
  {
    if nodes != [] {
      FewerKept(addresses[1..], nodes[1..], kept);
      KeepAll(addresses[1..], nodes[1..], kept);
    }
  }

  lemma OneSnapshot(weights: map<NodeId, real>)
    ensures NearestSnapshot(map[0 := weights], 0) == weights
  {
    var table: Snapshots := map[0 := weights];
    assert 0 in table && IsLatest(table.Keys, 0, 0);
  }

  lemma OneOfTwoExhausted()
    ensures ExhaustedFromSnapshot(map[1 := 0.0, 2 := 10.0], map[1 := 10.0, 2 := 10.0], 0) == {1}
  {
  }

  lemma OneExhausted(c: Context, host: HostRow, addresses: seq<string>)
    requires SettingsOf(host) == Settings(true, 2, 1) && |addresses| == 2
    requires c.exhausted == {1} && c.pins == map[]
    ensures ShortcutMissesExhaustion(host, c, addresses, [1, 2], true)
  {
    var nodes: seq<NodeId> := [1, 2];
    assert nodes[0] in NodesOf(nodes) && nodes[1] in NodesOf(nodes);
  }

  lemma TwoNodeInputs(scope: Scope, host: HostRow, c: Context, weights: map<NodeId, real>, payload: seq<Item>)
    requires SettingsOf(host) == Settings(true, 2, 1)
    requires scope.composition == map[0 := map[host.id := payload]] && NodeIdsOf(payload) == [1, 2] && PayloadFromNodes(payload)
    requires scope.snapshots == map[0 := weights] && scope.rotationAt == None
    requires ExhaustedFromSnapshot(weights, scope.nodeLimits, scope.cutoffPercent) == {1}
    requires c == Context(scope.hashes, scope.userId, 0, scope.offset, map[0 := weights], {1}, true, map[])
    ensures SameInputs(scope, 0, map[], host, c, AddressesOf(payload), [1, 2], true)
  {
    OneSnapshot(weights);
    EpochContainsDay(scope.hashes, scope.userId, 0, 1);
  }

  /** It can happen: a host of two nodes, one of them used up, and a subset size of two. */
  lemma ShortcutCanMiss() returns (scope: Scope, host: HostRow, c: Context, addresses: seq<string>, nodes: seq<NodeId>)
    ensures SameInputs(scope, 0, map[], host, c, addresses, nodes, true)
    ensures ShortcutMissesExhaustion(host, c, addresses, nodes, true)
  {
    var h := Hashes((u, k, e) => 1.0, u => 1.0);
    var weights, limits: map<NodeId, real> := map[1 := 0.0, 2 := 10.0], map[1 := 10.0, 2 := 10.0];
    var payload := [Item(Some(1), "a"), Item(Some(2), "b")];
    host := HostRow(7, "", true, Some(2), Some(1));
    scope := Scope(h, 0, 0, None, [host], map[0 := map[7 := payload]], [], map[0 := weights], limits, 0);
    c := Context(h, 0, 0, 0, map[0 := weights], {1}, true, map[]);
    addresses, nodes := AddressesOf(payload), [1, 2];
    OneOfTwoExhausted();
    TwoItems(payload);
    TwoNodeInputs(scope, host, c, weights, payload);
    OneExhausted(c, host, addresses);
  }

  lemma TwoItems(payload: seq<Item>)
    requires |payload| == 2 && payload[0].nodeId == Some(1) && payload[1].nodeId == Some(2)
    ensures NodeIdsOf(payload) == [1, 2] && PayloadFromNodes(payload)
  {
    assert payload[1..][1..] == [];
    assert NodeIdsOf(payload[1..]) == [2] + NodeIdsOf([]);
  }

  // ---- End to end, from the tables

  /** The scope of a range of days, loaded from the tables as they are when the journal is read. */
  function BuildScope(h: Hashes, user: int, rotations: seq<Time>, hosts: seq<HostRow>,
                      composition: map<int, map<HostId, seq<Item>>>, pinRows: seq<PinRow>, table: Snapshots,
                      nodeLimits: map<NodeId, real>, cutoffPercent: int, firstDay: int, lastDay: int): Scope
  {
    Scope(h, user, |rotations|, LastRotation(rotations), hosts, composition,
          Covering(pinRows, DayStartAt(firstDay), DayStartAt(lastDay + 1)),
          SnapshotsInRange(table, firstDay - ARCHIVE_RETENTION_DAYS, lastDay),
          nodeLimits, cutoffPercent)
  }

  ghost function DayPins(scope: Scope, day: int): map<HostId, seq<NodeId>> {
    LastPerHost(Covering(scope.pins, DayStartAt(day), DayStartAt(day + 1)))
  }

  /** The tables behind a render at `now` and behind a journal read later, and what has to be the same:
      the pins of the host did not change during the day, snapshots up to the day were written by then, and the
      exhausted nodes of the moment are those of the snapshot. */
  datatype History = History(
    hashes: Hashes,
    user: int,
    rotations: seq<Time>,
    composition: map<int, map<HostId, seq<Item>>>,
    pinRows: seq<PinRow>,
    tableThen: Snapshots,
    table: Snapshots,
    nodeLimits: map<NodeId, real>,
    cutoffPercent: int)

  ghost predicate SteadyDay(y: History, host: HostRow, now: Time, exhausted: set<NodeId>, nodes: seq<NodeId>) {
    var day := DayIndex(now);
    && (forall i, j | 0 <= i < j < |y.rotations| :: y.rotations[i] <= y.rotations[j])
    && PinsStayAllDay(y.pinRows, host.id, day, now)
    && (forall d | d <= day :: (d in y.tableThen <==> d in y.table) && (d in y.table ==> y.tableThen[d] == y.table[d]))
    && (var weights := WeightsFor(y.hashes, y.user, y.table, day, SettingsOf(host).rotationDays);
        forall n | n in nodes :: n in exhausted <==> n in ExhaustedFromSnapshot(weights, y.nodeLimits, y.cutoffPercent))
  }

  ghost predicate HostOfTheDay(y: History, host: HostRow, day: int, addresses: seq<string>, nodes: seq<NodeId>, fromNodes: bool) {
    && day in y.composition && host.id in y.composition[day]
    && (var payload := y.composition[day][host.id];
        && addresses == AddressesOf(payload)
        && (payload != [] ==> fromNodes == PayloadFromNodes(payload))
        && (fromNodes ==> nodes == NodeIdsOf(payload)))
  }

  function ScopeOf(y: History, hosts: seq<HostRow>, firstDay: int, lastDay: int): Scope {
    BuildScope(y.hashes, y.user, y.rotations, hosts, y.composition, y.pinRows, y.table, y.nodeLimits, y.cutoffPercent, firstDay, lastDay)
  }

  ghost function RenderContext(y: History, now: Time, exhausted: set<NodeId>, periods: set<int>): Context {
    BuildContext(y.hashes, y.user, now, OffsetAt(y.rotations, now), y.tableThen, exhausted, y.pinRows, periods, false)
  }

  lemma WeightsSurviveTheRange(y: History, host: HostRow, now: Time, hosts: seq<HostRow>, exhausted: set<NodeId>,
                               nodes: seq<NodeId>, periods: set<int>, firstDay: int, lastDay: int)
    requires firstDay <= DayIndex(now) <= lastDay && SteadyDay(y, host, now, exhausted, nodes)
    requires SettingsOf(host).rotationDays in periods && SettingsOf(host).rotationDays <= ARCHIVE_RETENTION_DAYS + 1
    ensures var c, scope := RenderContext(y, now, exhausted, periods), ScopeOf(y, hosts, firstDay, lastDay);
            var weights := WeightsFor(y.hashes, y.user, y.table, DayIndex(now), SettingsOf(host).rotationDays);
            && WeightsOn(c, SettingsOf(host)) == weights
            && WeightsFor(y.hashes, y.user, scope.snapshots, DayIndex(now), SettingsOf(host).rotationDays) == weights
  {
    var day, settings := DayIndex(now), SettingsOf(host);
    var start := EpochStartDay(y.hashes, y.user, day, settings.rotationDays);
    EpochContainsDay(y.hashes, y.user, day, settings.rotationDays);
    RangeAnswersIff(firstDay, lastDay, start);
    WeightsOfBuilt(RenderContext(y, now, exhausted, periods), y.hashes, y.user, now, OffsetAt(y.rotations, now),
                   y.tableThen, exhausted, y.pinRows, periods, settings);
    NearestDependsOnThreeDays(y.tableThen, y.table, start);
  }

  lemma PinsSurviveTheRange(y: History, host: HostRow, now: Time, hosts: seq<HostRow>, firstDay: int, lastDay: int)
    requires firstDay <= DayIndex(now) <= lastDay && PinsStayAllDay(y.pinRows, host.id, DayIndex(now), now)
    ensures var pins, active := DayPins(ScopeOf(y, hosts, firstDay, lastDay), DayIndex(now)), ActivePins(y.pinRows, now);
            (host.id in active <==> host.id in pins) && (host.id in pins ==> active[host.id] == pins[host.id])
  {
    RangePinsAnswer(y.pinRows, firstDay, DayIndex(now), lastDay);
    ActivePinsOfTheDay(y.pinRows, host.id, DayIndex(now), now);
  }

  lemma OffsetSurvives(rotations: seq<Time>, now: Time)
    requires forall i, j | 0 <= i < j < |rotations| :: rotations[i] <= rotations[j]
    requires DayOffsetKnown(LastRotation(rotations), DayIndex(now))
    ensures OffsetAt(rotations, now) == |rotations|
  {
    OffsetKnownIff(rotations, DayIndex(now));
    assert now >= DayStartAt(DayIndex(now));
  }

  lemma RenderAndJournalInputs(y: History, host: HostRow, now: Time, hosts: seq<HostRow>, exhausted: set<NodeId>,
                               addresses: seq<string>, nodes: seq<NodeId>, fromNodes: bool, periods: set<int>,
                               firstDay: int, lastDay: int)
    requires firstDay <= DayIndex(now) <= lastDay && SteadyDay(y, host, now, exhausted, nodes)
    requires HostOfTheDay(y, host, DayIndex(now), addresses, nodes, fromNodes)
    requires SettingsOf(host).Narrows() ==>
               SettingsOf(host).rotationDays in periods && SettingsOf(host).rotationDays <= ARCHIVE_RETENTION_DAYS + 1
    ensures var c, scope := RenderContext(y, now, exhausted, periods), ScopeOf(y, hosts, firstDay, lastDay);
            SameInputs(scope, DayIndex(now), DayPins(scope, DayIndex(now)), host, c, addresses, nodes, fromNodes)
  {
    PinsSurviveTheRange(y, host, now, hosts, firstDay, lastDay);
    if DayOffsetKnown(LastRotation(y.rotations), DayIndex(now)) {
      OffsetSurvives(y.rotations, now);
    }
    if SettingsOf(host).Narrows() {
      WeightsSurviveTheRange(y, host, now, hosts, exhausted, nodes, periods, firstDay, lastDay);
    }
  }

  /** End to end: a render at `now`, with the offset, pins and snapshots of that moment, and a journal read later for
      a range of days around it. On a steady day every restorable entry is what was rendered, shortcut aside. */
  lemma JournalMatchesRender(y: History, host: HostRow, now: Time, hosts: seq<HostRow>, exhausted: set<NodeId>,
                             addresses: seq<string>, nodes: seq<NodeId>, fromNodes: bool, periods: set<int>,
                             firstDay: int, lastDay: int)
    requires firstDay <= DayIndex(now) <= lastDay && SteadyDay(y, host, now, exhausted, nodes)
    requires HostOfTheDay(y, host, DayIndex(now), addresses, nodes, fromNodes)
    requires SettingsOf(host).Narrows() ==>
               SettingsOf(host).rotationDays in periods && SettingsOf(host).rotationDays <= ARCHIVE_RETENTION_DAYS + 1
    ensures var c, scope := RenderContext(y, now, exhausted, periods), ScopeOf(y, hosts, firstDay, lastDay);
            var entry := ReconstructHost(scope, DayIndex(now), DayPins(scope, DayIndex(now)), host);
            entry.restorable ==>
              (entry.addresses == Pick(c, addresses, nodes, fromNodes, Some(host.id), SettingsOf(host)) <==>
               !ShortcutMissesExhaustion(host, c, addresses, nodes, fromNodes))
  {
    var c, scope := RenderContext(y, now, exhausted, periods), ScopeOf(y, hosts, firstDay, lastDay);
    RenderAndJournalInputs(y, host, now, hosts, exhausted, addresses, nodes, fromNodes, periods, firstDay, lastDay);
    JournalAgreesIff(scope, DayIndex(now), DayPins(scope, DayIndex(now)), host, c, addresses, nodes, fromNodes);
  }

  // ---- What an entry says of itself

  /** The node ids and the addresses of an entry are those of one set of nodes, in the order of the host. */
  ghost predicate Aligned(entry: HostAssignment, addresses: seq<string>, nodes: seq<NodeId>, kept: set<NodeId>) {
    && entry.nodeIds == KeepIds(nodes, kept) && entry.addresses == KeepNodes(addresses, nodes, kept)
    && |entry.nodeIds| == |entry.addresses|
  }

  lemma {:induction false} KeepIdsMatch(addresses: seq<string>, nodes: seq<NodeId>, kept: set<NodeId>)
    requires |addresses| == |nodes|
    ensures |KeepIds(nodes, kept)| == |KeepNodes(addresses, nodes, kept)|
    ensures forall n :: n in KeepIds(nodes, kept) <==> n in nodes && n in kept
  {
    if nodes != [] {
      KeepIdsMatch(addresses[1..], nodes[1..], kept);
      assert nodes == [nodes[0]] + nodes[1..];
    }
  }

  lemma {:induction false} KeepEvery(addresses: seq<string>, nodes: seq<NodeId>)
    requires |addresses| == |nodes|
    ensures KeepIds(nodes, NodesOf(nodes)) == nodes && KeepNodes(addresses, nodes, NodesOf(nodes)) == addresses
  {
    KeepAll(addresses, nodes, NodesOf(nodes));
    KeepEveryId(nodes, NodesOf(nodes));
  }

  lemma {:induction false} KeepEveryId(nodes: seq<NodeId>, kept: set<NodeId>)
    requires forall n | n in nodes :: n in kept
    ensures KeepIds(nodes, kept) == nodes
  {
    if nodes != [] {
      KeepEveryId(nodes[1..], kept);
    }
  }

  /** A day of a host can be restored exactly when its composition was recorded and a pin decided it, or nothing had to be
      chosen, or the weights and the offset of that day are known. */
  ghost predicate Restorable(scope: Scope, day: int, dayPins: map<HostId, seq<NodeId>>, host: HostRow) {
    && day in scope.composition && host.id in scope.composition[day]
    && (var payload, settings := scope.composition[day][host.id], SettingsOf(host);
        || (host.id in dayPins && PayloadFromNodes(payload) && exists n :: n in dayPins[host.id] && n in NodeIdsOf(payload))
        || !settings.Narrows() || |payload| <= settings.size
        || (WeightsFor(scope.hashes, scope.userId, scope.snapshots, day, settings.rotationDays) != map[]
            && DayOffsetKnown(scope.rotationAt, day)))
  }

  lemma RestorableIff(scope: Scope, day: int, dayPins: map<HostId, seq<NodeId>>, host: HostRow)
    ensures ReconstructHost(scope, day, dayPins, host).restorable <==> Restorable(scope, day, dayPins, host)
  {
    if day in scope.composition && host.id in scope.composition[day] && host.id in dayPins {
      var nodes := NodeIdsOf(scope.composition[day][host.id]);
      var pinned := (set n | n in dayPins[host.id]) * NodesOf(nodes);
      assert pinned != {} <==> exists n :: n in dayPins[host.id] && n in nodes by {
        if pinned != {} {
          var n := AnElement(pinned);
        }
        if n :| n in dayPins[host.id] && n in nodes {
          assert n in pinned;
        }
      }
    }
  }

  /** An entry is either unknown and empty, or restorable. For a host whose addresses come from nodes it then names
      exactly the nodes whose addresses it lists, and only pinned ones when it says that a pin decided. */
  ghost predicate Consistent(scope: Scope, day: int, dayPins: map<HostId, seq<NodeId>>, host: HostRow, e: HostAssignment) {
    && e.host == host.id && e.remark == host.remark
    && (e.restorable <==> Restorable(scope, day, dayPins, host))
    && (e.restorable <==> e.source != Unknown)
    && (!e.restorable ==> e.nodeIds == [] && e.addresses == [])
    && (e.restorable ==> day in scope.composition && host.id in scope.composition[day])
    && (e.source == FromPin ==> host.id in dayPins && e.nodeIds != [] && forall n | n in e.nodeIds :: n in dayPins[host.id])
    && (e.restorable && PayloadFromNodes(scope.composition[day][host.id]) ==>
          var payload := scope.composition[day][host.id];
          exists kept :: Aligned(e, AddressesOf(payload), NodeIdsOf(payload), kept))
  }

  /** Whatever context rendered the host from the same inputs showed these addresses, shortcut aside. */
  ghost predicate ShowsTheRender(scope: Scope, day: int, dayPins: map<HostId, seq<NodeId>>, host: HostRow, e: HostAssignment) {
    forall c, addresses, nodes, fromNodes | SameInputs(scope, day, dayPins, host, c, addresses, nodes, fromNodes) ::
      e.restorable ==>
        (e.addresses == Pick(c, addresses, nodes, fromNodes, Some(host.id), SettingsOf(host)) <==>
         !ShortcutMissesExhaustion(host, c, addresses, nodes, fromNodes))
  }

  lemma EntryIsConsistent(scope: Scope, day: int, dayPins: map<HostId, seq<NodeId>>, host: HostRow)
    ensures Consistent(scope, day, dayPins, host, ReconstructHost(scope, day, dayPins, host))
    ensures ShowsTheRender(scope, day, dayPins, host, ReconstructHost(scope, day, dayPins, host))
  {
    RestorableIff(scope, day, dayPins, host);
    var kept := EntryNodes(scope, day, dayPins, host);
    forall c, addresses, nodes, fromNodes | SameInputs(scope, day, dayPins, host, c, addresses, nodes, fromNodes)
      ensures var e := ReconstructHost(scope, day, dayPins, host);
              e.restorable ==>
                (e.addresses == Pick(c, addresses, nodes, fromNodes, Some(host.id), SettingsOf(host)) <==>
                 !ShortcutMissesExhaustion(host, c, addresses, nodes, fromNodes))
    {
      JournalAgreesIff(scope, day, dayPins, host, c, addresses, nodes, fromNodes);
    }
  }

  lemma EntryNodes(scope: Scope, day: int, dayPins: map<HostId, seq<NodeId>>, host: HostRow) returns (kept: set<NodeId>)
    ensures var e := ReconstructHost(scope, day, dayPins, host);
            e.source == FromPin ==> host.id in dayPins && e.nodeIds != [] && forall n | n in e.nodeIds :: n in dayPins[host.id]
    ensures var e := ReconstructHost(scope, day, dayPins, host);
            e.restorable && PayloadFromNodes(scope.composition[day][host.id]) ==>
              var payload := scope.composition[day][host.id];
              Aligned(e, AddressesOf(payload), NodeIdsOf(payload), kept)
  {
    kept := {};
    var e := ReconstructHost(scope, day, dayPins, host);
    if e.restorable && PayloadFromNodes(scope.composition[day][host.id]) {
      var payload := scope.composition[day][host.id];
      var nodes, addresses := NodeIdsOf(payload), AddressesOf(payload);
      NodeIdsOfPayload(payload);
      var settings := SettingsOf(host);
      var pinned := if host.id in dayPins then (set n | n in dayPins[host.id]) * NodesOf(nodes) else {};
      if pinned != {} {
        kept := pinned;
        var n := AnElement(pinned);
        KeepIdsMatch(addresses, nodes, kept);
        assert n in KeepIds(nodes, kept);
      } else if !settings.Narrows() || |addresses| <= settings.size {
        kept := NodesOf(nodes);
        KeepEvery(addresses, nodes);
      } else {
        var weights := WeightsFor(scope.hashes, scope.userId, scope.snapshots, day, settings.rotationDays);
        var d := Draw(scope.hashes, scope.userId, EpochFor(scope.hashes, scope.userId, day, settings.rotationDays, scope.offset));
        kept := ChooseNodes(d, nodes, weights, ExhaustedFromSnapshot(weights, scope.nodeLimits, scope.cutoffPercent), settings.size);
      }
      KeepIdsMatch(addresses, nodes, kept);
    }
  }

  // ---- The journal, as the code runs it

  /** The latest of the days up to a day, if there is one. */
  ghost predicate IsLatestUpTo(days: set<int>, day: int, latest: Option<int>) {
    match latest
    case None => forall d | d in days :: d > day
    case Some(found) => IsLatest(days, day, found)
  }

  lemma LatestWithOneMore(days: set<int>, day: int, latest: Option<int>, d: int)
    requires IsLatestUpTo(days, day, latest)
    ensures IsLatestUpTo(days + {d}, day, if d <= day && (latest == None || latest.value < d) then Some(d) else latest)
  {
  }

  method LatestUpTo(days: set<int>, day: int) returns (latest: Option<int>)
    ensures IsLatestUpTo(days, day, latest)
  {
    latest := None;
    var todo := days;
    while todo != {}
      invariant todo <= days && IsLatestUpTo(days - todo, day, latest)
      decreases |todo|
    {
      var d, rest := TakeOne(todo);
      LatestWithOneMore(days - todo, day, latest, d);
      assert days - rest == days - todo + {d};
      if d <= day && (latest == None || latest.value < d) {
        latest := Some(d);
      }
      todo := rest;
    }
    assert days - todo == days;
  }

  /** The nearest snapshot not after the day, and the age check. */
  method FindSnapshot(table: Snapshots, day: int) returns (weights: map<NodeId, real>)
    ensures weights == NearestSnapshot(table, day)
  {
    var latest := LatestUpTo(table.Keys, day);
    weights := if latest == None || day - latest.value > WEIGHT_SNAPSHOT_MAX_AGE_DAYS then map[] else table[latest.value];
  }

  method ReconstructOne(scope: Scope, day: int, dayPins: map<HostId, seq<NodeId>>, host: HostRow) returns (entry: HostAssignment)
    ensures Consistent(scope, day, dayPins, host, entry) && ShowsTheRender(scope, day, dayPins, host, entry)
    ensures entry == ReconstructHost(scope, day, dayPins, host)
  {
    EntryIsConsistent(scope, day, dayPins, host);
    if day !in scope.composition || host.id !in scope.composition[day] {
      return HostAssignment(host.id, host.remark, Unknown, false, [], []);
    }
    var payload := scope.composition[day][host.id];
    var nodes, addresses := NodeIdsOf(payload), AddressesOf(payload);
    var fromNodes := PayloadFromNodes(payload);
    if host.id in dayPins && fromNodes {
      var pinned := (set n | n in dayPins[host.id]) * NodesOf(nodes);
      if pinned != {} {
        return HostAssignment(host.id, host.remark, FromPin, true, KeepIds(nodes, pinned), KeepNodes(addresses, nodes, pinned));
      }
    }
    var settings := SettingsOf(host);
    if !settings.Narrows() || |addresses| <= settings.size {
      return HostAssignment(host.id, host.remark, Auto, true, nodes, addresses);
    }
    var weights := FindSnapshot(scope.snapshots, EpochStartDay(scope.hashes, scope.userId, day, settings.rotationDays));
    if weights == map[] || !DayOffsetKnown(scope.rotationAt, day) {
      return HostAssignment(host.id, host.remark, Unknown, false, [], []);
    }
    var d := Draw(scope.hashes, scope.userId, EpochFor(scope.hashes, scope.userId, day, settings.rotationDays, scope.offset));
    if fromNodes {
      var exhausted := ExhaustedFromSnapshot(weights, scope.nodeLimits, scope.cutoffPercent);
      var chosen := ChooseNodes(d, nodes, weights, exhausted, settings.size);
      entry := HostAssignment(host.id, host.remark, Auto, true, KeepIds(nodes, chosen), KeepNodes(addresses, nodes, chosen));
    } else {
      var chosen := PickKeys(d, StaticCandidates(addresses), settings.size);
      entry := HostAssignment(host.id, host.remark, Auto, true, [], KeepAddresses(addresses, chosen));
    }
  }

  ghost predicate IsJournalOf(scope: Scope, day: int, results: seq<HostAssignment>) {
    && |results| == |scope.hosts|
    && forall i | 0 <= i < |results| :: results[i] == ReconstructHost(scope, day, DayPins(scope, day), scope.hosts[i])
  }

  method ReconstructDay(scope: Scope, day: int) returns (results: seq<HostAssignment>)
    ensures IsJournalOf(scope, day, results)
  {
    var dayPins := PinsOnDay(scope.pins, DayStartAt(day), DayStartAt(day + 1));
    results := [];
    for i := 0 to |scope.hosts|
      invariant |results| == i
      invariant forall k | 0 <= k < i :: results[k] == ReconstructHost(scope, day, DayPins(scope, day), scope.hosts[k])
    {
      var entry := ReconstructOne(scope, day, dayPins, scope.hosts[i]);
      results := results + [entry];
    }
  }

  method ReconstructRange(scope: Scope, firstDay: int, lastDay: int) returns (journal: map<int, seq<HostAssignment>>)
    ensures forall day :: day in journal <==> firstDay <= day <= lastDay
    ensures forall day | day in journal :: IsJournalOf(scope, day, journal[day])
  {
    journal := map[];
    var day := firstDay;
    while day <= lastDay
      invariant firstDay <= day && (firstDay <= lastDay ==> day <= lastDay + 1)
      invariant forall d :: d in journal <==> firstDay <= d < day && d <= lastDay
      invariant forall d | d in journal :: IsJournalOf(scope, d, journal[d])
    {
      var entries := ReconstructDay(scope, day);
      journal := journal[day := entries];
      day := day + 1;
    }
  }
}
