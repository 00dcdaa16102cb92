/** The daily rows per bot and BS node. */
module BotDaily {
  import opened Options
  import opened Sums
  import opened BsLimit

  type BotId = int
  type Day = int

  type BotKey = (BotId, NodeId, Day)

  datatype BotRow = BotRow(usedBytes: int, billable: bool)

  /** One tick of one BS node, as it reaches the daily rows. */
  datatype BotTick = BotTick(node: NodeId, day: Day, deltas: map<UserId, int>, botOf: map<UserId, BotId>, billable: bool)

  ghost function PerBot(t: BotTick): map<BotId, int> {
    Grouped(t.deltas, t.botOf)
  }

  ghost predicate Touches(t: BotTick, k: BotKey) {
    k.1 == t.node && k.2 == t.day && k.0 in PerBot(t)
  }

  /** Insert, or on conflict add the bytes and leave `billable` as it was first written. */
  function WrittenRow(rows: map<BotKey, BotRow>, k: BotKey, bytes: int, billable: bool): BotRow {
    if k in rows then rows[k].(usedBytes := rows[k].usedBytes + bytes) else BotRow(bytes, billable)
  }

  ghost function Upserted(rows: map<BotKey, BotRow>, t: BotTick): (r: map<BotKey, BotRow>)
    ensures forall k :: k in r <==> k in rows || Touches(t, k)
  {
    var touched := set b | b in PerBot(t) :: (b, t.node, t.day);
    assert forall b | b in PerBot(t) :: (b, t.node, t.day) in touched;
    assert forall k | Touches(t, k) :: (k.0, t.node, t.day) in touched && k == (k.0, t.node, t.day);
    map k | k in rows.Keys + touched ::
      if Touches(t, k) then WrittenRow(rows, k, PerBot(t)[k.0], t.billable) else rows[k]
  }

  ghost function DailyRows(ticks: seq<BotTick>): map<BotKey, BotRow> {
    if ticks == [] then map[] else Upserted(DailyRows(ticks[..|ticks| - 1]), ticks[|ticks| - 1])
  }

  ghost function RecordedFor(ticks: seq<BotTick>, k: BotKey): int {
    if ticks == [] then 0
    else
      var last := ticks[|ticks| - 1];
      RecordedFor(ticks[..|ticks| - 1], k) + (if Touches(last, k) then PerBot(last)[k.0] else 0)
  }

  ghost predicate IsFirstTouch(ticks: seq<BotTick>, i: nat, k: BotKey) {
    i < |ticks| && Touches(ticks[i], k) && forall j | 0 <= j < i :: !Touches(ticks[j], k)
  }

  /** A row exists exactly for the keys some tick touched; it holds all that was recorded for it, and its
      classification is that of the first tick that wrote it. */
  lemma {:induction false} DailyRowsAreTheLog(ticks: seq<BotTick>, k: BotKey)
    ensures k in DailyRows(ticks) <==> exists i :: 0 <= i < |ticks| && Touches(ticks[i], k)
    ensures k in DailyRows(ticks) ==> DailyRows(ticks)[k].usedBytes == RecordedFor(ticks, k)
    ensures forall i: nat | IsFirstTouch(ticks, i, k) :: k in DailyRows(ticks) && DailyRows(ticks)[k].billable == ticks[i].billable
    ensures k !in DailyRows(ticks) ==> RecordedFor(ticks, k) == 0
  {
    if ticks != [] {
      var before, n := ticks[..|ticks| - 1], |ticks| - 1;
      DailyRowsAreTheLog(before, k);
      assert forall i | 0 <= i < n :: ticks[i] == before[i];
      forall i: nat | IsFirstTouch(ticks, i, k)
        ensures k in DailyRows(ticks) && DailyRows(ticks)[k].billable == ticks[i].billable
      {
        if i < n {
          assert IsFirstTouch(before, i, k);
        } else {
          assert k !in DailyRows(before);
        }
      }
    }
  }

  ghost function NodeDay(rows: map<BotKey, BotRow>, n: NodeId, d: Day): map<BotId, int> {
    map b | b in (set k | k in rows && k.1 == n && k.2 == d :: k.0) :: rows[(b, n, d)].usedBytes
  }

  /** The part of the traffic of one node and day that belongs to users with a bot. */
  ghost function BotTraffic(ticks: seq<BotTick>, n: NodeId, d: Day): int {
    if ticks == [] then 0
    else
      var last := ticks[|ticks| - 1];
      BotTraffic(ticks[..|ticks| - 1], n, d) +
      (if last.node == n && last.day == d then SumValues(InSomeGroup(last.deltas, last.botOf)) else 0)
  }

  lemma NodeDayHas(rows: map<BotKey, BotRow>, n: NodeId, d: Day, b: BotId)
    ensures b in NodeDay(rows, n, d) <==> (b, n, d) in rows
  {
    if (b, n, d) in rows {
      assert (b, n, d).0 == b;
    }
  }

  lemma NodeDayEntryAfter(rows: map<BotKey, BotRow>, t: BotTick, n: NodeId, d: Day, b: BotId)
    ensures var before, after := NodeDay(rows, n, d), NodeDay(Upserted(rows, t), n, d);
            var added := if t.node == n && t.day == d then PerBot(t) else map[];
            && (b in after <==> b in before || b in added)
            && (b in after ==> after[b] == Lookup(before, b) + Lookup(added, b))
  {
    NodeDayHas(Upserted(rows, t), n, d, b);
    NodeDayHas(rows, n, d, b);
    assert Touches(t, (b, n, d)) <==> t.node == n && t.day == d && b in PerBot(t);
  }

  lemma NodeDayAfter(rows: map<BotKey, BotRow>, t: BotTick, n: NodeId, d: Day)
    ensures NodeDay(Upserted(rows, t), n, d) ==
            Plus(NodeDay(rows, n, d), if t.node == n && t.day == d then PerBot(t) else map[])
  {
    var before, after := NodeDay(rows, n, d), NodeDay(Upserted(rows, t), n, d);
    var added := if t.node == n && t.day == d then PerBot(t) else map[];
    forall b
      ensures b in after <==> b in before || b in added
      ensures b in after ==> after[b] == Lookup(before, b) + Lookup(added, b)
    {
      NodeDayEntryAfter(rows, t, n, d, b);
    }
    IsPlus(before, added, after);
  }

  /** Conservation: the daily rows of a node add up, over all bots, to the recorded traffic of the users
      that have a bot. */
  lemma {:induction false} NodeDayConserves(ticks: seq<BotTick>, n: NodeId, d: Day)
    ensures SumValues(NodeDay(DailyRows(ticks), n, d)) == BotTraffic(ticks, n, d)
  {
    if ticks == [] {
      assert NodeDay(map[], n, d) == map[];
    } else {
      var before, last := ticks[..|ticks| - 1], ticks[|ticks| - 1];
      NodeDayConserves(before, n, d);
      NodeDayAfter(DailyRows(before), last, n, d);
      SumPlus(NodeDay(DailyRows(before), n, d), if last.node == n && last.day == d then PerBot(last) else map[]);
      GroupedSum(last.deltas, last.botOf);
    }
  }

  /** One upsert for all bots of the tick. */
  method UpsertRows(before: map<BotKey, BotRow>, perBot: map<BotId, int>, node: NodeId, day: Day, billable: bool)
    returns (rows: map<BotKey, BotRow>)
    ensures forall k :: k in rows <==> k in before || (k.1 == node && k.2 == day && k.0 in perBot)
    ensures forall k | k in rows ::
              rows[k] == if k.1 == node && k.2 == day && k.0 in perBot
                         then WrittenRow(before, k, perBot[k.0], billable) else before[k]
  {
    rows := before;
    var todo := perBot.Keys;
    while todo != {}
      invariant todo <= perBot.Keys
      invariant forall k :: k in rows <==> k in before || (k.1 == node && k.2 == day && k.0 in perBot.Keys - todo)
      invariant forall k | k in rows ::
                  rows[k] == if k.1 == node && k.2 == day && k.0 in perBot.Keys - todo
                             then WrittenRow(before, k, perBot[k.0], billable) else before[k]
      decreases |todo|
    {
      var bot, rest := TakeOne(todo);
      var key := (bot, node, day);
      rows := rows[key := WrittenRow(rows, key, perBot[bot], billable)];
      todo := rest;
    }
  }

  lemma NothingUpserted(rows: map<BotKey, BotRow>, t: BotTick)
    requires t.deltas == map[]
    ensures Upserted(rows, t) == rows
  {
    assert PerBot(t) == map[];
  }

  /** The rows after one tick. */
  method RecordRows(before: map<BotKey, BotRow>, t: BotTick) returns (rows: map<BotKey, BotRow>)
    ensures rows == Upserted(before, t)
  {
    var perBot := GroupTotals(t.deltas, t.botOf);
    rows := UpsertRows(before, perBot, t.node, t.day, t.billable);
  }
}
