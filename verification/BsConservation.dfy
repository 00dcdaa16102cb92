/** Both tables a tick writes, over whole runs: of all traffic a BS node passed in a month, its counters hold everything and
    its daily rows the part of the users that have a bot. */
module BsConservation {
  import opened Options
  import opened Sums
  import opened BsLimit
  import opened BotDaily
  import opened BsEagerLedger

  /** The month a day lies in. */
  type Calendar = Day -> Month

  datatype Panel = Panel(tables: Tables, daily: map<BotKey, BotRow>)

  /** Every step but a tick; a tick carries what both tables need. */
  type OtherStep = s: Step | !s.RecordTick? witness Review

  datatype PanelStep = Tick(tick: BotTick) | Other(step: OtherStep)

  ghost function Stepped(p: Panel, s: PanelStep): Panel {
    match s
    case Tick(b) =>
      if b.node in p.tables.bsNodes
      then Panel(Record(p.tables, b.node, b.deltas), Upserted(p.daily, b))
      else p
    case Other(step) => p.(tables := LazyStep(p.tables, step))
  }

  ghost function Run(p: Panel, steps: seq<PanelStep>): Panel {
    if steps == [] then p else Stepped(Run(p, steps[..|steps| - 1]), steps[|steps| - 1])
  }

  /** The day a tick is booked on lies in the month it is counted in: the clock is read once. */
  ghost predicate Timely(calendar: Calendar, p: Panel, steps: seq<PanelStep>) {
    steps == [] ||
    (var before, last := steps[..|steps| - 1], steps[|steps| - 1];
     Timely(calendar, p, before) && (last.Tick? ==> calendar(last.tick.day) == Run(p, before).tables.month))
  }

  // ---- The same run of the ledger alone

  function LedgerStep(s: PanelStep): Step {
    match s
    case Tick(b) => RecordTick(b.node, b.deltas)
    case Other(step) => step
  }

  function LedgerSteps(steps: seq<PanelStep>): seq<Step> {
    if steps == [] then [] else LedgerSteps(steps[..|steps| - 1]) + [LedgerStep(steps[|steps| - 1])]
  }

  lemma {:induction false} LazyRunLast(t: Tables, steps: seq<Step>, last: Step)
    ensures LazyRun(t, steps + [last]) == LazyStep(LazyRun(t, steps), last)
    decreases |steps|
  {
    if steps == [] {
      assert ([] + [last])[1..] == [];
    } else {
      assert (steps + [last])[1..] == steps[1..] + [last];
      LazyRunLast(LazyStep(t, steps[0]), steps[1..], last);
    }
  }

  /** The daily rows do not influence the ledger: all that is proved of its runs holds here. */
  lemma {:induction false} PanelRunIsLedgerRun(p: Panel, steps: seq<PanelStep>)
    ensures Run(p, steps).tables == LazyRun(p.tables, LedgerSteps(steps))
  {
    if steps != [] {
      PanelRunIsLedgerRun(p, steps[..|steps| - 1]);
      LazyRunLast(p.tables, LedgerSteps(steps[..|steps| - 1]), LedgerStep(steps[|steps| - 1]));
    }
  }

  // ---- The counters of one node

  /** The counters of one node in the current month, user by user. */
  ghost function NodeCounters(t: Tables, n: NodeId): map<UserId, int> {
    map u | u in (set k | k in t.rows && k.0 == n && t.rows[k].period == t.month :: k.1) :: CurrentCounter(t, (n, u))
  }

  lemma NodeCountersHas(t: Tables, n: NodeId, u: UserId)
    ensures u in NodeCounters(t, n) <==> (n, u) in t.rows && t.rows[(n, u)].period == t.month
    ensures Lookup(NodeCounters(t, n), u) == CurrentCounter(t, (n, u))
  {
    if (n, u) in t.rows {
      assert (n, u).1 == u;
    }
  }

  lemma NodeCountersAfter(t: Tables, node: NodeId, deltas: map<UserId, int>, n: NodeId)
    ensures NodeCounters(Record(t, node, deltas), n) == Plus(NodeCounters(t, n), if node == n then deltas else map[])
  {
    var t' := Record(t, node, deltas);
    var before, after, added := NodeCounters(t, n), NodeCounters(t', n), if node == n then deltas else map[];
    forall u
      ensures u in after <==> u in before || u in added
      ensures u in after ==> after[u] == Lookup(before, u) + Lookup(added, u)
    {
      NodeCountersHas(t, n, u);
      NodeCountersHas(t', n, u);
    }
    IsPlus(before, added, after);
  }

  /** Only ticks touch the counters, and only a month change moves the clock. */
  lemma StepFrame(t: Tables, s: Step)
    ensures var t' := LazyStep(t, s);
            && t'.bsNodes == t.bsNodes
            && t'.month == t.month + (if s.NextMonth? then 1 else 0)
            && (!s.RecordTick? ==> t'.rows == t.rows)
  {
  }

  lemma NodeCountersStay(t: Tables, t': Tables, n: NodeId)
    requires t'.rows == t.rows && t'.month == t.month
    ensures NodeCounters(t', n) == NodeCounters(t, n)
  {
    forall u
      ensures u in NodeCounters(t', n) <==> u in NodeCounters(t, n)
      ensures u in NodeCounters(t', n) ==> NodeCounters(t', n)[u] == NodeCounters(t, n)[u]
    {
      NodeCountersHas(t, n, u);
      NodeCountersHas(t', n, u);
    }
  }

  lemma NodeCountersReset(t: Tables, t': Tables, n: NodeId)
    requires Inv(t) && t'.rows == t.rows && t'.month == t.month + 1
    ensures NodeCounters(t', n) == map[]
  {
  }

  // ---- The daily rows of one node

  /** The daily rows of one node for the days of one month. */
  ghost function MonthRows(calendar: Calendar, daily: map<BotKey, BotRow>, n: NodeId, month: Month): map<BotKey, int> {
    map k | k in daily && k.1 == n && calendar(k.2) == month :: daily[k].usedBytes
  }

  ghost function TickRows(b: BotTick): (r: map<BotKey, int>)
    ensures forall k :: k in r <==> Touches(b, k)
  {
    var touched := set bot | bot in PerBot(b) :: (bot, b.node, b.day);
    assert forall bot | bot in PerBot(b) :: (bot, b.node, b.day) in touched;
    assert forall k | Touches(b, k) :: (k.0, b.node, b.day) in touched && k == (k.0, b.node, b.day);
    map k | k in touched :: PerBot(b)[k.0]
  }

  /** Totals do not change when every key gets the same node and day. */
  lemma {:induction false} SumRekeyed(m: map<BotId, int>, r: map<BotKey, int>, node: NodeId, day: Day)
    requires forall k :: k in r <==> k.1 == node && k.2 == day && k.0 in m
    requires forall k | k in r :: r[k] == m[k.0]
    ensures SumValues(r) == SumValues(m)
    decreases |m|
  {
    if m == map[] {
      assert r == map[];
    } else {
      var bot, rest := AKey(m);
      var key := (bot, node, day);
      assert key in r;
      SumAt(r, key);
      SumRekeyed(rest, r - {key}, node, day);
    }
  }

  lemma TickRowsTotal(b: BotTick)
    ensures SumValues(TickRows(b)) == SumValues(InSomeGroup(b.deltas, b.botOf))
  {
    SumRekeyed(PerBot(b), TickRows(b), b.node, b.day);
    GroupedSum(b.deltas, b.botOf);
  }

  lemma MonthRowsAfter(calendar: Calendar, daily: map<BotKey, BotRow>, b: BotTick, n: NodeId, month: Month)
    ensures MonthRows(calendar, Upserted(daily, b), n, month) ==
            Plus(MonthRows(calendar, daily, n, month), if b.node == n && calendar(b.day) == month then TickRows(b) else map[])
  {
    var before, after := MonthRows(calendar, daily, n, month), MonthRows(calendar, Upserted(daily, b), n, month);
    var added := if b.node == n && calendar(b.day) == month then TickRows(b) else map[];
    IsPlus(before, added, after);
  }

  /** No row is booked on a day of a later month. */
  ghost predicate Past(calendar: Calendar, p: Panel) {
    forall k | k in p.daily :: calendar(k.2) <= p.tables.month
  }

  // ---- What was recorded since the month began

  ghost function NodeTraffic(steps: seq<PanelStep>, n: NodeId): int {
    if steps == [] then 0
    else
      var before := NodeTraffic(steps[..|steps| - 1], n);
      match steps[|steps| - 1]
      case Tick(b) => before + (if b.node == n then SumValues(b.deltas) else 0)
      case Other(step) => if step.NextMonth? then 0 else before
  }

  /** The part of it that belongs to users with a bot, and the part that does not. */
  ghost function BotShare(steps: seq<PanelStep>, n: NodeId): int {
    if steps == [] then 0
    else
      var before := BotShare(steps[..|steps| - 1], n);
      match steps[|steps| - 1]
      case Tick(b) => before + (if b.node == n then SumValues(InSomeGroup(b.deltas, b.botOf)) else 0)
      case Other(step) => if step.NextMonth? then 0 else before
  }

  ghost function FreeShare(steps: seq<PanelStep>, n: NodeId): int {
    if steps == [] then 0
    else
      var before := FreeShare(steps[..|steps| - 1], n);
      match steps[|steps| - 1]
      case Tick(b) => before + (if b.node == n then SumValues(OutsideGroups(b.deltas, b.botOf)) else 0)
      case Other(step) => if step.NextMonth? then 0 else before
  }

  predicate Crosses(steps: seq<PanelStep>) {
    exists i :: 0 <= i < |steps| && steps[i] == Other(NextMonth)
  }

  lemma CrossesLast(steps: seq<PanelStep>)
    requires steps != []
    ensures Crosses(steps) <==> Crosses(steps[..|steps| - 1]) || steps[|steps| - 1] == Other(NextMonth)
  {
    var n := |steps| - 1;
    assert forall i | 0 <= i < n :: steps[i] == steps[..n][i];
    if Crosses(steps[..n]) {
      var i :| 0 <= i < n && steps[..n][i] == Other(NextMonth);
      assert steps[i] == Other(NextMonth);
    }
  }

  /** The two totals of a node in the current month. */
  ghost function Counted(p: Panel, n: NodeId): int {
    SumValues(NodeCounters(p.tables, n))
  }

  ghost function Booked(calendar: Calendar, p: Panel, n: NodeId): int {
    SumValues(MonthRows(calendar, p.daily, n, p.tables.month))
  }

  lemma TickMoves(calendar: Calendar, p: Panel, b: BotTick, n: NodeId)
    requires n in p.tables.bsNodes && calendar(b.day) == p.tables.month
    ensures var p' := Stepped(p, Tick(b));
            && Counted(p', n) == Counted(p, n) + (if b.node == n then SumValues(b.deltas) else 0)
            && Booked(calendar, p', n) == Booked(calendar, p, n) + (if b.node == n then SumValues(InSomeGroup(b.deltas, b.botOf)) else 0)
  {
    if b.node in p.tables.bsNodes {
      var added, rows := if b.node == n then b.deltas else map[], if b.node == n then TickRows(b) else map[];
      NodeCountersAfter(p.tables, b.node, b.deltas, n);
      SumPlus(NodeCounters(p.tables, n), added);
      MonthRowsAfter(calendar, p.daily, b, n, p.tables.month);
      SumPlus(MonthRows(calendar, p.daily, n, p.tables.month), rows);
      TickRowsTotal(b);
    }
  }

  lemma OtherKeeps(calendar: Calendar, p: Panel, p': Panel, nextMonth: bool, n: NodeId)
    requires Inv(p.tables) && Past(calendar, p)
    requires p'.tables.rows == p.tables.rows && p'.daily == p.daily
    requires p'.tables.month == p.tables.month + (if nextMonth then 1 else 0)
    ensures Counted(p', n) == (if nextMonth then 0 else Counted(p, n))
    ensures Booked(calendar, p', n) == (if nextMonth then 0 else Booked(calendar, p, n))
  {
    if nextMonth {
      NodeCountersReset(p.tables, p'.tables, n);
      assert MonthRows(calendar, p.daily, n, p'.tables.month) == map[];
    } else {
      NodeCountersStay(p.tables, p'.tables, n);
    }
  }

  lemma StepKeepsPast(calendar: Calendar, p: Panel, s: PanelStep)
    requires Past(calendar, p) && (s.Tick? ==> calendar(s.tick.day) == p.tables.month)
    ensures var p' := Stepped(p, s); Past(calendar, p') && p'.tables.bsNodes == p.tables.bsNodes
  {
    StepFrame(p.tables, LedgerStep(s));
  }

  lemma {:induction false} PanelInvariant(calendar: Calendar, p: Panel, steps: seq<PanelStep>)
    requires Inv(p.tables) && Past(calendar, p) && Timely(calendar, p, steps)
    ensures Inv(Run(p, steps).tables) && Past(calendar, Run(p, steps))
    ensures Run(p, steps).tables.bsNodes == p.tables.bsNodes
  {
    if steps != [] {
      var before, last := steps[..|steps| - 1], steps[|steps| - 1];
      PanelInvariant(calendar, p, before);
      InvStep(Run(p, before).tables, LedgerStep(last));
      StepKeepsPast(calendar, Run(p, before), last);
    }
  }

  /** Conservation over every run: since the month began, the counters of a BS node took in all that was recorded on it, and
      its daily rows the part of it that belongs to users with a bot. */
  lemma {:induction false} NodeMonthConserves(calendar: Calendar, p: Panel, steps: seq<PanelStep>, n: NodeId)
    requires Inv(p.tables) && Past(calendar, p) && Timely(calendar, p, steps) && n in p.tables.bsNodes
    ensures var q := Run(p, steps);
            && Counted(q, n) == NodeTraffic(steps, n) + (if Crosses(steps) then 0 else Counted(p, n))
            && Booked(calendar, q, n) == BotShare(steps, n) + (if Crosses(steps) then 0 else Booked(calendar, p, n))
  {
    if steps != [] {
      var before, last := steps[..|steps| - 1], steps[|steps| - 1];
      NodeMonthConserves(calendar, p, before, n);
      PanelInvariant(calendar, p, before);
      CrossesLast(steps);
      match last
      case Tick(b) => TickMoves(calendar, Run(p, before), b, n);
      case Other(s) =>
        StepFrame(Run(p, before).tables, s);
        OtherKeeps(calendar, Run(p, before), Run(p, steps), s.NextMonth?, n);
    }
  }

  lemma {:induction false} TrafficSplits(steps: seq<PanelStep>, n: NodeId)
    ensures NodeTraffic(steps, n) == BotShare(steps, n) + FreeShare(steps, n)
  {
    if steps != [] {
      TrafficSplits(steps[..|steps| - 1], n);
      match steps[|steps| - 1]
      case Tick(b) => SumSplits(b.deltas, b.botOf);
      case Other(_) =>
    }
  }

  /** From an empty panel, in every reachable state: what a node counted this month is what its daily rows hold plus the
      traffic of users without a bot. Neither table loses or doubles a byte of the other. */
  lemma TablesAgree(calendar: Calendar, p: Panel, steps: seq<PanelStep>, n: NodeId)
    requires p.tables.rows == map[] && p.daily == map[] && Inv(p.tables)
    requires Timely(calendar, p, steps) && n in p.tables.bsNodes
    ensures var q := Run(p, steps);
            && Counted(q, n) == NodeTraffic(steps, n)
            && Booked(calendar, q, n) == BotShare(steps, n)
            && Counted(q, n) == Booked(calendar, q, n) + FreeShare(steps, n)
  {
    NothingYet(calendar, p, n);
    TrafficSplits(steps, n);
    NodeMonthConserves(calendar, p, steps, n);
  }

  lemma NothingYet(calendar: Calendar, p: Panel, n: NodeId)
    requires p.tables.rows == map[] && p.daily == map[]
    ensures Past(calendar, p) && Counted(p, n) == 0 && Booked(calendar, p, n) == 0
  {
    assert NodeCounters(p.tables, n) == map[];
    assert MonthRows(calendar, p.daily, n, p.tables.month) == map[];
  }
}
