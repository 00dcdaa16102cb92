/** The ledger the lazy one stands for: every active user is settled at every month end, and the counters
    of a month start empty. The theorems say that what the lazy tables report is this ledger, in every
    state of every run. */
module BsEagerLedger {
  import opened Options
  import opened Sums
  import opened BsLimit

  /** `active` users are those whose pool has a period: only they are charged for the base limit. */
  datatype Eager = Eager(
    bsNodes: set<NodeId>,
    limit: nat,
    month: Month,
    used: map<Key, int>,
    pool: map<UserId, int>,
    active: set<UserId>)

  datatype Step =
    | RecordTick(node: NodeId, deltas: map<UserId, int>)
    | Buy(user: UserId, delta: int)
    | AssignAmount(user: UserId, amount: int)
    | AssignTotal(user: UserId, total: int)
    | ResetPool(user: UserId)
    | Review
    | NextMonth

  // ---- The lazy ledger, as the code steps it

  ghost function LazyStep(t: Tables, s: Step): Tables {
    match s
    case RecordTick(n, d) => if n in t.bsNodes then Record(t, n, d) else t
    case Buy(u, d) => Purchase(t, u, d)
    case AssignAmount(u, a) => SetAmount(t, u, a).0
    case AssignTotal(u, a) => SetTotal(t, u, a).0
    case ResetPool(u) => WritePool(t, u, 0)
    case Review => Reviewed(t)
    case NextMonth => t.(month := t.month + 1)
  }

  ghost function LazyRun(t: Tables, steps: seq<Step>): Tables
    decreases |steps|
  {
    if steps == [] then t else LazyRun(LazyStep(t, steps[0]), steps[1..])
  }

  // ---- The eager ledger

  ghost function UserUsed(used: map<Key, int>, u: UserId): int {
    SumValues(map k | k in used && k.1 == u :: used[k])
  }

  ghost function Settle(e: Eager): Eager {
    e.(month := e.month + 1,
       used := map[],
       pool := map u | u in e.pool ::
         if u in e.active && e.limit > 0
         then Max(0, e.pool[u] - Max(0, UserUsed(e.used, u) - e.limit))
         else e.pool[u])
  }

  function SetPool(e: Eager, u: UserId, pool: int): Eager {
    if u in e.pool then e.(pool := e.pool[u := pool], active := e.active + {u}) else e
  }

  ghost function EagerStep(e: Eager, s: Step): Eager {
    match s
    case RecordTick(n, d) =>
      if n !in e.bsNodes then e
      else e.(used := map k | k in e.used.Keys + TickKeys(n, d.Keys) ::
                Lookup(e.used, k) + (if k.0 == n then Lookup(d, k.1) else 0))
    case Buy(u, d) => SetPool(e, u, Lookup(e.pool, u) + d)
    case AssignAmount(u, a) =>
      if e.limit == 0 && a != 0 then e else SetPool(e, u, Max(0, a))
    case AssignTotal(u, a) =>
      if (e.limit == 0 && a != 0) || a < e.limit then e else SetPool(e, u, a - e.limit)
    case ResetPool(u) => SetPool(e, u, 0)
    case Review => e
    case NextMonth => Settle(e)
  }

  ghost function EagerRun(e: Eager, steps: seq<Step>): Eager
    decreases |steps|
  {
    if steps == [] then e else EagerRun(EagerStep(e, steps[0]), steps[1..])
  }

  // ---- What a reader of the lazy tables sees

  function MonthCounters(t: Tables): map<Key, int> {
    map k | k in t.rows && k.0 in t.bsNodes && t.rows[k].period == t.month :: t.rows[k].used
  }

  ghost function Pools(t: Tables): map<UserId, int> {
    map u | u in t.users :: NormalizedPool(t, u)
  }

  function ActiveUsers(t: Tables): set<UserId> {
    set u | u in t.users && t.users[u].period.Some?
  }

  ghost function Observed(t: Tables): Eager {
    Eager(t.bsNodes, t.limit, t.month, MonthCounters(t), Pools(t), ActiveUsers(t))
  }

  /** No counter is newer than the current month, and none of a user's counters is newer than the month
      the user's pool was last brought to. */
  ghost predicate Inv(t: Tables) {
    && (forall k | k in t.rows :: t.rows[k].period <= t.month)
    && (forall u | u in t.users && t.users[u].period.Some? :: t.users[u].period.value <= t.month)
    && (forall k | k in t.rows && k.0 in t.bsNodes && k.1 in t.users && t.users[k.1].period.Some? ::
          t.rows[k].period <= t.users[k.1].period.value)
  }

  lemma InvNormalize(t: Tables, us: set<UserId>)
    requires Inv(t)
    ensures Inv(Normalize(t, us))
  {
  }

  lemma InvWritePool(t: Tables, u: UserId, pool: int)
    requires Inv(t)
    ensures Inv(WritePool(t, u, pool))
  {
  }

  /** A tick makes counters of the current month, of users whose pools it has just brought there. */
  lemma InvRecord(t: Tables, node: NodeId, deltas: map<UserId, int>)
    requires Inv(t)
    ensures Inv(Record(t, node, deltas))
  {
    InvNormalize(t, deltas.Keys);
  }

  /** A setting brings the pool to the month and then overwrites it. */
  lemma InvAssign(t: Tables, u: UserId, pool: int)
    requires Inv(t)
    ensures Inv(Normalize(t, {u})) && Inv(WritePool(Normalize(t, {u}), u, pool)) && Inv(WritePool(t, u, 0))
  {
    InvNormalize(t, {u});
    InvWritePool(Normalize(t, {u}), u, pool);
    InvWritePool(t, u, 0);
  }

  lemma InvStep(t: Tables, s: Step)
    requires Inv(t)
    ensures Inv(LazyStep(t, s))
  {
    match s {
      case RecordTick(n, d) => InvRecord(t, n, d);
      case Buy(u, d) => InvAssign(t, u, NormalizedPool(t, u) + d);
      case AssignAmount(u, a) => InvAssign(t, u, Max(0, a));
      case AssignTotal(u, a) => InvAssign(t, u, a - t.limit);
      case ResetPool(u) => InvWritePool(t, u, 0);
      case Review =>
      case NextMonth =>
    }
  }

  lemma {:induction false} InvRun(t: Tables, steps: seq<Step>)
    requires Inv(t)
    ensures Inv(LazyRun(t, steps))
    decreases |steps|
  {
    if steps != [] {
      InvStep(t, steps[0]);
      InvRun(LazyStep(t, steps[0]), steps[1..]);
    }
  }

  /** The stale window of a user never holds two months: all of it belongs to the month of the pool. */
  lemma StaleWindowIsOneMonth(t: Tables, steps: seq<Step>, k: Key)
    requires Inv(t)
    ensures var t' := LazyRun(t, steps);
            Lags(t', k.1) && k in StaleKeys(t', k.1, t'.users[k.1].period.value) ==>
            t'.rows[k].period == t'.users[k.1].period.value
  {
    InvRun(t, steps);
  }

  // ---- One step

  lemma MonthUsageIsObserved(t: Tables, u: UserId)
    ensures MonthUsage(t, u) == UserUsed(Observed(t).used, u)
  {
    var used := Observed(t).used;
    assert (map k | k in MonthKeys(t, u) && k in t.rows :: t.rows[k].used) == (map k | k in used && k.1 == u :: used[k]);
  }

  /** A month end charges exactly what the eager settlement charges, however late the write comes. */
  lemma NextMonthPool(t: Tables, u: UserId)
    requires Inv(t) && u in t.users
    ensures NormalizedPool(t.(month := t.month + 1), u) == Settle(Observed(t)).pool[u]
  {
    var next := t.(month := t.month + 1);
    MonthUsageIsObserved(t, u);
    if t.users[u].period.Some? {
      var since := t.users[u].period.value;
      if since == t.month {
        assert StaleKeys(next, u, since) == MonthKeys(t, u);
      } else {
        assert StaleKeys(next, u, since) == StaleKeys(t, u, since);
        assert MonthKeys(t, u) == {};
        UsageOfNone(t.rows);
      }
    }
  }

  /** Two tables with the same pool row and the same stale counters report the same pool. */
  lemma SamePool(t: Tables, t': Tables, u: UserId)
    requires t'.limit == t.limit && t'.month == t.month
    requires u in t.users && u in t'.users && t.users[u] == t'.users[u]
    requires Lags(t, u) ==>
               var since := t.users[u].period.value;
               && StaleKeys(t, u, since) == StaleKeys(t', u, since)
               && forall k | k in StaleKeys(t, u, since) :: t.rows[k] == t'.rows[k]
    ensures NormalizedPool(t, u) == NormalizedPool(t', u)
  {
    if Lags(t, u) {
      UsageFrame(t.rows, t'.rows, StaleKeys(t, u, t.users[u].period.value));
    }
  }

  /** Bringing pools to the current month early is invisible. */
  lemma NormalizeIsInvisible(t: Tables, us: set<UserId>)
    ensures Observed(Normalize(t, us)) == Observed(t)
  {
    var t' := Normalize(t, us);
    forall u | u in t.users
      ensures NormalizedPool(t', u) == NormalizedPool(t, u)
    {
      if Lags(t', u) {
        SamePool(t, t', u);
      }
    }
    assert Pools(t') == Pools(t);
    assert ActiveUsers(t') == ActiveUsers(t);
    assert MonthCounters(t') == MonthCounters(t);
  }

  lemma WritePoolIsObserved(t: Tables, u: UserId, pool: int)
    ensures Observed(WritePool(t, u, pool)) == SetPool(Observed(t), u, pool)
  {
    var t' := WritePool(t, u, pool);
    if u in t.users {
      forall v | v in t.users && v != u
        ensures NormalizedPool(t', v) == NormalizedPool(t, v)
      {
        SamePool(t, t', v);
      }
      assert Pools(t') == Pools(t)[u := pool];
      assert ActiveUsers(t') == ActiveUsers(t) + {u};
      assert MonthCounters(t') == MonthCounters(t);
    }
  }

  /** Counting touches no stale counter that a pool still depends on: the tick brought those pools
      to the current month first. */
  lemma CountingKeepsPools(t: Tables, node: NodeId, deltas: map<UserId, int>)
    ensures Pools(Record(t, node, deltas)) == Pools(Normalize(t, deltas.Keys))
  {
    var mid := Normalize(t, deltas.Keys);
    var t' := Record(t, node, deltas);
    forall u | u in t.users
      ensures NormalizedPool(mid, u) == NormalizedPool(t', u)
    {
      if Lags(mid, u) {
        assert u !in deltas;
        assert StaleKeys(mid, u, mid.users[u].period.value) == StaleKeys(t', u, mid.users[u].period.value);
        SamePool(mid, t', u);
      }
    }
  }

  lemma CountingIsObserved(t: Tables, node: NodeId, deltas: map<UserId, int>)
    requires node in t.bsNodes
    ensures MonthCounters(Record(t, node, deltas)) == EagerStep(Observed(t), RecordTick(node, deltas)).used
  {
    var used := MonthCounters(Record(t, node, deltas));
    var used' := EagerStep(Observed(t), RecordTick(node, deltas)).used;
    assert used.Keys == used'.Keys;
    assert forall k | k in used :: used[k] == used'[k];
  }

  lemma RecordIsObserved(t: Tables, node: NodeId, deltas: map<UserId, int>)
    requires node in t.bsNodes
    ensures Observed(Record(t, node, deltas)) == EagerStep(Observed(t), RecordTick(node, deltas))
  {
    NormalizeIsInvisible(t, deltas.Keys);
    CountingKeepsPools(t, node, deltas);
    CountingIsObserved(t, node, deltas);
    assert ActiveUsers(Record(t, node, deltas)) == ActiveUsers(Normalize(t, deltas.Keys));
  }

  lemma ReviewIsInvisible(t: Tables)
    ensures Observed(Reviewed(t)) == Observed(t)
  {
    var t' := Reviewed(t);
    forall u | u in t.users
      ensures NormalizedPool(t', u) == NormalizedPool(t, u)
    {
      SamePool(t, t', u);
    }
    assert Pools(t') == Pools(t);
  }

  /** The setters first normalise and then write; with no panel limit they write directly. */
  lemma AssignmentIsObserved(t: Tables, u: UserId, pool: int)
    ensures Observed(Normalize(t, {u})) == Observed(t)
    ensures Observed(WritePool(Normalize(t, {u}), u, pool)) == SetPool(Observed(t), u, pool)
    ensures Observed(WritePool(t, u, 0)) == SetPool(Observed(t), u, 0)
  {
    NormalizeIsInvisible(t, {u});
    WritePoolIsObserved(Normalize(t, {u}), u, pool);
    WritePoolIsObserved(t, u, 0);
  }

  lemma NextMonthPools(t: Tables)
    requires Inv(t)
    ensures Pools(t.(month := t.month + 1)) == Settle(Observed(t)).pool
  {
    forall u | u in t.users
      ensures NormalizedPool(t.(month := t.month + 1), u) == Settle(Observed(t)).pool[u]
    {
      NextMonthPool(t, u);
    }
  }

  lemma NextMonthIsObserved(t: Tables)
    requires Inv(t)
    ensures Observed(LazyStep(t, NextMonth)) == Settle(Observed(t))
  {
    NextMonthPools(t);
    NothingCountedYet(t);
  }

  lemma NothingCountedYet(t: Tables)
    requires Inv(t)
    ensures MonthCounters(t.(month := t.month + 1)) == map[]
    ensures ActiveUsers(t.(month := t.month + 1)) == ActiveUsers(t)
  {
  }

  lemma BuyRefines(t: Tables, u: UserId, delta: int)
    ensures Observed(Purchase(t, u, delta)) == EagerStep(Observed(t), Buy(u, delta))
  {
    var bought := NormalizedPool(t, u) + delta;
    AssignmentIsObserved(t, u, bought);
    if u in t.users {
      assert Lookup(Observed(t).pool, u) + delta == bought;
    }
    assert Purchase(t, u, delta) == WritePool(Normalize(t, {u}), u, bought);
  }

  lemma AmountRefines(t: Tables, u: UserId, amount: int)
    ensures Observed(SetAmount(t, u, amount).0) == EagerStep(Observed(t), AssignAmount(u, amount))
  {
    AssignmentIsObserved(t, u, Max(0, amount));
  }

  lemma TotalRefines(t: Tables, u: UserId, total: int)
    ensures Observed(SetTotal(t, u, total).0) == EagerStep(Observed(t), AssignTotal(u, total))
  {
    AssignmentIsObserved(t, u, total - t.limit);
    if t.limit > 0 && total >= t.limit {
      assert SetTotal(t, u, total).0 == WritePool(Normalize(t, {u}), u, total - t.limit);
    }
  }

  lemma StepRefines(t: Tables, s: Step)
    requires Inv(t)
    ensures Observed(LazyStep(t, s)) == EagerStep(Observed(t), s)
  {
    match s {
      case RecordTick(n, d) =>
        if n in t.bsNodes {
          RecordIsObserved(t, n, d);
        }
      case Buy(u, d) => BuyRefines(t, u, d);
      case AssignAmount(u, a) => AmountRefines(t, u, a);
      case AssignTotal(u, a) => TotalRefines(t, u, a);
      case ResetPool(u) => WritePoolIsObserved(t, u, 0);
      case Review => ReviewIsInvisible(t);
      case NextMonth => NextMonthIsObserved(t);
    }
  }

  // ---- Whole runs

  /** The lazy ledger refines the eager one: whatever ticks, purchases, settings, resets, reviews and idle
      months are interleaved, the reported pools and the counters of the month are those of the ledger
      that settles everyone at each month end. */
  lemma {:induction false} LazyRefinesEager(t: Tables, steps: seq<Step>)
    requires Inv(t)
    ensures Observed(LazyRun(t, steps)) == EagerRun(Observed(t), steps)
    decreases |steps|
  {
    if steps != [] {
      StepRefines(t, steps[0]);
      InvStep(t, steps[0]);
      LazyRefinesEager(LazyStep(t, steps[0]), steps[1..]);
    }
  }

  /** From a panel without counters, in every reachable state: the pool that is read is the eagerly settled one, and the
      usage that is read is the traffic of the month. */
  lemma ReportedPoolIsEager(bsNodes: set<NodeId>, limit: nat, month: Month, users: map<UserId, UserRow>, steps: seq<Step>, u: UserId)
    requires forall v | v in users :: users[v].period.Some? ==> users[v].period.value <= month
    requires u in LazyRun(Tables(bsNodes, limit, month, map[], users, {}), steps).users
    ensures var start := Tables(bsNodes, limit, month, map[], users, {});
            var e := EagerRun(Observed(start), steps);
            && u in e.pool && NormalizedPool(LazyRun(start, steps), u) == e.pool[u]
            && MonthUsage(LazyRun(start, steps), u) == UserUsed(e.used, u)
  {
    var start := Tables(bsNodes, limit, month, map[], users, {});
    LazyRefinesEager(start, steps);
    MonthUsageIsObserved(LazyRun(start, steps), u);
    assert u in Observed(LazyRun(start, steps)).pool;
  }

  /** What one user passed through one node since the last month change of a run. */
  function RecordedThisMonth(steps: seq<Step>, k: Key): int
    decreases |steps|
  {
    if steps == [] then 0
    else
      var last := steps[|steps| - 1];
      match last
      case NextMonth => 0
      case RecordTick(n, d) => RecordedThisMonth(steps[..|steps| - 1], k) + (if k.0 == n then Lookup(d, k.1) else 0)
      case _ => RecordedThisMonth(steps[..|steps| - 1], k)
  }

  predicate CrossesMonth(steps: seq<Step>) {
    exists i :: 0 <= i < |steps| && steps[i].NextMonth?
  }

  lemma {:induction false} EagerRunLast(e: Eager, steps: seq<Step>)
    requires steps != []
    ensures EagerRun(e, steps) == EagerStep(EagerRun(e, steps[..|steps| - 1]), steps[|steps| - 1])
    decreases |steps|
  {
    if |steps| == 1 {
      assert EagerRun(EagerStep(e, steps[0]), steps[1..]) == EagerStep(e, steps[0]);
    } else {
      EagerRunLast(EagerStep(e, steps[0]), steps[1..]);
      assert steps[1..][..|steps| - 2] == steps[..|steps| - 1][1..];
    }
  }

  lemma CrossesMonthLast(steps: seq<Step>)
    requires steps != []
    ensures CrossesMonth(steps) <==> CrossesMonth(steps[..|steps| - 1]) || steps[|steps| - 1].NextMonth?
  {
    var before := steps[..|steps| - 1];
    if i :| 0 <= i < |steps| && steps[i].NextMonth? {
      assert i < |before| ==> before[i].NextMonth?;
    }
    if i :| 0 <= i < |before| && before[i].NextMonth? {
      assert steps[i].NextMonth?;
    }
  }

  lemma EagerCounterStep(e: Eager, s: Step, k: Key)
    requires k.0 in e.bsNodes
    ensures EagerStep(e, s).bsNodes == e.bsNodes
    ensures Lookup(EagerStep(e, s).used, k) ==
            match s
            case NextMonth => 0
            case RecordTick(n, d) => Lookup(e.used, k) + (if k.0 == n then Lookup(d, k.1) else 0)
            case _ => Lookup(e.used, k)
  {
  }

  lemma {:induction false} EagerCounters(e: Eager, steps: seq<Step>, k: Key)
    requires k.0 in e.bsNodes
    ensures EagerRun(e, steps).bsNodes == e.bsNodes
    ensures Lookup(EagerRun(e, steps).used, k) ==
            RecordedThisMonth(steps, k) + (if CrossesMonth(steps) then 0 else Lookup(e.used, k))
    decreases |steps|
  {
    if steps != [] {
      var before := steps[..|steps| - 1];
      EagerRunLast(e, steps);
      EagerCounters(e, before, k);
      EagerCounterStep(EagerRun(e, before), steps[|steps| - 1], k);
      CrossesMonthLast(steps);
    }
  }

  /** Conservation: a BS counter is all that was recorded for it since the month began. */
  lemma CountersConserveTraffic(t: Tables, steps: seq<Step>, k: Key)
    requires Inv(t) && k.0 in t.bsNodes
    ensures CurrentCounter(LazyRun(t, steps), k) ==
            RecordedThisMonth(steps, k) + (if CrossesMonth(steps) then 0 else CurrentCounter(t, k))
  {
    LazyRefinesEager(t, steps);
    EagerCounters(Observed(t), steps, k);
  }
}
