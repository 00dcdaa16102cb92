/** The traffic ledger of the BS nodes: per (node, user) monthly counters that are reset lazily, a purchased
    pool per user that is carried over lazily, and the table of blocks derived from both.

    This file holds the pure rules of app/xray/bs_limit.py and, on plain values, what each operation does to
    the tables. BsLedger.dfy runs the operations step by step against these functions.

    A month is a number; PeriodKeys.dfy shows that "YYYY-MM" keys are ordered the same way. */
module BsLimit {
  import opened Options
  import opened Sums

  type NodeId = int
  type UserId = int
  type Month = int
  type Key = (NodeId, UserId)

  datatype Counter = Counter(used: int, period: Month)

  datatype UserRow = UserRow(extra: Option<int>, period: Option<Month>)

  datatype Tables = Tables(
    bsNodes: set<NodeId>,
    limit: nat,
    month: Month,
    rows: map<Key, Counter>,
    users: map<UserId, UserRow>,
    blocks: set<Key>)

  // ---- Rules

  function BsCounterStep(existing: Option<Counter>, delta: int, month: Month): Counter {
    var base := if existing.Some? && existing.value.period == month then existing.value.used else 0;
    Counter(base + delta, month)
  }

  function CarryOverPool(pool: int, prevUsed: int, limit: nat): int {
    if limit == 0 then pool else Max(0, pool - Max(0, prevUsed - limit))
  }

  predicate OverLimitMonthlyPool(used: int, limit: nat, pool: int) {
    limit != 0 && used >= limit + pool
  }

  // ---- Sums over counter rows

  ghost function UsageOver(rows: map<Key, Counter>, keys: set<Key>): int {
    SumValues(map k | k in keys && k in rows :: rows[k].used)
  }

  lemma UsageAdd(rows: map<Key, Counter>, keys: set<Key>, k: Key)
    requires k in rows && k !in keys
    ensures UsageOver(rows, keys + {k}) == UsageOver(rows, keys) + rows[k].used
  {
    var m := map j | j in keys && j in rows :: rows[j].used;
    SumInsert(m, k, rows[k].used);
    assert (map j | j in keys + {k} && j in rows :: rows[j].used) == m[k := rows[k].used];
  }

  lemma UsageUnion(rows: map<Key, Counter>, a: set<Key>, b: set<Key>)
    requires a !! b
    ensures UsageOver(rows, a + b) == UsageOver(rows, a) + UsageOver(rows, b)
  {
    var ma := map k | k in a && k in rows :: rows[k].used;
    var mb := map k | k in b && k in rows :: rows[k].used;
    SumUnion(ma, mb);
    assert (map k | k in a + b && k in rows :: rows[k].used) == ma + mb;
  }

  lemma UsageOfNone(rows: map<Key, Counter>)
    ensures UsageOver(rows, {}) == 0
  {
    var none: set<Key> := {};
    UsageUnion(rows, none, none);
    assert none + none == none;
  }

  /** Equal rows on the keys give equal sums. */
  lemma UsageFrame(rows: map<Key, Counter>, rows': map<Key, Counter>, keys: set<Key>)
    requires forall k | k in keys :: k in rows && k in rows' && rows[k].used == rows'[k].used
    ensures UsageOver(rows, keys) == UsageOver(rows', keys)
  {
    assert (map k | k in keys && k in rows :: rows[k].used) == (map k | k in keys && k in rows' :: rows'[k].used);
  }

  /** The counters of one user on BS nodes whose period is the current month. */
  function MonthKeys(t: Tables, u: UserId): set<Key> {
    set k | k in t.rows && k.0 in t.bsNodes && k.1 == u && t.rows[k].period == t.month
  }

  /** The counters of one user that were not reset yet, from the given month on. */
  function StaleKeys(t: Tables, u: UserId, since: Month): set<Key> {
    set k | k in t.rows && k.0 in t.bsNodes && k.1 == u && t.rows[k].period != t.month && t.rows[k].period >= since
  }

  ghost function MonthUsage(t: Tables, u: UserId): int {
    UsageOver(t.rows, MonthKeys(t, u))
  }

  ghost function StaleUsage(t: Tables, u: UserId, since: Month): int {
    UsageOver(t.rows, StaleKeys(t, u, since))
  }

  // ---- Operations on the tables

  predicate Lags(t: Tables, u: UserId) {
    u in t.users && t.users[u].period.Some? && t.users[u].period.value < t.month
  }

  /** The pool brought to the current month; nothing is written. */
  ghost function NormalizedPool(t: Tables, u: UserId): int {
    if u !in t.users then 0
    else
      var pool := t.users[u].extra.GetOr(0);
      if Lags(t, u) then CarryOverPool(pool, StaleUsage(t, u, t.users[u].period.value), t.limit) else pool
  }

  ghost function BroughtRow(t: Tables, u: UserId): UserRow
    requires u in t.users
  {
    if Lags(t, u) then UserRow(Some(NormalizedPool(t, u)), Some(t.month)) else t.users[u]
  }

  ghost function Normalize(t: Tables, us: set<UserId>): Tables {
    t.(users := map u | u in t.users :: if u in us then BroughtRow(t, u) else t.users[u])
  }

  function TickKeys(node: NodeId, users: set<UserId>): (keys: set<Key>)
    ensures forall k: Key :: k in keys <==> k.0 == node && k.1 in users
  {
    var keys := set u | u in users :: (node, u);
    assert forall u | u in users :: (node, u) in keys;
    assert forall k: Key | k.0 == node && k.1 in users :: (node, k.1) in keys && k == (node, k.1);
    keys
  }

  function Get(rows: map<Key, Counter>, k: Key): Option<Counter> {
    if k in rows then Some(rows[k]) else None
  }

  function CountedRows(t: Tables, node: NodeId, deltas: map<UserId, int>): map<Key, Counter> {
    map k | k in t.rows.Keys + TickKeys(node, deltas.Keys) ::
      if k.0 == node && k.1 in deltas then BsCounterStep(Get(t.rows, k), deltas[k.1], t.month) else t.rows[k]
  }

  /** One tick of one node. Pools are carried over before any counter is overwritten. */
  ghost function Record(t: Tables, node: NodeId, deltas: map<UserId, int>): Tables {
    Normalize(t, deltas.Keys).(rows := CountedRows(t, node, deltas))
  }

  function WritePool(t: Tables, u: UserId, pool: int): Tables {
    if u in t.users then t.(users := t.users[u := UserRow(Some(pool), Some(t.month))]) else t
  }

  /** The counter of the current month; an older counter has not been reset yet and counts as nothing. */
  function CurrentCounter(t: Tables, k: Key): int {
    if k in t.rows && t.rows[k].period == t.month then t.rows[k].used else 0
  }

  datatype LedgerError = LimitNotSet | BelowPanelLimit | NothingAsked

  ghost function SetAmount(t: Tables, u: UserId, amount: int): (Tables, Result<(), LedgerError>) {
    if t.limit == 0 then
      if amount != 0 then (t, Err(LimitNotSet)) else (WritePool(t, u, 0), Ok(()))
    else
      (WritePool(Normalize(t, {u}), u, Max(0, amount)), Ok(()))
  }

  ghost function SetTotal(t: Tables, u: UserId, total: int): (Tables, Result<(), LedgerError>) {
    if t.limit == 0 then
      if total != 0 then (t, Err(LimitNotSet)) else (WritePool(t, u, 0), Ok(()))
    else if total < t.limit then
      (Normalize(t, {u}), Err(BelowPanelLimit))
    else
      (WritePool(Normalize(t, {u}), u, total - t.limit), Ok(()))
  }

  ghost function Purchase(t: Tables, u: UserId, delta: int): Tables {
    WritePool(Normalize(t, {u}), u, NormalizedPool(t, u) + delta)
  }

  ghost function ModifyPool(t: Tables, u: UserId, delta: Option<int>, reset: bool, resetOnProlong: bool): (Tables, Result<(), LedgerError>) {
    if reset then (if resetOnProlong then WritePool(t, u, 0) else t, Ok(()))
    else if delta.Some? then (Purchase(t, u, delta.value), Ok(()))
    else (t, Err(NothingAsked))
  }

  /** Users that the review finds over their limit: only those with a counter of this month are looked at. */
  ghost function OverUsers(t: Tables): set<UserId> {
    set k | k in t.rows && k in MonthKeys(t, k.1) &&
            OverLimitMonthlyPool(MonthUsage(t, k.1), t.limit, NormalizedPool(t, k.1)) :: k.1
  }

  ghost function DesiredBlocks(t: Tables): set<Key> {
    set n, u | n in t.bsNodes && u in OverUsers(t) :: (n, u)
  }

  /** Block rows are added for existing users only; with no BS node the review returns at once. */
  ghost function Reviewed(t: Tables): Tables {
    if t.bsNodes == {} then t
    else
      var desired := DesiredBlocks(t);
      t.(blocks := t.blocks * desired + (set k | k in desired && k.1 in t.users))
  }
}
