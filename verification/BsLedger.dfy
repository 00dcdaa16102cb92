/** The tables as the code updates them in place. Every method is tied to the value-level operation of
    BsLimit; one method is one committed transaction, and the clock is read once in it. */
module BsLedger {
  import opened Options
  import opened Sums
  import opened BsLimit
  import opened BotDaily

  datatype Param = Param(uid: UserId, value: int)

  /** int(value * coefficient): truncation toward zero. */
  function Scaled(value: int, coefficient: real): int {
    var r := value as real * coefficient;
    if r >= 0.0 then r.Floor else -((-r).Floor)
  }

  /** Truncation toward zero: never beyond the exact product, and less than one unit short of it. */
  lemma ScaledIsTruncated(value: int, coefficient: real)
    ensures var exact := value as real * coefficient;
            && (exact >= 0.0 ==> Scaled(value, coefficient) as real <= exact < Scaled(value, coefficient) as real + 1.0)
            && (exact <= 0.0 ==> Scaled(value, coefficient) as real - 1.0 < exact <= Scaled(value, coefficient) as real)
  {
  }

  /** The total of one user in a parameter list. */
  function ParamTotal(params: seq<Param>, coefficient: real, u: UserId): int {
    if params == [] then 0
    else ParamTotal(params[1..], coefficient, u) + (if params[0].uid == u then Scaled(params[0].value, coefficient) else 0)
  }

  /** One total per user that occurs. */
  function DeltasOf(params: seq<Param>, coefficient: real): map<UserId, int> {
    map u | u in (set p | p in params :: p.uid) :: ParamTotal(params, coefficient, u)
  }

  lemma {:induction false} ParamTotalLast(params: seq<Param>, last: Param, coefficient: real, u: UserId)
    ensures ParamTotal(params + [last], coefficient, u) ==
            ParamTotal(params, coefficient, u) + (if last.uid == u then Scaled(last.value, coefficient) else 0)
  {
    if params == [] {
      assert params + [last] == [last] && [last][1..] == [];
    } else {
      assert (params + [last])[1..] == params[1..] + [last];
      ParamTotalLast(params[1..], last, coefficient, u);
    }
  }

  lemma {:induction false} ParamTotalAbsent(params: seq<Param>, coefficient: real, u: UserId)
    requires forall p | p in params :: p.uid != u
    ensures ParamTotal(params, coefficient, u) == 0
  {
    if params != [] {
      ParamTotalAbsent(params[1..], coefficient, u);
    }
  }

  lemma DeltasLast(params: seq<Param>, last: Param, coefficient: real)
    ensures DeltasOf(params + [last], coefficient) ==
            DeltasOf(params, coefficient)
              [last.uid := Lookup(DeltasOf(params, coefficient), last.uid) + Scaled(last.value, coefficient)]
  {
    var all := params + [last];
    assert (set p | p in all :: p.uid) == (set p | p in params :: p.uid) + {last.uid};
    forall u | u in DeltasOf(all, coefficient)
      ensures ParamTotal(all, coefficient, u) ==
              Lookup(DeltasOf(params, coefficient), u) + (if last.uid == u then Scaled(last.value, coefficient) else 0)
    {
      ParamTotalLast(params, last, coefficient, u);
      if u !in DeltasOf(params, coefficient) {
        ParamTotalAbsent(params, coefficient, u);
      }
    }
  }

  lemma PlusDeltasLast(start: map<UserId, int>, params: seq<Param>, last: Param, coefficient: real)
    ensures Plus(start, DeltasOf(params + [last], coefficient)) ==
            var totals := Plus(start, DeltasOf(params, coefficient));
            totals[last.uid := Lookup(totals, last.uid) + Scaled(last.value, coefficient)]
  {
    DeltasLast(params, last, coefficient);
    PlusBumped(start, DeltasOf(params, coefficient), DeltasOf(params + [last], coefficient), last.uid, Scaled(last.value, coefficient));
  }

  /** `d[uid] = d.get(uid, 0) + int(value * coefficient)` over a parameter list. */
  function Folded(start: map<UserId, int>, params: seq<Param>, coefficient: real): map<UserId, int> {
    if params == [] then start
    else
      var totals, last := Folded(start, params[..|params| - 1], coefficient), params[|params| - 1];
      totals[last.uid := Lookup(totals, last.uid) + Scaled(last.value, coefficient)]
  }

  lemma FoldedLastIsPlus(start: map<UserId, int>, before: seq<Param>, last: Param, coefficient: real)
    requires Folded(start, before, coefficient) == Plus(start, DeltasOf(before, coefficient))
    ensures Folded(start, before + [last], coefficient) == Plus(start, DeltasOf(before + [last], coefficient))
  {
    PlusDeltasLast(start, before, last, coefficient);
    assert (before + [last])[..|before|] == before;
  }

  lemma {:induction false} FoldedIsPlus(start: map<UserId, int>, params: seq<Param>, coefficient: real)
    ensures Folded(start, params, coefficient) == Plus(start, DeltasOf(params, coefficient))
  {
    if params == [] {
      assert Plus(start, DeltasOf(params, coefficient)) == start;
    } else {
      var before, last := params[..|params| - 1], params[|params| - 1];
      FoldedIsPlus(start, before, coefficient);
      FoldedLastIsPlus(start, before, last, coefficient);
      assert params == before + [last];
    }
  }

  // ---- How far a total is from the exact product

  /** What a user passed, before the coefficient. */
  function RawTotal(params: seq<Param>, u: UserId): int {
    if params == [] then 0 else RawTotal(params[1..], u) + (if params[0].uid == u then params[0].value else 0)
  }

  function ParamCount(params: seq<Param>, u: UserId): nat {
    if params == [] then 0 else ParamCount(params[1..], u) + (if params[0].uid == u then 1 else 0)
  }

  function Product(value: int, coefficient: real): real {
    value as real * coefficient
  }

  /** A whole number that falls short of an exact one by less than one for each of `count` truncations. */
  predicate FallsShort(total: int, exact: real, count: nat) {
    && total as real <= exact
    && exact <= total as real + count as real
    && (count > 0 ==> exact < total as real + count as real)
  }

  predicate NoNegatives(params: seq<Param>) {
    forall p | p in params :: p.value >= 0
  }

  lemma FallsShortSum(a: int, x: real, m: nat, b: int, y: real, n: nat)
    requires FallsShort(a, x, m) && FallsShort(b, y, n)
    ensures FallsShort(a + b, x + y, m + n)
  {
  }

  lemma ScaledFallsShort(value: nat, coefficient: real)
    requires coefficient >= 0.0
    ensures FallsShort(Scaled(value, coefficient), Product(value, coefficient), 1)
  {
    ScaledIsTruncated(value, coefficient);
  }

  /** The exact product, entry by entry. */
  ghost function ExactTotal(params: seq<Param>, coefficient: real, u: UserId): real {
    if params == [] then 0.0
    else ExactTotal(params[1..], coefficient, u) + (if params[0].uid == u then Product(params[0].value, coefficient) else 0.0)
  }

  lemma ProductSum(a: int, b: int, coefficient: real)
    ensures Product(a + b, coefficient) == Product(a, coefficient) + Product(b, coefficient)
  {
  }

  lemma {:induction false} ExactIsProduct(params: seq<Param>, coefficient: real, u: UserId)
    ensures ExactTotal(params, coefficient, u) == Product(RawTotal(params, u), coefficient)
  {
    if params != [] {
      ExactIsProduct(params[1..], coefficient, u);
      ProductSum(RawTotal(params[1..], u), if params[0].uid == u then params[0].value else 0, coefficient);
    }
  }

  lemma {:induction false} ExactFallsShort(params: seq<Param>, coefficient: real, u: UserId)
    requires NoNegatives(params) && coefficient >= 0.0
    ensures FallsShort(ParamTotal(params, coefficient, u), ExactTotal(params, coefficient, u), ParamCount(params, u))
  {
    if params != [] {
      var rest, first := params[1..], params[0];
      assert first in params;
      ExactFallsShort(rest, coefficient, u);
      ScaledFallsShort(first.value, coefficient);
      FallsShortSum(ParamTotal(rest, coefficient, u), ExactTotal(rest, coefficient, u), ParamCount(rest, u),
                    Scaled(first.value, coefficient), Product(first.value, coefficient), 1);
    }
  }

  /** The total of a user is the coefficient times what the user passed, less than one unit per entry below it. */
  lemma TotalFallsShort(params: seq<Param>, coefficient: real, u: UserId)
    requires NoNegatives(params) && coefficient >= 0.0
    ensures FallsShort(ParamTotal(params, coefficient, u), Product(RawTotal(params, u), coefficient), ParamCount(params, u))
  {
    ExactFallsShort(params, coefficient, u);
    ExactIsProduct(params, coefficient, u);
  }

  lemma {:induction false} CountedUsers(params: seq<Param>, u: UserId)
    ensures ParamCount(params, u) > 0 <==> exists p :: p in params && p.uid == u
  {
    if params != [] {
      CountedUsers(params[1..], u);
      assert params == [params[0]] + params[1..];
    }
  }

  lemma DeltaFallsShort(params: seq<Param>, coefficient: real, u: UserId)
    requires NoNegatives(params) && coefficient >= 0.0
    ensures u in DeltasOf(params, coefficient) <==> ParamCount(params, u) > 0
    ensures FallsShort(Lookup(DeltasOf(params, coefficient), u), Product(RawTotal(params, u), coefficient), ParamCount(params, u))
  {
    TotalFallsShort(params, coefficient, u);
    CountedUsers(params, u);
    if u !in DeltasOf(params, coefficient) {
      ParamTotalAbsent(params, coefficient, u);
    }
  }

  /** A tick moves the counters of its node by what its users passed times the coefficient, rounded down per entry, and no
      other counter. */
  ghost predicate MovedByTick(before: Tables, after: Tables, node: NodeId, params: seq<Param>, coefficient: real) {
    forall k: Key :: MovedAt(CurrentCounter(before, k), CurrentCounter(after, k), k, node, params, coefficient)
  }

  predicate MovedAt(before: int, after: int, k: Key, node: NodeId, params: seq<Param>, coefficient: real) {
    if k.0 == node then FallsShort(after - before, Product(RawTotal(params, k.1), coefficient), ParamCount(params, k.1))
    else after == before
  }

  lemma CounterMoves(t: Tables, node: NodeId, deltas: map<UserId, int>, k: Key)
    ensures CurrentCounter(Record(t, node, deltas), k) == CurrentCounter(t, k) + (if k.0 == node then Lookup(deltas, k.1) else 0)
  {
  }

  lemma KeyMoved(t: Tables, node: NodeId, params: seq<Param>, coefficient: real, k: Key)
    requires NoNegatives(params) && coefficient >= 0.0
    ensures var after := Record(t, node, DeltasOf(params, coefficient));
            MovedAt(CurrentCounter(t, k), CurrentCounter(after, k), k, node, params, coefficient)
  {
    CounterMoves(t, node, DeltasOf(params, coefficient), k);
    DeltaFallsShort(params, coefficient, k.1);
  }

  lemma TickMovesCounters(t: Tables, node: NodeId, params: seq<Param>, coefficient: real)
    ensures NoNegatives(params) && coefficient >= 0.0 ==>
              MovedByTick(t, Record(t, node, DeltasOf(params, coefficient)), node, params, coefficient)
  {
    if NoNegatives(params) && coefficient >= 0.0 {
      forall k: Key
        ensures MovedAt(CurrentCounter(t, k), CurrentCounter(Record(t, node, DeltasOf(params, coefficient)), k), k, node, params, coefficient)
      {
        KeyMoved(t, node, params, coefficient, k);
      }
    }
  }

  lemma EmptyTick(t: Tables, node: NodeId, params: seq<Param>, coefficient: real)
    requires params == []
    ensures DeltasOf(params, coefficient) == map[] && Record(t, node, DeltasOf(params, coefficient)) == t
  {
    assert Normalize(t, {}).users == t.users;
    assert CountedRows(t, node, map[]) == t.rows;
  }

  /** Adds a parameter list to totals collected so far. */
  method AddParams(start: map<UserId, int>, params: seq<Param>, coefficient: real) returns (totals: map<UserId, int>)
    ensures totals == Plus(start, DeltasOf(params, coefficient))
  {
    totals := start;
    for i := 0 to |params|
      invariant totals == Folded(start, params[..i], coefficient)
    {
      var p := params[i];
      assert params[..i + 1][..i] == params[..i];
      totals := totals[p.uid := Lookup(totals, p.uid) + Scaled(p.value, coefficient)];
    }
    assert params[..|params|] == params;
    FoldedIsPlus(start, params, coefficient);
  }

  method SumRows(rows: map<Key, Counter>, keys: set<Key>) returns (total: int)
    requires keys <= rows.Keys
    ensures total == UsageOver(rows, keys)
  {
    total := 0;
    var todo := keys;
    UsageOfNone(rows);
    while todo != {}
      invariant todo <= keys
      invariant total == UsageOver(rows, keys - todo)
      decreases |todo|
    {
      var k, rest := TakeOne(todo);
      UsageAdd(rows, keys - todo, k);
      assert keys - rest == (keys - todo) + {k};
      total := total + rows[k].used;
      todo := rest;
    }
    assert keys - todo == keys;
  }

  /** The row of a user does not depend on the rows of other users. */
  lemma BroughtAlone(t: Tables, t': Tables, u: UserId)
    requires u in t.users && t' == t.(users := t'.users) && u in t'.users && t'.users[u] == t.users[u]
    ensures BroughtRow(t', u) == BroughtRow(t, u)
  {
    if Lags(t, u) {
      assert StaleKeys(t', u, t.users[u].period.value) == StaleKeys(t, u, t.users[u].period.value);
    }
  }

  /** The counters after a tick; each new value is computed from the rows read at its start. */
  method CountTick(existing: map<Key, Counter>, month: Month, node: NodeId, deltas: map<UserId, int>)
    returns (rows: map<Key, Counter>)
    ensures rows.Keys == existing.Keys + TickKeys(node, deltas.Keys)
    ensures forall k | k in rows :: rows[k] ==
              if k.0 == node && k.1 in deltas then BsCounterStep(Get(existing, k), deltas[k.1], month) else existing[k]
  {
    rows := existing;
    var left := deltas.Keys;
    while left != {}
      invariant left <= deltas.Keys
      invariant forall k :: k in rows <==> k in existing || (k.0 == node && k.1 in deltas.Keys - left)
      invariant forall k | k in rows :: rows[k] ==
                  if k.0 == node && k.1 in deltas.Keys - left
                  then BsCounterStep(Get(existing, k), deltas[k.1], month) else existing[k]
      decreases |left|
    {
      var u, rest := TakeOne(left);
      rows := rows[(node, u) := BsCounterStep(Get(existing, (node, u)), deltas[u], month)];
      left := rest;
    }
  }

  class Ledger {
    const bsNodes: set<NodeId>
    const limit: nat
    var month: Month
    var rows: map<Key, Counter>
    var users: map<UserId, UserRow>
    var blocks: set<Key>
    var botRows: map<BotKey, BotRow>

    ghost function View(): Tables
      reads this
    {
      Tables(bsNodes, limit, month, rows, users, blocks)
    }

    constructor (bsNodes: set<NodeId>, limit: nat, month: Month, users: map<UserId, UserRow>)
      ensures View() == Tables(bsNodes, limit, month, map[], users, {}) && botRows == map[]
    {
      this.bsNodes, this.limit, this.month, this.users := bsNodes, limit, month, users;
      rows, blocks, botRows := map[], {}, map[];
    }

    method UsageTotals(u: UserId) returns (total: int)
      ensures total == MonthUsage(View(), u)
    {
      var keys := set k | k in rows && k.0 in bsNodes && k.1 == u && rows[k].period == month;
      total := SumRows(rows, keys);
    }

    method UsageTotalsStale(u: UserId, since: Month) returns (total: int)
      ensures total == StaleUsage(View(), u, since)
    {
      var keys := set k | k in rows && k.0 in bsNodes && k.1 == u && rows[k].period != month && rows[k].period >= since;
      total := SumRows(rows, keys);
    }

    method NormalizeExtraPeriod(u: UserId, persist: bool) returns (pool: int)
      modifies this`users
      ensures pool == old(NormalizedPool(View(), u))
      ensures u !in old(users) ==> pool == 0
      ensures View() == old(if persist then Normalize(View(), {u}) else View())
    {
      if u !in users {
        assert Normalize(View(), {u}).users == users;
        return 0;
      }
      pool := users[u].extra.GetOr(0);
      var period := users[u].period;
      if period == None || period.value >= month {
        assert Normalize(View(), {u}).users == users;
        return;
      }
      var stale := UsageTotalsStale(u, period.value);
      pool := CarryOverPool(pool, stale, limit);
      if persist {
        assert Normalize(View(), {u}).users == users[u := UserRow(Some(pool), Some(month))];
        users := users[u := UserRow(Some(pool), Some(month))];
      }
    }

    method NormalizeOne(u: UserId)
      requires u in users
      modifies this`users
      ensures users == old(users[u := BroughtRow(View(), u)])
    {
      var _ := NormalizeExtraPeriod(u, true);
    }

    /** Every user of the tick whose pool lags behind, one by one. */
    method CarryOverStalePools(tick: set<UserId>)
      modifies this`users
      ensures View() == old(Normalize(View(), tick))
    {
      ghost var t := View();
      var stale := set u | u in tick && u in users && users[u].period.Some? && users[u].period.value < month;
      var todo := stale;
      while todo != {}
        invariant todo <= stale
        invariant users.Keys == t.users.Keys
        invariant forall u | u in users :: users[u] == if u in stale - todo then BroughtRow(t, u) else t.users[u]
        decreases |todo|
      {
        var u, rest := TakeOne(todo);
        BroughtAlone(t, View(), u);
        NormalizeOne(u);
        todo := rest;
      }
      forall u | u in t.users
        ensures users[u] == Normalize(t, tick).users[u]
      {
        assert u in stale <==> u in tick && Lags(t, u);
      }
    }

    /** The daily rows per bot of one tick. */
    method RecordBotBsDaily(tick: BotTick)
      modifies this`botRows
      ensures botRows == Upserted(old(botRows), tick)
    {
      if tick.deltas == map[] {
        NothingUpserted(botRows, tick);
        return;
      }
      botRows := RecordRows(botRows, tick);
    }

    /** One tick, in one transaction: pools, counters, and the daily rows of the same deltas. */
    method RecordBsUserStats(node: NodeId, params: seq<Param>, coefficient: real, botOf: map<UserId, BotId>, day: Day, billable: bool)
      modifies this`rows, this`users, this`botRows
      ensures View() == old(Record(View(), node, DeltasOf(params, coefficient)))
      ensures botRows == Upserted(old(botRows), BotTick(node, day, DeltasOf(params, coefficient), botOf, billable))
      ensures NoNegatives(params) && coefficient >= 0.0 ==> MovedByTick(old(View()), View(), node, params, coefficient)
    {
      ghost var t := View();
      if params == [] {
        EmptyTick(t, node, params, coefficient);
        NothingUpserted(botRows, BotTick(node, day, map[], botOf, billable));
        TickMovesCounters(t, node, params, coefficient);
        return;
      }
      var deltas := AddParams(map[], params, coefficient);
      assert deltas == DeltasOf(params, coefficient);
      CarryOverStalePools(deltas.Keys);
      rows := CountTick(rows, month, node, deltas);
      assert rows == CountedRows(t, node, deltas);
      RecordBotBsDaily(BotTick(node, day, deltas, botOf, billable));
      TickMovesCounters(t, node, params, coefficient);
    }

    method SetExtraAmount(u: UserId, amount: int) returns (r: Result<(), LedgerError>)
      modifies this`users
      ensures (View(), r) == old(SetAmount(View(), u, amount))
    {
      var extra := 0;
      if limit == 0 {
        if amount != 0 {
          return Err(LimitNotSet);
        }
      } else {
        var _ := NormalizeExtraPeriod(u, true);
        extra := Max(0, amount);
      }
      WriteExtra(u, extra);
      r := Ok(());
    }

    method SetLimitTotal(u: UserId, total: int) returns (r: Result<(), LedgerError>)
      modifies this`users
      ensures (View(), r) == old(SetTotal(View(), u, total))
    {
      var extra := 0;
      if limit == 0 {
        if total != 0 {
          return Err(LimitNotSet);
        }
      } else {
        var _ := NormalizeExtraPeriod(u, true);
        if total < limit {
          return Err(BelowPanelLimit);
        }
        extra := total - limit;
      }
      WriteExtra(u, extra);
      r := Ok(());
    }

    method ResetExtraPool(u: UserId)
      modifies this`users
      ensures View() == old(WritePool(View(), u, 0))
    {
      WriteExtra(u, 0);
    }

    method IncrementExtra(u: UserId, delta: int)
      modifies this`users
      ensures View() == old(Purchase(View(), u, delta))
    {
      var pool := NormalizeExtraPeriod(u, true);
      WriteExtra(u, pool + delta);
    }

    /** A reset comes first and only counts when the bot's settings ask for it; neither of the two is an error. */
    method ModifyExtra(u: UserId, delta: Option<int>, reset: bool, resetOnProlong: bool) returns (r: Result<(), LedgerError>)
      modifies this`users
      ensures (View(), r) == old(ModifyPool(View(), u, delta, reset, resetOnProlong))
      ensures r.Err? <==> !reset && delta == None
      ensures r.Err? || (reset && !resetOnProlong) || u !in old(users) ==> View() == old(View())
      ensures r.Ok? && reset && resetOnProlong && u in users ==> users[u] == UserRow(Some(0), Some(month))
      ensures r.Ok? && !reset && u in users ==> users[u] == UserRow(Some(old(NormalizedPool(View(), u)) + delta.value), Some(month))
      ensures users.Keys == old(users.Keys) && forall v | v in users && v != u :: users[v] == old(users)[v]
    {
      if reset {
        if resetOnProlong {
          ResetExtraPool(u);
        }
      } else if delta.Some? {
        IncrementExtra(u, delta.value);
      } else {
        return Err(NothingAsked);
      }
      r := Ok(());
    }

    method WriteExtra(u: UserId, extra: int)
      modifies this`users
      ensures View() == old(WritePool(View(), u, extra))
    {
      if u in users {
        users := users[u := UserRow(Some(extra), Some(month))];
      }
    }
  }
}
