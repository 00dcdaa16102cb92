/** The review job: usage is turned into the block table. Pools are computed in one batch, from counters
    grouped by period, instead of user by user. */
module BsReview {
  import opened Options
  import opened Sums
  import opened BsLimit
  import opened BsLedger
  import opened BsEagerLedger

  // ---- The batch pool is the canonical one

  /** Stale counters of one user that belong to the given months. */
  function StaleKeysIn(t: Tables, u: UserId, months: set<Month>): set<Key> {
    set k | k in t.rows && k.0 in t.bsNodes && k.1 == u && t.rows[k].period != t.month && t.rows[k].period in months
  }

  /** `group by period` over the stale counters of one user. */
  ghost predicate AreGroups(t: Tables, u: UserId, groups: map<Month, int>) {
    && (forall k | k in t.rows && k.0 in t.bsNodes && k.1 == u && t.rows[k].period != t.month :: t.rows[k].period in groups)
    && (forall q | q in groups :: groups[q] == UsageOver(t.rows, StaleKeysIn(t, u, {q})))
  }

  ghost function StaleUsedSince(groups: map<Month, int>, since: Month): int {
    SumValues(map q | q in groups && q >= since :: groups[q])
  }

  ghost function EffectivePool(extra: int, extraPeriod: Option<Month>, month: Month, groups: map<Month, int>, limit: nat): int {
    if extraPeriod == None || extraPeriod.value >= month then extra
    else CarryOverPool(extra, StaleUsedSince(groups, extraPeriod.value), limit)
  }

  lemma {:induction false} GroupsSum(t: Tables, u: UserId, months: set<Month>)
    ensures SumValues(map q | q in months :: UsageOver(t.rows, StaleKeysIn(t, u, {q}))) ==
            UsageOver(t.rows, StaleKeysIn(t, u, months))
    decreases |months|
  {
    var byMonth := map q | q in months :: UsageOver(t.rows, StaleKeysIn(t, u, {q}));
    if months != {} {
      var q := AnElement(months);
      var rest := months - {q};
      GroupsSum(t, u, rest);
      SumAt(byMonth, q);
      assert byMonth - {q} == map p | p in rest :: UsageOver(t.rows, StaleKeysIn(t, u, {p}));
      UsageUnion(t.rows, StaleKeysIn(t, u, rest), StaleKeysIn(t, u, {q}));
      assert StaleKeysIn(t, u, months) == StaleKeysIn(t, u, rest) + StaleKeysIn(t, u, {q});
    } else {
      assert byMonth == map[];
      assert StaleKeysIn(t, u, months) == {};
      UsageOfNone(t.rows);
    }
  }

  /** Grouping loses nothing: the batch pool of a user is the pool the canonical normalisation reports. */
  lemma BatchPoolIsCanonical(t: Tables, u: UserId, groups: map<Month, int>)
    requires u in t.users && AreGroups(t, u, groups)
    ensures EffectivePool(t.users[u].extra.GetOr(0), t.users[u].period, t.month, groups, t.limit) == NormalizedPool(t, u)
  {
    if Lags(t, u) {
      var since := t.users[u].period.value;
      var months := set q | q in groups && q >= since;
      GroupsSum(t, u, months);
      assert (map q | q in groups && q >= since :: groups[q]) ==
             (map q | q in months :: UsageOver(t.rows, StaleKeysIn(t, u, {q})));
      assert StaleKeysIn(t, u, months) == StaleKeys(t, u, since);
    }
  }

  // ---- What one review leaves

  ghost predicate HasMonthCounter(t: Tables, u: UserId) {
    MonthKeys(t, u) != {}
  }

  /** Exactly the blocks a review leaves, from any block table. */
  lemma ReviewLeaves(t: Tables, n: NodeId, u: UserId)
    ensures (n, u) in Reviewed(t).blocks <==>
              if t.bsNodes == {} then (n, u) in t.blocks
              else
                && n in t.bsNodes
                && HasMonthCounter(t, u)
                && t.limit > 0
                && MonthUsage(t, u) >= t.limit + NormalizedPool(t, u)
                && (u in t.users || (n, u) in t.blocks)
  {
    if HasMonthCounter(t, u) {
      var k :| k in MonthKeys(t, u);
      assert k in t.rows && k in MonthKeys(t, k.1) && k.1 == u;
      assert u in OverUsers(t) <==> OverLimitMonthlyPool(MonthUsage(t, u), t.limit, NormalizedPool(t, u));
    } else {
      assert u !in OverUsers(t);
    }
    assert (n, u) in DesiredBlocks(t) <==> n in t.bsNodes && u in OverUsers(t);
  }

  /** The tables of a running panel: counters and blocks belong to existing users, pools are not negative. */
  ghost predicate Kept(t: Tables) {
    && (forall k | k in t.rows :: k.1 in t.users)
    && (forall k | k in t.blocks :: k.1 in t.users)
    && (forall u | u in t.users :: t.users[u].extra.GetOr(0) >= 0)
  }

  /** Requests reach the ledger validated: purchases are not negative, and traffic is that of existing users. */
  predicate Admissible(t: Tables, s: Step) {
    match s
    case RecordTick(n, d) => d.Keys <= t.users.Keys
    case Buy(u, d) => d >= 0
    case _ => true
  }

  ghost predicate AdmissibleRun(t: Tables, steps: seq<Step>)
    decreases |steps|
  {
    steps == [] || (Admissible(t, steps[0]) && AdmissibleRun(LazyStep(t, steps[0]), steps[1..]))
  }

  lemma KeptStep(t: Tables, s: Step)
    requires Kept(t) && Admissible(t, s)
    ensures Kept(LazyStep(t, s))
  {
    assert forall u | u in t.users :: NormalizedPool(t, u) >= 0;
    match s {
      case RecordTick(n, d) =>
      case Buy(u, d) =>
      case AssignAmount(u, a) =>
      case AssignTotal(u, a) =>
      case ResetPool(u) =>
      case Review =>
        assert forall k | k in Reviewed(t).blocks :: k.1 in t.users;
      case NextMonth =>
    }
  }

  lemma {:induction false} KeptRun(t: Tables, steps: seq<Step>)
    requires Kept(t) && AdmissibleRun(t, steps)
    ensures Kept(LazyRun(t, steps))
    decreases |steps|
  {
    if steps != [] {
      KeptStep(t, steps[0]);
      KeptRun(LazyStep(t, steps[0]), steps[1..]);
    }
  }

  /** In the terms of the eager ledger: after any run, a review blocks a user on every BS node exactly when the
      month's traffic has reached the panel limit plus the eagerly settled pool. */
  lemma ReviewBlocksTheOverLimit(t: Tables, steps: seq<Step>, n: NodeId, u: UserId)
    requires Inv(t) && Kept(t) && AdmissibleRun(t, steps) && t.bsNodes != {}
    ensures var e := EagerRun(Observed(t), steps);
            (n, u) in Reviewed(LazyRun(t, steps)).blocks <==>
              n in e.bsNodes && u in e.pool && e.limit > 0 && UserUsed(e.used, u) >= e.limit + e.pool[u]
  {
    var t' := LazyRun(t, steps);
    LazyRefinesEager(t, steps);
    KeptRun(t, steps);
    ConfigurationIsFixed(t, steps);
    ReviewLeaves(t', n, u);
    MonthUsageIsObserved(t', u);
    if !HasMonthCounter(t', u) {
      UsageOfNone(t'.rows);
      assert u in t'.users ==> NormalizedPool(t', u) >= 0;
    } else {
      var k :| k in MonthKeys(t', u);
      assert u in t'.users;
    }
  }

  lemma {:induction false} ConfigurationIsFixed(t: Tables, steps: seq<Step>)
    ensures LazyRun(t, steps).bsNodes == t.bsNodes && LazyRun(t, steps).limit == t.limit
    decreases |steps|
  {
    if steps != [] {
      ConfigurationIsFixed(LazyStep(t, steps[0]), steps[1..]);
    }
  }

  /** A second review finds nothing to do. */
  lemma ReviewIsIdempotent(t: Tables)
    ensures Reviewed(Reviewed(t)) == Reviewed(t)
    ensures t.bsNodes != {} && Kept(t) ==> DesiredBlocks(Reviewed(t)) == Reviewed(t).blocks
  {
    var t' := Reviewed(t);
    ReviewIsInvisible(t);
    forall u
      ensures MonthKeys(t', u) == MonthKeys(t, u)
      ensures MonthUsage(t', u) == MonthUsage(t, u)
      ensures NormalizedPool(t', u) == NormalizedPool(t, u)
    {
      assert MonthKeys(t', u) == MonthKeys(t, u);
      assert u in t.users ==> Pools(t')[u] == Pools(t)[u];
    }
    assert OverUsers(t') == OverUsers(t);
    assert DesiredBlocks(t') == DesiredBlocks(t);
    if t.bsNodes != {} {
      assert Reviewed(t').blocks == t'.blocks;
    }
  }

  // ---- The job

  method GroupStale(t: Ledger, u: UserId) returns (groups: map<Month, int>)
    ensures AreGroups(t.View(), u, groups)
  {
    ghost var v := t.View();
    groups := map[];
    var stale := set k | k in t.rows && k.0 in t.bsNodes && k.1 == u && t.rows[k].period != t.month;
    var todo := set k | k in stale :: t.rows[k].period;
    while todo != {}
      invariant forall k | k in stale :: t.rows[k].period in todo || t.rows[k].period in groups
      invariant forall q | q in groups :: groups[q] == UsageOver(v.rows, StaleKeysIn(v, u, {q}))
      decreases |todo|
    {
      var q, rest := TakeOne(todo);
      var keys := set k | k in stale && t.rows[k].period == q;
      assert keys == StaleKeysIn(v, u, {q});
      var used := SumRows(t.rows, keys);
      groups := groups[q := used];
      todo := rest;
    }
  }

  method SumStaleSince(groups: map<Month, int>, since: Month) returns (used: int)
    ensures used == StaleUsedSince(groups, since)
  {
    used := 0;
    var todo := set q | q in groups && q >= since;
    ghost var left := map q | q in groups && q >= since :: groups[q];
    while todo != {}
      invariant todo == left.Keys
      invariant forall q | q in left :: q in groups && left[q] == groups[q]
      invariant used + SumValues(left) == StaleUsedSince(groups, since)
      decreases |todo|
    {
      var q, rest := TakeOne(todo);
      SumAt(left, q);
      used := used + groups[q];
      todo, left := rest, left - {q};
    }
    assert left == map[];
  }

  method ReviewUser(t: Ledger, u: UserId) returns (over: bool)
    ensures over == OverLimitMonthlyPool(MonthUsage(t.View(), u), t.limit, NormalizedPool(t.View(), u))
  {
    var used := t.UsageTotals(u);
    var extra, period := 0, None;
    if u in t.users {
      extra, period := t.users[u].extra.GetOr(0), t.users[u].period;
    }
    var pool := extra;
    var groups := GroupStale(t, u);
    if period != None && period.value < t.month {
      var stale := SumStaleSince(groups, period.value);
      pool := CarryOverPool(extra, stale, t.limit);
    }
    if u in t.users {
      BatchPoolIsCanonical(t.View(), u, groups);
    }
    over := OverLimitMonthlyPool(used, t.limit, pool);
  }

  method FindOverUsers(t: Ledger) returns (overUsers: set<UserId>)
    ensures overUsers == OverUsers(t.View())
  {
    ghost var v := t.View();
    var counted := set k | k in t.rows && k.0 in t.bsNodes && t.rows[k].period == t.month :: k.1;
    overUsers := {};
    var todo := counted;
    while todo != {}
      invariant todo <= counted
      invariant forall u :: u in overUsers <==>
                  u in counted - todo && OverLimitMonthlyPool(MonthUsage(v, u), v.limit, NormalizedPool(v, u))
      decreases |todo|
    {
      var u, rest := TakeOne(todo);
      var over := ReviewUser(t, u);
      if over {
        overUsers := overUsers + {u};
      }
      todo := rest;
    }
    forall u
      ensures u in overUsers <==> u in OverUsers(v)
    {
      if u in counted {
        var k :| k in t.rows && k.0 in t.bsNodes && t.rows[k].period == t.month && k.1 == u;
        assert k in MonthKeys(v, k.1);
      }
    }
  }

  /** One committed row at a time; a user that no longer exists is skipped. */
  method AddBlocks(t: Ledger, toBlock: set<Key>)
    modifies t`blocks
    ensures t.blocks == old(t.blocks) + (set k | k in toBlock && k.1 in t.users)
  {
    ghost var before := t.blocks;
    var todo := toBlock;
    while todo != {}
      invariant todo <= toBlock
      invariant forall k :: k in t.blocks <==> k in before || (k in toBlock && k !in todo && k.1 in t.users)
      decreases |todo|
    {
      var k, rest := TakeOne(todo);
      if k.1 in t.users {
        t.blocks := t.blocks + {k};
      }
      todo := rest;
    }
  }

  method DropBlocks(t: Ledger, toUnblock: set<Key>)
    modifies t`blocks
    ensures t.blocks == old(t.blocks) - toUnblock
  {
    ghost var before := t.blocks;
    var todo := toUnblock;
    while todo != {}
      invariant todo <= toUnblock
      invariant forall k :: k in t.blocks <==> k in before && (k in toUnblock ==> k in todo)
      decreases |todo|
    {
      var k, rest := TakeOne(todo);
      t.blocks := t.blocks - {k};
      todo := rest;
    }
  }

  method ReviewBsNodes(t: Ledger)
    modifies t`blocks
    ensures t.View() == old(Reviewed(t.View()))
  {
    if t.bsNodes == {} {
      return;
    }
    var overUsers := FindOverUsers(t);
    var desired := set n, u | n in t.bsNodes && u in overUsers :: (n, u);
    var toBlock, toUnblock := desired - t.blocks, t.blocks - desired;
    AddBlocks(t, toBlock);
    DropBlocks(t, toUnblock);
  }
}
