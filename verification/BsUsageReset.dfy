/** Resetting a user's data usage deletes the user's BS counters, charged or not. When that can be a step of a run. */
module BsUsageReset {
  import opened Options
  import opened Sums
  import opened BsLimit
  import opened BsEagerLedger

  function DropCounters(t: Tables, u: UserId): Tables {
    t.(rows := map k | k in t.rows && k.1 != u :: t.rows[k])
  }

  /** The user still owes part of the pool for a month that was not settled. */
  ghost predicate OwesFromPool(t: Tables, u: UserId) {
    && Lags(t, u)
    && t.limit > 0
    && t.users[u].extra.GetOr(0) > 0
    && StaleUsage(t, u, t.users[u].period.value) > t.limit
  }

  /** The deletion keeps the reported pool exactly when nothing is owed. */
  lemma DropCountersIff(t: Tables, u: UserId)
    requires u in t.users
    ensures NormalizedPool(DropCounters(t, u), u) == NormalizedPool(t, u) <==> !OwesFromPool(t, u)
  {
    var t' := DropCounters(t, u);
    if Lags(t, u) {
      var since := t.users[u].period.value;
      assert StaleKeys(t', u, since) == {};
      UsageOfNone(t'.rows);
      assert Lags(t', u);
    }
  }

  // ---- The deletion as a step

  datatype Event = Plain(step: Step) | ResetUsage(user: UserId)

  ghost function LazyEvent(t: Tables, event: Event): Tables {
    match event
    case Plain(s) => LazyStep(t, s)
    case ResetUsage(u) => DropCounters(t, u)
  }

  /** The month's counters of the user go, and no pool changes. */
  ghost function EagerEvent(e: Eager, event: Event): Eager {
    match event
    case Plain(s) => EagerStep(e, s)
    case ResetUsage(u) => e.(used := map k | k in e.used && k.1 != u :: e.used[k])
  }

  lemma InvEvent(t: Tables, event: Event)
    requires Inv(t)
    ensures Inv(LazyEvent(t, event))
  {
    if event.Plain? {
      InvStep(t, event.step);
    }
  }

  lemma OtherPools(t: Tables, u: UserId, v: UserId)
    requires u != v && v in t.users
    ensures NormalizedPool(DropCounters(t, u), v) == NormalizedPool(t, v)
  {
    var t' := DropCounters(t, u);
    if Lags(t, v) {
      var since := t.users[v].period.value;
      assert StaleKeys(t', v, since) == StaleKeys(t, v, since);
    }
    SamePool(t, t', v);
  }

  lemma DropIsObservedIff(t: Tables, u: UserId)
    ensures Observed(DropCounters(t, u)) == EagerEvent(Observed(t), ResetUsage(u)) <==> !OwesFromPool(t, u)
  {
    var t' := DropCounters(t, u);
    assert MonthCounters(t') == EagerEvent(Observed(t), ResetUsage(u)).used;
    assert ActiveUsers(t') == ActiveUsers(t);
    forall v | v in t.users && v != u
      ensures NormalizedPool(t', v) == NormalizedPool(t, v)
    {
      OtherPools(t, u, v);
    }
    if u in t.users {
      DropCountersIff(t, u);
      PoolsDiffer(t, t', u);
    } else {
      assert Pools(t') == Pools(t);
    }
  }

  lemma PoolsDiffer(t: Tables, t': Tables, u: UserId)
    requires u in t.users && t'.users == t.users
    requires forall v | v in t.users && v != u :: NormalizedPool(t', v) == NormalizedPool(t, v)
    ensures Pools(t') == Pools(t) <==> NormalizedPool(t', u) == NormalizedPool(t, u)
  {
    assert Pools(t)[u] == NormalizedPool(t, u) && Pools(t')[u] == NormalizedPool(t', u);
  }

  /** Each event is the eager one on what a reader sees; for a reset of usage exactly when nothing is owed. */
  lemma EventRefinesIff(t: Tables, event: Event)
    requires Inv(t)
    ensures Observed(LazyEvent(t, event)) == EagerEvent(Observed(t), event) <==>
              event.Plain? || !OwesFromPool(t, event.user)
  {
    match event
    case Plain(s) => StepRefines(t, s);
    case ResetUsage(u) => DropIsObservedIff(t, u);
  }

  // ---- Whole runs

  ghost function LazyEvents(t: Tables, events: seq<Event>): Tables
    decreases |events|
  {
    if events == [] then t else LazyEvents(LazyEvent(t, events[0]), events[1..])
  }

  ghost function EagerEvents(e: Eager, events: seq<Event>): Eager
    decreases |events|
  {
    if events == [] then e else EagerEvents(EagerEvent(e, events[0]), events[1..])
  }

  /** No usage is reset of a user who owes something at that moment. */
  ghost predicate ResetsAreSettled(t: Tables, events: seq<Event>)
    decreases |events|
  {
    events == [] ||
    ((events[0].ResetUsage? ==> !OwesFromPool(t, events[0].user)) && ResetsAreSettled(LazyEvent(t, events[0]), events[1..]))
  }

  lemma PrefixStep(t: Tables, e: Eager, events: seq<Event>, n: nat)
    requires 0 < n <= |events|
    ensures LazyEvents(t, events[..n]) == LazyEvents(LazyEvent(t, events[0]), events[1..][..n - 1])
    ensures EagerEvents(e, events[..n]) == EagerEvents(EagerEvent(e, events[0]), events[1..][..n - 1])
  {
    assert events[..n][1..] == events[1..][..n - 1];
  }

  lemma {:induction false} SettledRunIsEager(t: Tables, events: seq<Event>, n: nat)
    requires Inv(t) && ResetsAreSettled(t, events) && n <= |events|
    ensures Observed(LazyEvents(t, events[..n])) == EagerEvents(Observed(t), events[..n])
    decreases |events|
  {
    if n > 0 {
      PrefixStep(t, Observed(t), events, n);
      InvEvent(t, events[0]);
      EventRefinesIff(t, events[0]);
      SettledRunIsEager(LazyEvent(t, events[0]), events[1..], n - 1);
    }
  }

  lemma {:induction false} UnsettledRunDiffers(t: Tables, events: seq<Event>) returns (n: nat)
    requires Inv(t) && !ResetsAreSettled(t, events)
    ensures n <= |events| && Observed(LazyEvents(t, events[..n])) != EagerEvents(Observed(t), events[..n])
    decreases |events|
  {
    InvEvent(t, events[0]);
    EventRefinesIff(t, events[0]);
    if events[0].ResetUsage? && OwesFromPool(t, events[0].user) {
      n := 1;
      PrefixStep(t, Observed(t), events, 1);
    } else {
      n := UnsettledRunDiffers(LazyEvent(t, events[0]), events[1..]);
      n := n + 1;
      PrefixStep(t, Observed(t), events, n);
    }
  }

  /** With resets of usage among the events, the lazy ledger is observed as the eager one all along the run exactly when
      every reset finds nothing owed. */
  lemma LazyRefinesEagerIff(t: Tables, events: seq<Event>)
    requires Inv(t)
    ensures (forall n | 0 <= n <= |events| :: Observed(LazyEvents(t, events[..n])) == EagerEvents(Observed(t), events[..n])) <==>
              ResetsAreSettled(t, events)
  {
    if ResetsAreSettled(t, events) {
      forall n | 0 <= n <= |events|
        ensures Observed(LazyEvents(t, events[..n])) == EagerEvents(Observed(t), events[..n])
      {
        SettledRunIsEager(t, events, n);
      }
    } else {
      var n := UnsettledRunDiffers(t, events);
    }
  }

  // ---- A reset that gives spent pool back

  lemma TickAndMonth(start: Tables, node: NodeId, deltas: map<UserId, int>)
    requires node in start.bsNodes
    ensures LazyRun(start, [RecordTick(node, deltas), NextMonth]) == Record(start, node, deltas).(month := start.month + 1)
  {
    var steps := [RecordTick(node, deltas), NextMonth];
    assert steps[1..] == [NextMonth] && [NextMonth][1..] == [];
    assert LazyRun(LazyStep(start, steps[0]), [NextMonth]) == LazyStep(LazyStep(start, steps[0]), NextMonth);
  }

  lemma OneStaleCounter(t: Tables, k: Key)
    requires k in t.rows && k.1 in t.users && t.users[k.1].period.Some?
    requires StaleKeys(t, k.1, t.users[k.1].period.value) == {k}
    ensures StaleUsage(t, k.1, t.users[k.1].period.value) == t.rows[k].used
  {
    UsageAdd(t.rows, {}, k);
    UsageOfNone(t.rows);
    assert {} + {k} == {k};
  }

  /** A run of one tick and one month change, from a panel without counters, after which the deletion gives back three
      units of spent pool. */
  lemma DropCountersLosesACharge()
    ensures var start := Tables({1}, 10, 4, map[], map[7 := UserRow(Some(8), Some(4))], {});
            var t := LazyRun(start, [RecordTick(1, map[7 := 13]), NextMonth]);
            && Inv(start) && NormalizedPool(t, 7) == 5
            && NormalizedPool(DropCounters(t, 7), 7) == 8
  {
    var start := Tables({1}, 10, 4, map[], map[7 := UserRow(Some(8), Some(4))], {});
    var t := Record(start, 1, map[7 := 13]).(month := 5);
    TickAndMonth(start, 1, map[7 := 13]);
    assert t.users == start.users;
    assert t.rows == map[(1, 7) := Counter(13, 4)];
    assert StaleKeys(t, 7, 4) == {(1, 7)};
    OneStaleCounter(t, (1, 7));
    assert StaleKeys(DropCounters(t, 7), 7, 4) == {};
    UsageOfNone(DropCounters(t, 7).rows);
  }
}
