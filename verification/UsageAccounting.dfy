/** Where the traffic of a tick goes: to users and to their admins. Nothing is counted twice and nothing is lost. */
module UsageAccounting {
  import opened Options
  import opened Sums
  import opened BsLimit
  import opened BsLedger

  type AdminId = int
  type Time = int

  // ---- Users and admins

  datatype NodeStats = NodeStats(coefficient: real, params: seq<Param>)

  function UsageOf(stats: seq<NodeStats>): map<UserId, int> {
    if stats == [] then map[]
    else
      var last := stats[|stats| - 1];
      Plus(UsageOf(stats[..|stats| - 1]), DeltasOf(last.params, last.coefficient))
  }

  /** All traffic of a parameter list, user by user or not. */
  function ParamsTraffic(params: seq<Param>, coefficient: real): int {
    if params == [] then 0
    else ParamsTraffic(params[..|params| - 1], coefficient) + Scaled(params[|params| - 1].value, coefficient)
  }

  function TickTraffic(stats: seq<NodeStats>): int {
    if stats == [] then 0
    else
      var last := stats[|stats| - 1];
      TickTraffic(stats[..|stats| - 1]) + ParamsTraffic(last.params, last.coefficient)
  }

  lemma DeltasConserveLast(params: seq<Param>, last: Param, coefficient: real)
    ensures SumValues(DeltasOf(params + [last], coefficient)) ==
            SumValues(DeltasOf(params, coefficient)) + Scaled(last.value, coefficient)
  {
    DeltasLast(params, last, coefficient);
    SumBump(DeltasOf(params, coefficient), last.uid, Scaled(last.value, coefficient));
  }

  lemma {:induction false} DeltasConserve(params: seq<Param>, coefficient: real)
    ensures SumValues(DeltasOf(params, coefficient)) == ParamsTraffic(params, coefficient)
  {
    if params == [] {
      assert DeltasOf(params, coefficient) == map[];
    } else {
      var before, last := params[..|params| - 1], params[|params| - 1];
      DeltasConserve(before, coefficient);
      assert params == before + [last];
      DeltasConserveLast(before, last, coefficient);
    }
  }

  /** Conservation: the increments of the users add up to the traffic of the nodes. */
  lemma {:induction false} UsageConserves(stats: seq<NodeStats>)
    ensures SumValues(UsageOf(stats)) == TickTraffic(stats)
  {
    if stats != [] {
      var before, last := stats[..|stats| - 1], stats[|stats| - 1];
      UsageConserves(before);
      DeltasConserve(last.params, last.coefficient);
      SumPlus(UsageOf(before), DeltasOf(last.params, last.coefficient));
    }
  }

  /** Conservation: the increments of the admins add up to those of the users that have an admin. */
  lemma AdminUsageConserves(stats: seq<NodeStats>, adminOf: map<UserId, AdminId>)
    ensures SumValues(Grouped(UsageOf(stats), adminOf)) == SumValues(InSomeGroup(UsageOf(stats), adminOf))
    ensures UsageOf(stats).Keys <= adminOf.Keys ==> SumValues(Grouped(UsageOf(stats), adminOf)) == TickTraffic(stats)
  {
    GroupedSum(UsageOf(stats), adminOf);
    UsageConserves(stats);
    if UsageOf(stats).Keys <= adminOf.Keys {
      assert InSomeGroup(UsageOf(stats), adminOf) == UsageOf(stats);
    }
  }

  // ---- What one user is charged

  /** What a user passed through all nodes, each time the node's coefficient. */
  ghost function ExactUsage(stats: seq<NodeStats>, u: UserId): real {
    if stats == [] then 0.0
    else
      var last := stats[|stats| - 1];
      ExactUsage(stats[..|stats| - 1], u) + Product(RawTotal(last.params, u), last.coefficient)
  }

  function EntryCount(stats: seq<NodeStats>, u: UserId): nat {
    if stats == [] then 0
    else EntryCount(stats[..|stats| - 1], u) + ParamCount(stats[|stats| - 1].params, u)
  }

  ghost predicate Measured(stats: seq<NodeStats>) {
    forall s | s in stats :: NoNegatives(s.params) && s.coefficient >= 0.0
  }

  lemma UsageFallsShortStep(before: map<UserId, int>, exact: real, count: nat, last: NodeStats, u: UserId)
    requires NoNegatives(last.params) && last.coefficient >= 0.0 && FallsShort(Lookup(before, u), exact, count)
    ensures FallsShort(Lookup(Plus(before, DeltasOf(last.params, last.coefficient)), u),
                       exact + Product(RawTotal(last.params, u), last.coefficient), count + ParamCount(last.params, u))
  {
    var deltas := DeltasOf(last.params, last.coefficient);
    DeltaFallsShort(last.params, last.coefficient, u);
    FallsShortSum(Lookup(before, u), exact, count, Lookup(deltas, u), Product(RawTotal(last.params, u), last.coefficient), ParamCount(last.params, u));
  }

  /** A user is charged the exact amount, less than one unit per entry below it. */
  lemma {:induction false} UsageFallsShort(stats: seq<NodeStats>, u: UserId)
    requires Measured(stats)
    ensures FallsShort(Lookup(UsageOf(stats), u), ExactUsage(stats, u), EntryCount(stats, u))
  {
    if stats != [] {
      var before, last := stats[..|stats| - 1], stats[|stats| - 1];
      assert last in stats && forall s | s in before :: s in stats;
      UsageFallsShort(before, u);
      UsageFallsShortStep(UsageOf(before), ExactUsage(before, u), EntryCount(before, u), last, u);
    }
  }

  method CollectUsage(stats: seq<NodeStats>) returns (usage: map<UserId, int>)
    ensures usage == UsageOf(stats)
    ensures Measured(stats) ==> forall u :: FallsShort(Lookup(usage, u), ExactUsage(stats, u), EntryCount(stats, u))
  {
    if Measured(stats) {
      forall u: UserId {
        UsageFallsShort(stats, u);
      }
    }
    usage := map[];
    for i := 0 to |stats|
      invariant usage == UsageOf(stats[..i])
    {
      usage := AddParams(usage, stats[i].params, stats[i].coefficient);
      assert stats[..i + 1][..i] == stats[..i];
    }
    assert stats[..|stats|] == stats;
  }

  // ---- The rows of users and admins

  /** Only rows that exist are updated. */
  function Increased<K>(totals: map<K, int>, more: map<K, int>): map<K, int> {
    map k | k in totals :: totals[k] + Lookup(more, k)
  }

  /** The rows that exist grow by what is recorded for them, and by nothing else. */
  lemma IncreasedSum<K>(totals: map<K, int>, more: map<K, int>)
    ensures SumValues(Increased(totals, more)) == SumValues(totals) + SumValues(map k | k in more && k in totals :: more[k])
  {
    var hit := map k | k in more && k in totals :: more[k];
    assert Increased(totals, more) == Plus(totals, hit);
    SumPlus(totals, hit);
  }

  /** When a row exists for everything recorded, all of it arrives. */
  lemma AllArrives<K>(totals: map<K, int>, more: map<K, int>)
    requires more.Keys <= totals.Keys
    ensures SumValues(Increased(totals, more)) == SumValues(totals) + SumValues(more)
  {
    assert (map k | k in more && k in totals :: more[k]) == more;
    IncreasedSum(totals, more);
  }

  function SeenAt(onlineAt: map<UserId, Time>, users: set<UserId>, now: Time): map<UserId, Time> {
    onlineAt + map u | u in users :: now
  }

  /** A user without an admin has no entry in `adminOf`; when the admins could not be looked up their totals are skipped
      for this tick. */
  ghost function AdminUsage(usage: map<UserId, int>, adminOf: Option<map<UserId, AdminId>>): map<AdminId, int> {
    if adminOf == None then map[] else Grouped(usage, adminOf.value)
  }

  lemma NothingRecorded<K>(totals: map<K, int>)
    ensures Increased(totals, map[]) == totals
  {
  }

  lemma NothingCharged(users: map<UserId, int>, onlineAt: map<UserId, Time>, admins: map<AdminId, int>, usage: map<UserId, int>,
                       adminOf: Option<map<UserId, AdminId>>, now: Time)
    requires usage == map[]
    ensures Increased(users, usage) == users
    ensures SeenAt(onlineAt, users.Keys * usage.Keys, now) == onlineAt
    ensures Increased(admins, AdminUsage(usage, adminOf)) == admins
  {
    assert users.Keys * usage.Keys == {};
    assert AdminUsage(usage, adminOf) == map[];
  }

  /** Every user row grows by what the user is charged for this tick. */
  ghost predicate UsersCharged(before: map<UserId, int>, after: map<UserId, int>, stats: seq<NodeStats>) {
    && after.Keys == before.Keys
    && (forall u | u in before :: after[u] - before[u] == Lookup(UsageOf(stats), u))
    && (Measured(stats) ==> forall u | u in before :: FallsShort(after[u] - before[u], ExactUsage(stats, u), EntryCount(stats, u)))
    && (UsageOf(stats).Keys <= before.Keys ==> SumValues(after) == SumValues(before) + TickTraffic(stats))
  }

  /** The admin rows grow together by the traffic of the users that have an admin, when all these admins have a row. */
  ghost predicate AdminsCharged(before: map<AdminId, int>, after: map<AdminId, int>, stats: seq<NodeStats>, adminOf: Option<map<UserId, AdminId>>) {
    && after.Keys == before.Keys
    && (adminOf == None ==> after == before)
    && (adminOf.Some? && adminOf.value.Values <= before.Keys ==>
          SumValues(after) == SumValues(before) + SumValues(InSomeGroup(UsageOf(stats), adminOf.value)))
    && (adminOf.Some? && adminOf.value.Values <= before.Keys && UsageOf(stats).Keys <= adminOf.value.Keys ==>
          SumValues(after) == SumValues(before) + TickTraffic(stats))
  }

  ghost predicate Seen(before: map<UserId, Time>, after: map<UserId, Time>, users: set<UserId>, now: Time) {
    && after.Keys == before.Keys + users
    && forall u | u in after :: after[u] == if u in users then now else before[u]
  }

  lemma ChargedUsers(before: map<UserId, int>, stats: seq<NodeStats>)
    ensures UsersCharged(before, Increased(before, UsageOf(stats)), stats)
  {
    if UsageOf(stats).Keys <= before.Keys {
      AllArrives(before, UsageOf(stats));
      UsageConserves(stats);
    }
    if Measured(stats) {
      forall u | u in before
        ensures FallsShort(Lookup(UsageOf(stats), u), ExactUsage(stats, u), EntryCount(stats, u))
      {
        UsageFallsShort(stats, u);
      }
    }
  }

  lemma ChargedAdmins(before: map<AdminId, int>, stats: seq<NodeStats>, adminOf: Option<map<UserId, AdminId>>)
    ensures AdminsCharged(before, Increased(before, AdminUsage(UsageOf(stats), adminOf)), stats, adminOf)
  {
    if adminOf == None {
      NothingRecorded(before);
    } else if adminOf.value.Values <= before.Keys {
      assert Grouped(UsageOf(stats), adminOf.value).Keys <= adminOf.value.Values;
      AllArrives(before, Grouped(UsageOf(stats), adminOf.value));
      AdminUsageConserves(stats, adminOf.value);
    }
  }

  lemma SeenUsers(before: map<UserId, Time>, users: set<UserId>, now: Time)
    ensures Seen(before, SeenAt(before, users, now), users, now)
  {
  }

  /** What a tick does to all rows. */
  lemma TickCharges(users: map<UserId, int>, onlineAt: map<UserId, Time>, admins: map<AdminId, int>,
                    stats: seq<NodeStats>, adminOf: Option<map<UserId, AdminId>>, now: Time)
    ensures UsersCharged(users, Increased(users, UsageOf(stats)), stats)
    ensures AdminsCharged(admins, Increased(admins, AdminUsage(UsageOf(stats), adminOf)), stats, adminOf)
    ensures Seen(onlineAt, SeenAt(onlineAt, users.Keys * UsageOf(stats).Keys, now), users.Keys * UsageOf(stats).Keys, now)
  {
    ChargedUsers(users, stats);
    ChargedAdmins(admins, stats, adminOf);
    SeenUsers(onlineAt, users.Keys * UsageOf(stats).Keys, now);
  }

  class Accounts {
    var usedTraffic: map<UserId, int>
    var onlineAt: map<UserId, Time>
    var usersUsage: map<AdminId, int>

    constructor (usedTraffic: map<UserId, int>, usersUsage: map<AdminId, int>)
      ensures this.usedTraffic == usedTraffic && this.usersUsage == usersUsage && onlineAt == map[]
    {
      this.usedTraffic, this.usersUsage, onlineAt := usedTraffic, usersUsage, map[];
    }

    method RecordUserUsages(stats: seq<NodeStats>, adminOf: Option<map<UserId, AdminId>>, now: Time)
      modifies this
      ensures usedTraffic == Increased(old(usedTraffic), UsageOf(stats))
      ensures onlineAt == SeenAt(old(onlineAt), old(usedTraffic.Keys) * UsageOf(stats).Keys, now)
      ensures usersUsage == Increased(old(usersUsage), AdminUsage(UsageOf(stats), adminOf))
      ensures UsersCharged(old(usedTraffic), usedTraffic, stats)
      ensures AdminsCharged(old(usersUsage), usersUsage, stats, adminOf)
      ensures Seen(old(onlineAt), onlineAt, old(usedTraffic.Keys) * UsageOf(stats).Keys, now)
    {
      ghost var users, seen, admins := usedTraffic, onlineAt, usersUsage;
      var usage := CollectUsage(stats);
      if usage == map[] {
        NothingCharged(users, seen, admins, usage, adminOf, now);
        TickCharges(users, seen, admins, stats, adminOf, now);
        return;
      }
      var adminUsage := map[];
      if adminOf.Some? {
        adminUsage := GroupTotals(usage, adminOf.value);
      }
      onlineAt := SeenAt(onlineAt, usedTraffic.Keys * usage.Keys, now);
      usedTraffic := Increased(usedTraffic, usage);
      usersUsage := Increased(usersUsage, adminUsage);
      TickCharges(users, seen, admins, stats, adminOf, now);
    }
  }
}
