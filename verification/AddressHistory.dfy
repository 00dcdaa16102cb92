/** The journal: what a user was given on a past day, recomputed from data loaded for a whole range of days.

    The tables it reads are values here: weight snapshots by day, pin rows in the order the queries return
    them, the moments of manual rotations, and the daily composition of every host. */
module AddressHistory {
  import opened Options
  import opened AddressPolicy
  import opened AddressContext

  type Time = int
  type Snapshots = map<int, map<NodeId, real>>

  const DAY: Time := 86_400_000_000
  const WEIGHT_SNAPSHOT_MAX_AGE_DAYS := 2
  const ARCHIVE_RETENTION_DAYS := 90

  function DayStartAt(day: int): Time {
    day * DAY
  }

  function DayIndex(now: Time): int {
    now / DAY
  }

  // ---- Weight snapshots

  ghost predicate IsLatest(days: set<int>, day: int, latest: int) {
    latest in days && latest <= day && forall d | d in days && d <= day :: d <= latest
  }

  lemma LatestExists(days: set<int>, day: int)
    requires exists d :: d in days && d <= day
    ensures exists latest :: IsLatest(days, day, latest)
    decreases |days|
  {
    var d :| d in days && d <= day;
    var rest := days - {d};
    assert forall e | e in days && e != d :: e in rest;
    if exists e :: e in rest && e <= day {
      LatestExists(rest, day);
      var latest :| IsLatest(rest, day, latest);
      assert IsLatest(days, day, Max(d, latest));
    } else {
      assert IsLatest(days, day, d);
    }
  }

  /** The nearest snapshot not after the day, unless it is too old. The per-day query and the journal state
      this rule separately; the two differ only in the table they see. */
  ghost function NearestSnapshot(table: Snapshots, day: int): map<NodeId, real> {
    if exists d :: d in table && d <= day then
      assert exists d :: d in table.Keys && d <= day;
      LatestExists(table.Keys, day);
      var latest :| IsLatest(table.Keys, day, latest);
      if day - latest > WEIGHT_SNAPSHOT_MAX_AGE_DAYS then map[] else table[latest]
    else map[]
  }

  /** The snapshots a range query loads. */
  function SnapshotsInRange(table: Snapshots, firstDay: int, lastDay: int): Snapshots {
    map d | d in table && firstDay - WEIGHT_SNAPSHOT_MAX_AGE_DAYS <= d <= lastDay :: table[d]
  }

  /** Tables that agree on the last three days give the same snapshot. */
  lemma NearestDependsOnThreeDays(a: Snapshots, b: Snapshots, day: int)
    requires forall d | day - WEIGHT_SNAPSHOT_MAX_AGE_DAYS <= d <= day :: d in a <==> d in b
    requires forall d | day - WEIGHT_SNAPSHOT_MAX_AGE_DAYS <= d <= day && d in a :: a[d] == b[d]
    ensures NearestSnapshot(a, day) == NearestSnapshot(b, day)
  {
    if d :| d in a && d <= day {
      assert d in a.Keys;
      LatestExists(a.Keys, day);
    }
    if d :| d in b && d <= day {
      assert d in b.Keys;
      LatestExists(b.Keys, day);
    }
  }

  /** A range that starts 90 days early answers for a snapshot day, whatever the table holds, exactly when that
      day is not before the start. */
  lemma RangeAnswersIff(firstDay: int, lastDay: int, snapshotDay: int)
    requires snapshotDay <= lastDay
    ensures (forall table: Snapshots ::
               NearestSnapshot(SnapshotsInRange(table, firstDay - ARCHIVE_RETENTION_DAYS, lastDay), snapshotDay) ==
               NearestSnapshot(table, snapshotDay))
            <==> firstDay - ARCHIVE_RETENTION_DAYS <= snapshotDay
  {
    if firstDay - ARCHIVE_RETENTION_DAYS <= snapshotDay {
      forall table: Snapshots
        ensures NearestSnapshot(SnapshotsInRange(table, firstDay - ARCHIVE_RETENTION_DAYS, lastDay), snapshotDay) ==
                NearestSnapshot(table, snapshotDay)
      {
        NearestDependsOnThreeDays(SnapshotsInRange(table, firstDay - ARCHIVE_RETENTION_DAYS, lastDay), table, snapshotDay);
      }
    } else {
      var oldest := snapshotDay - WEIGHT_SNAPSHOT_MAX_AGE_DAYS;
      var table: Snapshots := map[oldest := map[0 := 1.0]];
      var loaded := SnapshotsInRange(table, firstDay - ARCHIVE_RETENTION_DAYS, lastDay);
      assert loaded == map[];
      assert oldest in table && IsLatest(table.Keys, snapshotDay, oldest);
      assert NearestSnapshot(table, snapshotDay) == map[0 := 1.0];
      assert NearestSnapshot(loaded, snapshotDay) == map[];
      assert 0 in NearestSnapshot(table, snapshotDay);
    }
  }

  ghost function WeightsFor(h: Hashes, user: int, table: Snapshots, day: int, periodDays: int): map<NodeId, real> {
    NearestSnapshot(table, EpochStartDay(h, user, day, periodDays))
  }

  ghost predicate RangeAnswers(h: Hashes, user: int, table: Snapshots, firstDay: int, day: int, lastDay: int, periodDays: int) {
    WeightsFor(h, user, SnapshotsInRange(table, firstDay - ARCHIVE_RETENTION_DAYS, lastDay), day, periodDays) ==
    WeightsFor(h, user, table, day, periodDays)
  }

  /** The range query and the per-day query agree for every user, day and table exactly when the rotation
      period is at most 91 days. */
  lemma RangeAnswersPeriodIff(periodDays: int)
    ensures (forall h: Hashes, user, table: Snapshots, firstDay, day, lastDay |
               firstDay <= day <= lastDay :: RangeAnswers(h, user, table, firstDay, day, lastDay, periodDays))
            <==> periodDays <= ARCHIVE_RETENTION_DAYS + 1
  {
    if periodDays <= ARCHIVE_RETENTION_DAYS + 1 {
      forall h: Hashes, user, table: Snapshots, firstDay, day, lastDay | firstDay <= day <= lastDay
        ensures RangeAnswers(h, user, table, firstDay, day, lastDay, periodDays)
      {
        EpochContainsDay(h, user, day, periodDays);
        RangeAnswersIff(firstDay, lastDay, EpochStartDay(h, user, day, periodDays));
      }
    } else {
      LongPeriodFails(periodDays);
    }
  }

  lemma LongPeriodFails(periodDays: int)
    requires periodDays > ARCHIVE_RETENTION_DAYS + 1
    ensures exists h: Hashes, table: Snapshots, day :: !RangeAnswers(h, 0, table, day, day, day, periodDays)
  {
    var h := Hashes((u, k, e) => 1.0, u => 1.0);
    var day := periodDays - 1;
    assert (1.0 * periodDays as real).Floor == periodDays;
    assert Smear(h, 0, periodDays) == 0;
    assert EpochStartDay(h, 0, day, periodDays) == 0;
    RangeAnswersIff(day, day, 0);
    var table: Snapshots :|
      NearestSnapshot(SnapshotsInRange(table, day - ARCHIVE_RETENTION_DAYS, day), 0) != NearestSnapshot(table, 0);
    assert !RangeAnswers(h, 0, table, day, day, day, periodDays);
  }

  // ---- Pins

  datatype PinRow = PinRow(id: int, host: HostId, nodes: seq<NodeId>, createdAt: Time, expiresAt: Time) {
    predicate Covers(start: Time, end: Time) {
      createdAt < end && expiresAt > start
    }
  }

  /** The order of the queries: by host, then by creation, then by id. */
  predicate Older(a: PinRow, b: PinRow) {
    a.createdAt < b.createdAt || (a.createdAt == b.createdAt && a.id < b.id)
  }

  predicate Lives(pin: PinRow, t: Time) {
    pin.createdAt <= t < pin.expiresAt
  }

  /** A pin that exists for a while covers a span of time exactly when some moment of the span lies in its life. */
  lemma CoversIff(pin: PinRow, start: Time, end: Time)
    requires pin.createdAt < pin.expiresAt && start < end
    ensures pin.Covers(start, end) <==> exists t: Time :: start <= t < end && Lives(pin, t)
  {
    if pin.Covers(start, end) {
      var t := Max(start, pin.createdAt);
      assert start <= t < end && Lives(pin, t);
    }
  }

  /** Rows with different keys are ordered, one way, and earlier creation comes before the key. */
  lemma OlderIsAnOrder(a: PinRow, b: PinRow, c: PinRow)
    ensures !(Older(a, b) && Older(b, a)) && (Older(a, b) && Older(b, c) ==> Older(a, c))
    ensures (a.createdAt, a.id) != (b.createdAt, b.id) ==> Older(a, b) || Older(b, a)
    ensures Older(a, b) ==> a.createdAt <= b.createdAt
    ensures a.createdAt == b.createdAt ==> (Older(a, b) <==> a.id < b.id)
  {
  }

  ghost predicate InQueryOrder(rows: seq<PinRow>) {
    forall i, j | 0 <= i < j < |rows| :: rows[i].host < rows[j].host || (rows[i].host == rows[j].host && Older(rows[i], rows[j]))
  }

  function Covering(rows: seq<PinRow>, start: Time, end: Time): seq<PinRow> {
    if rows == [] then []
    else
      var last := rows[|rows| - 1];
      Covering(rows[..|rows| - 1], start, end) + (if last.Covers(start, end) then [last] else [])
  }

  /** Writing rows into a dictionary keyed by host: the last one wins. */
  function LastPerHost(rows: seq<PinRow>): map<HostId, seq<NodeId>> {
    if rows == [] then map[]
    else
      var last := rows[|rows| - 1];
      LastPerHost(rows[..|rows| - 1])[last.host := last.nodes]
  }

  function PinsCoveringDay(rows: seq<PinRow>, day: int): map<HostId, seq<NodeId>> {
    LastPerHost(Covering(rows, DayStartAt(day), DayStartAt(day + 1)))
  }

  lemma CoveringLast(rows: seq<PinRow>, start: Time, end: Time)
    requires rows != []
    ensures var before, last := LastPerHost(Covering(rows[..|rows| - 1], start, end)), rows[|rows| - 1];
            LastPerHost(Covering(rows, start, end)) ==
            if last.Covers(start, end) then before[last.host := last.nodes] else before
  {
    var inner, last := Covering(rows[..|rows| - 1], start, end), rows[|rows| - 1];
    assert (inner + [last])[..|inner|] == inner;
    assert inner + [] == inner;
  }

  method PinsOnDay(loaded: seq<PinRow>, dayStart: Time, dayEnd: Time) returns (result: map<HostId, seq<NodeId>>)
    ensures result == LastPerHost(Covering(loaded, dayStart, dayEnd))
  {
    result := map[];
    for i := 0 to |loaded|
      invariant result == LastPerHost(Covering(loaded[..i], dayStart, dayEnd))
    {
      var pin := loaded[i];
      assert loaded[..i + 1][..i] == loaded[..i];
      CoveringLast(loaded[..i + 1], dayStart, dayEnd);
      if pin.createdAt < dayEnd && pin.expiresAt > dayStart {
        result := result[pin.host := pin.nodes];
      }
    }
    assert loaded[..|loaded|] == loaded;
  }

  lemma {:induction false} CoveringTwice(rows: seq<PinRow>, a: Time, b: Time, start: Time, end: Time)
    requires a <= start && end <= b
    ensures Covering(Covering(rows, a, b), start, end) == Covering(rows, start, end)
  {
    if rows != [] {
      var before, last := rows[..|rows| - 1], rows[|rows| - 1];
      CoveringTwice(before, a, b, start, end);
      var inner := Covering(before, a, b);
      if last.Covers(a, b) {
        assert (inner + [last])[..|inner|] == inner;
      } else {
        assert inner + [] == inner;
      }
    }
  }

  /** Loading the pins of a range first loses no pin of a day in it. */
  lemma RangePinsAnswer(rows: seq<PinRow>, firstDay: int, day: int, lastDay: int)
    requires firstDay <= day <= lastDay
    ensures LastPerHost(Covering(Covering(rows, DayStartAt(firstDay), DayStartAt(lastDay + 1)), DayStartAt(day), DayStartAt(day + 1))) ==
            PinsCoveringDay(rows, day)
  {
    CoveringTwice(rows, DayStartAt(firstDay), DayStartAt(lastDay + 1), DayStartAt(day), DayStartAt(day + 1));
  }

  ghost predicate IsNewestPin(rows: seq<PinRow>, host: HostId, start: Time, end: Time, pin: PinRow) {
    && pin in rows && pin.host == host && pin.Covers(start, end)
    && forall p | p in rows && p.host == host && p.Covers(start, end) && p != pin :: Older(p, pin)
  }

  /** A host is pinned exactly by its newest covering pin. */
  lemma {:induction false} NewestPinWins(rows: seq<PinRow>, host: HostId, start: Time, end: Time) returns (pin: Option<PinRow>)
    requires InQueryOrder(rows)
    ensures var pins := LastPerHost(Covering(rows, start, end));
            match pin
            case Some(p) => IsNewestPin(rows, host, start, end, p) && host in pins && pins[host] == p.nodes
            case None => host !in pins && forall p | p in rows && p.host == host :: !p.Covers(start, end)
  {
    if rows == [] {
      return None;
    }
    var before, last := rows[..|rows| - 1], rows[|rows| - 1];
    assert rows == before + [last];
    pin := NewestPinWins(before, host, start, end);
    CoveringLast(rows, start, end);
    if last.host == host && last.Covers(start, end) {
      pin := Some(last);
    }
  }

  /** The pins a subscription rendered at `now` sees: rows that exist by then and are not expired. */
  function ActivePins(rows: seq<PinRow>, now: Time): map<HostId, seq<NodeId>> {
    LastPerHost(Covering(rows, now, now + 1))
  }

  /** Pins of one host that cover the day also cover the moment. */
  ghost predicate PinsStayAllDay(rows: seq<PinRow>, host: HostId, day: int, now: Time) {
    forall p | p in rows && p.host == host && p.Covers(DayStartAt(day), DayStartAt(day + 1)) :: p.Covers(now, now + 1)
  }

  lemma {:induction false} ActivePinsOfTheDay(rows: seq<PinRow>, host: HostId, day: int, now: Time)
    requires DayIndex(now) == day && PinsStayAllDay(rows, host, day, now)
    ensures host in ActivePins(rows, now) <==> host in PinsCoveringDay(rows, day)
    ensures host in ActivePins(rows, now) ==> ActivePins(rows, now)[host] == PinsCoveringDay(rows, day)[host]
  {
    if rows != [] {
      var before, last := rows[..|rows| - 1], rows[|rows| - 1];
      assert forall p | p in before :: p in rows;
      ActivePinsOfTheDay(before, host, day, now);
      assert DayStartAt(day) <= now < DayStartAt(day + 1);
      assert last in rows;
      CoveringLast(rows, now, now + 1);
      CoveringLast(rows, DayStartAt(day), DayStartAt(day + 1));
    }
  }

  // ---- Manual rotations

  /** How many rotations happened by a moment: the offset in force. */
  function OffsetAt(rotations: seq<Time>, t: Time): nat {
    if rotations == [] then 0
    else OffsetAt(rotations[..|rotations| - 1], t) + (if rotations[|rotations| - 1] <= t then 1 else 0)
  }

  function LastRotation(rotations: seq<Time>): Option<Time> {
    if rotations == [] then None else Some(rotations[|rotations| - 1])
  }

  predicate DayOffsetKnown(rotationAt: Option<Time>, day: int) {
    rotationAt == None || DayStartAt(day) >= rotationAt.value
  }

  lemma {:induction false} OffsetBounded(rotations: seq<Time>, t: Time)
    ensures OffsetAt(rotations, t) <= |rotations|
    ensures (forall r | r in rotations :: r <= t) ==> OffsetAt(rotations, t) == |rotations|
  {
    if rotations != [] {
      var before := rotations[..|rotations| - 1];
      OffsetBounded(before, t);
      assert forall r | r in before :: r in rotations;
      assert rotations[|rotations| - 1] in rotations;
    }
  }

  /** Today's offset was in force on a day, from its start on, exactly when the journal takes it as known. */
  lemma OffsetKnownIff(rotations: seq<Time>, day: int)
    requires forall i, j | 0 <= i < j < |rotations| :: rotations[i] <= rotations[j]
    ensures DayOffsetKnown(LastRotation(rotations), day) <==>
            forall t | t >= DayStartAt(day) :: OffsetAt(rotations, t) == |rotations|
  {
    if DayOffsetKnown(LastRotation(rotations), day) {
      forall t | t >= DayStartAt(day)
        ensures OffsetAt(rotations, t) == |rotations|
      {
        OffsetBounded(rotations, t);
      }
    } else {
      OffsetBounded(rotations[..|rotations| - 1], DayStartAt(day));
      assert OffsetAt(rotations, DayStartAt(day)) < |rotations|;
    }
  }
}
