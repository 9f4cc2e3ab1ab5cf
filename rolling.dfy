/**
 * The rolling aggregator: the keyed table of usage records, and what a valid
 * report does to it. The weekly and monthly counts of a record are recomputed
 * from the trailing 7 and 30 days every time the record is written, so a
 * second report for the same entity and day replaces the first.
 */
module Rolling {
  import opened UsageTypes

  /** One usage record per (entity id, day). */
  type Records = map<(EntityId, Day), UsageRecord>

  /** The length of the weekly and of the monthly rolling window, in days. */
  const WeekDays: nat := 7
  const MonthDays: nat := 30

  function Min(a: int, b: int): int
  {
    if a <= b then a else b
  }

  /** The daily count recorded for `id` on `day`; a day without a record counts as 0. */
  function DailyOn(records: Records, id: EntityId, day: Day): nat
  {
    if (id, day) in records then records[(id, day)].dailyStats.count else 0
  }

  /** The sum of the daily counts of `id` over the `n` days strictly before `day`. */
  function PriorSum(records: Records, id: EntityId, day: Day, n: nat): nat
    decreases n
  {
    if n == 0 || day == 0 then 0
    else DailyOn(records, id, day - 1) + PriorSum(records, id, day - 1, n - 1)
  }

  /** The record of `id` on `day`, if there is one. */
  function DayRecords(records: Records, id: EntityId, day: Day): seq<UsageRecord>
  {
    if (id, day) in records then [records[(id, day)]] else []
  }

  /**
   * The records of `id` on the `n` days ending at `day`, in descending date
   * order. Days without a record are left out, and no day comes before day 0.
   */
  function Window(records: Records, id: EntityId, day: Day, n: nat): (w: seq<UsageRecord>)
    ensures |w| <= n && |w| <= day + 1
    decreases n
  {
    if n == 0 then []
    else DayRecords(records, id, day) + (if day == 0 then [] else Window(records, id, day - 1, n - 1))
  }

  /** The sum of the daily counts of a sequence of records. */
  function SumDaily(s: seq<UsageRecord>): nat
  {
    if s == [] then 0 else s[0].dailyStats.count + SumDaily(s[1..])
  }

  lemma {:induction false} SumConcat(a: seq<UsageRecord>, b: seq<UsageRecord>)
    ensures SumDaily(a + b) == SumDaily(a) + SumDaily(b)
    decreases |a|
  {
    if a == [] {
      assert a + b == b;
    } else {
      SumConcat(a[1..], b);
      assert (a + b)[1..] == a[1..] + b;
    }
  }

  /**
   * A trailing sum is the sum of the daily counts a query returns for the
   * `n` days before `day`: days without a record count as 0.
   */
  lemma {:induction false} PriorSumIsWindow(records: Records, id: EntityId, day: Day, n: nat)
    ensures PriorSum(records, id, day, n) == (if day == 0 then 0 else SumDaily(Window(records, id, day - 1, n)))
    decreases n
  {
    if n > 0 && day > 0 {
      var head := DayRecords(records, id, day - 1);
      var rest := if day - 1 == 0 then [] else Window(records, id, day - 2, n - 1);
      assert Window(records, id, day - 1, n) == head + rest;
      SumConcat(head, rest);
      assert SumDaily(head) == DailyOn(records, id, day - 1);
      PriorSumIsWindow(records, id, day - 1, n - 1);
    }
  }

  /** The ranks a record keeps when its counts are rewritten. */
  function CarriedRank(prior: Option<UsageRecord>, m: Metric): Option<nat>
  {
    match prior
    case None => None
    case Some(r) =>
      match m
      case Daily => r.dailyStats.percentileRank
      case Weekly => r.weeklyStats.percentileRank
      case Monthly => r.monthlyStats.percentileRank
  }

  /**
   * The record written for a valid report of `count` for `id` on `day`:
   * the weekly and monthly counts add the daily counts of the 6 and the 29
   * days before, and any percentile ranks of a record already there are kept.
   */
  function ReportedRecord(records: Records, entityType: EntityType, id: EntityId, day: Day, count: nat): (r: UsageRecord)
    ensures r.entityType == entityType && r.date == day && r.dailyStats.count == count
    ensures r.weeklyStats.count == count + (if day == 0 then 0 else SumDaily(Window(records, id, day - 1, WeekDays - 1)))
    ensures r.monthlyStats.count == count + (if day == 0 then 0 else SumDaily(Window(records, id, day - 1, MonthDays - 1)))
    ensures (id, day) in records ==>
      && r.dailyStats.percentileRank == records[(id, day)].dailyStats.percentileRank
      && r.weeklyStats.percentileRank == records[(id, day)].weeklyStats.percentileRank
      && r.monthlyStats.percentileRank == records[(id, day)].monthlyStats.percentileRank
    ensures (id, day) !in records ==>
      r.dailyStats.percentileRank.None? && r.weeklyStats.percentileRank.None? && r.monthlyStats.percentileRank.None?
  {
    PriorSumIsWindow(records, id, day, WeekDays - 1);
    PriorSumIsWindow(records, id, day, MonthDays - 1);
    var prior := if (id, day) in records then Some(records[(id, day)]) else None;
    UsageRecord(
      entityType,
      day,
      UsageStats(count, CarriedRank(prior, Daily)),
      UsageStats(count + PriorSum(records, id, day, WeekDays - 1), CarriedRank(prior, Weekly)),
      UsageStats(count + PriorSum(records, id, day, MonthDays - 1), CarriedRank(prior, Monthly)))
  }

  /** The table after a valid report: only the record for (id, day) is written. */
  function Upsert(records: Records, entityType: EntityType, id: EntityId, day: Day, count: nat): (r: Records)
    ensures r.Keys == records.Keys + {(id, day)}
    ensures forall k :: k in records && k != (id, day) ==> r[k] == records[k]
    ensures r[(id, day)].date == day && r[(id, day)].entityType == entityType
    ensures r[(id, day)].dailyStats.count == count
  {
    records[(id, day) := ReportedRecord(records, entityType, id, day, count)]
  }

  /**
   * What every stored record satisfies: it is filed under its own date, it
   * belongs to a registered entity of its own type, and its windows nest
   * (daily <= weekly <= monthly).
   */
  ghost predicate RecordInvariant(records: Records, entities: map<EntityId, EntityType>, k: (EntityId, Day))
    requires k in records
  {
    var r := records[k];
    && FiledUnder(records, k)
    && k.0 in entities && entities[k.0] == r.entityType
    && r.dailyStats.count <= r.weeklyStats.count <= r.monthlyStats.count
  }

  /** The record stored under `k` carries the day of its key as its date. */
  predicate FiledUnder(records: Records, k: (EntityId, Day))
    requires k in records
  {
    records[k].date == k.1
  }

  /** Every stored record is filed under its own date. */
  ghost predicate DatesFiled(records: Records)
  {
    forall k :: k in records ==> FiledUnder(records, k)
  }

  ghost predicate TableInvariant(records: Records, entities: map<EntityId, EntityType>)
  {
    forall k :: k in records ==> RecordInvariant(records, entities, k)
  }

  /** A longer trailing window never sums to less. */
  lemma {:induction false} PriorSumMonotone(records: Records, id: EntityId, day: Day, n: nat, m: nat)
    requires n <= m
    ensures PriorSum(records, id, day, n) <= PriorSum(records, id, day, m)
    decreases n
  {
    if n > 0 && day > 0 {
      PriorSumMonotone(records, id, day - 1, n - 1, m - 1);
    }
  }

  /** A trailing sum reads only the days before `day`. */
  lemma {:induction false} PriorSumFrame(records: Records, other: Records, id: EntityId, day: Day, n: nat)
    requires forall k: Day :: k < day ==> DailyOn(records, id, k) == DailyOn(other, id, k)
    ensures PriorSum(records, id, day, n) == PriorSum(other, id, day, n)
    decreases n
  {
    if n > 0 && day > 0 {
      PriorSumFrame(records, other, id, day - 1, n - 1);
    }
  }

  /** When each of the earlier days holds the count `c`, a trailing sum of `n` days is `min(day, n) * c`. */
  lemma {:induction false} PriorSumSteady(records: Records, id: EntityId, day: Day, n: nat, c: nat)
    requires forall k: Day :: k < day ==> DailyOn(records, id, k) == c
    ensures PriorSum(records, id, day, n) == Min(day, n) * c
    decreases n
  {
    if n > 0 && day > 0 {
      PriorSumSteady(records, id, day - 1, n - 1, c);
      assert Min(day, n) == Min(day - 1, n - 1) + 1;
    }
  }

  /** A valid report keeps the table invariant, in particular the nesting of the windows. */
  lemma UpsertKeepsInvariant(records: Records, entities: map<EntityId, EntityType>, entityType: EntityType,
                             id: EntityId, day: Day, count: nat)
    requires TableInvariant(records, entities)
    requires id in entities && entities[id] == entityType
    ensures TableInvariant(Upsert(records, entityType, id, day, count), entities)
  {
    PriorSumMonotone(records, id, day, WeekDays - 1, MonthDays - 1);
  }

  /**
   * The last report for an (entity, day) wins: reporting `c1` and then `c2`
   * leaves the same table as reporting `c2` alone. The earlier count is
   * replaced, not added to, and the record's ranks are carried the same way.
   */
  lemma LastReportWins(records: Records, entityType: EntityType, id: EntityId, day: Day, c1: nat, c2: nat)
    ensures Upsert(Upsert(records, entityType, id, day, c1), entityType, id, day, c2)
         == Upsert(records, entityType, id, day, c2)
  {
    var once := Upsert(records, entityType, id, day, c1);
    var second := ReportedRecord(records, entityType, id, day, c2);
    ReportOverReport(records, entityType, id, day, c1, c2);
    assert once == records[(id, day) := ReportedRecord(records, entityType, id, day, c1)];
    assert once[(id, day) := second] == records[(id, day) := second];
  }

  /** The record a second report writes does not depend on the first: the earlier days are the same, and so are the carried ranks. */
  lemma ReportOverReport(records: Records, entityType: EntityType, id: EntityId, day: Day, c1: nat, c2: nat)
    ensures ReportedRecord(Upsert(records, entityType, id, day, c1), entityType, id, day, c2)
         == ReportedRecord(records, entityType, id, day, c2)
  {
    var once := Upsert(records, entityType, id, day, c1);
    forall k: Day | k < day ensures DailyOn(once, id, k) == DailyOn(records, id, k) {
      assert (id, k) != (id, day);
    }
    PriorSumFrame(once, records, id, day, WeekDays - 1);
    PriorSumFrame(once, records, id, day, MonthDays - 1);
  }

  /** Reporting the same count twice for an (entity, day) gives the same table as reporting it once. */
  lemma ReportIdempotent(records: Records, entityType: EntityType, id: EntityId, day: Day, c: nat)
    ensures Upsert(Upsert(records, entityType, id, day, c), entityType, id, day, c)
         == Upsert(records, entityType, id, day, c)
  {
    LastReportWins(records, entityType, id, day, c, c);
  }

  /**
   * A report of `s` after a steady history of `c` per earlier day gives the
   * weekly count `min(day, 6) * c + s` and the monthly count `min(day, 29) * c + s`.
   */
  lemma SteadyHistoryRolling(records: Records, entityType: EntityType, id: EntityId, day: Day, c: nat, s: nat)
    requires forall k: Day :: k < day ==> DailyOn(records, id, k) == c
    ensures var r := Upsert(records, entityType, id, day, s)[(id, day)];
      && r.dailyStats.count == s
      && r.weeklyStats.count == Min(day, WeekDays - 1) * c + s
      && r.monthlyStats.count == Min(day, MonthDays - 1) * c + s
  {
    PriorSumSteady(records, id, day, WeekDays - 1, c);
    PriorSumSteady(records, id, day, MonthDays - 1, c);
  }

  /**
   * A table that reports `c` on each of the days `0 .. day` has, on `day`,
   * the weekly count `min(day + 1, 7) * c` and the monthly count `min(day + 1, 30) * c`.
   */
  lemma SteadyTableRolling(records: Records, entityType: EntityType, id: EntityId, day: Day, c: nat)
    requires forall k: Day :: k < day ==> DailyOn(records, id, k) == c
    ensures var r := Upsert(records, entityType, id, day, c)[(id, day)];
      && r.weeklyStats.count == Min(day + 1, WeekDays) * c
      && r.monthlyStats.count == Min(day + 1, MonthDays) * c
  {
    SteadyHistoryRolling(records, entityType, id, day, c, c);
    OneMoreDay(day, WeekDays - 1, c);
    OneMoreDay(day, MonthDays - 1, c);
  }

  /** Counting the day itself adds one more `c` to a trailing window of `n` earlier days. */
  lemma OneMoreDay(day: Day, n: nat, c: nat)
    ensures Min(day + 1, n + 1) * c == Min(day, n) * c + c
  {
    var m := Min(day, n);
    assert Min(day + 1, n + 1) == m + 1;
    assert (m + 1) * c == m * c + c;
  }

  /** The first report ever made for an entity has weekly and monthly counts equal to its daily count. */
  lemma FirstReportRolling(records: Records, entityType: EntityType, id: EntityId, day: Day, c: nat)
    requires forall k :: k in records ==> k.0 != id
    ensures var r := Upsert(records, entityType, id, day, c)[(id, day)];
      && r.weeklyStats.count == c && r.monthlyStats.count == c
  {
    SteadyHistoryRolling(records, entityType, id, day, 0, c);
  }
}
