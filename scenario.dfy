/**
 * The usage history of the database-and-tables scenario: ten tables that
 * report the counts 0 .. 9 on each of 32 consecutive days, the database that
 * holds them, whose daily count is the running sum of its tables' counts,
 * and the percentile ranks and query answers that history produces.
 */
module Scenario {
  import opened UsageTypes
  import opened Rolling
  import opened Percentile
  import opened Query
  import opened UsageService

  const TableType: EntityType := "table"
  const DatabaseType: EntityType := "database"

  /** The number of tables and the number of days of usage of the scenario. */
  const TableCount: nat := 10
  const DaysOfUsage: nat := 32

  /** The sum of the counts 0 .. n - 1: the database's daily count once its first n tables have reported. */
  function RunningSum(n: nat): nat
  {
    n * (n - 1) / 2
  }

  lemma RunningSumStep(n: nat)
    ensures RunningSum(n + 1) == RunningSum(n) + n
  {
    assert (n + 1) * n == n * (n - 1) + 2 * n;
  }

  lemma ScaleStrict(scale: nat, j: nat, k: nat)
    requires scale >= 1 && j < k
    ensures scale * j < scale * k
  {
    MulAtLeast(k - j, scale);
    assert (k - j) * scale == scale * k - scale * j;
  }

  /** A cohort whose member `ids[i]` has the count `scale * i` is listed in ascending order by `ids`. */
  lemma ScaledCountsSorted(c: Cohort, ids: seq<EntityId>, scale: nat)
    requires scale >= 1
    requires forall i :: 0 <= i < |ids| ==> ids[i] in c && c[ids[i]] == scale * i
    requires forall e :: e in c ==> e in ids
    ensures SortedListing(c, ids)
  {
    forall i, j | 0 <= i < j < |ids| ensures Precedes(c, ids[i], ids[j]) {
      ScaleStrict(scale, i, j);
    }
  }

  /**
   * Tables whose counts of each metric are the table index times a positive
   * factor get, for every metric, the rank `100 * i / N`: the table with the
   * smallest count gets 0.
   */
  lemma ScaledCountsRank(c: Cohort, ids: seq<EntityId>, scale: nat, i: nat)
    requires scale >= 1 && i < |ids|
    requires forall j :: 0 <= j < |ids| ==> ids[j] in c && c[ids[j]] == scale * j
    requires forall e :: e in c ==> e in ids
    ensures Rank(c, ids[i]) == 100 * i / |ids|
  {
    ScaledCountsSorted(c, ids, scale);
    RankOfSortedPosition(c, ids, i);
  }

  /**
   * On day `d` of the scenario every table `tables[i]` has the daily count
   * `i`, the weekly count `min(d + 1, 7) * i` and the monthly count
   * `min(d + 1, 30) * i`; the percentile pass then gives each table the
   * daily, weekly and monthly rank `100 * i / N`.
   */
  lemma ScenarioRanks(records: Records, tables: seq<EntityId>, d: Day, i: nat)
    requires i < |tables|
    requires CohortIds(records, TableType, d) == set e: EntityId | e in tables
    requires forall j :: 0 <= j < |tables| ==> (tables[j], d) in records
    requires forall j :: 0 <= j < |tables| ==> records[(tables[j], d)].dailyStats.count == j
    requires forall j :: 0 <= j < |tables| ==> records[(tables[j], d)].weeklyStats.count == Min(d + 1, WeekDays) * j
    requires forall j :: 0 <= j < |tables| ==> records[(tables[j], d)].monthlyStats.count == Min(d + 1, MonthDays) * j
    ensures InCohort(records, TableType, d, (tables[i], d))
    ensures var r := Ranked(records, TableType, d)[(tables[i], d)];
      && r.dailyStats.percentileRank == Some(100 * i / |tables|)
      && r.weeklyStats.percentileRank == Some(100 * i / |tables|)
      && r.monthlyStats.percentileRank == Some(100 * i / |tables|)
  {
    assert tables[i] in CohortIds(records, TableType, d);
    var daily := CohortCounts(records, TableType, d, Daily);
    var weekly := CohortCounts(records, TableType, d, Weekly);
    var monthly := CohortCounts(records, TableType, d, Monthly);
    forall j | 0 <= j < |tables| ensures tables[j] in daily {
      assert tables[j] in CohortIds(records, TableType, d);
    }
    ScaledCountsRank(daily, tables, 1, i);
    ScaledCountsRank(weekly, tables, Min(d + 1, WeekDays), i);
    ScaledCountsRank(monthly, tables, Min(d + 1, MonthDays), i);
  }

  /**
   * With a record on each of the 32 days of the scenario, a query at the
   * last day returns as many records as the days it covers.
   */
  lemma FullHistoryQueryLength(records: Records, id: EntityId, n: nat)
    requires forall k: Day :: k < DaysOfUsage ==> (id, k) in records
    requires n <= MaxDays
    ensures |Window(records, id, DaysOfUsage - 1, n)| == n
  {
    WindowFull(records, id, DaysOfUsage - 1, n);
  }

  /**
   * A query on the day after the last report returns one record fewer than
   * the days it covers: missing days are left out.
   */
  lemma DayAfterHistoryQueryLength(records: Records, id: EntityId, n: nat)
    requires forall k: Day :: k < DaysOfUsage ==> (id, k) in records
    requires (id, DaysOfUsage) !in records
    requires 1 <= n <= MaxDays
    ensures |Window(records, id, DaysOfUsage, n)| == n - 1
  {
    DayAfterLastReport(records, id, DaysOfUsage - 1, n);
  }

  /** The history before `day`: table `tables[j]` reported `j` on every earlier day, and the database the sum of all. */
  ghost predicate SteadyHistory(records: Records, tables: seq<EntityId>, db: EntityId, day: Day)
  {
    && (forall j, k: Day :: 0 <= j < |tables| && k < day ==>
          (tables[j], k) in records && DailyOn(records, tables[j], k) == j)
    && (forall k: Day :: k < day ==> (db, k) in records && DailyOn(records, db, k) == RunningSum(|tables|))
  }

  /** No record lies on `day` or later. */
  ghost predicate NothingFrom(records: Records, day: Day)
  {
    forall k :: k in records ==> k.1 < day
  }

  /** The first `t` tables have reported on `day`, with the weekly and monthly counts a steady history gives. */
  ghost predicate DayReported(records: Records, tables: seq<EntityId>, day: Day, t: nat)
    requires t <= |tables|
  {
    forall j :: 0 <= j < t ==>
      && (tables[j], day) in records
      && records[(tables[j], day)].dailyStats.count == j
      && records[(tables[j], day)].weeklyStats.count == Min(day + 1, WeekDays) * j
      && records[(tables[j], day)].monthlyStats.count == Min(day + 1, MonthDays) * j
  }

  lemma UpsertKeepsHistory(records: Records, tables: seq<EntityId>, db: EntityId, day: Day,
                           entityType: EntityType, id: EntityId, count: nat)
    requires SteadyHistory(records, tables, db, day)
    ensures SteadyHistory(Upsert(records, entityType, id, day, count), tables, db, day)
  {
  }

  lemma RankedKeepsHistory(records: Records, tables: seq<EntityId>, db: EntityId, day: Day,
                           entityType: EntityType, rankedDay: Day, bound: Day)
    requires SteadyHistory(records, tables, db, day) && NothingFrom(records, bound)
    ensures SteadyHistory(Ranked(records, entityType, rankedDay), tables, db, day)
    ensures NothingFrom(Ranked(records, entityType, rankedDay), bound)
  {
  }

  /** A day on which every table and the database have reported extends the steady history by that day. */
  lemma DayCompletesHistory(records: Records, tables: seq<EntityId>, db: EntityId, day: Day)
    requires SteadyHistory(records, tables, db, day)
    requires DayReported(records, tables, day, |tables|)
    requires (db, day) in records && records[(db, day)].dailyStats.count == RunningSum(|tables|)
    ensures SteadyHistory(records, tables, db, day + 1)
  {
    forall j, k: Day | 0 <= j < |tables| && k < day + 1
      ensures (tables[j], k) in records && DailyOn(records, tables[j], k) == j
    {
    }
  }

  /** The entity registry of the scenario: the tables and their database. */
  function Registry(tables: seq<EntityId>, db: EntityId): (r: map<EntityId, EntityType>)
    ensures r.Values <= {TableType, DatabaseType}
    ensures forall e :: e in r && r[e] == TableType ==> e in tables
    ensures db in r && r[db] == DatabaseType
    ensures forall e :: e in tables && e != db ==> e in r && r[e] == TableType
  {
    (map e | e in tables :: TableType)[db := DatabaseType]
  }

  /** What the scenario asks of its tables and database: ten distinct tables, and a database that is none of them. */
  predicate ScenarioEntities(tables: seq<EntityId>, db: EntityId)
  {
    && |tables| == TableCount
    && (forall i, j :: 0 <= i < j < |tables| ==> tables[i] != tables[j])
    && db !in tables
  }

  ghost predicate ScenarioStore(store: UsageStore, tables: seq<EntityId>, db: EntityId)
    reads store
  {
    && store.Valid()
    && store.entities == Registry(tables, db)
    && store.entityTypes == {TableType, DatabaseType}
  }

  /** A write for an entity other than the first `t` tables keeps what they reported on `day`. */
  lemma UpsertKeepsDayReported(records: Records, tables: seq<EntityId>, day: Day, t: nat,
                               entityType: EntityType, id: EntityId, count: nat)
    requires t <= |tables| && DayReported(records, tables, day, t)
    requires forall j :: 0 <= j < t ==> tables[j] != id
    ensures DayReported(Upsert(records, entityType, id, day, count), tables, day, t)
  {
  }

  /** The report of table `tables[t]` on `day` extends what has been reported on that day by that table. */
  lemma TableReportExtendsDay(records: Records, tables: seq<EntityId>, db: EntityId, day: Day, t: nat)
    requires ScenarioEntities(tables, db) && t < |tables|
    requires SteadyHistory(records, tables, db, day) && NothingFrom(records, day + 1)
    requires DayReported(records, tables, day, t)
    ensures var after := Upsert(records, TableType, tables[t], day, t);
      && SteadyHistory(after, tables, db, day) && NothingFrom(after, day + 1)
      && DayReported(after, tables, day, t + 1)
      && after[(tables[t], day)].weeklyStats.count == Min(day + 1, WeekDays) * t
      && after[(tables[t], day)].monthlyStats.count == Min(day + 1, MonthDays) * t
  {
    SteadyTableRolling(records, TableType, tables[t], day, t);
    UpsertKeepsHistory(records, tables, db, day, TableType, tables[t], t);
    UpsertKeepsDayReported(records, tables, day, t, TableType, tables[t], t);
  }

  /**
   * Table `tables[t]` reports the count `t` on `day`, after a steady history
   * of `t` per earlier day: it gets the weekly count `min(day + 1, 7) * t` and
   * the monthly count `min(day + 1, 30) * t`.
   */
  method ReportTable(store: UsageStore, tables: seq<EntityId>, db: EntityId, day: Day, t: nat)
    requires ScenarioEntities(tables, db) && t < |tables|
    requires ScenarioStore(store, tables, db)
    requires SteadyHistory(store.records, tables, db, day) && NothingFrom(store.records, day + 1)
    requires DayReported(store.records, tables, day, t)
    modifies store
    ensures ScenarioStore(store, tables, db)
    ensures SteadyHistory(store.records, tables, db, day) && NothingFrom(store.records, day + 1)
    ensures DayReported(store.records, tables, day, t + 1)
    ensures store.records == Upsert(old(store.records), TableType, tables[t], day, t)
  {
    ghost var before := store.records;
    TableReportExtendsDay(before, tables, db, day, t);
    QueryAfterReport(before, TableType, tables[t], day, t);
    var reported := store.ReportUsage(TableType, tables[t], DailyCount(t, Some(day)));
    assert reported.Ok?;
    var check := store.GetUsage(TableType, tables[t], day, Some(1));
    assert check.Ok? && check.value.entity == EntityReference(tables[t], TableType);
    assert check.value.usage == [reported.value];
    assert reported.value.date == day && reported.value.dailyStats.count == t;
    assert reported.value.weeklyStats.count == Min(day + 1, WeekDays) * t;
    assert reported.value.monthlyStats.count == Min(day + 1, MonthDays) * t;
  }

  /**
   * The database is reported with the running sum `databaseDailyCount` of
   * its tables' counts on `day`. Its record for the day is replaced, so its
   * daily count is that sum, and its weekly and monthly counts add 45 for
   * each earlier day of their window.
   */
  method ReportDatabase(store: UsageStore, tables: seq<EntityId>, db: EntityId, day: Day, t: nat,
                        databaseDailyCount: nat)
    requires ScenarioEntities(tables, db) && t <= |tables|
    requires ScenarioStore(store, tables, db)
    requires SteadyHistory(store.records, tables, db, day) && NothingFrom(store.records, day + 1)
    requires DayReported(store.records, tables, day, t)
    modifies store
    ensures ScenarioStore(store, tables, db)
    ensures SteadyHistory(store.records, tables, db, day) && NothingFrom(store.records, day + 1)
    ensures DayReported(store.records, tables, day, t)
    ensures store.records == Upsert(old(store.records), DatabaseType, db, day, databaseDailyCount)
    ensures (db, day) in store.records && store.records[(db, day)].dailyStats.count == databaseDailyCount
    ensures store.records[(db, day)].weeklyStats.count == Min(day, WeekDays - 1) * RunningSum(TableCount) + databaseDailyCount
    ensures store.records[(db, day)].monthlyStats.count == Min(day, MonthDays - 1) * RunningSum(TableCount) + databaseDailyCount
  {
    ghost var before := store.records;
    SteadyHistoryRolling(before, DatabaseType, db, day, RunningSum(TableCount), databaseDailyCount);
    UpsertKeepsHistory(before, tables, db, day, DatabaseType, db, databaseDailyCount);
    UpsertKeepsDayReported(before, tables, day, t, DatabaseType, db, databaseDailyCount);
    QueryAfterReport(before, DatabaseType, db, day, databaseDailyCount);
    var rolledUp := store.ReportUsage(DatabaseType, db, DailyCount(databaseDailyCount, Some(day)));
    assert rolledUp.Ok?;
    var check := store.GetUsage(DatabaseType, db, day, Some(1));
    assert check.Ok? && check.value.entity == EntityReference(db, DatabaseType);
    assert check.value.usage == [rolledUp.value];
    assert rolledUp.value.dailyStats.count == databaseDailyCount;
    assert rolledUp.value.weeklyStats.count == Min(day, WeekDays - 1) * RunningSum(TableCount) + databaseDailyCount;
    assert rolledUp.value.monthlyStats.count == Min(day, MonthDays - 1) * RunningSum(TableCount) + databaseDailyCount;
  }

  /** Part way through `day`: the first `t` tables have reported, and the database holds their running sum. */
  ghost predicate DayInProgress(store: UsageStore, tables: seq<EntityId>, db: EntityId, day: Day, t: nat)
    reads store
    requires t <= |tables|
  {
    && ScenarioStore(store, tables, db)
    && SteadyHistory(store.records, tables, db, day) && NothingFrom(store.records, day + 1)
    && DayReported(store.records, tables, day, t)
    && (t > 0 ==> (db, day) in store.records && store.records[(db, day)].dailyStats.count == RunningSum(t))
  }

  /** Table `tables[t]` reports on `day`, and the database is reported with the running sum `databaseDailyCount`. */
  method ReportTableAndDatabase(store: UsageStore, tables: seq<EntityId>, db: EntityId, day: Day, t: nat,
                                databaseDailyCount: nat)
    requires ScenarioEntities(tables, db) && t < |tables|
    requires DayInProgress(store, tables, db, day, t)
    requires databaseDailyCount == RunningSum(t) + t
    modifies store
    ensures DayInProgress(store, tables, db, day, t + 1)
  {
    RunningSumStep(t);
    ReportTable(store, tables, db, day, t);
    ReportDatabase(store, tables, db, day, t + 1, databaseDailyCount);
  }

  /** Every table reports on `day`, each followed by the database roll-up. */
  method ReportDay(store: UsageStore, tables: seq<EntityId>, db: EntityId, day: Day)
    requires ScenarioEntities(tables, db)
    requires ScenarioStore(store, tables, db)
    requires SteadyHistory(store.records, tables, db, day) && NothingFrom(store.records, day)
    modifies store
    ensures ScenarioStore(store, tables, db)
    ensures SteadyHistory(store.records, tables, db, day) && NothingFrom(store.records, day + 1)
    ensures DayReported(store.records, tables, day, |tables|)
    ensures (db, day) in store.records && store.records[(db, day)].dailyStats.count == RunningSum(TableCount)
  {
    var databaseDailyCount := 0;
    var t := 0;
    while t < |tables|
      invariant t <= |tables|
      invariant DayInProgress(store, tables, db, day, t)
      invariant databaseDailyCount == RunningSum(t)
    {
      ReportTableAndDatabase(store, tables, db, day, t, databaseDailyCount + t);
      databaseDailyCount := databaseDailyCount + t;
      RunningSumStep(t);
      t := t + 1;
    }
  }

  /** Once every table has reported on `day`, the table cohort of that day is exactly the tables. */
  lemma ScenarioCohort(records: Records, tables: seq<EntityId>, db: EntityId, day: Day)
    requires ScenarioEntities(tables, db)
    requires TableInvariant(records, Registry(tables, db))
    requires DayReported(records, tables, day, |tables|)
    ensures CohortIds(records, TableType, day) == set e: EntityId | e in tables
  {
    var entities := Registry(tables, db);
    forall e | e in CohortIds(records, TableType, day) ensures e in tables {
      assert RecordInvariant(records, entities, (e, day));
    }
    forall e | e in tables ensures e in CohortIds(records, TableType, day) {
      var j :| 0 <= j < |tables| && tables[j] == e;
      assert (tables[j], day) in records;
      assert RecordInvariant(records, entities, (e, day));
    }
  }

  /**
   * The two percentile passes of a day of the scenario, for the tables and
   * then for the database, leave table `tables[i]` with the rank `100 * i / 10`
   * for each metric.
   */
  lemma ScenarioDayRanks(records: Records, tables: seq<EntityId>, db: EntityId, day: Day, i: nat)
    requires ScenarioEntities(tables, db) && i < |tables|
    requires TableInvariant(records, Registry(tables, db))
    requires DayReported(records, tables, day, |tables|)
    ensures var r := Ranked(Ranked(records, TableType, day), DatabaseType, day)[(tables[i], day)];
      && r.dailyStats.percentileRank == Some(100 * i / TableCount)
      && r.weeklyStats.percentileRank == Some(100 * i / TableCount)
      && r.monthlyStats.percentileRank == Some(100 * i / TableCount)
  {
    var entities := Registry(tables, db);
    ScenarioCohort(records, tables, db, day);
    ScenarioRanks(records, tables, day, i);
    var ranked := Ranked(records, TableType, day);
    RankedKeepsInvariant(records, entities, TableType, day);
    assert RecordInvariant(ranked, entities, (tables[i], day));
    RankedAt(ranked, DatabaseType, day, (tables[i], day));
  }

  /**
   * The percentile passes of `day`, for the tables and for the database:
   * afterwards table `tables[i]` has the daily, weekly and monthly rank `100 * i / 10`.
   */
  method RankDay(store: UsageStore, tables: seq<EntityId>, db: EntityId, day: Day)
    requires ScenarioEntities(tables, db)
    requires ScenarioStore(store, tables, db)
    requires SteadyHistory(store.records, tables, db, day) && NothingFrom(store.records, day + 1)
    requires DayReported(store.records, tables, day, |tables|)
    requires (db, day) in store.records && store.records[(db, day)].dailyStats.count == RunningSum(TableCount)
    modifies store
    ensures ScenarioStore(store, tables, db)
    ensures SteadyHistory(store.records, tables, db, day + 1) && NothingFrom(store.records, day + 1)
    ensures forall i :: 0 <= i < |tables| ==>
      && store.records[(tables[i], day)].dailyStats.percentileRank == Some(100 * i / TableCount)
      && store.records[(tables[i], day)].weeklyStats.percentileRank == Some(100 * i / TableCount)
      && store.records[(tables[i], day)].monthlyStats.percentileRank == Some(100 * i / TableCount)
  {
    ghost var reportedDay := store.records;
    DayCompletesHistory(reportedDay, tables, db, day);
    RankedKeepsHistory(reportedDay, tables, db, day + 1, TableType, day, day + 1);
    store.ComputePercentile(TableType, day);
    RankedKeepsHistory(store.records, tables, db, day + 1, DatabaseType, day, day + 1);
    store.ComputePercentile(DatabaseType, day);
    forall i | 0 <= i < |tables|
      ensures && store.records[(tables[i], day)].dailyStats.percentileRank == Some(100 * i / TableCount)
              && store.records[(tables[i], day)].weeklyStats.percentileRank == Some(100 * i / TableCount)
              && store.records[(tables[i], day)].monthlyStats.percentileRank == Some(100 * i / TableCount)
    {
      ScenarioDayRanks(reportedDay, tables, db, day, i);
    }
  }

  /** A query of the first table at the last day of the scenario returns the clamped number of days of records. */
  method QueryAtLastDay(store: UsageStore, tables: seq<EntityId>, db: EntityId, days: Option<int>) returns (length: nat)
    requires ScenarioEntities(tables, db)
    requires ScenarioStore(store, tables, db)
    requires SteadyHistory(store.records, tables, db, DaysOfUsage)
    ensures length == ClampDays(days)
  {
    FullHistoryQueryLength(store.records, tables[0], ClampDays(days));
    var q := store.GetUsage(TableType, tables[0], DaysOfUsage - 1, days);
    length := |q.value.usage|;
  }

  /** A query of the first table on the day after the last report returns one record fewer than the clamped number of days. */
  method QueryDayAfter(store: UsageStore, tables: seq<EntityId>, db: EntityId, days: Option<int>) returns (length: nat)
    requires ScenarioEntities(tables, db)
    requires ScenarioStore(store, tables, db)
    requires SteadyHistory(store.records, tables, db, DaysOfUsage) && NothingFrom(store.records, DaysOfUsage)
    ensures length == ClampDays(days) - 1
  {
    assert (tables[0], DaysOfUsage) !in store.records;
    DayAfterHistoryQueryLength(store.records, tables[0], ClampDays(days));
    var q := store.GetUsage(TableType, tables[0], DaysOfUsage, days);
    length := |q.value.usage|;
  }

  /**
   * The queries at the last day of the scenario, asking for no number of
   * days, for 1, 5 and 30, for 0, -1 and 100 days, return 1, 1, 5, 30, 1, 1
   * and 30 records.
   */
  method CheckClampedQueries(store: UsageStore, tables: seq<EntityId>, db: EntityId) returns (lengths: seq<nat>)
    requires ScenarioEntities(tables, db)
    requires ScenarioStore(store, tables, db)
    requires SteadyHistory(store.records, tables, db, DaysOfUsage)
    ensures lengths == [1, 1, 5, 30, 1, 1, 30]
  {
    var none := QueryAtLastDay(store, tables, db, None);
    var one := QueryAtLastDay(store, tables, db, Some(1));
    var five := QueryAtLastDay(store, tables, db, Some(5));
    var thirty := QueryAtLastDay(store, tables, db, Some(30));
    var zero := QueryAtLastDay(store, tables, db, Some(0));
    var negative := QueryAtLastDay(store, tables, db, Some(-1));
    var hundred := QueryAtLastDay(store, tables, db, Some(100));
    lengths := [none, one, five, thirty, zero, negative, hundred];
  }

  /** The queries for 1 and for 5 days on the day after the last report return no record and four records. */
  method CheckSparseQueries(store: UsageStore, tables: seq<EntityId>, db: EntityId) returns (lengths: seq<nat>)
    requires ScenarioEntities(tables, db)
    requires ScenarioStore(store, tables, db)
    requires SteadyHistory(store.records, tables, db, DaysOfUsage) && NothingFrom(store.records, DaysOfUsage)
    ensures lengths == [0, 4]
  {
    var one := QueryDayAfter(store, tables, db, Some(1));
    var five := QueryDayAfter(store, tables, db, Some(5));
    lengths := [one, five];
  }

  /**
   * The usage summary of `id`, its latest usage, is the one record a query
   * at the last day without a number of days returns.
   */
  method CheckSummary(store: UsageStore, tables: seq<EntityId>, db: EntityId, entityType: EntityType, id: EntityId)
    returns (summary: Option<UsageRecord>, usage: seq<UsageRecord>)
    requires ScenarioEntities(tables, db)
    requires ScenarioStore(store, tables, db)
    requires id in store.entities && store.entities[id] == entityType
    requires (id, DaysOfUsage - 1) in store.records && NothingFrom(store.records, DaysOfUsage)
    ensures summary.Some? && summary.value.date == DaysOfUsage - 1
    ensures usage == [summary.value]
  {
    var last := DaysOfUsage - 1;
    summary := store.GetLatestUsage(id);
    var q := store.GetUsage(entityType, id, last, None);
    assert summary.Some? && summary.value.date == last;
    LatestIsDefaultQuery(store.records, id, last);
    usage := q.value.usage;
  }

  /**
   * The queries at the end of the scenario: the number of records a query
   * at the last day returns for each number of days, the queries on the
   * day after it, and the latest usage of a table and of the database.
   */
  method CheckQueries(store: UsageStore, tables: seq<EntityId>, db: EntityId)
    returns (clamped: seq<nat>, sparse: seq<nat>, tableSummaryMatches: bool, databaseSummaryMatches: bool)
    requires ScenarioEntities(tables, db)
    requires ScenarioStore(store, tables, db)
    requires SteadyHistory(store.records, tables, db, DaysOfUsage) && NothingFrom(store.records, DaysOfUsage)
    ensures clamped == [1, 1, 5, 30, 1, 1, 30] && sparse == [0, 4]
    ensures tableSummaryMatches && databaseSummaryMatches
  {
    clamped := CheckClampedQueries(store, tables, db);
    sparse := CheckSparseQueries(store, tables, db);
    assert (tables[0], DaysOfUsage - 1) in store.records;
    var summary, usage := CheckSummary(store, tables, db, TableType, tables[0]);
    tableSummaryMatches := summary.Some? && |usage| > 0 && usage[0] == summary.value;
    assert (db, DaysOfUsage - 1) in store.records;
    summary, usage := CheckSummary(store, tables, db, DatabaseType, db);
    databaseSummaryMatches := summary.Some? && |usage| > 0 && usage[0] == summary.value;
  }

  /**
   * The database-and-tables scenario, replayed on a new store: every table
   * and the database report on each of 32 days, each day is ranked, and the
   * queries at the end are proved to give the values the test expects.
   */
  method RunDatabaseAndTablesScenario(tables: seq<EntityId>, db: EntityId)
    returns (store: UsageStore, clamped: seq<nat>, sparse: seq<nat>, tableSummaryMatches: bool, databaseSummaryMatches: bool)
    requires ScenarioEntities(tables, db)
    ensures fresh(store) && ScenarioStore(store, tables, db)
    ensures SteadyHistory(store.records, tables, db, DaysOfUsage) && NothingFrom(store.records, DaysOfUsage)
    ensures clamped == [1, 1, 5, 30, 1, 1, 30] && sparse == [0, 4]
    ensures tableSummaryMatches && databaseSummaryMatches
  {
    store := new UsageStore({TableType, DatabaseType}, Registry(tables, db));
    var day: Day := 0;
    while day < DaysOfUsage
      invariant day <= DaysOfUsage
      invariant fresh(store) && ScenarioStore(store, tables, db)
      invariant SteadyHistory(store.records, tables, db, day) && NothingFrom(store.records, day)
    {
      ReportDay(store, tables, db, day);
      RankDay(store, tables, db, day);
      day := day + 1;
    }
    clamped, sparse, tableSummaryMatches, databaseSummaryMatches := CheckQueries(store, tables, db);
  }
}
