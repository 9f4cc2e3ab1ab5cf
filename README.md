# Usage aggregation engine of the OpenMetadata catalog, in Dafny

The catalog's usage service keeps one usage record per entity (a table, a
database, ...) and per day. A record holds the count reported for its day,
a weekly count (the trailing 7 days, the day itself included), a monthly
count (the trailing 30 days), and three percentile ranks. A percentile pass
fills in the ranks: it ranks every entity of one type that has a record for
one day against the others. A usage query returns the records of one entity
over the last 1 to 30 days ending at a date, most recent first.

The engine's own code is not part of this model. Its behaviour is taken
from the JUnit test `UsageResourceTest.java`. Where the test pins a value,
the model gives exactly that value: the rejections at lines 77-110, the
table counts at lines 151-153, the database counts at lines 156-160, the
ranks at lines 183-188, and the query sizes and summaries at lines 192-228.
Where the test leaves the behaviour open, the model makes a choice that
agrees with every value the test checks; "Decisions" lists these choices.

Files and modules:

- `usage_types.dfy` (`UsageTypes`): the values the service exchanges.
  These are the daily report, the usage record and its three statistics,
  the entity reference and its usage, the errors, and the validation of a
  report body.
- `rolling.dfy` (`Rolling`): the table of records as a map keyed by
  (entity id, day). It holds the window of one entity's records over some
  days (`Window`), the upsert the aggregator performs, the trailing-window
  sums, and the lemmas about rolling counts.
- `percentile.dfy` (`Percentile`): cohorts, the rank of a cohort member
  (`100 * position / N`), and the table after a percentile pass (`Ranked`).
- `query.dfy` (`Query`): the clamp on the number of days, and lemmas that
  say exactly which records the window of a query holds.
- `store.dfy` (`UsageService`): the class `UsageStore`. Its `records` map is
  updated in place by `ReportUsage` and by `ComputePercentile`, whose loop
  ranks the cohort one member at a time. `GetUsage` collects a window day by
  day, and `GetLatestUsage` finds an entity's latest record.
- `scenario.dfy` (`Scenario`): the end-to-end test
  `post_validUsageForDatabaseAndTables_200_OK`, replayed as methods on a
  `UsageStore` and verified. Ten tables report their index as a count on
  32 days. The database is reported with the running sum after each table.
  Each day is ranked, and the final queries and summaries are proved to
  return what the test expects.

Days are natural numbers: day `k` is the `k`-th day after the first day of
usage, the offsets `getDateStringByOffset` produces. Entity ids are natural
numbers, so the tie-break by id is a total order.

### Decisions

These follow from the test:

- A report body is validated before the entity is looked up. The
  negative-count and missing-date tests (lines 94-110) post for a random
  UUID and still expect a validation error, not "not found".
- The type tag is checked before the id (lines 85-92): `EntityTypeNotFound`
  comes first, then `EntityNotFound`.
- The weekly and monthly counts of a record are the new count plus the
  daily counts of the 6 and 29 days strictly before its day. This gives
  the values at lines 151-152 and 158-160.

These are choices of the model. The test neither asserts nor contradicts
them:

- Both violations are reported together when a body has both
  (`UsageTypes.Violations`). The test never posts a body with both.
- A second report for the same entity and day replaces the first, and the
  record's percentile ranks are carried over until the next pass
  (`Rolling.CarriedRank`, `Rolling.LastReportWins`,
  `Rolling.ReportIdempotent`). The test reports each table once per day
  (line 153), and the by-name table once (line 117).
- How the database's record is produced. The test only reads the
  database back (lines 167-174); it never reports it. The model has the
  database re-reported with the running sum of its tables' counts after
  each table report. Its weekly and monthly counts then come from its own
  trailing history, which gives `min(d, 6) * 45 + sum` and
  `min(d, 29) * 45 + sum`. An engine that adds each table's count into the
  database's record for the day gives the same values.
- Ties in a cohort are broken by entity id. The test only ranks distinct
  counts, and no property here depends on ties.
- A second percentile pass for the same type and day changes nothing
  (`Percentile.RankedIdempotent`). The test runs one pass per type and day.

## Model

Source paths are relative to the repository root. `UsageResourceTest.java`
stands for
`catalog-rest-service/src/test/java/org/openmetadata/catalog/resources/usage/UsageResourceTest.java`
in the prose, but each row spells the path out.

| member | source | states |
|---|---|---|
| UsageTypes.Violations | catalog-rest-service/src/test/java/org/openmetadata/catalog/resources/usage/UsageResourceTest.java:94-110 | a negative count is a violation exactly when the count is below 0, a missing date exactly when there is no date, and a body is valid exactly when it has neither |
| UsageService.UsageStore.Resolve | catalog-rest-service/src/test/java/org/openmetadata/catalog/resources/usage/UsageResourceTest.java:77-92 | an unknown type tag gives `EntityTypeNotFound`, an unknown id or an id of another type gives `EntityNotFound`, and the lookup succeeds exactly when the type is known and the id is registered under it |
| UsageService.UsageStore.constructor | catalog-rest-service/src/test/java/org/openmetadata/catalog/resources/usage/UsageResourceTest.java:66-75 | a new store knows exactly the given entities and types and holds no usage record |
| UsageService.UsageStore.ReportUsage | catalog-rest-service/src/test/java/org/openmetadata/catalog/resources/usage/UsageResourceTest.java:94-110 | an invalid body gives the validation error and a failed lookup gives the lookup error, and in both cases the table is unchanged; a valid report sets the table to `Upsert` of the old table and returns the record written; the store invariant is kept |
| Rolling.Window | catalog-rest-service/src/test/java/org/openmetadata/catalog/resources/usage/UsageResourceTest.java:192-217 | the window of `n` days ending at `day` holds at most one record per day it covers: no more than `n`, and no more than the `day + 1` days back to day 0 |
| Rolling.PriorSumIsWindow | catalog-rest-service/src/test/java/org/openmetadata/catalog/resources/usage/UsageResourceTest.java:151-160 | a trailing sum over the `n` days before `day` is the sum of the daily counts of the window of those days; days without a record count as 0 |
| Rolling.ReportedRecord | catalog-rest-service/src/test/java/org/openmetadata/catalog/resources/usage/UsageResourceTest.java:151-160 | a record written for a report of `count` has the reported type, date and daily count. Its weekly count is `count` plus the daily counts of the window of the 6 days before, and its monthly count adds the window of the 29 days before; on day 0 both are `count`. The ranks of a record already there are kept, and a new record has none |
| Rolling.Upsert | catalog-rest-service/src/test/java/org/openmetadata/catalog/resources/usage/UsageResourceTest.java:257-261 | a report writes exactly the key (id, day): no other record changes, and the new record has the reported date, type and daily count |
| Rolling.UpsertKeepsInvariant | catalog-rest-service/src/test/java/org/openmetadata/catalog/resources/usage/UsageResourceTest.java:151-160 | after a report every record is still filed under its date and entity, and daily <= weekly <= monthly holds for every record |
| Rolling.PriorSumMonotone | catalog-rest-service/src/test/java/org/openmetadata/catalog/resources/usage/UsageResourceTest.java:151-152 | a longer trailing window never sums to less |
| Rolling.PriorSumFrame | catalog-rest-service/src/test/java/org/openmetadata/catalog/resources/usage/UsageResourceTest.java:155-174 | a trailing sum depends only on the daily counts of the days before its day |
| Rolling.PriorSumSteady | catalog-rest-service/src/test/java/org/openmetadata/catalog/resources/usage/UsageResourceTest.java:151-152 | when every earlier day holds count `c`, the sum over `n` earlier days is `min(day, n) * c` |
| Rolling.SteadyTableRolling | catalog-rest-service/src/test/java/org/openmetadata/catalog/resources/usage/UsageResourceTest.java:151-153 | reporting `c` on each of the days `0 .. d` gives weekly `min(d + 1, 7) * c` and monthly `min(d + 1, 30) * c` on day `d` |
| Rolling.SteadyHistoryRolling | catalog-rest-service/src/test/java/org/openmetadata/catalog/resources/usage/UsageResourceTest.java:155-160 | a report of `s` after a history of `c` per earlier day gives daily `s`, weekly `min(d, 6) * c + s` and monthly `min(d, 29) * c + s` |
| Rolling.FirstReportRolling | catalog-rest-service/src/test/java/org/openmetadata/catalog/resources/usage/UsageResourceTest.java:113-117 | the first report ever made for an entity has weekly and monthly counts equal to its count (100 and 100 for a count of 100) |
| Rolling.LastReportWins | catalog-rest-service/src/test/java/org/openmetadata/catalog/resources/usage/UsageResourceTest.java:257-261 | reporting `c1` and then `c2` for the same entity and day leaves the same table as reporting `c2` alone: the earlier count is replaced, not added to. This is the model's choice for a repeated report; the test never repeats one |
| Rolling.ReportOverReport | catalog-rest-service/src/test/java/org/openmetadata/catalog/resources/usage/UsageResourceTest.java:257-261 | the record a second report for an entity and day writes is the one it would write without the first: the earlier days and the carried ranks are the same |
| Rolling.ReportIdempotent | catalog-rest-service/src/test/java/org/openmetadata/catalog/resources/usage/UsageResourceTest.java:257-261 | reporting the same count twice for an entity and day leaves the same table as reporting it once. This follows from the model's choice to replace; the test never repeats a report |
| Percentile.CohortIds | catalog-rest-service/src/test/java/org/openmetadata/catalog/resources/usage/UsageResourceTest.java:177-179 | the cohort of a type and day is exactly the entities of that type with a record on that day |
| Percentile.CohortCounts | catalog-rest-service/src/test/java/org/openmetadata/catalog/resources/usage/UsageResourceTest.java:177-179 | a cohort's counts are keyed by exactly the cohort, and each is the member's count of the chosen metric on that day |
| Percentile.Rank | catalog-rest-service/src/test/java/org/openmetadata/catalog/resources/usage/UsageResourceTest.java:184 | a rank is below 100, and the member with no member before it has rank 0 |
| Percentile.RankMonotone | catalog-rest-service/src/test/java/org/openmetadata/catalog/resources/usage/UsageResourceTest.java:184 | a member ordered before another has a strictly smaller position and never a higher rank |
| Percentile.SortedListingSize | catalog-rest-service/src/test/java/org/openmetadata/catalog/resources/usage/UsageResourceTest.java:183-184 | an ascending listing of a cohort names every member once, so it is as long as the cohort |
| Percentile.BeforeIsPrefix | catalog-rest-service/src/test/java/org/openmetadata/catalog/resources/usage/UsageResourceTest.java:183-184 | in an ascending listing, the members before position `i` are exactly the members listed ahead of it |
| Percentile.RankOfSortedPosition | catalog-rest-service/src/test/java/org/openmetadata/catalog/resources/usage/UsageResourceTest.java:183-184 | the member at ascending position `i` of a cohort of `N` has `i` members before it and the rank `100 * i / N` |
| Percentile.Ranked | catalog-rest-service/src/test/java/org/openmetadata/catalog/resources/usage/UsageResourceTest.java:177-179 | the percentile pass adds and removes no record; what it does to each record is stated by `Percentile.RankedAt` |
| Percentile.RankedAt | catalog-rest-service/src/test/java/org/openmetadata/catalog/resources/usage/UsageResourceTest.java:177-179 | the percentile pass gives a cohort member its daily, weekly and monthly rank in its cohort, and leaves every other record as it was |
| Percentile.PartlyRankedStep | catalog-rest-service/src/test/java/org/openmetadata/catalog/resources/usage/UsageResourceTest.java:263-267 | ranking one more pending member moves the pass one step on, towards the table `Ranked` |
| Percentile.RankedKeepsInvariant | catalog-rest-service/src/test/java/org/openmetadata/catalog/resources/usage/UsageResourceTest.java:177-179 | the percentile pass keeps the table invariant and changes no daily count |
| Percentile.RankedKeepsCohorts | catalog-rest-service/src/test/java/org/openmetadata/catalog/resources/usage/UsageResourceTest.java:177-179 | the percentile pass leaves the counts of the cohort it ranks, for every metric, as they were |
| Percentile.RankedIdempotent | catalog-rest-service/src/test/java/org/openmetadata/catalog/resources/usage/UsageResourceTest.java:177-179 | running the percentile pass twice for the same type and day gives the same table as running it once. The test runs one pass per type and day, so this is a property of the model's pass, not one the test pins |
| UsageService.PositionOf | catalog-rest-service/src/test/java/org/openmetadata/catalog/resources/usage/UsageResourceTest.java:184 | the position counted by the loop is the number of cohort members ordered before the entity |
| UsageService.PercentileRankOf | catalog-rest-service/src/test/java/org/openmetadata/catalog/resources/usage/UsageResourceTest.java:184 | the rank computed is `Rank` of the entity in its cohort |
| UsageService.UsageStore.ComputePercentile | catalog-rest-service/src/test/java/org/openmetadata/catalog/resources/usage/UsageResourceTest.java:263-267 | the ranking loop leaves the table `Ranked` of the old table for that type and day, and keeps the store invariant |
| Query.ClampDays | catalog-rest-service/src/test/java/org/openmetadata/catalog/resources/usage/UsageResourceTest.java:192-209 | the days asked for are used when they lie in 1 .. 30; none and anything not positive give 1; anything over 30 gives 30 |
| Query.WindowCollectStep | catalog-rest-service/src/test/java/org/openmetadata/catalog/resources/usage/UsageResourceTest.java:282-292 | collecting a window day by day, latest first, builds up the whole window |
| Query.WindowOfDays | catalog-rest-service/src/test/java/org/openmetadata/catalog/resources/usage/UsageResourceTest.java:211-217 | the `i`-th record a query returns is the stored record of the `i`-th listed day of the window |
| Query.WindowDaysSound | catalog-rest-service/src/test/java/org/openmetadata/catalog/resources/usage/UsageResourceTest.java:211-217 | every listed day lies in the window |
| Query.WindowDaysBelow | catalog-rest-service/src/test/java/org/openmetadata/catalog/resources/usage/UsageResourceTest.java:211-217 | no listed day is after the day the query ends at |
| Query.WindowDaysDescending | catalog-rest-service/src/test/java/org/openmetadata/catalog/resources/usage/UsageResourceTest.java:211-217 | the listed days strictly decrease: the most recent comes first |
| Query.WindowDaysComplete | catalog-rest-service/src/test/java/org/openmetadata/catalog/resources/usage/UsageResourceTest.java:211-217 | every day of the window with a record is listed |
| Query.WindowExact | catalog-rest-service/src/test/java/org/openmetadata/catalog/resources/usage/UsageResourceTest.java:211-217 | a query returns exactly the stored records of its window, each dated its own day, strictly most recent first, with no invented rows |
| Query.WindowFull | catalog-rest-service/src/test/java/org/openmetadata/catalog/resources/usage/UsageResourceTest.java:192-209 | with a record on every day of the window, a query returns one record per day it covers, up to day 0 |
| Query.WindowSkipsMissingDay | catalog-rest-service/src/test/java/org/openmetadata/catalog/resources/usage/UsageResourceTest.java:211-217 | a day without a record adds nothing to the result |
| Query.WindowOfNoRecords | catalog-rest-service/src/test/java/org/openmetadata/catalog/resources/usage/UsageResourceTest.java:211-215 | a window without any record gives an empty result, not an error |
| Query.DayAfterLastReport | catalog-rest-service/src/test/java/org/openmetadata/catalog/resources/usage/UsageResourceTest.java:211-217 | with records on the days `0 .. last` only, a query of `n` days on the day after returns `min(n - 1, last + 1)` records |
| Query.SingleReportQuery | catalog-rest-service/src/test/java/org/openmetadata/catalog/resources/usage/UsageResourceTest.java:211-217 | an entity that reported on one day only, queried on the next day, gets nothing for one day and that one record for more days |
| Query.QueryAfterReport | catalog-rest-service/src/test/java/org/openmetadata/catalog/resources/usage/UsageResourceTest.java:244-249 | right after a report, a one-day query at its date returns the record just written, with that date and the reported daily count |
| Query.LatestIsDefaultQuery | catalog-rest-service/src/test/java/org/openmetadata/catalog/resources/usage/UsageResourceTest.java:219-228 | a query with no number of days returns the record of its date alone, or nothing |
| UsageService.CollectWindow | catalog-rest-service/src/test/java/org/openmetadata/catalog/resources/usage/UsageResourceTest.java:282-292 | the records collected day by day are exactly `Window` |
| UsageService.UsageStore.GetUsage | catalog-rest-service/src/test/java/org/openmetadata/catalog/resources/usage/UsageResourceTest.java:282-292 | a failed lookup gives its error; otherwise the result names the entity and holds `Window` over the clamped number of days |
| UsageService.UsageStore.GetLatestUsage | catalog-rest-service/src/test/java/org/openmetadata/catalog/resources/usage/UsageResourceTest.java:219-228 | there is no latest record exactly when the entity has none; otherwise it is the stored record of the entity's latest day |
| Scenario.RunningSumStep | catalog-rest-service/src/test/java/org/openmetadata/catalog/resources/usage/UsageResourceTest.java:133-156 | the running sum of the counts `0 .. n - 1` grows by `n` when table `n` reports |
| Scenario.ScaledCountsRank | catalog-rest-service/src/test/java/org/openmetadata/catalog/resources/usage/UsageResourceTest.java:183-189 | tables whose counts are their index times a positive factor get the rank `100 * i / N` |
| Scenario.ScenarioRanks | catalog-rest-service/src/test/java/org/openmetadata/catalog/resources/usage/UsageResourceTest.java:183-189 | on a day of the scenario the percentile pass gives table `i` the daily, weekly and monthly rank `100 * i / N` |
| Scenario.ScenarioCohort | catalog-rest-service/src/test/java/org/openmetadata/catalog/resources/usage/UsageResourceTest.java:177-178 | once every table has reported on a day, the table cohort of that day is exactly the ten tables |
| Scenario.ScenarioDayRanks | catalog-rest-service/src/test/java/org/openmetadata/catalog/resources/usage/UsageResourceTest.java:177-189 | the table pass and then the database pass leave table `i` with the rank `100 * i / 10` for each metric |
| Scenario.FullHistoryQueryLength | catalog-rest-service/src/test/java/org/openmetadata/catalog/resources/usage/UsageResourceTest.java:192-209 | after 32 days of reports, a query at the last day returns as many records as the days it covers |
| Scenario.DayAfterHistoryQueryLength | catalog-rest-service/src/test/java/org/openmetadata/catalog/resources/usage/UsageResourceTest.java:211-217 | on the day after the last report, a query returns one record fewer than the days it covers |
| Scenario.Registry | catalog-rest-service/src/test/java/org/openmetadata/catalog/resources/usage/UsageResourceTest.java:66-75 | the registry of the scenario maps the database to its type and each table to the table type, and nothing else is a table |
| Scenario.TableReportExtendsDay | catalog-rest-service/src/test/java/org/openmetadata/catalog/resources/usage/UsageResourceTest.java:143-153 | the report of table `t` on day `d` gives weekly `min(d + 1, 7) * t` and monthly `min(d + 1, 30) * t`, and keeps the reports made before it |
| Scenario.ReportTable | catalog-rest-service/src/test/java/org/openmetadata/catalog/resources/usage/UsageResourceTest.java:143-153 | the report of table `t` is accepted, and the one-day query made to check it returns exactly that record, with the expected counts |
| Scenario.ReportDatabase | catalog-rest-service/src/test/java/org/openmetadata/catalog/resources/usage/UsageResourceTest.java:155-174 | the database re-report is accepted, writes only the database's record of the day, replacing any earlier one, and gives daily = running sum and weekly and monthly `min(d, 6) * 45 + sum` and `min(d, 29) * 45 + sum` |
| Scenario.ReportDay | catalog-rest-service/src/test/java/org/openmetadata/catalog/resources/usage/UsageResourceTest.java:135-175 | after a day's reports every table has its count and rolling counts, and the database holds the sum 45 |
| Scenario.RankDay | catalog-rest-service/src/test/java/org/openmetadata/catalog/resources/usage/UsageResourceTest.java:177-189 | after the two percentile passes of a day, table `i` has the rank `100 * i / 10` for each metric |
| Scenario.QueryAtLastDay | catalog-rest-service/src/test/java/org/openmetadata/catalog/resources/usage/UsageResourceTest.java:192-209 | any query of the first table at the last day returns the clamped number of days of records |
| Scenario.QueryDayAfter | catalog-rest-service/src/test/java/org/openmetadata/catalog/resources/usage/UsageResourceTest.java:211-217 | any query of the first table on the day after the last report returns one record fewer than the clamped number of days |
| Scenario.CheckClampedQueries | catalog-rest-service/src/test/java/org/openmetadata/catalog/resources/usage/UsageResourceTest.java:192-209 | the queries for no number of days, 1, 5, 30, 0, -1 and 100 days return 1, 1, 5, 30, 1, 1 and 30 records |
| Scenario.CheckSparseQueries | catalog-rest-service/src/test/java/org/openmetadata/catalog/resources/usage/UsageResourceTest.java:211-217 | on the day after the last report, the queries for 1 and 5 days return 0 and 4 records |
| Scenario.CheckSummary | catalog-rest-service/src/test/java/org/openmetadata/catalog/resources/usage/UsageResourceTest.java:219-228 | the latest usage of an entity is dated the last day and is the one record a query with no number of days returns |
| Scenario.CheckQueries | catalog-rest-service/src/test/java/org/openmetadata/catalog/resources/usage/UsageResourceTest.java:192-228 | all the final checks of the scenario hold, for tables and for the database alike |
| Scenario.RunDatabaseAndTablesScenario | catalog-rest-service/src/test/java/org/openmetadata/catalog/resources/usage/UsageResourceTest.java:120-229 | 32 days of reports and percentile passes leave a history of count `i` per day for table `i` and 45 per day for the database, with nothing after the last day, and every final check of the test holds: the record counts 1, 1, 5, 30, 1, 1, 30 and 0, 4, and both summaries |

## Left out

- REST transport is not modelled: `WebTarget`, the HTTP verbs, status codes and auth headers (lines 251-292). The operations are plain methods, and HTTP errors are `Result` errors.
- Lookup by fully qualified name is not modelled (`reportUsageByName`, `getUsageByName`, lines 237-242 and 276-280). The by-name report at lines 113-117 is covered by `Rolling.FirstReportRolling` on the resolved id.
- The entity registry is fixed when the store is created. Creating tables and databases (lines 66-75 and 114-115) happens outside the model.
- Date strings and their format are not modelled. Days are natural-number offsets, so no day comes before day 0, and a trailing window stops there.
- The random count of `usageReport()` is not modelled (lines 231-235). The rejection contracts hold for every count and date, and the scenario fixes its counts.
- JUnit method ordering and the shared fixture are not modelled (lines 60 and 120). `Scenario.RunDatabaseAndTablesScenario` builds its own store.
- How the database's count is derived from its tables is not modelled. The running sum is an input of `Scenario.ReportDatabase`, as an external roll-up would supply it.
- The database's percentile ranks are computed but no property states them, because the test leaves them unchecked (line 180).
- Counts are unbounded integers. Java's 32-bit `int` overflow is not modelled; the test's counts stay far below it.
- Concurrency is not modelled. Each store operation is one atomic, sequential method.
- `UsageService.UsageStore.GetUsage`: the date of a query is a required parameter. The test always passes one; a query without a date (line 289 drops a null date) is not modelled.
- `Percentile.Ranked`: the function's own contract only says the key set is unchanged. What the pass does to each record is stated by `Percentile.RankedAt`.
- `ingestion/src/metadata/orm_profiler/sink/metadata_rest.py` is not part of this model: it only forwards records to a REST client.
- `ingestion/src/metadata/orm_profiler/metrics/composed/like_ratio.py` is not part of this model: it is one floating-point division.
