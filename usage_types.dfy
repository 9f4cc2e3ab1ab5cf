/**
 * The values the usage engine stores and exchanges: a posted daily count,
 * the per-day usage record with its daily, weekly and monthly statistics,
 * and the errors a report or a query can end in.
 */
module UsageTypes {

  datatype Option<+T> = None | Some(value: T)

  datatype Result<+R, +E> = Ok(value: R) | Err(error: E)

  /** Entities are identified by number; the order on numbers is the tie-break of the ranking. */
  type EntityId = nat

  /** A calendar day, written as its offset in days from the first day of the history. */
  type Day = nat

  /** The type tag ("table", "database", ...) that groups entities into ranking cohorts. */
  type EntityType = string

  /** The body of a usage report: a count and a date, either of which may be invalid. */
  datatype DailyCount = DailyCount(count: int, date: Option<Day>)

  /** One statistic of a record: its count and, once ranked, its percentile rank. */
  datatype UsageStats = UsageStats(count: nat, percentileRank: Option<nat>)

  /** The usage of one entity on one day. */
  datatype UsageRecord = UsageRecord(
    entityType: EntityType,
    date: Day,
    dailyStats: UsageStats,
    weeklyStats: UsageStats,
    monthlyStats: UsageStats)

  /** The three statistics that are ranked independently of each other. */
  datatype Metric = Daily | Weekly | Monthly

  function CountOf(r: UsageRecord, m: Metric): nat
  {
    match m
    case Daily => r.dailyStats.count
    case Weekly => r.weeklyStats.count
    case Monthly => r.monthlyStats.count
  }

  /** The identifier and type of the entity a query answers for. */
  datatype EntityReference = EntityReference(id: EntityId, entityType: EntityType)

  /** The answer to a usage query: the entity and its records, most recent first. */
  datatype EntityUsage = EntityUsage(entity: EntityReference, usage: seq<UsageRecord>)

  /** The constraint violations a report body can have; both may be reported together. */
  datatype Violation = NegativeCount | MissingDate

  datatype UsageError =
    | InvalidReport(violations: set<Violation>)
    | EntityTypeNotFound(entityType: EntityType)
    | EntityNotFound(entityType: EntityType, id: EntityId)

  /** The constraint violations of a report body, empty when the body is valid. */
  function Violations(report: DailyCount): (v: set<Violation>)
    ensures NegativeCount in v <==> report.count < 0
    ensures MissingDate in v <==> report.date.None?
    ensures v == {} <==> report.count >= 0 && report.date.Some?
  {
    (if report.count < 0 then {NegativeCount} else {}) +
    (if report.date.None? then {MissingDate} else {})
  }
}
