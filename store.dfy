/**
 * The usage service: the table of usage records, updated in place by
 * reports and by the percentile pass, and read by usage queries. The
 * entities and entity types it knows are fixed when it is created; resolving
 * them is the job of the entity registry, which is not part of this model.
 */
module UsageService {
  import opened UsageTypes
  import opened Rolling
  import opened Percentile
  import opened Query

  /** The position of `e` in the ascending order of the cohort `c`: the number of members before it. */
  method PositionOf(c: Cohort, e: EntityId) returns (position: nat)
    requires e in c
    ensures position == |Before(c, e)|
  {
    var pending := c.Keys;
    position := 0;
    while pending != {}
      invariant pending <= c.Keys
      invariant position == |Before(c, e) - pending|
      decreases pending
    {
      var f :| f in pending;
      ghost var seen := Before(c, e) - pending;
      if Precedes(c, f, e) {
        assert Before(c, e) - (pending - {f}) == seen + {f};
        position := position + 1;
      } else {
        assert Before(c, e) - (pending - {f}) == seen;
      }
      pending := pending - {f};
    }
  }

  /** The percentile rank of cohort member `e`, as the percentile pass computes it. */
  method PercentileRankOf(c: Cohort, e: EntityId) returns (rank: nat)
    requires e in c
    ensures rank == Rank(c, e)
  {
    var position := PositionOf(c, e);
    rank := 100 * position / |c|;
  }

  /** Collects the records of `id` day by day, from `day` back over `n` days, skipping days without one. */
  method CollectWindow(records: Records, id: EntityId, day: Day, n: nat) returns (usage: seq<UsageRecord>)
    ensures usage == Window(records, id, day, n)
  {
    usage := [];
    ghost var whole := Window(records, id, day, n);
    var d, left := day, n;
    while left > 0
      invariant usage + Window(records, id, d, left) == whole
      decreases left
    {
      WindowCollectStep(records, id, d, left, usage, whole);
      usage := usage + DayRecords(records, id, d);
      if d == 0 {
        // There is no day before day 0: the window ends here.
        left := 0;
      } else {
        d, left := d - 1, left - 1;
      }
    }
    assert usage == usage + Window(records, id, d, left);
  }

  class UsageStore {
    /** The entity types the service knows, and each known entity's type. */
    const entityTypes: set<EntityType>
    const entities: map<EntityId, EntityType>

    /** One usage record per (entity id, day). */
    var records: Records

    ghost predicate Valid()
      reads this
    {
      && entities.Values <= entityTypes
      && TableInvariant(records, entities)
    }

    constructor (entityTypes: set<EntityType>, entities: map<EntityId, EntityType>)
      requires entities.Values <= entityTypes
      ensures Valid()
      ensures this.entityTypes == entityTypes && this.entities == entities
      ensures records == map[]
    {
      this.entityTypes := entityTypes;
      this.entities := entities;
      records := map[];
    }

    /** The entity an id names under a type tag, or the error of a failed lookup. */
    function Resolve(entityType: EntityType, id: EntityId): (r: Option<UsageError>)
      reads this
      ensures entityType !in entityTypes ==> r == Some(EntityTypeNotFound(entityType))
      ensures entityType in entityTypes && (id !in entities || entities[id] != entityType) ==>
        r == Some(EntityNotFound(entityType, id))
      ensures r.None? <==> entityType in entityTypes && id in entities && entities[id] == entityType
    {
      if entityType !in entityTypes then Some(EntityTypeNotFound(entityType))
      else if id !in entities || entities[id] != entityType then Some(EntityNotFound(entityType, id))
      else None
    }

    /**
     * Records the usage `report` of entity `id`. A body with a negative count
     * or without a date is rejected before the entity is looked up; a report
     * for an unknown type or entity is rejected next. A rejected report leaves
     * the table as it was; an accepted one writes the record for its day.
     */
    method ReportUsage(entityType: EntityType, id: EntityId, report: DailyCount)
      returns (result: Result<UsageRecord, UsageError>)
      requires Valid()
      modifies this
      ensures Valid()
      ensures Violations(report) != {} ==>
        result == Err(InvalidReport(Violations(report))) && records == old(records)
      ensures Violations(report) == {} && Resolve(entityType, id).Some? ==>
        result == Err(Resolve(entityType, id).value) && records == old(records)
      ensures Violations(report) == {} && Resolve(entityType, id).None? ==>
        && records == Upsert(old(records), entityType, id, report.date.value, report.count)
        && result == Ok(records[(id, report.date.value)])
    {
      var violations := Violations(report);
      if violations != {} {
        return Err(InvalidReport(violations));
      }
      var failure := Resolve(entityType, id);
      if failure.Some? {
        return Err(failure.value);
      }
      var day := report.date.value;
      UpsertKeepsInvariant(records, entities, entityType, id, day, report.count);
      records := Upsert(records, entityType, id, day, report.count);
      result := Ok(records[(id, day)]);
    }

    /**
     * Ranks every entity of `entityType` with a record on `day`, separately
     * by its daily, weekly and monthly count, and writes the ranks into those
     * records. A cohort with no members is left as it is.
     */
    method ComputePercentile(entityType: EntityType, day: Day)
      requires Valid()
      modifies this
      ensures Valid()
      ensures records == Ranked(old(records), entityType, day)
    {
      ghost var before := records;
      var daily := CohortCounts(records, entityType, day, Daily);
      var weekly := CohortCounts(records, entityType, day, Weekly);
      var monthly := CohortCounts(records, entityType, day, Monthly);
      var pending := daily.Keys;
      PartlyRankedStart(before, entityType, day);
      while pending != {}
        invariant pending <= daily.Keys
        invariant records == PartlyRanked(before, entityType, day, pending)
        decreases pending
      {
        var e :| e in pending;
        var rankDaily := PercentileRankOf(daily, e);
        var rankWeekly := PercentileRankOf(weekly, e);
        var rankMonthly := PercentileRankOf(monthly, e);
        PartlyRankedPending(before, entityType, day, pending, e);
        PartlyRankedStep(before, entityType, day, pending, e);
        records := records[(e, day) := WithRanks(records[(e, day)], rankDaily, rankWeekly, rankMonthly)];
        pending := pending - {e};
      }
      RankedKeepsInvariant(before, entities, entityType, day);
    }

    /**
     * The usage of entity `id` over the `days` days ending at `day` (the
     * number clamped to 1 .. 30), most recent first, or the error of a failed lookup.
     */
    method GetUsage(entityType: EntityType, id: EntityId, day: Day, days: Option<int>)
      returns (result: Result<EntityUsage, UsageError>)
      requires Valid()
      ensures Resolve(entityType, id).Some? ==> result == Err(Resolve(entityType, id).value)
      ensures Resolve(entityType, id).None? ==>
        result == Ok(EntityUsage(EntityReference(id, entityType), Window(records, id, day, ClampDays(days))))
    {
      var failure := Resolve(entityType, id);
      if failure.Some? {
        return Err(failure.value);
      }
      var n := ClampDays(days);
      var usage := CollectWindow(records, id, day, n);
      result := Ok(EntityUsage(EntityReference(id, entityType), usage));
    }

    /** The most recent record of entity `id`, which an entity's usage summary shows; none when it never reported. */
    method GetLatestUsage(id: EntityId) returns (latest: Option<UsageRecord>)
      requires Valid()
      ensures latest.None? <==> forall k :: k in records ==> k.0 != id
      ensures latest.Some? ==>
        && (id, latest.value.date) in records && records[(id, latest.value.date)] == latest.value
        && forall k :: k in records && k.0 == id ==> k.1 <= latest.value.date
    {
      var pending := records.Keys;
      latest := None;
      while pending != {}
        invariant pending <= records.Keys
        invariant latest.None? <==> forall k :: k in records.Keys - pending ==> k.0 != id
        invariant latest.Some? ==>
          && (id, latest.value.date) in records && records[(id, latest.value.date)] == latest.value
          && forall k :: k in records.Keys - pending && k.0 == id ==> k.1 <= latest.value.date
        decreases pending
      {
        var k :| k in pending;
        if k.0 == id && (latest.None? || latest.value.date < k.1) {
          latest := Some(records[k]);
        }
        pending := pending - {k};
      }
    }
  }
}
