/**
 * The percentile computer. For one entity type and one day, the cohort is
 * every entity of that type with a record on that day. Each metric is ranked
 * on its own: the entities are ordered by count, ties broken by entity id,
 * and the entity at ascending position i of N gets the rank 100 * i / N.
 * The position of an entity is the number of cohort members ordered before it.
 */
module Percentile {
  import opened UsageTypes
  import opened Rolling

  /** The counts of one metric over a cohort, by entity id. */
  type Cohort = map<EntityId, nat>

  predicate InCohort(records: Records, entityType: EntityType, day: Day, k: (EntityId, Day))
  {
    k in records && k.1 == day && records[k].entityType == entityType
  }

  function CohortIds(records: Records, entityType: EntityType, day: Day): (ids: set<EntityId>)
    ensures forall e :: e in ids <==> InCohort(records, entityType, day, (e, day))
  {
    set k | k in records.Keys && InCohort(records, entityType, day, k) :: k.0
  }

  /** The counts of metric `m` of the cohort of `entityType` on `day`. */
  function CohortCounts(records: Records, entityType: EntityType, day: Day, m: Metric): (c: Cohort)
    ensures c.Keys == CohortIds(records, entityType, day)
    ensures forall e :: e in c ==> c[e] == CountOf(records[(e, day)], m)
  {
    map e | e in CohortIds(records, entityType, day) :: CountOf(records[(e, day)], m)
  }

  /** `f` comes before `e` in the ascending order of the cohort: a smaller count, or an equal count and a smaller id. */
  predicate Precedes(c: Cohort, f: EntityId, e: EntityId)
    requires f in c && e in c
  {
    c[f] < c[e] || (c[f] == c[e] && f < e)
  }

  /** The cohort members ordered before `e`; their number is the position of `e`. */
  function Before(c: Cohort, e: EntityId): set<EntityId>
    requires e in c
  {
    set f | f in c && Precedes(c, f, e)
  }

  lemma {:induction false} SubsetCardinality(a: set<EntityId>, b: set<EntityId>)
    requires a <= b
    ensures |a| <= |b|
    decreases |b|
  {
    if a != {} {
      var x :| x in a;
      SubsetCardinality(a - {x}, b - {x});
    }
  }

  lemma BeforeIsProper(c: Cohort, e: EntityId)
    requires e in c
    ensures |Before(c, e)| < |c|
  {
    SubsetCardinality(Before(c, e), c.Keys - {e});
    assert |c.Keys - {e}| == |c| - 1;
  }

  lemma RankBelowHundred(p: nat, n: nat)
    requires p < n
    ensures 100 * p / n < 100
  {
    assert 100 * p < 100 * n;
  }

  /** The percentile rank of cohort member `e`: 0 for the first, never 100. */
  function Rank(c: Cohort, e: EntityId): (r: nat)
    requires e in c
    ensures r < 100
    ensures Before(c, e) == {} ==> r == 0
  {
    BeforeIsProper(c, e);
    RankBelowHundred(|Before(c, e)|, |c|);
    100 * |Before(c, e)| / |c|
  }

  lemma {:induction false} MulAtLeast(x: nat, n: nat)
    requires x >= 1
    ensures x * n >= n
    decreases x
  {
    if x > 1 {
      MulAtLeast(x - 1, n);
      assert x * n == (x - 1) * n + n;
    }
  }

  lemma DivMonotone(a: nat, b: nat, n: nat)
    requires a <= b && n > 0
    ensures a / n <= b / n
  {
    var qa, qb := a / n, b / n;
    if qa > qb {
      MulAtLeast(qa - qb, n);
      assert false;
    }
  }

  /** A member before another never gets a higher rank. */
  lemma RankMonotone(c: Cohort, f: EntityId, e: EntityId)
    requires f in c && e in c && Precedes(c, f, e)
    ensures Rank(c, f) <= Rank(c, e)
    ensures |Before(c, f)| < |Before(c, e)|
  {
    assert Before(c, f) <= Before(c, e);
    assert f in Before(c, e) && f !in Before(c, f);
    SubsetCardinality(Before(c, f), Before(c, e) - {f});
    assert |Before(c, e) - {f}| == |Before(c, e)| - 1;
    DivMonotone(100 * |Before(c, f)|, 100 * |Before(c, e)|, |c|);
  }

  /** `s` lists the cohort in strictly ascending order. */
  ghost predicate SortedListing(c: Cohort, s: seq<EntityId>)
  {
    && (forall i :: 0 <= i < |s| ==> s[i] in c)
    && (forall e :: e in c ==> e in s)
    && (forall i, j :: 0 <= i < j < |s| ==> Precedes(c, s[i], s[j]))
  }

  lemma {:induction false} DistinctCardinality(s: seq<EntityId>)
    requires forall i, j :: 0 <= i < j < |s| ==> s[i] != s[j]
    ensures |set e: EntityId | e in s| == |s|
  {
    if s != [] {
      var t := s[..|s| - 1];
      var x := s[|s| - 1];
      DistinctCardinality(t);
      var ts := set e: EntityId | e in t;
      assert |ts| == |t|;
      assert (set e: EntityId | e in s) == ts + {x};
      assert x !in ts;
      assert |ts + {x}| == |ts| + 1;
    }
  }

  /** A strictly ascending listing names no member twice, so it is as long as the cohort. */
  lemma SortedListingSize(c: Cohort, s: seq<EntityId>)
    requires SortedListing(c, s)
    ensures forall j, k :: 0 <= j < k < |s| ==> s[j] != s[k]
    ensures |c| == |s|
  {
    forall j, k | 0 <= j < k < |s| ensures s[j] != s[k] {
      assert Precedes(c, s[j], s[k]);
    }
    DistinctCardinality(s);
    assert (set e: EntityId | e in s) == c.Keys;
  }

  /** In a strictly ascending listing, the members before the one at position `i` are those listed ahead of it. */
  lemma BeforeIsPrefix(c: Cohort, s: seq<EntityId>, i: nat)
    requires SortedListing(c, s) && i < |s|
    requires forall j, k :: 0 <= j < k < |s| ==> s[j] != s[k]
    ensures Before(c, s[i]) == set e: EntityId | e in s[..i]
  {
    var prefix := s[..i];
    forall f | f in c ensures f in Before(c, s[i]) <==> f in prefix {
      var j :| 0 <= j < |s| && s[j] == f;
      if j < i {
        assert prefix[j] == f;
      } else {
        assert j > i ==> Precedes(c, s[i], s[j]);
        assert forall k :: 0 <= k < i ==> prefix[k] == s[k] != s[j];
      }
    }
  }

  /**
   * The rank is the sorted position formula: when `s` lists the cohort in
   * ascending order, the member at position `i` has exactly `i` members
   * before it, and so the rank `100 * i / |s|`.
   */
  lemma RankOfSortedPosition(c: Cohort, s: seq<EntityId>, i: nat)
    requires SortedListing(c, s) && i < |s|
    ensures |c| == |s|
    ensures |Before(c, s[i])| == i
    ensures Rank(c, s[i]) == 100 * i / |s|
  {
    SortedListingSize(c, s);
    BeforeIsPrefix(c, s, i);
    DistinctCardinality(s[..i]);
  }

  /** Sets the three percentile ranks of a record and leaves its counts as they were. */
  function WithRanks(r: UsageRecord, daily: nat, weekly: nat, monthly: nat): UsageRecord
  {
    r.(dailyStats := r.dailyStats.(percentileRank := Some(daily)),
       weeklyStats := r.weeklyStats.(percentileRank := Some(weekly)),
       monthlyStats := r.monthlyStats.(percentileRank := Some(monthly)))
  }

  /** The record of cohort member `e` after the percentile pass. */
  function RankedRecord(records: Records, entityType: EntityType, day: Day, e: EntityId): UsageRecord
    requires InCohort(records, entityType, day, (e, day))
  {
    WithRanks(records[(e, day)],
              Rank(CohortCounts(records, entityType, day, Daily), e),
              Rank(CohortCounts(records, entityType, day, Weekly), e),
              Rank(CohortCounts(records, entityType, day, Monthly), e))
  }

  /** The table part way through the percentile pass: the cohort members in `pending` are not ranked yet. */
  function PartlyRanked(records: Records, entityType: EntityType, day: Day, pending: set<EntityId>): (r: Records)
    ensures r.Keys == records.Keys
  {
    map k | k in records ::
      if InCohort(records, entityType, day, k) && k.0 !in pending then RankedRecord(records, entityType, day, k.0)
      else records[k]
  }

  /** The table after the percentile pass for `entityType` on `day`: only cohort members change. */
  function Ranked(records: Records, entityType: EntityType, day: Day): (r: Records)
    ensures r.Keys == records.Keys
  {
    PartlyRanked(records, entityType, day, {})
  }

  lemma PartlyRankedStart(records: Records, entityType: EntityType, day: Day)
    ensures PartlyRanked(records, entityType, day, CohortIds(records, entityType, day)) == records
  {
  }

  /** A member still pending is not ranked yet. */
  lemma PartlyRankedPending(records: Records, entityType: EntityType, day: Day, pending: set<EntityId>, e: EntityId)
    requires e in pending && (e, day) in records
    ensures PartlyRanked(records, entityType, day, pending)[(e, day)] == records[(e, day)]
  {
  }

  /** One record of the table part way through the pass. */
  lemma PartlyRankedAt(records: Records, entityType: EntityType, day: Day, pending: set<EntityId>, k: (EntityId, Day))
    requires k in records
    ensures InCohort(records, entityType, day, k) && k.0 !in pending ==>
      PartlyRanked(records, entityType, day, pending)[k] == RankedRecord(records, entityType, day, k.0)
    ensures !(InCohort(records, entityType, day, k) && k.0 !in pending) ==>
      PartlyRanked(records, entityType, day, pending)[k] == records[k]
  {
  }

  /** Ranking one more pending member `e` moves the pass one step on. */
  lemma PartlyRankedStep(records: Records, entityType: EntityType, day: Day, pending: set<EntityId>, e: EntityId)
    requires e in pending && InCohort(records, entityType, day, (e, day))
    ensures PartlyRanked(records, entityType, day, pending)[(e, day) := RankedRecord(records, entityType, day, e)]
         == PartlyRanked(records, entityType, day, pending - {e})
  {
    var a := PartlyRanked(records, entityType, day, pending)[(e, day) := RankedRecord(records, entityType, day, e)];
    var b := PartlyRanked(records, entityType, day, pending - {e});
    forall k | k in records ensures a[k] == b[k] {
      PartlyRankedStepAt(records, entityType, day, pending, e, k);
    }
    assert a.Keys == b.Keys;
  }

  /** One record of the step: it is ranked exactly when it is `e` or was ranked already. */
  lemma PartlyRankedStepAt(records: Records, entityType: EntityType, day: Day, pending: set<EntityId>, e: EntityId,
                           k: (EntityId, Day))
    requires e in pending && InCohort(records, entityType, day, (e, day)) && k in records
    ensures PartlyRanked(records, entityType, day, pending)[(e, day) := RankedRecord(records, entityType, day, e)][k]
         == PartlyRanked(records, entityType, day, pending - {e})[k]
  {
    PartlyRankedAt(records, entityType, day, pending - {e}, k);
    if k != (e, day) {
      PartlyRankedAt(records, entityType, day, pending, k);
    }
  }

  /**
   * What the percentile pass does to one record: a cohort member gets its
   * daily, weekly and monthly rank in its cohort and keeps everything else;
   * any other record is left as it was.
   */
  lemma RankedAt(records: Records, entityType: EntityType, day: Day, k: (EntityId, Day))
    requires k in records
    ensures InCohort(records, entityType, day, k) ==>
      && Ranked(records, entityType, day)[k] == RankedRecord(records, entityType, day, k.0)
      && Ranked(records, entityType, day)[k].dailyStats.percentileRank == Some(Rank(CohortCounts(records, entityType, day, Daily), k.0))
      && Ranked(records, entityType, day)[k].weeklyStats.percentileRank == Some(Rank(CohortCounts(records, entityType, day, Weekly), k.0))
      && Ranked(records, entityType, day)[k].monthlyStats.percentileRank == Some(Rank(CohortCounts(records, entityType, day, Monthly), k.0))
    ensures !InCohort(records, entityType, day, k) ==> Ranked(records, entityType, day)[k] == records[k]
  {
    PartlyRankedAt(records, entityType, day, {}, k);
  }

  /** The percentile pass leaves everything but ranks untouched, so the table invariant holds after it. */
  lemma RankedKeepsInvariant(records: Records, entities: map<EntityId, EntityType>, entityType: EntityType, day: Day)
    requires TableInvariant(records, entities)
    ensures TableInvariant(Ranked(records, entityType, day), entities)
    ensures forall k :: k in records ==> Ranked(records, entityType, day)[k].dailyStats.count == records[k].dailyStats.count
  {
  }

  /** The percentile pass changes no count, so every cohort is the same before and after it. */
  lemma RankedKeepsCohorts(records: Records, entityType: EntityType, day: Day, m: Metric)
    ensures CohortCounts(Ranked(records, entityType, day), entityType, day, m) == CohortCounts(records, entityType, day, m)
  {
    var after := Ranked(records, entityType, day);
    forall k | k in records ensures InCohort(after, entityType, day, k) == InCohort(records, entityType, day, k)
      && CountOf(after[k], m) == CountOf(records[k], m) {
    }
    assert CohortIds(after, entityType, day) == CohortIds(records, entityType, day);
  }

  /** Running the percentile pass a second time for the same type and day changes nothing. */
  lemma RankedIdempotent(records: Records, entityType: EntityType, day: Day)
    ensures Ranked(Ranked(records, entityType, day), entityType, day) == Ranked(records, entityType, day)
  {
    RankedKeepsCohorts(records, entityType, day, Daily);
    RankedKeepsCohorts(records, entityType, day, Weekly);
    RankedKeepsCohorts(records, entityType, day, Monthly);
  }
}
