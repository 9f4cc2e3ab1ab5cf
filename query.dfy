/**
 * The usage query: the records of one entity over the last `days` days
 * ending at a date, most recent first. Days without a record are left out,
 * so a query can return fewer records than days, or none.
 */
module Query {
  import opened UsageTypes
  import opened Rolling

  /** The number of days a query covers when none is given, and the most it covers. */
  const DefaultDays: nat := 1
  const MaxDays: nat := 30

  /** The number of days a query covers: absent or not positive gives 1, more than 30 gives 30. */
  function ClampDays(days: Option<int>): (n: nat)
    ensures 1 <= n <= MaxDays
    ensures days.Some? && 1 <= days.value <= MaxDays ==> n == days.value
    ensures days.Some? && days.value > MaxDays ==> n == MaxDays
    ensures (days.None? || days.value <= 0) ==> n == DefaultDays
  {
    match days
    case None => DefaultDays
    case Some(d) => if d <= 0 then DefaultDays else if d > MaxDays then MaxDays else d
  }

  /**
   * Collecting a window day by day: when `done` followed by the window of
   * `n` days ending at `day` makes up `whole`, then so does `done` extended
   * by the record of `day` and followed by the window of the days before.
   */
  lemma WindowCollectStep(records: Records, id: EntityId, day: Day, n: nat, done: seq<UsageRecord>, whole: seq<UsageRecord>)
    requires n > 0 && done + Window(records, id, day, n) == whole
    ensures day == 0 ==> done + DayRecords(records, id, day) == whole
    ensures day > 0 ==> (done + DayRecords(records, id, day)) + Window(records, id, day - 1, n - 1) == whole
  {
    if day > 0 {
      var head, rest := DayRecords(records, id, day), Window(records, id, day - 1, n - 1);
      assert Window(records, id, day, n) == head + rest;
      assert done + (head + rest) == (done + head) + rest;
    }
  }

  /** The day `k` lies in the window of `n` days ending at `day`. */
  predicate InWindow(day: Day, n: nat, k: Day)
  {
    k <= day && day < k + n
  }

  /** The days of the window of `n` days ending at `day` on which `id` has a record, latest first. */
  function WindowDays(records: Records, id: EntityId, day: Day, n: nat): seq<Day>
    decreases n
  {
    if n == 0 then []
    else if day == 0 then (if (id, 0) in records then [0] else [])
    else if (id, day) in records then [day] + WindowDays(records, id, day - 1, n - 1)
    else WindowDays(records, id, day - 1, n - 1)
  }

  /** The days of `s` strictly decrease. */
  predicate Descending(s: seq<Day>)
  {
    forall i, j :: 0 <= i < j < |s| ==> s[i] > s[j]
  }

  /** Every day of `s` is at most `bound`. */
  predicate AtMost(s: seq<Day>, bound: Day)
  {
    forall i :: 0 <= i < |s| ==> s[i] <= bound
  }

  lemma DescendingCons(x: Day, s: seq<Day>)
    requires x > 0 && Descending(s) && AtMost(s, x - 1)
    ensures Descending([x] + s)
  {
    var t := [x] + s;
    forall i, j | 0 <= i < j < |t| ensures t[i] > t[j] {
      assert t[j] == s[j - 1];
      if i > 0 {
        assert t[i] == s[i - 1];
      }
    }
  }

  /** A query returns the stored records of the days `WindowDays` lists, in that order. */
  lemma {:induction false} WindowOfDays(records: Records, id: EntityId, day: Day, n: nat)
    ensures |Window(records, id, day, n)| == |WindowDays(records, id, day, n)|
    ensures forall i :: 0 <= i < |WindowDays(records, id, day, n)| ==>
      (id, WindowDays(records, id, day, n)[i]) in records
      && Window(records, id, day, n)[i] == records[(id, WindowDays(records, id, day, n)[i])]
    decreases n
  {
    if n > 0 && day > 0 {
      WindowOfDays(records, id, day - 1, n - 1);
      var rest, restDays := Window(records, id, day - 1, n - 1), WindowDays(records, id, day - 1, n - 1);
      var w, days := Window(records, id, day, n), WindowDays(records, id, day, n);
      if (id, day) in records {
        assert w == [records[(id, day)]] + rest;
        assert days == [day] + restDays;
        assert w[1..] == rest && days[1..] == restDays;
      } else {
        assert w == rest && days == restDays;
      }
    }
  }

  /** Every listed day lies in the window. */
  lemma {:induction false} WindowDaysSound(records: Records, id: EntityId, day: Day, n: nat)
    ensures forall i :: 0 <= i < |WindowDays(records, id, day, n)| ==> InWindow(day, n, WindowDays(records, id, day, n)[i])
    decreases n
  {
    if n > 0 && day > 0 {
      WindowDaysSound(records, id, day - 1, n - 1);
      var rest := WindowDays(records, id, day - 1, n - 1);
      var w := WindowDays(records, id, day, n);
      if (id, day) in records {
        assert w == [day] + rest;
        assert w[1..] == rest;
      } else {
        assert w == rest;
      }
    }
  }

  /** No listed day is after the day the window ends at. */
  lemma {:induction false} WindowDaysBelow(records: Records, id: EntityId, day: Day, n: nat)
    ensures AtMost(WindowDays(records, id, day, n), day)
    decreases n
  {
    if n > 0 && day > 0 {
      WindowDaysBelow(records, id, day - 1, n - 1);
      var rest := WindowDays(records, id, day - 1, n - 1);
      var w := WindowDays(records, id, day, n);
      if (id, day) in records {
        assert w == [day] + rest;
        assert w[1..] == rest;
      } else {
        assert w == rest;
      }
    }
  }

  /** The listed days strictly decrease: the most recent comes first. */
  lemma {:induction false} WindowDaysDescending(records: Records, id: EntityId, day: Day, n: nat)
    ensures Descending(WindowDays(records, id, day, n))
    decreases n
  {
    if n > 0 && day > 0 {
      WindowDaysDescending(records, id, day - 1, n - 1);
      WindowDaysBelow(records, id, day - 1, n - 1);
      var rest := WindowDays(records, id, day - 1, n - 1);
      var w := WindowDays(records, id, day, n);
      if (id, day) in records {
        assert w == [day] + rest;
        DescendingCons(day, rest);
      } else {
        assert w == rest;
      }
    }
  }

  /** Every day of the window with a record is listed. */
  lemma {:induction false} WindowDaysComplete(records: Records, id: EntityId, day: Day, n: nat)
    ensures forall k: Day :: InWindow(day, n, k) && (id, k) in records ==> k in WindowDays(records, id, day, n)
    decreases n
  {
    if n > 0 && day > 0 {
      WindowDaysComplete(records, id, day - 1, n - 1);
      var rest := WindowDays(records, id, day - 1, n - 1);
      var w := WindowDays(records, id, day, n);
      assert w == (if (id, day) in records then [day] else []) + rest;
      forall k: Day | InWindow(day, n, k) && (id, k) in records ensures k in w {
        if k < day {
          assert InWindow(day - 1, n - 1, k);
        }
      }
    }
  }

  /**
   * What a query returns is exactly the stored records of the window, latest
   * first: the `i`-th record returned is the one stored for the `i`-th listed
   * day and is dated that day; the listed days lie in the window and strictly
   * decrease; and every day of the window with a record is listed.
   */
  lemma WindowExact(records: Records, id: EntityId, day: Day, n: nat)
    requires DatesFiled(records)
    ensures |Window(records, id, day, n)| == |WindowDays(records, id, day, n)|
    ensures forall i :: 0 <= i < |WindowDays(records, id, day, n)| ==>
      (id, WindowDays(records, id, day, n)[i]) in records
      && Window(records, id, day, n)[i] == records[(id, WindowDays(records, id, day, n)[i])]
      && Window(records, id, day, n)[i].date == WindowDays(records, id, day, n)[i]
    ensures forall i :: 0 <= i < |WindowDays(records, id, day, n)| ==> InWindow(day, n, WindowDays(records, id, day, n)[i])
    ensures Descending(WindowDays(records, id, day, n))
    ensures forall k: Day :: InWindow(day, n, k) && (id, k) in records ==> k in WindowDays(records, id, day, n)
  {
    WindowOfDays(records, id, day, n);
    WindowDaysSound(records, id, day, n);
    WindowDaysDescending(records, id, day, n);
    WindowDaysComplete(records, id, day, n);
  }

  /** With a record on every day of the window, a query returns one record per day it covers back to day 0. */
  lemma {:induction false} WindowFull(records: Records, id: EntityId, day: Day, n: nat)
    requires forall k: Day :: InWindow(day, n, k) ==> (id, k) in records
    ensures |Window(records, id, day, n)| == Min(n, day + 1)
    decreases n
  {
    if n > 0 {
      assert InWindow(day, n, day);
      if day > 0 {
        forall k: Day | InWindow(day - 1, n - 1, k) ensures (id, k) in records {
          assert InWindow(day, n, k);
        }
        WindowFull(records, id, day - 1, n - 1);
      }
    }
  }

  /** A day without a record contributes nothing: the query is the same as one starting a day earlier. */
  lemma WindowSkipsMissingDay(records: Records, id: EntityId, day: Day, n: nat)
    requires (id, day) !in records && day > 0 && n > 0
    ensures Window(records, id, day, n) == Window(records, id, day - 1, n - 1)
  {
  }

  /**
   * With a record for each of the days `0 .. last` and none after, a query
   * on the next day returns one record fewer than the days it covers: none
   * for a one-day query, four for a five-day query.
   */
  lemma DayAfterLastReport(records: Records, id: EntityId, last: Day, n: nat)
    requires forall k: Day :: k <= last ==> (id, k) in records
    requires (id, last + 1) !in records
    requires 1 <= n
    ensures |Window(records, id, last + 1, n)| == Min(n - 1, last + 1)
  {
    WindowSkipsMissingDay(records, id, last + 1, n);
    WindowFull(records, id, last, n - 1);
  }

  /** A window without any record of `id` returns nothing. */
  lemma {:induction false} WindowOfNoRecords(records: Records, id: EntityId, day: Day, n: nat)
    requires forall k: Day :: InWindow(day, n, k) ==> (id, k) !in records
    ensures Window(records, id, day, n) == []
    decreases n
  {
    if n > 0 {
      assert InWindow(day, n, day);
      if day > 0 {
        forall k: Day | InWindow(day - 1, n - 1, k) ensures (id, k) !in records {
          assert InWindow(day, n, k);
        }
        WindowOfNoRecords(records, id, day - 1, n - 1);
      }
    }
  }

  /**
   * An entity that reported on day `r` only, queried on the next day,
   * returns nothing for a one-day query and that one record for a longer one.
   */
  lemma SingleReportQuery(records: Records, id: EntityId, r: Day, n: nat)
    requires (id, r) in records && forall k: Day :: k != r ==> (id, k) !in records
    requires 1 <= n
    ensures Window(records, id, r + 1, n) == if n == 1 then [] else [records[(id, r)]]
  {
    WindowSkipsMissingDay(records, id, r + 1, n);
    if n > 1 && r > 0 {
      WindowOfNoRecords(records, id, r - 1, n - 2);
    }
  }

  /** After a report, a one-day query at its date returns exactly the record just written. */
  lemma QueryAfterReport(records: Records, entityType: EntityType, id: EntityId, day: Day, count: nat)
    ensures var after := Upsert(records, entityType, id, day, count);
      && Window(after, id, day, 1) == [after[(id, day)]]
      && after[(id, day)].date == day
      && after[(id, day)].dailyStats.count == count
  {
  }

  /**
   * A query at `day` without a number of days covers that day alone: it
   * returns that day's record, or nothing. When `day` is the latest day with
   * a record, this is the entity's latest-usage summary.
   */
  lemma LatestIsDefaultQuery(records: Records, id: EntityId, day: Day)
    ensures Window(records, id, day, ClampDays(None)) ==
            (if (id, day) in records then [records[(id, day)]] else [])
  {
  }
}
