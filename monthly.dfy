/**
 * Complaints over time: the dates are bucketed by calendar month
 * (`to_period('M')`) and each bucket is counted (`groupby(...).size()`),
 * buckets in chronological order. A date that is not a calendar date fails
 * the whole aggregation.
 */
module MonthlyAggregator {
  import opened Wrappers
  import opened Records

  /** A calendar month, the key of a monthly bucket. */
  datatype YearMonth = YearMonth(year: int, month: int)

  /** Chronological order of months. */
  predicate Earlier(a: YearMonth, b: YearMonth) {
    a.year < b.year || (a.year == b.year && a.month < b.month)
  }

  /** The month a date falls in; the day plays no part. */
  function MonthOf(d: Date): (m: YearMonth)
    ensures m.year == d.year && m.month == d.month
  {
    YearMonth(d.year, d.month)
  }

  /** Gregorian leap years. */
  predicate IsLeapYear(year: int) {
    (year % 4 == 0 && year % 100 != 0) || year % 400 == 0
  }

  function DaysInMonth(year: int, month: int): (n: int)
    requires 1 <= month <= 12
    ensures 28 <= n <= 31
    ensures n == 29 <==> (month == 2 && IsLeapYear(year))
  {
    if month == 2 then (if IsLeapYear(year) then 29 else 28)
    else if month == 4 || month == 6 || month == 9 || month == 11 then 30
    else 31
  }

  /** A triple that names a real calendar date. */
  predicate ValidDate(d: Date) {
    1 <= d.month <= 12 && 1 <= d.day <= DaysInMonth(d.year, d.month)
  }

  /**
   * Which triples name a date: months 1 to 12, day 0 and days past the month's
   * end are not dates, and February 29 exists only in Gregorian leap years.
   */
  lemma ValidDateCalendar()
    ensures ValidDate(Date(2024, 2, 29)) && ValidDate(Date(2000, 2, 29))
    ensures !ValidDate(Date(2023, 2, 29)) && !ValidDate(Date(1900, 2, 29))
    ensures ValidDate(Date(2024, 1, 31)) && !ValidDate(Date(2024, 4, 31))
    ensures !ValidDate(Date(2024, 0, 1)) && !ValidDate(Date(2024, 13, 1)) && !ValidDate(Date(2024, 1, 0))
  {
  }

  /** Why the monthly aggregation failed: the row whose date is not a date. */
  datatype DateError = InvalidDate(row: nat)

  /** A month and how many complaints fall in it. */
  type Bucket = (YearMonth, nat)

  /** Strictly increasing months: in order, and no month twice. */
  predicate Chronological(buckets: seq<Bucket>) {
    forall i, j :: 0 <= i < j < |buckets| ==> Earlier(buckets[i].0, buckets[j].0)
  }

  /** The count a bucket list records for a month, zero when it has no bucket. */
  function CountIn(buckets: seq<Bucket>, m: YearMonth): nat {
    if buckets == [] then 0
    else if buckets[0].0 == m then buckets[0].1
    else CountIn(buckets[1..], m)
  }

  /** The sum of the bucket counts. */
  function TotalIn(buckets: seq<Bucket>): nat {
    if buckets == [] then 0 else buckets[0].1 + TotalIn(buckets[1..])
  }

  /** How many of the dates fall in month `m`. */
  function CountMonth(dates: seq<Date>, m: YearMonth): (n: nat)
    ensures n <= |dates|
  {
    if dates == [] then 0
    else (if MonthOf(dates[0]) == m then 1 else 0) + CountMonth(dates[1..], m)
  }

  /** Adds one complaint in month `m`, keeping the buckets chronological. */
  function AddToBuckets(buckets: seq<Bucket>, m: YearMonth): (r: seq<Bucket>)
    requires Chronological(buckets)
    ensures Chronological(r)
    ensures r != [] && (r[0].0 == m || (buckets != [] && r[0].0 == buckets[0].0))
  {
    if buckets == [] then
      [(m, 1)]
    else if buckets[0].0 == m then
      [(m, buckets[0].1 + 1)] + buckets[1..]
    else if Earlier(m, buckets[0].0) then
      [(m, 1)] + buckets
    else
      var rest := AddToBuckets(buckets[1..], m);
      var r := [buckets[0]] + rest;
      assert forall k :: 0 < k < |r| ==> r[k] == rest[k - 1];
      r
  }

  /** A month earlier than the first bucket has no bucket. */
  lemma {:induction false} CountInBeforeFirst(buckets: seq<Bucket>, m: YearMonth)
    requires Chronological(buckets)
    requires buckets == [] || Earlier(m, buckets[0].0)
    ensures CountIn(buckets, m) == 0
  {
    if buckets != [] {
      if |buckets| > 1 {
        assert Earlier(buckets[0].0, buckets[1..][0].0);
      }
      CountInBeforeFirst(buckets[1..], m);
    }
  }

  /** Adding a complaint in `m` raises the count of `m` by one and leaves every other month alone. */
  lemma {:induction false} AddToBucketsCount(buckets: seq<Bucket>, m: YearMonth, k: YearMonth)
    requires Chronological(buckets)
    ensures CountIn(AddToBuckets(buckets, m), k) == CountIn(buckets, k) + (if k == m then 1 else 0)
  {
    if buckets == [] {
    } else if buckets[0].0 == m {
      if k != m {
        assert AddToBuckets(buckets, m)[1..] == buckets[1..];
      }
    } else if Earlier(m, buckets[0].0) {
      assert AddToBuckets(buckets, m)[1..] == buckets;
      if k == m {
        CountInBeforeFirst(buckets, m);
      }
    } else {
      assert AddToBuckets(buckets, m)[1..] == AddToBuckets(buckets[1..], m);
      AddToBucketsCount(buckets[1..], m, k);
    }
  }

  /** Adding a complaint adds one to the total. */
  lemma {:induction false} AddToBucketsTotal(buckets: seq<Bucket>, m: YearMonth)
    requires Chronological(buckets)
    ensures TotalIn(AddToBuckets(buckets, m)) == TotalIn(buckets) + 1
  {
    if buckets != [] && buckets[0].0 != m && !Earlier(m, buckets[0].0) {
      assert AddToBuckets(buckets, m)[1..] == AddToBuckets(buckets[1..], m);
      AddToBucketsTotal(buckets[1..], m);
    } else if buckets != [] && buckets[0].0 == m {
      assert AddToBuckets(buckets, m)[1..] == buckets[1..];
    } else if buckets != [] {
      assert AddToBuckets(buckets, m)[1..] == buckets;
    }
  }

  /** The buckets of a list of dates, built by adding the dates one by one. */
  function MonthBuckets(dates: seq<Date>): (buckets: seq<Bucket>)
    ensures Chronological(buckets)
  {
    if dates == [] then [] else AddToBuckets(MonthBuckets(dates[1..]), MonthOf(dates[0]))
  }

  /** In a chronological list the bucket of a month is the only one. */
  lemma {:induction false} CountInChronological(buckets: seq<Bucket>, i: nat)
    requires Chronological(buckets) && i < |buckets|
    ensures CountIn(buckets, buckets[i].0) == buckets[i].1
  {
    if i > 0 {
      assert Earlier(buckets[0].0, buckets[i].0);
      assert buckets[1..][i - 1] == buckets[i];
      CountInChronological(buckets[1..], i - 1);
    }
  }

  /** Each date counts towards the bucket of its own month and no other. */
  lemma {:induction false} MonthBucketsCount(dates: seq<Date>, m: YearMonth)
    ensures CountIn(MonthBuckets(dates), m) == CountMonth(dates, m)
  {
    if dates != [] {
      MonthBucketsCount(dates[1..], m);
      AddToBucketsCount(MonthBuckets(dates[1..]), MonthOf(dates[0]), m);
    }
  }

  /** The bucket counts add up to the number of dates. */
  lemma {:induction false} MonthBucketsTotal(dates: seq<Date>)
    ensures TotalIn(MonthBuckets(dates)) == |dates|
  {
    if dates != [] {
      MonthBucketsTotal(dates[1..]);
      AddToBucketsTotal(MonthBuckets(dates[1..]), MonthOf(dates[0]));
    }
  }

  /**
   * The buckets are in chronological order, each holds the number of
   * dates in its month (so at least one), and every date's month has a bucket.
   */
  lemma MonthBucketsCorrect(dates: seq<Date>)
    ensures Chronological(MonthBuckets(dates))
    ensures forall i :: 0 <= i < |MonthBuckets(dates)| ==>
              MonthBuckets(dates)[i].1 == CountMonth(dates, MonthBuckets(dates)[i].0)
              && MonthBuckets(dates)[i].1 >= 1
    ensures forall k :: 0 <= k < |dates| ==> CountIn(MonthBuckets(dates), MonthOf(dates[k])) >= 1
    ensures TotalIn(MonthBuckets(dates)) == |dates|
  {
    var b := MonthBuckets(dates);
    forall i | 0 <= i < |b|
      ensures b[i].1 == CountMonth(dates, b[i].0) && b[i].1 >= 1
    {
      CountInChronological(b, i);
      MonthBucketsCount(dates, b[i].0);
      BucketsNonEmpty(dates, i);
    }
    forall k | 0 <= k < |dates|
      ensures CountIn(b, MonthOf(dates[k])) >= 1
    {
      MonthBucketsCount(dates, MonthOf(dates[k]));
      CountMonthPositive(dates, k);
    }
    MonthBucketsTotal(dates);
  }

  /** A date falls in its own month. */
  lemma {:induction false} CountMonthPositive(dates: seq<Date>, k: nat)
    requires k < |dates|
    ensures CountMonth(dates, MonthOf(dates[k])) >= 1
  {
    if k > 0 {
      assert dates[1..][k - 1] == dates[k];
      CountMonthPositive(dates[1..], k - 1);
    }
  }

  /** No bucket is empty. */
  lemma {:induction false} BucketsNonEmpty(dates: seq<Date>, i: nat)
    requires i < |MonthBuckets(dates)|
    ensures MonthBuckets(dates)[i].1 >= 1
  {
    var b := MonthBuckets(dates);
    CountInChronological(b, i);
    MonthBucketsCount(dates, b[i].0);
    BucketNeedsDate(dates, i);
    var k :| 0 <= k < |dates| && MonthOf(dates[k]) == b[i].0;
    CountMonthPositive(dates, k);
  }

  /** Every bucket's month is the month of some date. */
  lemma {:induction false} BucketNeedsDate(dates: seq<Date>, i: nat)
    requires i < |MonthBuckets(dates)|
    ensures exists k :: 0 <= k < |dates| && MonthOf(dates[k]) == MonthBuckets(dates)[i].0
  {
    var b := MonthBuckets(dates);
    var rest := MonthBuckets(dates[1..]);
    var m := MonthOf(dates[0]);
    if b[i].0 != m {
      var j := AddToBucketsKeyOrigin(rest, m, i);
      BucketNeedsDate(dates[1..], j);
      var k :| 0 <= k < |dates[1..]| && MonthOf(dates[1..][k]) == rest[j].0;
      assert dates[k + 1] == dates[1..][k];
    }
  }

  /** A bucket after adding is the new month or a bucket that was there. */
  lemma {:induction false} AddToBucketsKeyOrigin(buckets: seq<Bucket>, m: YearMonth, i: nat) returns (j: nat)
    requires Chronological(buckets)
    requires i < |AddToBuckets(buckets, m)| && AddToBuckets(buckets, m)[i].0 != m
    ensures j < |buckets| && buckets[j].0 == AddToBuckets(buckets, m)[i].0
  {
    var r := AddToBuckets(buckets, m);
    if buckets[0].0 == m {
      j := i;
    } else if Earlier(m, buckets[0].0) {
      j := i - 1;
    } else if i == 0 {
      j := 0;
    } else {
      assert r[i] == AddToBuckets(buckets[1..], m)[i - 1];
      var j' := AddToBucketsKeyOrigin(buckets[1..], m, i - 1);
      j := j' + 1;
    }
  }

  /** The day of the month never affects the buckets. */
  lemma {:induction false} MonthBucketsIgnoreDay(dates: seq<Date>, others: seq<Date>)
    requires |dates| == |others|
    requires forall k :: 0 <= k < |dates| ==> MonthOf(dates[k]) == MonthOf(others[k])
    ensures MonthBuckets(dates) == MonthBuckets(others)
  {
    if dates != [] {
      MonthBucketsIgnoreDay(dates[1..], others[1..]);
    }
  }

  /** The first row whose date is not a calendar date, if any. */
  function FirstInvalid(dates: seq<Date>): (r: Option<nat>)
    ensures r.Some? ==> r.value < |dates| && !ValidDate(dates[r.value])
                        && forall j :: 0 <= j < r.value ==> ValidDate(dates[j])
    ensures r.None? ==> forall j :: 0 <= j < |dates| ==> ValidDate(dates[j])
  {
    if dates == [] then None
    else if !ValidDate(dates[0]) then Some(0)
    else match FirstInvalid(dates[1..])
      case None =>
        assert forall j :: 1 <= j < |dates| ==> dates[j] == dates[1..][j - 1];
        None
      case Some(i) =>
        assert forall j :: 1 <= j < i + 1 ==> dates[j] == dates[1..][j - 1];
        Some(i + 1)
  }

  /**
   * The monthly counts: a failure naming the first row with an impossible
   * date, otherwise the chronological buckets.
   */
  function MonthlyCounts(dates: seq<Date>): (r: Result<seq<Bucket>, DateError>)
    ensures r.Failure? ==> r.error.row < |dates| && !ValidDate(dates[r.error.row])
                           && forall j :: 0 <= j < r.error.row ==> ValidDate(dates[j])
    ensures r.Success? ==> (forall j :: 0 <= j < |dates| ==> ValidDate(dates[j]))
                           && r.value == MonthBuckets(dates)
  {
    match FirstInvalid(dates)
    case Some(i) => Failure(InvalidDate(i))
    case None => Success(MonthBuckets(dates))
  }

  /** The aggregation fails exactly when some date is not a calendar date. */
  lemma MonthlyCountsFailsIff(dates: seq<Date>)
    ensures MonthlyCounts(dates).Failure? <==> exists k :: 0 <= k < |dates| && !ValidDate(dates[k])
    ensures MonthlyCounts(dates).Success? ==> MonthlyCounts(dates).value == MonthBuckets(dates)
    ensures MonthlyCounts(dates).Failure? ==>
              MonthlyCounts(dates).error.row < |dates| && !ValidDate(dates[MonthlyCounts(dates).error.row])
  {
    if FirstInvalid(dates).Some? {
      assert !ValidDate(dates[FirstInvalid(dates).value]);
    }
  }

  /** A date written "2024-13-40" makes the aggregation fail. */
  lemma ScenarioInvalidDate(before: seq<Date>, after: seq<Date>)
    requires forall k :: 0 <= k < |before| ==> ValidDate(before[k])
    ensures MonthlyCounts(before + [Date(2024, 13, 40)] + after) == Failure(InvalidDate(|before|))
  {
    var dates := before + [Date(2024, 13, 40)] + after;
    assert dates[|before|] == Date(2024, 13, 40);
    assert forall k :: 0 <= k < |before| ==> dates[k] == before[k];
  }
}
