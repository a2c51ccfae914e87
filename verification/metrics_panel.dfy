/** The dashboard metrics: effort distribution, this week against last week,
    the average success rate, the day streak and the four-week trend of each
    component. A record's date is its day number; `today` is a parameter. */
module MetricsPanel {
  import opened Common
  import opened Calendar

  /** The part of a record the metrics read: its resolved component id,
      its day and its effort level. */
  datatype MetricsRecord = MetricsRecord(componentId: string, day: int, effort: Level)

  datatype EffortCounts = EffortCounts(low: nat, medium: nat, high: nat)

  // ----- effort distribution -----

  function CountLevel(rs: seq<MetricsRecord>, l: Level): (n: nat)
    ensures n <= |rs|
  {
    if |rs| == 0 then 0
    else CountLevel(rs[..|rs| - 1], l) + (if rs[|rs| - 1].effort == l then 1 else 0)
  }

  /** effortCounts: one increment per record, in the slot of its level. */
  function Efforts(rs: seq<MetricsRecord>): (c: EffortCounts)
  {
    if |rs| == 0 then EffortCounts(0, 0, 0)
    else
      var c := Efforts(rs[..|rs| - 1]);
      match rs[|rs| - 1].effort
      case Low => c.(low := c.low + 1)
      case Medium => c.(medium := c.medium + 1)
      case High => c.(high := c.high + 1)
  }

  /** Each slot counts the records of its level, and the slots add up to the
      number of records. */
  lemma {:induction false} EffortsCount(rs: seq<MetricsRecord>)
    ensures Efforts(rs).low == CountLevel(rs, Low)
    ensures Efforts(rs).medium == CountLevel(rs, Medium)
    ensures Efforts(rs).high == CountLevel(rs, High)
    ensures Efforts(rs).low + Efforts(rs).medium + Efforts(rs).high == |rs|
  {
    if |rs| > 0 {
      EffortsCount(rs[..|rs| - 1]);
    }
  }

  // ----- weekly counts -----

  /** Records on or after day `lo`. */
  function CountFrom(rs: seq<MetricsRecord>, lo: int): (n: nat)
    ensures n <= |rs|
  {
    if |rs| == 0 then 0
    else CountFrom(rs[..|rs| - 1], lo) + (if rs[|rs| - 1].day >= lo then 1 else 0)
  }

  /** Records in the half-open day window [lo, hi). */
  function CountBetween(rs: seq<MetricsRecord>, lo: int, hi: int): (n: nat)
    ensures n <= |rs|
  {
    if |rs| == 0 then 0
    else CountBetween(rs[..|rs| - 1], lo, hi) + (if lo <= rs[|rs| - 1].day < hi then 1 else 0)
  }

  /** The Monday that starts the current week. */
  function CurrentWeekStart(today: int): (ws: int)
    ensures Weekday(ws) == 1 && ws <= today < ws + 7
  {
    MondayOnOrBefore(today)
  }

  /** currentWeekRecords counts from this Monday with no upper bound;
      lastWeekRecords counts [Monday - 7, Monday). */
  function WeekCounts(rs: seq<MetricsRecord>, today: int): (c: (nat, nat))
  {
    var ws := CurrentWeekStart(today);
    (CountFrom(rs, ws), CountBetween(rs, ws - 7, ws))
  }

  /** The two windows never overlap: together they count exactly the
      records from last Monday onwards. */
  lemma {:induction false} WeekCountsDisjoint(rs: seq<MetricsRecord>, today: int)
    ensures WeekCounts(rs, today).0 + WeekCounts(rs, today).1 == CountFrom(rs, CurrentWeekStart(today) - 7)
  {
    var ws := CurrentWeekStart(today);
    FromSplit(rs, ws - 7, ws);
  }

  lemma {:induction false} FromSplit(rs: seq<MetricsRecord>, lo: int, mid: int)
    requires lo <= mid
    ensures CountFrom(rs, lo) == CountBetween(rs, lo, mid) + CountFrom(rs, mid)
  {
    if |rs| > 0 {
      FromSplit(rs[..|rs| - 1], lo, mid);
    }
  }

  lemma {:induction false} BetweenSplit(rs: seq<MetricsRecord>, lo: int, mid: int, hi: int)
    requires lo <= mid <= hi
    ensures CountBetween(rs, lo, hi) == CountBetween(rs, lo, mid) + CountBetween(rs, mid, hi)
  {
    if |rs| > 0 {
      BetweenSplit(rs[..|rs| - 1], lo, mid, hi);
    }
  }

  /** weeklyChange: the rounded percentage change against last week; with
      no records last week, 100 if there are some this week and 0 if not. */
  function WeeklyChange(current: nat, last: nat): (r: int)
    ensures last == 0 && current > 0 ==> r == 100
    ensures last == 0 && current == 0 ==> r == 0
    ensures r >= -100
  {
    if last > 0 then
      var q := ((current - last) * 100) as real / last as real;
      assert q * last as real == ((current - last) * 100) as real;
      assert (q + 100.0) * last as real == (current * 100) as real;
      NonNegativeFactor(q + 100.0, last as real);
      Round(q)
    else if current > 0 then 100
    else 0
  }

  lemma NonNegativeFactor(a: real, f: real)
    requires f > 0.0 && a * f >= 0.0
    ensures a >= 0.0
  {
  }

  /** With records last week the change is the exact percentage to within
      half a point, and it has the sign of the difference. */
  lemma WeeklyChangeApproximates(current: nat, last: nat)
    requires last > 0
    ensures var exact := ((current - last) * 100) as real / last as real;
      exact - 0.5 < WeeklyChange(current, last) as real <= exact + 0.5
    ensures current == last ==> WeeklyChange(current, last) == 0
    ensures current > last ==> WeeklyChange(current, last) >= 0
    ensures current < last ==> WeeklyChange(current, last) <= 0
  {
    var q := ((current - last) * 100) as real / last as real;
    assert q * last as real == ((current - last) * 100) as real;
    if current > last {
      NonNegativeFactor(q, last as real);
    } else if current < last {
      NonNegativeFactor(-q, last as real);
    }
  }

  // ----- average success rate -----

  function SumReal(xs: seq<real>): real {
    if |xs| == 0 then 0.0 else SumReal(xs[..|xs| - 1]) + xs[|xs| - 1]
  }

  /** totalSuccessRate: the rounded mean of the components' success rates,
      0 without components. */
  function TotalSuccessRate(rates: seq<real>): (r: int)
    ensures |rates| == 0 ==> r == 0
    ensures |rates| > 0 ==>
      SumReal(rates) / |rates| as real - 0.5 < r as real <= SumReal(rates) / |rates| as real + 0.5
  {
    if |rates| == 0 then 0 else Round(SumReal(rates) / |rates| as real)
  }

  lemma {:induction false} SumRealBounds(xs: seq<real>, lo: real, hi: real)
    requires forall i :: 0 <= i < |xs| ==> lo <= xs[i] <= hi
    ensures lo * |xs| as real <= SumReal(xs) <= hi * |xs| as real
  {
    if |xs| > 0 {
      SumRealBounds(xs[..|xs| - 1], lo, hi);
    }
  }

  /** Rates between 0 and 100 (as calculateSuccessRate produces) average to
      a rounded value between 0 and 100. */
  lemma TotalSuccessRateBounds(rates: seq<real>)
    requires forall i :: 0 <= i < |rates| ==> 0.0 <= rates[i] <= 100.0
    ensures 0 <= TotalSuccessRate(rates) <= 100
  {
    if |rates| > 0 {
      var n := |rates| as real;
      SumRealBounds(rates, 0.0, 100.0);
      var q := SumReal(rates) / n;
      assert q * n == SumReal(rates);
      NonNegativeFactor(q, n);
      NonNegativeFactor(100.0 - q, n);
      RoundMonotonic(q, 100.0);
      RoundOfInt(100);
    }
  }

  // ----- streak -----

  /** The length of the run of consecutive days ending at `d` that all
      have a record date in `dates`. */
  function RunLength(dates: set<int>, d: int): (n: nat)
    ensures n <= |dates|
    decreases |dates|
  {
    if d in dates then 1 + RunLength(dates - {d}, d - 1) else 0
  }

  lemma {:induction false} RunLengthRemove(dates: set<int>, x: int, d: int)
    requires d < x
    ensures RunLength(dates - {x}, d) == RunLength(dates, d)
    decreases |dates|
  {
    if d in dates {
      assert dates - {x} - {d} == (dates - {d}) - {x};
      RunLengthRemove(dates - {d}, x, d - 1);
    }
  }

  /** Removing the run's first day leaves the rest of the run. */
  lemma RunLengthStep(dates: set<int>, d: int)
    requires d in dates
    ensures RunLength(dates, d) == 1 + RunLength(dates, d - 1)
  {
    RunLengthRemove(dates, d, d - 1);
  }

  /** The run is exactly the days d - n + 1 .. d, all recorded, and the day
      before it is not. */
  lemma {:induction false} RunLengthMeans(dates: set<int>, d: int)
    ensures forall x :: d - RunLength(dates, d) < x <= d ==> x in dates
    ensures d - RunLength(dates, d) !in dates
    decreases |dates|
  {
    if d in dates {
      RunLengthMeans(dates - {d}, d - 1);
      assert RunLength(dates, d) == 1 + RunLength(dates - {d}, d - 1);
      forall x | d - RunLength(dates, d) < x <= d
        ensures x in dates
      {
        if x < d {
          assert x in dates - {d};
        }
      }
    }
  }

  /** The streak loop as written: `i` runs over 0 .. |sortedDates| - 1, a
      hit bumps the streak, a miss ends it unless it is today's (i = 0). */
  function StreakLoop(dates: set<int>, today: int, i: nat, streak: nat): (r: nat)
    decreases |dates| - i
  {
    if i >= |dates| then streak
    else if today - i in dates then StreakLoop(dates, today, i + 1, streak + 1)
    else if i > 0 then streak
    else StreakLoop(dates, today, i + 1, streak)
  }

  function StreakAsWritten(dates: set<int>, today: int): nat {
    StreakLoop(dates, today, 0, 0)
  }

  /** The streak the panel means: consecutive recorded days ending today,
      or ending yesterday when today has no record yet. */
  function Streak(dates: set<int>, today: int): (r: nat)
    ensures r <= |dates|
  {
    if today in dates then RunLength(dates, today) else RunLength(dates, today - 1)
  }

  /** From position `i >= 1` on, the loop adds the run ending at `today - i`,
      cut off at the loop bound. */
  lemma {:induction false} StreakLoopTail(dates: set<int>, today: int, i: nat, streak: nat)
    requires i >= 1
    ensures i <= |dates| ==>
      StreakLoop(dates, today, i, streak) == streak + Min(RunLength(dates, today - i), |dates| - i)
    decreases |dates| - i
  {
    if i < |dates| && today - i in dates {
      StreakLoopTail(dates, today, i + 1, streak + 1);
      RunLengthStep(dates, today - i);
      assert today - i - 1 == today - (i + 1);
    }
  }

  /** The loop as written agrees with the intended streak when today has a
      record, and otherwise falls one short exactly when every record date
      belongs to the run ending yesterday. */
  lemma StreakAsWrittenCharacterized(dates: set<int>, today: int)
    ensures today in dates ==> StreakAsWritten(dates, today) == Streak(dates, today)
    ensures today !in dates && |dates| > 0 ==>
      StreakAsWritten(dates, today) == Min(Streak(dates, today), |dates| - 1)
  {
    if |dates| > 0 {
      if today in dates {
        assert StreakAsWritten(dates, today) == StreakLoop(dates, today, 1, 1);
        StreakLoopTail(dates, today, 1, 1);
        RunLengthStep(dates, today);
      } else {
        assert StreakAsWritten(dates, today) == StreakLoop(dates, today, 1, 0);
        StreakLoopTail(dates, today, 1, 0);
      }
    }
  }

  /** The input that shows the discrepancy: one record, dated yesterday. */
  lemma StreakAsWrittenMissesYesterday(today: int)
    ensures StreakAsWritten({today - 1}, today) == 0
    ensures Streak({today - 1}, today) == 1
  {
    var dates := {today - 1};
    assert |dates| == 1;
    assert StreakLoop(dates, today, 1, 0) == 0;
    assert StreakAsWritten(dates, today) == StreakLoop(dates, today, 1, 0);
    assert dates - {today - 1} == {};
    assert RunLength({}, today - 2) == 0;
  }

  /** The intended streak never exceeds the number of distinct record
      dates; every day of it has a record, and the day before it has none. */
  lemma StreakMeans(dates: set<int>, today: int)
    ensures Streak(dates, today) <= |dates|
    ensures today in dates ==> forall x :: today - Streak(dates, today) < x <= today ==> x in dates
    ensures today in dates ==> today - Streak(dates, today) !in dates
    ensures today !in dates ==> forall x :: today - 1 - Streak(dates, today) < x < today ==> x in dates
    ensures today !in dates ==> today - 1 - Streak(dates, today) !in dates
  {
    if today in dates {
      RunLengthMeans(dates, today);
    } else {
      RunLengthMeans(dates, today - 1);
    }
  }

  // ----- component trends -----

  datatype WeekCount = WeekCount(week: nat, count: nat)

  datatype Trend = Trend(id: string, weeklyData: seq<WeekCount>, currentWeek: nat, trend: int)

  function OfComponent(rs: seq<MetricsRecord>, id: string): (r: seq<MetricsRecord>)
    ensures |r| <= |rs|
    ensures forall i :: 0 <= i < |r| ==> r[i].componentId == id
  {
    if |rs| == 0 then []
    else
      var prev := OfComponent(rs[..|rs| - 1], id);
      if rs[|rs| - 1].componentId == id then prev + [rs[|rs| - 1]] else prev
  }

  /** Window `k` (week number k + 1, printed "W1".."W4") covers the seven days
      starting `3 - k` weeks before this Monday. */
  function WeekWindow(rs: seq<MetricsRecord>, ws: int, k: nat): WeekCount
    requires k < 4
  {
    var start := ws - 7 * (3 - k);
    WeekCount(k + 1, CountBetween(rs, start, start + 7))
  }

  /** componentTrends: four weekly counts of the component's records, the
      latest as currentWeek and its difference from the week before. */
  function ComponentTrend(rs: seq<MetricsRecord>, id: string, today: int): (t: Trend)
    ensures |t.weeklyData| == 4
    ensures forall k :: 0 <= k < 4 ==> t.weeklyData[k].week == k + 1
    ensures t.currentWeek == t.weeklyData[3].count
    ensures t.trend == t.weeklyData[3].count - t.weeklyData[2].count
    ensures forall k :: 0 <= k < 4 ==>
      t.weeklyData[k].count == CountBetween(OfComponent(rs, id), CurrentWeekStart(today) - 7 * (3 - k),
                                            CurrentWeekStart(today) - 7 * (3 - k) + 7)
  {
    var own := OfComponent(rs, id);
    var ws := CurrentWeekStart(today);
    var data := seq(4, k requires 0 <= k < 4 => WeekWindow(own, ws, k));
    Trend(id, data, data[3].count, data[3].count - data[2].count)
  }

  /** The four windows tile the 28 days from three Mondays back to the end
      of this week: their counts add up to the component's records there,
      and the current week's window is this week. */
  lemma TrendWindowsTile(rs: seq<MetricsRecord>, id: string, today: int)
    ensures var t := ComponentTrend(rs, id, today);
      var ws := CurrentWeekStart(today);
      t.weeklyData[0].count + t.weeklyData[1].count + t.weeklyData[2].count + t.weeklyData[3].count
        == CountBetween(OfComponent(rs, id), ws - 21, ws + 7)
    ensures ComponentTrend(rs, id, today).currentWeek
      == CountBetween(OfComponent(rs, id), CurrentWeekStart(today), CurrentWeekStart(today) + 7)
  {
    var own := OfComponent(rs, id);
    var ws := CurrentWeekStart(today);
    BetweenSplit(own, ws - 21, ws - 14, ws + 7);
    BetweenSplit(own, ws - 14, ws - 7, ws + 7);
    BetweenSplit(own, ws - 7, ws, ws + 7);
  }
}
