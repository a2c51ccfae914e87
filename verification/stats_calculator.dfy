/** The backend's weekly statistics helpers: the Monday-to-Sunday bounds of
    the week holding an instant, and the capped weekly success percentage. */
module StatsCalculator {
  import opened Common
  import opened Calendar

  /** getWeekBounds: from local midnight of the Monday on or before the
      instant's day to 23:59:59.999 of the Sunday six days later. */
  function WeekBounds(t: int): (b: (int, int))
    ensures b.0 <= t <= b.1
    ensures b.0 % MS_PER_DAY == 0 && Weekday(b.0 / MS_PER_DAY) == 1
    ensures b.1 == b.0 + 7 * MS_PER_DAY - 1
    ensures t - b.0 < 7 * MS_PER_DAY
  {
    var monday := MondayOnOrBefore(DayOf(t));
    var start := monday * MS_PER_DAY;
    var lastDay := start + 6 * MS_PER_DAY;
    (start, lastDay + 23 * 3600000 + 59 * 60000 + 59 * 1000 + 999)
  }

  /** Two instants get the same bounds exactly when the second lies inside
      the first's week: the weeks tile the time line. */
  lemma WeekBoundsSameWeek(t: int, u: int)
    ensures WeekBounds(u) == WeekBounds(t) <==> WeekBounds(t).0 <= u <= WeekBounds(t).1
  {
    var m := MondayOnOrBefore(DayOf(t));
    var d := DayOf(u);
    MondayOnOrBeforeCharacterized(d, m);
    assert WeekBounds(t).0 == m * MS_PER_DAY;
    assert WeekBounds(u).0 == MondayOnOrBefore(d) * MS_PER_DAY;
    assert m * MS_PER_DAY <= u < (m + 7) * MS_PER_DAY <==> m <= d < m + 7;
  }

  /** A whole number of tenths. */
  predicate IsTenths(r: real) {
    (r * 10.0).Floor as real == r * 10.0
  }

  /** calculateSuccessRate: `min(round(10 * 100 * logs / freq) / 10, 100)`,
      and 0 for a non-positive frequency. The rational is exact. */
  function SuccessRate(currentLogs: int, minWeeklyFreq: int): (r: real)
    ensures minWeeklyFreq <= 0 ==> r == 0.0
    ensures r <= 100.0
    ensures currentLogs >= 0 ==> r >= 0.0
    ensures IsTenths(r)
  {
    if minWeeklyFreq <= 0 then 0.0
    else
      var tenths := Round((currentLogs * 1000) as real / minWeeklyFreq as real);
      var v := tenths as real / 10.0;
      assert v * 10.0 == tenths as real;
      if v < 100.0 then v else 100.0
  }

  /** The exact percentage the rounding approximates. */
  function ExactRate(currentLogs: int, minWeeklyFreq: int): real
    requires minWeeklyFreq > 0
  {
    (currentLogs * 100) as real / minWeeklyFreq as real
  }

  /** Meeting the weekly minimum reads as exactly 100 percent. */
  lemma SuccessRateFull(currentLogs: int, minWeeklyFreq: int)
    requires 0 < minWeeklyFreq <= currentLogs
    ensures SuccessRate(currentLogs, minWeeklyFreq) == 100.0
  {
    var x := (currentLogs * 1000) as real / minWeeklyFreq as real;
    var f := minWeeklyFreq as real;
    assert x * f == (currentLogs * 1000) as real;
    assert (x - 1000.0) * f >= 0.0;
    PositiveFactor(x - 1000.0, f);
  }

  lemma PositiveFactor(a: real, f: real)
    requires f > 0.0 && a * f >= 0.0
    ensures a >= 0.0
  {
  }

  /** Below the cap the result is the exact percentage to within half a tenth. */
  lemma SuccessRateApproximates(currentLogs: int, minWeeklyFreq: int)
    requires minWeeklyFreq > 0 && SuccessRate(currentLogs, minWeeklyFreq) < 100.0
    ensures ExactRate(currentLogs, minWeeklyFreq) - 0.05 < SuccessRate(currentLogs, minWeeklyFreq)
    ensures SuccessRate(currentLogs, minWeeklyFreq) <= ExactRate(currentLogs, minWeeklyFreq) + 0.05
  {
    var f := minWeeklyFreq as real;
    var x := (currentLogs * 1000) as real / f;
    var e := ExactRate(currentLogs, minWeeklyFreq);
    assert x * f == (currentLogs * 1000) as real;
    assert e * f == (currentLogs * 100) as real;
    assert x == 10.0 * e;
  }

  /** More logs never lower the rate. */
  lemma SuccessRateMonotonic(logs1: int, logs2: int, minWeeklyFreq: int)
    requires logs1 <= logs2
    ensures SuccessRate(logs1, minWeeklyFreq) <= SuccessRate(logs2, minWeeklyFreq)
  {
    if minWeeklyFreq > 0 {
      var f := minWeeklyFreq as real;
      var x1 := (logs1 * 1000) as real / f;
      var x2 := (logs2 * 1000) as real / f;
      assert x1 * f == (logs1 * 1000) as real;
      assert x2 * f == (logs2 * 1000) as real;
      assert x1 <= x2;
      RoundMonotonic(x1, x2);
    }
  }
}
