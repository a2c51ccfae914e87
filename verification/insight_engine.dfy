/** The correlation battery of `getInsights` (insights.controller.ts): from
    the day series to the report of insights, weekly pattern and summary. */
module InsightEngine {
  import C = Common
  import opened Pearson
  import DS = DaySeries
  import Calendar

  const MIN_DATA_POINTS: nat := 5

  datatype InsightKind = SameDay | NextDay | WeeklyPattern

  /** `details.correlation`: the coefficient of a correlation insight, or the
      (rounded) mood range of the weekly one. */
  datatype Strength = Coefficient(c: Corr) | MoodRange(range: real)

  datatype Insight = Insight(
    kind: InsightKind,
    text: string,
    confidence: Confidence,
    dataPoints: nat,
    strength: Strength,
    direction: Direction,
    activityType: C.Option<string>)

  datatype WeeklyRow = WeeklyRow(dayOfWeek: int, avgEnergy: real, avgMood: real, count: nat)

  datatype Summary = Summary(
    averageEnergy: real,
    averageMood: real,
    bestDayOfWeek: C.Option<string>,
    worstDayOfWeek: C.Option<string>)

  datatype Report = Report(correlations: seq<Insight>, summary: Summary, weeklyPattern: seq<WeeklyRow>)

  datatype ComponentMeta = ComponentMeta(id: string, name: string)

  const EMPTY_REPORT: Report := Report([], Summary(0.0, 0.0, C.None, C.None), [])

  // ----- the series as numeric vectors -----

  function Activities(s: seq<DS.DayEntry>): (v: seq<int>)
    ensures |v| == |s| && forall i :: 0 <= i < |s| ==> v[i] == s[i].activityCount
  {
    seq(|s|, i requires 0 <= i < |s| => s[i].activityCount)
  }

  function Moods(s: seq<DS.DayEntry>): (v: seq<int>)
    ensures |v| == |s| && forall i :: 0 <= i < |s| ==> v[i] == s[i].mood
  {
    seq(|s|, i requires 0 <= i < |s| => s[i].mood)
  }

  function Energies(s: seq<DS.DayEntry>): (v: seq<int>)
    ensures |v| == |s| && forall i :: 0 <= i < |s| ==> v[i] == s[i].energy
  {
    seq(|s|, i requires 0 <= i < |s| => s[i].energy)
  }

  // ----- insight wording -----

  function SameDayMoodUp(): string { "More activities correlate with better mood on the same day" }
  function SameDayMoodDown(): string { "More activities correlate with lower mood on the same day" }
  function SameDayEnergyUp(): string { "More activities correlate with higher energy on the same day" }
  function SameDayEnergyDown(): string { "More activities correlate with lower energy on the same day" }
  function NextDayMoodUp(): string { "High-effort exercise correlates with better mood the next day" }
  function NextDayMoodDown(): string { "High-effort exercise correlates with lower mood the next day" }
  function NextDayEnergyUp(): string { "High-effort activities correlate with higher energy the next day" }
  function NextDayEnergyDown(): string { "High-effort activities correlate with lower energy the next day" }
  function ComponentUp(): string { " correlates with better mood the next day" }
  function ComponentDown(): string { " correlates with lower mood the next day" }

  /** One correlation insight, emitted only when |r| reaches the threshold;
      the wording follows the sign of r. */
  function CorrelationInsight(kind: InsightKind, c: Corr, n: nat, up: string, down: string,
                              activity: C.Option<string>): (r: C.Option<Insight>)
    requires c.den >= 0
    ensures r.Some? <==> Significant(c)
    ensures r.Some? ==> r.value.kind == kind && r.value.dataPoints == n && r.value.strength == Coefficient(c)
                        && r.value.activityType == activity
                        && r.value.confidence == ConfidenceOf(c, n)
                        && r.value.direction == (if c.num > 0 then Positive else Negative)
                        && r.value.text == (if c.num > 0 then up else down)
  {
    if Significant(c) then
      SignificantDirection(c);
      C.Some(Insight(kind, if c.num > 0 then up else down, ConfidenceOf(c, n), n,
                     Coefficient(c), DirectionOf(c), activity))
    else C.None
  }

  function AsSeq<T(!new)>(o: C.Option<T>): (s: seq<T>)
    ensures |s| <= 1
    ensures forall x :: x in s <==> o == C.Some(x)
  {
    if o.Some? then [o.value] else []
  }

  // ----- 1. same-day correlations -----

  function SameDayInsights(s: seq<DS.DayEntry>): seq<Insight> {
    AsSeq(CorrelationInsight(SameDay, Correlation(Activities(s), Moods(s)), |s|,
                             SameDayMoodUp(), SameDayMoodDown(), C.None))
    + AsSeq(CorrelationInsight(SameDay, Correlation(Activities(s), Energies(s)), |s|,
                               SameDayEnergyUp(), SameDayEnergyDown(), C.None))
  }

  // ----- 2. next-day correlations -----

  /** The (previous, current) pairs of adjacent entries exactly one day
      apart, in series order; gaps in the logging produce no pair. */
  function NextDayPairs(s: seq<DS.DayEntry>): (ps: seq<(DS.DayEntry, DS.DayEntry)>)
    ensures |s| <= 1 ==> |ps| == 0
    ensures |s| >= 1 ==> |ps| <= |s| - 1
  {
    if |s| < 2 then []
    else
      NextDayPairs(s[..|s| - 1])
      + (if s[|s| - 1].day - s[|s| - 2].day == 1 then [(s[|s| - 2], s[|s| - 1])] else [])
  }

  /** A pair is taken exactly for each adjacent couple of entries whose
      days differ by one. */
  lemma {:induction false} NextDayPairsExact(s: seq<DS.DayEntry>)
    ensures forall k :: 0 <= k < |NextDayPairs(s)| ==> NextDayPairs(s)[k].1.day - NextDayPairs(s)[k].0.day == 1
    ensures forall k :: 0 <= k < |NextDayPairs(s)| ==>
              exists i :: 1 <= i < |s| && NextDayPairs(s)[k] == (s[i - 1], s[i])
    ensures forall i :: 1 <= i < |s| && s[i].day - s[i - 1].day == 1 ==> (s[i - 1], s[i]) in NextDayPairs(s)
  {
    if |s| >= 2 {
      var init := s[..|s| - 1];
      NextDayPairsExact(init);
      var prev := NextDayPairs(init);
      var ps := NextDayPairs(s);
      var extra := if s[|s| - 1].day - s[|s| - 2].day == 1 then [(s[|s| - 2], s[|s| - 1])] else [];
      assert ps == prev + extra;
      forall k | 0 <= k < |ps|
        ensures ps[k].1.day - ps[k].0.day == 1
        ensures exists i :: 1 <= i < |s| && ps[k] == (s[i - 1], s[i])
      {
        if k < |prev| {
          assert ps[k] == prev[k];
          var i :| 1 <= i < |init| && prev[k] == (init[i - 1], init[i]);
          assert ps[k] == (s[i - 1], s[i]);
        } else {
          assert ps[k] == (s[|s| - 2], s[|s| - 1]);
          var i := |s| - 1;
          assert 1 <= i < |s| && ps[k] == (s[i - 1], s[i]);
        }
      }
      forall i | 1 <= i < |s| && s[i].day - s[i - 1].day == 1
        ensures (s[i - 1], s[i]) in ps
      {
        if i < |s| - 1 {
          assert init[i].day - init[i - 1].day == 1;
          assert (init[i - 1], init[i]) in prev;
          assert (init[i - 1], init[i]) == (s[i - 1], s[i]);
        } else {
          assert ps[|ps| - 1] == (s[i - 1], s[i]);
        }
      }
    } else {
      assert NextDayPairs(s) == [];
    }
  }

  function PrevHighEffort(ps: seq<(DS.DayEntry, DS.DayEntry)>): (v: seq<int>)
    ensures |v| == |ps|
  {
    seq(|ps|, k requires 0 <= k < |ps| => ps[k].0.highEffortCount)
  }

  function NextMoods(ps: seq<(DS.DayEntry, DS.DayEntry)>): (v: seq<int>)
    ensures |v| == |ps|
  {
    seq(|ps|, k requires 0 <= k < |ps| => ps[k].1.mood)
  }

  function NextEnergies(ps: seq<(DS.DayEntry, DS.DayEntry)>): (v: seq<int>)
    ensures |v| == |ps|
  {
    seq(|ps|, k requires 0 <= k < |ps| => ps[k].1.energy)
  }

  function NextDayInsights(s: seq<DS.DayEntry>): seq<Insight> {
    if |s| >= MIN_DATA_POINTS + 1 then
      var ps := NextDayPairs(s);
      if |ps| >= MIN_DATA_POINTS then
        AsSeq(CorrelationInsight(NextDay, Correlation(PrevHighEffort(ps), NextMoods(ps)), |ps|,
                                 NextDayMoodUp(), NextDayMoodDown(), C.None))
        + AsSeq(CorrelationInsight(NextDay, Correlation(PrevHighEffort(ps), NextEnergies(ps)), |ps|,
                                   NextDayEnergyUp(), NextDayEnergyDown(), C.None))
      else []
    else []
  }

  /** The six-entry guard of the global next-day block never decides
      anything: five one-day pairs already need six entries. */
  lemma NextDayGuardRedundant(s: seq<DS.DayEntry>)
    ensures |NextDayPairs(s)| >= MIN_DATA_POINTS ==> |s| >= MIN_DATA_POINTS + 1
  {
  }

  // ----- 3. per-component next-day correlations -----

  /** Appends the ids not seen yet, in order. */
  function AppendNew(acc: seq<string>, ids: seq<string>): (r: seq<string>)
    requires Distinct(acc)
    ensures Distinct(r)
    ensures acc <= r
    ensures forall x :: x in r <==> x in acc || x in ids
    decreases |ids|
  {
    if |ids| == 0 then acc
    else if ids[0] in acc then AppendNew(acc, ids[1..])
    else
      assert forall x :: x in ids[1..] ==> x in ids;
      DistinctSnoc(acc, ids[0]);
      var r := AppendNew(acc + [ids[0]], ids[1..]);
      assert acc <= acc + [ids[0]];
      r
  }

  predicate Distinct(xs: seq<string>) {
    forall i, j :: 0 <= i < j < |xs| ==> xs[i] != xs[j]
  }

  lemma DistinctSnoc(xs: seq<string>, x: string)
    requires Distinct(xs) && x !in xs
    ensures Distinct(xs + [x])
  {
  }

  /** The components of the series in the order they were first met: by day,
      and within a day in the order of that day's records. */
  function ComponentOrder(s: seq<DS.DayEntry>): (ids: seq<string>)
    ensures Distinct(ids)
  {
    if |s| == 0 then [] else AppendNew(ComponentOrder(s[..|s| - 1]), DS.TallyIds(s[|s| - 1].tallies))
  }

  /** Exactly the components that have a tally on some day are listed. */
  lemma {:induction false} ComponentOrderCovers(s: seq<DS.DayEntry>, x: string)
    ensures x in ComponentOrder(s) <==> exists i :: 0 <= i < |s| && x in DS.TallyIds(s[i].tallies)
  {
    if |s| > 0 {
      var init := s[..|s| - 1];
      ComponentOrderCovers(init, x);
      assert forall i :: 0 <= i < |init| ==> init[i] == s[i];
      if x in DS.TallyIds(s[|s| - 1].tallies) {
        assert 0 <= |s| - 1 < |s|;
      }
    }
  }

  /** The index of the first entry with a tally for `x`, or -1. */
  function FirstEntry(s: seq<DS.DayEntry>, x: string): (f: int)
    ensures -1 <= f < |s|
    ensures f >= 0 ==> x in DS.TallyIds(s[f].tallies)
    ensures f == -1 ==> forall i :: 0 <= i < |s| ==> x !in DS.TallyIds(s[i].tallies)
  {
    if |s| == 0 then -1
    else
      var f := FirstEntry(s[..|s| - 1], x);
      if f >= 0 then f
      else if x in DS.TallyIds(s[|s| - 1].tallies) then |s| - 1
      else
        assert forall i :: 0 <= i < |s| - 1 ==> s[i] == s[..|s| - 1][i];
        -1
  }

  /** Components are listed in the order they first appear: an earlier
      component's first day is never after a later one's. */
  lemma {:induction false} ComponentOrderFirstSeen(s: seq<DS.DayEntry>)
    ensures forall i :: 0 <= i < |ComponentOrder(s)| ==> FirstEntry(s, ComponentOrder(s)[i]) >= 0
    ensures forall i, j :: 0 <= i < j < |ComponentOrder(s)| ==>
              FirstEntry(s, ComponentOrder(s)[i]) <= FirstEntry(s, ComponentOrder(s)[j])
  {
    if |s| > 0 {
      var init := s[..|s| - 1];
      var acc := ComponentOrder(init);
      var ids := ComponentOrder(s);
      ComponentOrderFirstSeen(init);
      assert acc <= ids;
      forall i | 0 <= i < |ids|
        ensures FirstEntry(s, ids[i]) >= 0
        ensures i < |acc| ==> FirstEntry(s, ids[i]) == FirstEntry(init, ids[i])
        ensures i >= |acc| ==> FirstEntry(s, ids[i]) == |s| - 1
      {
        if i < |acc| {
          assert ids[i] == acc[i];
        } else {
          assert forall j :: 0 <= j < |acc| ==> ids[j] == acc[j] && ids[j] != ids[i];
          assert ids[i] !in acc;
          ComponentOrderCovers(init, ids[i]);
          assert ids[i] in DS.TallyIds(s[|s| - 1].tallies);
        }
      }
    }
  }

  function PrevComponentActivity(ps: seq<(DS.DayEntry, DS.DayEntry)>, id: string): (v: seq<int>)
    ensures |v| == |ps|
    ensures forall k :: 0 <= k < |ps| ==> v[k] == DS.TallyCount(ps[k].0.tallies, id)
  {
    seq(|ps|, k requires 0 <= k < |ps| => DS.TallyCount(ps[k].0.tallies, id))
  }

  /** The position of the last component with the id, or -1: a later
      component overwrites an earlier one in the name map. */
  function LastIndex(components: seq<ComponentMeta>, id: string): (k: int)
    ensures -1 <= k < |components|
    ensures k >= 0 ==> components[k].id == id
    ensures forall j :: k < j < |components| ==> components[j].id != id
  {
    if |components| == 0 then -1
    else if components[|components| - 1].id == id then |components| - 1
    else LastIndex(components[..|components| - 1], id)
  }

  /** `componentNameMap.get(id) || 'Unknown'`: a missing or empty name reads
      as Unknown. */
  function NameOf(components: seq<ComponentMeta>, id: string): (name: string)
    ensures name != ""
    ensures LastIndex(components, id) == -1 ==> name == "Unknown"
    ensures LastIndex(components, id) >= 0 && components[LastIndex(components, id)].name != ""
            ==> name == components[LastIndex(components, id)].name
  {
    var k := LastIndex(components, id);
    if k < 0 || components[k].name == "" then "Unknown" else components[k].name
  }

  function ComponentInsight(s: seq<DS.DayEntry>, id: string, components: seq<ComponentMeta>): C.Option<Insight> {
    var name := NameOf(components, id);
    var ps := NextDayPairs(s);
    if |ps| >= MIN_DATA_POINTS then
      CorrelationInsight(NextDay, Correlation(PrevComponentActivity(ps, id), NextMoods(ps)), |ps|,
                         name + ComponentUp(), name + ComponentDown(), C.Some(name))
    else C.None
  }

  function ComponentInsights(s: seq<DS.DayEntry>, ids: seq<string>, components: seq<ComponentMeta>): seq<Insight> {
    if |ids| == 0 then []
    else AsSeq(ComponentInsight(s, ids[0], components)) + ComponentInsights(s, ids[1..], components)
  }

  // ----- 4. weekly pattern -----

  /** The entries falling on weekday `w`, in series order. */
  function Bucket(s: seq<DS.DayEntry>, w: int): (b: seq<DS.DayEntry>)
    ensures |b| <= |s|
  {
    if |s| == 0 then []
    else Bucket(s[..|s| - 1], w) + (if Calendar.Weekday(s[|s| - 1].day) == w then [s[|s| - 1]] else [])
  }

  function Mean(xs: seq<int>): real {
    if |xs| == 0 then 0.0 else Sum(xs) as real / |xs| as real
  }

  /** The accumulator of one weekday: how many entries, and their mean
      energy and mood. */
  datatype DayStat = DayStat(count: nat, avgEnergy: real, avgMood: real)

  /** The seven accumulators, Sunday first. */
  function WeekStats(s: seq<DS.DayEntry>): (st: seq<DayStat>)
    ensures |st| == 7
  {
    seq(7, w requires 0 <= w < 7 => StatOf(s, w))
  }

  function StatOf(s: seq<DS.DayEntry>, w: int): DayStat {
    var b := Bucket(s, w);
    DayStat(|b|, Mean(Energies(b)), Mean(Moods(b)))
  }

  /** Each accumulator counts and averages the entries of its weekday. */
  lemma WeekStatsAt(s: seq<DS.DayEntry>, w: int)
    requires 0 <= w < 7
    ensures WeekStats(s)[w].count == |Bucket(s, w)|
    ensures WeekStats(s)[w].avgMood == Mean(Moods(Bucket(s, w)))
    ensures WeekStats(s)[w].avgEnergy == Mean(Energies(Bucket(s, w)))
  {
  }

  /** The rows for weekdays `0 .. upTo - 1` that have at least one entry. */
  function WeeklyRows(st: seq<DayStat>, upTo: nat): (rows: seq<WeeklyRow>)
    requires upTo <= |st|
    ensures |rows| <= upTo
  {
    if upTo == 0 then []
    else
      var w := upTo - 1;
      WeeklyRows(st, w)
      + (if st[w].count > 0
         then [WeeklyRow(w, C.Round2(st[w].avgEnergy), C.Round2(st[w].avgMood), st[w].count)]
         else [])
  }

  /** The rows come in weekday order, each reporting its own weekday. */
  lemma {:induction false} WeeklyRowsSorted(st: seq<DayStat>, upTo: nat)
    requires upTo <= |st|
    ensures forall k :: 0 <= k < |WeeklyRows(st, upTo)| ==>
              WeeklyRows(st, upTo)[k].dayOfWeek < upTo && RowOf(st, WeeklyRows(st, upTo)[k])
    ensures forall k, l :: 0 <= k < l < |WeeklyRows(st, upTo)| ==>
              WeeklyRows(st, upTo)[k].dayOfWeek < WeeklyRows(st, upTo)[l].dayOfWeek
  {
    if upTo > 0 {
      WeeklyRowsSorted(st, upTo - 1);
      var w := upTo - 1;
      var prev := WeeklyRows(st, w);
      var rows := WeeklyRows(st, upTo);
      assert forall k :: 0 <= k < |prev| ==> prev[k].dayOfWeek < w && RowOf(st, prev[k]);
      assert forall k, l :: 0 <= k < l < |prev| ==> prev[k].dayOfWeek < prev[l].dayOfWeek;
      if st[w].count > 0 {
        var row := WeeklyRow(w, C.Round2(st[w].avgEnergy), C.Round2(st[w].avgMood), st[w].count);
        assert rows == prev + [row];
        forall k | 0 <= k < |rows|
          ensures rows[k].dayOfWeek < upTo && RowOf(st, rows[k])
        {
          if k < |prev| {
            assert rows[k] == prev[k];
          }
        }
        forall k, l | 0 <= k < l < |rows|
          ensures rows[k].dayOfWeek < rows[l].dayOfWeek
        {
          assert rows[k] == prev[k];
          if l < |prev| {
            assert rows[l] == prev[l];
          }
        }
      } else {
        assert rows == prev;
      }
    }
  }

  /** Every populated weekday gets its row. */
  lemma {:induction false} WeeklyRowsCover(st: seq<DayStat>, upTo: nat, w: int)
    requires upTo <= |st|
    requires 0 <= w < upTo && st[w].count > 0
    ensures exists k :: 0 <= k < |WeeklyRows(st, upTo)| && WeeklyRows(st, upTo)[k].dayOfWeek == w
  {
    var rows := WeeklyRows(st, upTo);
    if w == upTo - 1 {
      assert rows[|rows| - 1].dayOfWeek == w;
    } else {
      var prev := WeeklyRows(st, upTo - 1);
      WeeklyRowsCover(st, upTo - 1, w);
      var k :| 0 <= k < |prev| && prev[k].dayOfWeek == w;
      assert rows[k] == prev[k];
    }
  }

  /** A row reports its weekday's accumulator, rounded to two decimals. */
  predicate RowOf(st: seq<DayStat>, row: WeeklyRow) {
    0 <= row.dayOfWeek < |st|
    && row.count == st[row.dayOfWeek].count > 0
    && row.avgEnergy == C.Round2(st[row.dayOfWeek].avgEnergy)
    && row.avgMood == C.Round2(st[row.dayOfWeek].avgMood)
  }

  /** A running extreme of the scan: weekday -1 means none found yet. */
  datatype Extreme = Extreme(day: int, avgMood: real)

  /** The best-day scan over weekdays `0 .. upTo - 1`: strict `>` against a
      baseline of 0, so the earliest weekday wins a tie. */
  function BestDay(st: seq<DayStat>, upTo: nat): (b: Extreme)
    requires upTo <= |st|
    ensures b.day == -1 <==> forall w :: 0 <= w < upTo && st[w].count > 0 ==> st[w].avgMood <= 0.0
    ensures b.day == -1 ==> b.avgMood == 0.0
    ensures b.day != -1 ==> 0 <= b.day < upTo && st[b.day].count > 0 && b.avgMood == st[b.day].avgMood > 0.0
    ensures forall w :: 0 <= w < upTo && st[w].count > 0 ==> st[w].avgMood <= b.avgMood
    ensures forall w :: 0 <= w < b.day && st[w].count > 0 ==> st[w].avgMood < b.avgMood
  {
    if upTo == 0 then Extreme(-1, 0.0)
    else
      var prev := BestDay(st, upTo - 1);
      var w := upTo - 1;
      if st[w].count > 0 && st[w].avgMood > prev.avgMood then Extreme(w, st[w].avgMood) else prev
  }

  /** The worst-day scan: strict `<` against a baseline of 5, so the earliest
      weekday wins a tie and all-5 averages find no worst day. */
  function WorstDay(st: seq<DayStat>, upTo: nat): (b: Extreme)
    requires upTo <= |st|
    ensures b.day == -1 <==> forall w :: 0 <= w < upTo && st[w].count > 0 ==> st[w].avgMood >= 5.0
    ensures b.day == -1 ==> b.avgMood == 5.0
    ensures b.day != -1 ==> 0 <= b.day < upTo && st[b.day].count > 0 && b.avgMood == st[b.day].avgMood < 5.0
    ensures forall w :: 0 <= w < upTo && st[w].count > 0 ==> st[w].avgMood >= b.avgMood
    ensures forall w :: 0 <= w < b.day && st[w].count > 0 ==> st[w].avgMood > b.avgMood
  {
    if upTo == 0 then Extreme(-1, 5.0)
    else
      var prev := WorstDay(st, upTo - 1);
      var w := upTo - 1;
      if st[w].count > 0 && st[w].avgMood < prev.avgMood then Extreme(w, st[w].avgMood) else prev
  }

  function TotalCount(rows: seq<WeeklyRow>): nat {
    if |rows| == 0 then 0 else TotalCount(rows[..|rows| - 1]) + rows[|rows| - 1].count
  }

  function WeeklyInsight(st: seq<DayStat>): C.Option<Insight>
    requires |st| == 7
  {
    var rows := WeeklyRows(st, 7);
    var best := BestDay(st, 7);
    var worst := WorstDay(st, 7);
    if |rows| >= 3 && best.day != worst.day && best.avgMood - worst.avgMood >= 0.5 then
      var total := TotalCount(rows);
      C.Some(Insight(WeeklyPattern,
                     Calendar.DayName(best.day) + " tends to be your best day; "
                       + Calendar.DayName(worst.day) + " tends to be your lowest",
                     if total >= 20 then High else Medium,
                     total,
                     MoodRange(C.Round2(best.avgMood - worst.avgMood)),
                     Pattern,
                     C.None))
    else C.None
  }

  // ----- the report -----

  function NameOrNull(e: Extreme): C.Option<string> {
    if e.day >= 0 then C.Some(Calendar.DayName(e.day)) else C.None
  }

  /** The insights in the source's fixed order: same-day, next-day, per
      component, weekly. */
  function Correlations(s: seq<DS.DayEntry>, components: seq<ComponentMeta>): seq<Insight> {
    SameDayInsights(s) + NextDayInsights(s)
    + ComponentInsights(s, ComponentOrder(s), components)
    + AsSeq(WeeklyInsight(WeekStats(s)))
  }

  function SummaryOf(s: seq<DS.DayEntry>): Summary {
    var st := WeekStats(s);
    Summary(C.Round2(Mean(Energies(s))), C.Round2(Mean(Moods(s))),
            NameOrNull(BestDay(st, 7)), NameOrNull(WorstDay(st, 7)))
  }

  /** The analysis of a day series: nothing below five days of data. */
  function Analyze(s: seq<DS.DayEntry>, components: seq<ComponentMeta>): (r: Report)
    ensures |s| < MIN_DATA_POINTS ==> r == EMPTY_REPORT
    ensures |s| >= MIN_DATA_POINTS ==>
      r.summary.averageEnergy == C.Round2(Mean(Energies(s)))
      && r.summary.averageMood == C.Round2(Mean(Moods(s)))
  {
    if |s| < MIN_DATA_POINTS then EMPTY_REPORT
    else Report(Correlations(s, components), SummaryOf(s), WeeklyRows(WeekStats(s), 7))
  }

  /** getInsights after its three queries have returned. */
  function GetInsights(pcs: seq<DS.PulseCheck>, rs: seq<DS.ActivityRecord>,
                       components: seq<ComponentMeta>): Report {
    Analyze(DS.BuildSeries(pcs, rs), components)
  }

  // ----- properties of the report -----

  /** What every correlation insight (same-day, next-day, per-component)
      satisfies: |r| reached the 0.3 threshold, the direction follows the
      sign of r, and the confidence is graded on the insight's own sample. */
  predicate CorrelationWellFormed(ins: Insight) {
    ins.kind != WeeklyPattern
    && ins.strength.Coefficient?
    && Significant(ins.strength.c)
    && ins.direction == (if ins.strength.c.num > 0 then Positive else Negative)
    && ins.confidence == ConfidenceOf(ins.strength.c, ins.dataPoints)
  }

  /** The insight reads `up` when r is positive and `down` otherwise. */
  predicate Worded(ins: Insight, up: string, down: string) {
    ins.strength.Coefficient? && ins.text == (if ins.strength.c.num > 0 then up else down)
  }

  /** The same-day block: at most two insights, both graded on the whole
      series; the mood one (resp. energy one) is there exactly when the
      activity count correlates with mood (resp. energy) with |r| >= 0.3. */
  lemma SameDayInsightsFacts(s: seq<DS.DayEntry>)
    ensures |SameDayInsights(s)| <= 2
    ensures forall ins :: ins in SameDayInsights(s) ==>
              CorrelationWellFormed(ins) && ins.kind == SameDay && ins.dataPoints == |s| && ins.activityType == C.None
    ensures var m := Correlation(Activities(s), Moods(s));
            Significant(m) <==> exists ins :: ins in SameDayInsights(s) && ins.strength == Coefficient(m)
                                              && Worded(ins, SameDayMoodUp(), SameDayMoodDown())
    ensures var e := Correlation(Activities(s), Energies(s));
            Significant(e) <==> exists ins :: ins in SameDayInsights(s) && ins.strength == Coefficient(e)
                                              && Worded(ins, SameDayEnergyUp(), SameDayEnergyDown())
  {
  }

  /** The next-day block: graded on the number of one-day pairs, which is
      at least five; the mood insight is there exactly when enough pairs
      exist and previous-day high-effort count correlates with next-day
      mood with |r| >= 0.3. */
  lemma NextDayInsightsFacts(s: seq<DS.DayEntry>)
    ensures |NextDayInsights(s)| <= 2
    ensures forall ins :: ins in NextDayInsights(s) ==>
              CorrelationWellFormed(ins) && ins.kind == NextDay && ins.activityType == C.None
              && ins.dataPoints == |NextDayPairs(s)| >= MIN_DATA_POINTS
    ensures var ps := NextDayPairs(s);
            var m := Correlation(PrevHighEffort(ps), NextMoods(ps));
            |ps| >= MIN_DATA_POINTS && Significant(m)
            <==> exists ins :: ins in NextDayInsights(s) && ins.strength == Coefficient(m)
                               && Worded(ins, NextDayMoodUp(), NextDayMoodDown())
    ensures var ps := NextDayPairs(s);
            var e := Correlation(PrevHighEffort(ps), NextEnergies(ps));
            |ps| >= MIN_DATA_POINTS && Significant(e)
            <==> exists ins :: ins in NextDayInsights(s) && ins.strength == Coefficient(e)
                               && Worded(ins, NextDayEnergyUp(), NextDayEnergyDown())
  {
    NextDayGuardRedundant(s);
  }

  /** Within the same-day block the mood insight comes first and the energy
      insight last. */
  lemma SameDayMoodFirst(s: seq<DS.DayEntry>)
    ensures var m := Correlation(Activities(s), Moods(s));
            Significant(m) ==> SameDayInsights(s)[0].strength == Coefficient(m)
                               && Worded(SameDayInsights(s)[0], SameDayMoodUp(), SameDayMoodDown())
    ensures var e := Correlation(Activities(s), Energies(s));
            Significant(e) ==> var last := SameDayInsights(s)[|SameDayInsights(s)| - 1];
                               last.strength == Coefficient(e) && Worded(last, SameDayEnergyUp(), SameDayEnergyDown())
  {
  }

  /** Within the global next-day block the mood insight comes first and the
      energy insight last. */
  lemma NextDayMoodFirst(s: seq<DS.DayEntry>)
    ensures var ps := NextDayPairs(s);
            var m := Correlation(PrevHighEffort(ps), NextMoods(ps));
            |ps| >= MIN_DATA_POINTS && Significant(m) ==>
              NextDayInsights(s)[0].strength == Coefficient(m)
              && Worded(NextDayInsights(s)[0], NextDayMoodUp(), NextDayMoodDown())
    ensures var ps := NextDayPairs(s);
            var e := Correlation(PrevHighEffort(ps), NextEnergies(ps));
            |ps| >= MIN_DATA_POINTS && Significant(e) ==>
              var last := NextDayInsights(s)[|NextDayInsights(s)| - 1];
              last.strength == Coefficient(e) && Worded(last, NextDayEnergyUp(), NextDayEnergyDown())
  {
    NextDayGuardRedundant(s);
  }

  /** A component's insight is there exactly when the series has five
      one-day pairs and the component's previous-day count correlates with
      next-day mood with |r| >= 0.3; it is named after the component. */
  lemma ComponentInsightPresence(s: seq<DS.DayEntry>, id: string, components: seq<ComponentMeta>)
    ensures var ps := NextDayPairs(s);
            ComponentInsight(s, id, components).Some?
            <==> |ps| >= MIN_DATA_POINTS && Significant(Correlation(PrevComponentActivity(ps, id), NextMoods(ps)))
    ensures ComponentInsight(s, id, components).Some? ==>
              var ins := ComponentInsight(s, id, components).value;
              ins.strength == Coefficient(Correlation(PrevComponentActivity(NextDayPairs(s), id), NextMoods(NextDayPairs(s))))
              && ins.activityType == C.Some(NameOf(components, id))
  {
  }

  /** Component insights keep the order of the ids: the insights of a
      concatenation are those of the first part followed by the second's. */
  lemma {:induction false} ComponentInsightsConcat(s: seq<DS.DayEntry>, a: seq<string>, b: seq<string>,
                                                   components: seq<ComponentMeta>)
    ensures ComponentInsights(s, a + b, components)
            == ComponentInsights(s, a, components) + ComponentInsights(s, b, components)
  {
    if |a| == 0 {
      assert a + b == b;
    } else {
      assert (a + b)[1..] == a[1..] + b;
      ComponentInsightsConcat(s, a[1..], b, components);
    }
  }

  /** Per-component insights: one at most per component, labelled with the
      component's name and worded after it, graded on the one-day pairs. */
  lemma {:induction false} ComponentInsightsFacts(s: seq<DS.DayEntry>, ids: seq<string>, components: seq<ComponentMeta>)
    ensures |ComponentInsights(s, ids, components)| <= |ids|
    ensures forall id :: id in ids && ComponentInsight(s, id, components).Some? ==>
              ComponentInsight(s, id, components).value in ComponentInsights(s, ids, components)
    ensures forall ins :: ins in ComponentInsights(s, ids, components) ==>
              CorrelationWellFormed(ins) && ins.kind == NextDay
              && ins.dataPoints == |NextDayPairs(s)| >= MIN_DATA_POINTS
              && exists id :: id in ids && ins.activityType == C.Some(NameOf(components, id))
                              && Worded(ins, NameOf(components, id) + ComponentUp(),
                                        NameOf(components, id) + ComponentDown())
  {
    if |ids| > 0 {
      ComponentInsightsFacts(s, ids[1..], components);
      var head := AsSeq(ComponentInsight(s, ids[0], components));
      var tail := ComponentInsights(s, ids[1..], components);
      forall id | id in ids && ComponentInsight(s, id, components).Some?
        ensures ComponentInsight(s, id, components).value in head + tail
      {
        if id != ids[0] {
          assert id in ids[1..];
        }
      }
      forall ins: Insight | ins in head + tail
        ensures exists id :: id in ids && ins.activityType == C.Some(NameOf(components, id))
                             && Worded(ins, NameOf(components, id) + ComponentUp(),
                                       NameOf(components, id) + ComponentDown())
      {
        if ins in head {
          assert ids[0] in ids;
        } else {
          var id :| id in ids[1..] && ins.activityType == C.Some(NameOf(components, id))
                    && Worded(ins, NameOf(components, id) + ComponentUp(), NameOf(components, id) + ComponentDown());
          assert id in ids;
        }
      }
    }
  }

  /** Sum of the accumulator counts of weekdays `0 .. upTo - 1`. */
  function StatCount(st: seq<DayStat>, upTo: nat): nat
    requires upTo <= |st|
  {
    if upTo == 0 then 0 else StatCount(st, upTo - 1) + st[upTo - 1].count
  }

  lemma {:induction false} TotalCountOfRows(st: seq<DayStat>, upTo: nat)
    requires upTo <= |st|
    ensures TotalCount(WeeklyRows(st, upTo)) == StatCount(st, upTo)
  {
    if upTo > 0 {
      TotalCountOfRows(st, upTo - 1);
      var w := upTo - 1;
      var prev := WeeklyRows(st, w);
      if st[w].count > 0 {
        var row := WeeklyRow(w, C.Round2(st[w].avgEnergy), C.Round2(st[w].avgMood), st[w].count);
        assert WeeklyRows(st, upTo) == prev + [row];
        TotalCountSnoc(prev, row);
        assert TotalCount(prev + [row]) == TotalCount(prev) + st[w].count;
      } else {
        assert WeeklyRows(st, upTo) == prev;
      }
      assert TotalCount(prev) == StatCount(st, w);
      assert StatCount(st, upTo) == StatCount(st, w) + st[w].count;
    }
  }

  lemma TotalCountSnoc(rows: seq<WeeklyRow>, row: WeeklyRow)
    ensures TotalCount(rows + [row]) == TotalCount(rows) + row.count
  {
    assert (rows + [row])[..|rows|] == rows;
  }

  /** Sum of the bucket sizes of weekdays `0 .. upTo - 1`. */
  function BucketSizes(s: seq<DS.DayEntry>, upTo: nat): nat {
    if upTo == 0 then 0 else BucketSizes(s, upTo - 1) + |Bucket(s, upTo - 1)|
  }

  lemma {:induction false} BucketSizesSnoc(s: seq<DS.DayEntry>, e: DS.DayEntry, upTo: nat)
    ensures BucketSizes(s + [e], upTo)
            == BucketSizes(s, upTo) + (if Calendar.Weekday(e.day) < upTo then 1 else 0)
  {
    if upTo > 0 {
      BucketSizesSnoc(s, e, upTo - 1);
      BucketSnoc(s, e, upTo - 1);
    }
  }

  lemma BucketSnoc(s: seq<DS.DayEntry>, e: DS.DayEntry, w: int)
    ensures Bucket(s + [e], w) == Bucket(s, w) + (if Calendar.Weekday(e.day) == w then [e] else [])
  {
    assert (s + [e])[..|s|] == s;
  }

  /** A weekday's bucket holds exactly the entries on that weekday. */
  lemma {:induction false} BucketMembers(s: seq<DS.DayEntry>, w: int)
    ensures forall x :: x in Bucket(s, w) <==> x in s && Calendar.Weekday(x.day) == w
  {
    if |s| > 0 {
      var init := s[..|s| - 1];
      assert init + [s[|s| - 1]] == s;
      BucketMembers(init, w);
    }
  }

  /** The seven buckets split the series: each entry lies in the bucket of
      its own weekday and in no other, and the sizes add up to the series. */
  lemma {:induction false} BucketsPartition(s: seq<DS.DayEntry>)
    ensures BucketSizes(s, 7) == |s|
    ensures forall x, w :: 0 <= w < 7 && x in s ==> (x in Bucket(s, w) <==> Calendar.Weekday(x.day) == w)
  {
    forall w | 0 <= w < 7 {
      BucketMembers(s, w);
    }
    if |s| > 0 {
      var init := s[..|s| - 1];
      assert init + [s[|s| - 1]] == s;
      BucketsPartition(init);
      BucketSizesSnoc(init, s[|s| - 1], 7);
    } else {
      NoBuckets(7);
    }
  }

  lemma {:induction false} NoBuckets(upTo: nat)
    ensures BucketSizes([], upTo) == 0
  {
    if upTo > 0 {
      NoBuckets(upTo - 1);
    }
  }

  lemma {:induction false} StatCountIsBucketSizes(s: seq<DS.DayEntry>, upTo: nat)
    requires upTo <= 7
    ensures StatCount(WeekStats(s), upTo) == BucketSizes(s, upTo)
  {
    if upTo > 0 {
      StatCountIsBucketSizes(s, upTo - 1);
    }
  }

  /** The weekly pattern accounts for every entry of the series exactly
      once. */
  lemma WeeklyCountsSumToSeries(s: seq<DS.DayEntry>)
    ensures TotalCount(WeeklyRows(WeekStats(s), 7)) == |s|
  {
    TotalCountOfRows(WeekStats(s), 7);
    StatCountIsBucketSizes(s, 7);
    BucketsPartition(s);
  }

  /** The weekly insight: at least three weekdays observed, the best day
      beats the worst by at least half a mood point, graded High exactly
      from twenty entries on. */
  predicate WeeklyInsightSound(o: C.Option<Insight>, st: seq<DayStat>, n: nat)
    requires |st| == 7
  {
    o.Some? ==>
      var best := BestDay(st, 7);
      var worst := WorstDay(st, 7);
      o.value.kind == WeeklyPattern && o.value.direction == Pattern
      && o.value.dataPoints == n && (o.value.confidence == High <==> n >= 20) && o.value.confidence != Low
      && |WeeklyRows(st, 7)| >= 3
      && best.day != worst.day && best.avgMood - worst.avgMood >= 0.5
      && (MoodsInRange(st) ==> 0 <= best.day < 7 && 0 <= worst.day < 7)
      && o.value.strength == MoodRange(C.Round2(best.avgMood - worst.avgMood))
  }

  /** Every observed weekday averages a mood on the 1..5 scale, as it does
      when the pulse checks passed validation. */
  predicate MoodsInRange(st: seq<DayStat>) {
    forall w :: 0 <= w < |st| && st[w].count > 0 ==> 1.0 <= st[w].avgMood <= 5.0
  }

  lemma WeeklyInsightOfStats(st: seq<DayStat>)
    requires |st| == 7
    ensures WeeklyInsightSound(WeeklyInsight(st), st, TotalCount(WeeklyRows(st, 7)))
  {
  }

  predicate ValidMoods(s: seq<DS.DayEntry>) {
    forall i :: 0 <= i < |s| ==> 1 <= s[i].mood <= 5
  }

  lemma {:induction false} SumBounds(xs: seq<int>, lo: int, hi: int)
    requires forall i :: 0 <= i < |xs| ==> lo <= xs[i] <= hi
    ensures lo * |xs| <= Sum(xs) <= hi * |xs|
  {
    if |xs| > 0 {
      var n := |xs| - 1;
      var init := xs[..n];
      assert forall i :: 0 <= i < |init| ==> init[i] == xs[i];
      SumBounds(init, lo, hi);
      assert Sum(xs) == Sum(init) + xs[n];
      assert lo * |xs| == lo * n + lo && hi * |xs| == hi * n + hi;
    }
  }

  /** The mean of values on a scale stays on that scale. */
  lemma MeanBounds(xs: seq<int>, lo: int, hi: int)
    requires |xs| > 0
    requires forall i :: 0 <= i < |xs| ==> lo <= xs[i] <= hi
    ensures lo as real <= Mean(xs) <= hi as real
  {
    SumBounds(xs, lo, hi);
    RatioBounds(Sum(xs), |xs|, lo, hi);
  }

  lemma RatioBounds(total: int, n: int, lo: int, hi: int)
    requires n > 0 && lo * n <= total <= hi * n
    ensures lo as real <= total as real / n as real <= hi as real
  {
    var q := total as real / n as real;
    assert q * n as real == total as real;
  }

  lemma {:induction false} BucketMoods(s: seq<DS.DayEntry>, w: int)
    requires ValidMoods(s)
    ensures ValidMoods(Bucket(s, w))
  {
    if |s| > 0 {
      BucketMoods(s[..|s| - 1], w);
      var b := Bucket(s[..|s| - 1], w);
      var extra: seq<DS.DayEntry> := if Calendar.Weekday(s[|s| - 1].day) == w then [s[|s| - 1]] else [];
      assert Bucket(s, w) == b + extra;
      forall i | 0 <= i < |b + extra|
        ensures 1 <= (b + extra)[i].mood <= 5
      {
        if i < |b| {
          assert (b + extra)[i] == b[i];
        }
      }
    }
  }

  /** With validated pulse checks every weekday average lies on the 1..5
      scale. */
  lemma ValidMoodsInRange(s: seq<DS.DayEntry>)
    requires ValidMoods(s)
    ensures MoodsInRange(WeekStats(s))
  {
    forall w | 0 <= w < 7 && WeekStats(s)[w].count > 0
      ensures 1.0 <= WeekStats(s)[w].avgMood <= 5.0
    {
      WeekStatsAt(s, w);
      BucketMoods(s, w);
      MeanBounds(Moods(Bucket(s, w)), 1, 5);
    }
  }

  lemma WeeklyInsightFacts(s: seq<DS.DayEntry>)
    ensures WeeklyInsightSound(WeeklyInsight(WeekStats(s)), WeekStats(s), |s|)
    ensures var st := WeekStats(s);
            WeeklyInsight(st).Some?
            <==> |WeeklyRows(st, 7)| >= 3 && BestDay(st, 7).day != WorstDay(st, 7).day
                 && BestDay(st, 7).avgMood - WorstDay(st, 7).avgMood >= 0.5
    ensures var st := WeekStats(s);
            WeeklyInsight(st).Some? ==>
              WeeklyInsight(st).value.text
              == Calendar.DayName(BestDay(st, 7).day) + " tends to be your best day; "
                 + Calendar.DayName(WorstDay(st, 7).day) + " tends to be your lowest"
  {
    WeeklyCountsSumToSeries(s);
    WeeklyInsightOfStats(WeekStats(s));
  }

  function Rank(k: InsightKind): nat {
    match k
    case SameDay => 0
    case NextDay => 1
    case WeeklyPattern => 2
  }

  /** Same-day insights come first, then next-day ones, then the weekly
      pattern, which can only be last. */
  predicate KindsOrdered(r: seq<Insight>) {
    (forall i, j :: 0 <= i < j < |r| ==> Rank(r[i].kind) <= Rank(r[j].kind))
    && (forall i :: 0 <= i < |r| - 1 ==> r[i].kind != WeeklyPattern)
  }

  predicate AllCorrelationsWellFormed(r: seq<Insight>) {
    forall i :: 0 <= i < |r| && r[i].kind != WeeklyPattern ==> CorrelationWellFormed(r[i])
  }

  predicate AllOfKind(r: seq<Insight>, k: InsightKind) {
    forall i :: 0 <= i < |r| ==> r[i].kind == k
  }

  lemma {:induction false} OrderedConcat(sd: seq<Insight>, nd: seq<Insight>, wk: seq<Insight>)
    requires AllOfKind(sd, SameDay) && AllOfKind(nd, NextDay) && AllOfKind(wk, WeeklyPattern) && |wk| <= 1
    ensures KindsOrdered(sd + nd + wk)
  {
    var r := sd + nd + wk;
    forall i, j | 0 <= i < j < |r|
      ensures Rank(r[i].kind) <= Rank(r[j].kind)
    {
      if i < |sd| {
        assert r[i] == sd[i];
      } else if j < |sd| + |nd| {
        assert r[i] == nd[i - |sd|] && r[j] == nd[j - |sd|];
      } else {
        assert r[j] == wk[j - |sd| - |nd|];
      }
    }
    forall i | 0 <= i < |r| - 1
      ensures r[i].kind != WeeklyPattern
    {
      if i < |sd| {
        assert r[i] == sd[i];
      } else {
        assert r[i] == nd[i - |sd|];
      }
    }
  }

  lemma WellFormedConcat(a: seq<Insight>, b: seq<Insight>)
    requires AllCorrelationsWellFormed(a) && AllCorrelationsWellFormed(b)
    ensures AllCorrelationsWellFormed(a + b)
  {
    forall i | 0 <= i < |a + b| && (a + b)[i].kind != WeeklyPattern
      ensures CorrelationWellFormed((a + b)[i])
    {
      if i < |a| {
        assert (a + b)[i] == a[i];
      } else {
        assert (a + b)[i] == b[i - |a|];
      }
    }
  }

  lemma SameDayBlock(s: seq<DS.DayEntry>)
    ensures AllOfKind(SameDayInsights(s), SameDay) && AllCorrelationsWellFormed(SameDayInsights(s))
  {
    var sd := SameDayInsights(s);
    SameDayInsightsFacts(s);
    assert forall i :: 0 <= i < |sd| ==> sd[i] in sd;
  }

  lemma GlobalNextDayBlock(s: seq<DS.DayEntry>)
    ensures AllOfKind(NextDayInsights(s), NextDay) && AllCorrelationsWellFormed(NextDayInsights(s))
  {
    var nd := NextDayInsights(s);
    NextDayInsightsFacts(s);
    assert forall i :: 0 <= i < |nd| ==> nd[i] in nd;
  }

  lemma ComponentBlock(s: seq<DS.DayEntry>, components: seq<ComponentMeta>)
    ensures var ci := ComponentInsights(s, ComponentOrder(s), components);
            AllOfKind(ci, NextDay) && AllCorrelationsWellFormed(ci)
  {
    var ci := ComponentInsights(s, ComponentOrder(s), components);
    ComponentInsightsFacts(s, ComponentOrder(s), components);
    assert forall i :: 0 <= i < |ci| ==> ci[i] in ci;
  }

  lemma KindConcat(a: seq<Insight>, b: seq<Insight>, k: InsightKind)
    requires AllOfKind(a, k) && AllOfKind(b, k)
    ensures AllOfKind(a + b, k)
  {
    forall i | 0 <= i < |a + b|
      ensures (a + b)[i].kind == k
    {
      if i < |a| {
        assert (a + b)[i] == a[i];
      } else {
        assert (a + b)[i] == b[i - |a|];
      }
    }
  }

  lemma NextDayBlock(s: seq<DS.DayEntry>, components: seq<ComponentMeta>)
    ensures var nd := NextDayInsights(s) + ComponentInsights(s, ComponentOrder(s), components);
            AllOfKind(nd, NextDay) && AllCorrelationsWellFormed(nd)
  {
    var nd := NextDayInsights(s);
    var ci := ComponentInsights(s, ComponentOrder(s), components);
    GlobalNextDayBlock(s);
    ComponentBlock(s, components);
    KindConcat(nd, ci, NextDay);
    WellFormedConcat(nd, ci);
  }

  lemma WeeklyBlock(st: seq<DayStat>)
    requires |st| == 7
    ensures AllOfKind(AsSeq(WeeklyInsight(st)), WeeklyPattern)
    ensures AllCorrelationsWellFormed(AsSeq(WeeklyInsight(st)))
  {
  }

  lemma ShapeOfPieces(sd: seq<Insight>, nd: seq<Insight>, wk: seq<Insight>)
    requires AllOfKind(sd, SameDay) && AllCorrelationsWellFormed(sd)
    requires AllOfKind(nd, NextDay) && AllCorrelationsWellFormed(nd)
    requires AllOfKind(wk, WeeklyPattern) && |wk| <= 1
    ensures KindsOrdered(sd + nd + wk) && AllCorrelationsWellFormed(sd + nd + wk)
  {
    OrderedConcat(sd, nd, wk);
    WellFormedConcat(sd, nd);
    assert AllCorrelationsWellFormed(wk);
    WellFormedConcat(sd + nd, wk);
  }

  /** The report's insights are the four blocks in the source's order:
      same-day, global next-day, per component in first-seen order, weekly;
      its weekly pattern is the weekday rows. */
  lemma ReportBlocks(s: seq<DS.DayEntry>, components: seq<ComponentMeta>)
    requires |s| >= MIN_DATA_POINTS
    ensures Analyze(s, components).correlations
            == SameDayInsights(s) + NextDayInsights(s)
               + ComponentInsights(s, ComponentOrder(s), components) + AsSeq(WeeklyInsight(WeekStats(s)))
    ensures Analyze(s, components).weeklyPattern == WeeklyRows(WeekStats(s), 7)
  {
    assert Analyze(s, components).correlations == Correlations(s, components);
  }

  lemma CorrelationsSplit(s: seq<DS.DayEntry>, components: seq<ComponentMeta>)
    ensures Correlations(s, components)
            == SameDayInsights(s) + (NextDayInsights(s) + ComponentInsights(s, ComponentOrder(s), components))
               + AsSeq(WeeklyInsight(WeekStats(s)))
  {
    ConcatRegroup(SameDayInsights(s), NextDayInsights(s), ComponentInsights(s, ComponentOrder(s), components),
                  AsSeq(WeeklyInsight(WeekStats(s))));
  }

  lemma ConcatRegroup<T>(a: seq<T>, b: seq<T>, c: seq<T>, d: seq<T>)
    ensures a + b + c + d == a + (b + c) + d
  {
  }

  lemma CorrelationsShape(s: seq<DS.DayEntry>, components: seq<ComponentMeta>)
    ensures KindsOrdered(Correlations(s, components))
    ensures AllCorrelationsWellFormed(Correlations(s, components))
  {
    SameDayBlock(s);
    NextDayBlock(s, components);
    WeeklyBlock(WeekStats(s));
    ShapeOfPieces(SameDayInsights(s), NextDayInsights(s) + ComponentInsights(s, ComponentOrder(s), components),
                  AsSeq(WeeklyInsight(WeekStats(s))));
    CorrelationsSplit(s, components);
  }

  /** The report lists same-day insights, then next-day ones (global, then
      per component), then the weekly pattern; every correlation insight is
      well formed. */
  lemma ReportShape(s: seq<DS.DayEntry>, components: seq<ComponentMeta>)
    ensures KindsOrdered(Analyze(s, components).correlations)
    ensures AllCorrelationsWellFormed(Analyze(s, components).correlations)
  {
    if |s| >= MIN_DATA_POINTS {
      assert Analyze(s, components).correlations == Correlations(s, components);
      CorrelationsShape(s, components);
    }
  }

  /** The summary names the earliest weekday with the highest mean mood,
      and no best day when no observed weekday averages above 0. */
  predicate BestDaySound(name: C.Option<string>, st: seq<DayStat>) {
    (name == C.None <==> forall w :: 0 <= w < |st| && st[w].count > 0 ==> st[w].avgMood <= 0.0)
    && (name.Some? ==>
          exists b :: 0 <= b < 7 && b < |st| && name.value == Calendar.DAY_NAMES[b] && st[b].count > 0
                      && (forall w :: 0 <= w < |st| && st[w].count > 0 ==> st[w].avgMood <= st[b].avgMood)
                      && (forall w :: 0 <= w < b && st[w].count > 0 ==> st[w].avgMood < st[b].avgMood))
  }

  /** The summary names the earliest weekday with the lowest mean mood, and
      no worst day when every observed weekday averages 5. */
  predicate WorstDaySound(name: C.Option<string>, st: seq<DayStat>) {
    (name == C.None <==> forall w :: 0 <= w < |st| && st[w].count > 0 ==> st[w].avgMood >= 5.0)
    && (name.Some? ==>
          exists b :: 0 <= b < 7 && b < |st| && name.value == Calendar.DAY_NAMES[b] && st[b].count > 0
                      && (forall w :: 0 <= w < |st| && st[w].count > 0 ==> st[w].avgMood >= st[b].avgMood)
                      && (forall w :: 0 <= w < b && st[w].count > 0 ==> st[w].avgMood > st[b].avgMood))
  }

  lemma ScansSound(st: seq<DayStat>)
    requires |st| == 7
    ensures BestDaySound(NameOrNull(BestDay(st, 7)), st)
    ensures WorstDaySound(NameOrNull(WorstDay(st, 7)), st)
  {
    BestScanSound(st);
    WorstScanSound(st);
  }

  lemma BestScanSound(st: seq<DayStat>)
    requires |st| == 7
    ensures BestDaySound(NameOrNull(BestDay(st, 7)), st)
  {
    var b := BestDay(st, 7);
    if b.day != -1 {
      assert Calendar.DayName(b.day) == Calendar.DAY_NAMES[b.day];
    }
  }

  lemma WorstScanSound(st: seq<DayStat>)
    requires |st| == 7
    ensures WorstDaySound(NameOrNull(WorstDay(st, 7)), st)
  {
    var w := WorstDay(st, 7);
    if w.day != -1 {
      assert Calendar.DayName(w.day) == Calendar.DAY_NAMES[w.day];
    }
  }

  lemma SummaryDays(s: seq<DS.DayEntry>, components: seq<ComponentMeta>)
    requires |s| >= MIN_DATA_POINTS
    ensures BestDaySound(Analyze(s, components).summary.bestDayOfWeek, WeekStats(s))
    ensures WorstDaySound(Analyze(s, components).summary.worstDayOfWeek, WeekStats(s))
  {
    assert Analyze(s, components).summary == SummaryOf(s);
    ScansSound(WeekStats(s));
  }
}
