/** The day-series build of `getInsights` (insights.controller.ts): one
    entry per pulse-check day, with activity counters fed by the records
    of that day. */
module DaySeries {
  import opened Common
  import Calendar

  /** A stored pulse check; its date is normalised to UTC midnight, so it is
      a day number. */
  datatype PulseCheck = PulseCheck(day: int, energy: int, mood: int)

  /** An activity record; `at` is its instant in milliseconds. */
  datatype ActivityRecord = ActivityRecord(componentId: string, at: int, effort: Level)

  /** The per-component sub-counter of a day. */
  datatype Tally = Tally(id: string, count: nat, highEffort: nat)

  datatype DayEntry = DayEntry(
    day: int,
    energy: int,
    mood: int,
    activityCount: nat,
    highEffortCount: nat,
    tallies: seq<Tally>)  // in the order the components were first met that day

  /** The UTC day of a record, `toISOString().split('T')[0]` of its date. */
  function RecordDay(r: ActivityRecord): int {
    Calendar.DayOf(r.at)
  }

  predicate StrictlySorted(series: seq<DayEntry>) {
    forall i, j :: 0 <= i < j < |series| ==> series[i].day < series[j].day
  }

  function Days(series: seq<DayEntry>): set<int> {
    if |series| == 0 then {} else {series[0].day} + Days(series[1..])
  }

  lemma {:induction false} InDays(series: seq<DayEntry>, d: int)
    ensures d in Days(series) <==> exists i :: 0 <= i < |series| && series[i].day == d
  {
    if |series| > 0 {
      InDays(series[1..], d);
      if d in Days(series[1..]) {
        var i :| 0 <= i < |series| - 1 && series[1..][i].day == d;
        assert series[i + 1].day == d;
      }
      if exists i :: 0 <= i < |series| && series[i].day == d {
        var i :| 0 <= i < |series| && series[i].day == d;
        if i > 0 {
          assert series[1..][i - 1].day == d;
        }
      }
    }
  }

  // ----- reference counts over the inputs -----

  /** The last pulse check of a day: later ones overwrite earlier ones in the
      source's map. */
  function LastCheckOn(pcs: seq<PulseCheck>, d: int): (r: Option<PulseCheck>)
    ensures r.Some? ==> r.value in pcs && r.value.day == d
    ensures r.None? <==> forall i :: 0 <= i < |pcs| ==> pcs[i].day != d
  {
    if |pcs| == 0 then None
    else if pcs[|pcs| - 1].day == d then Some(pcs[|pcs| - 1])
    else LastCheckOn(pcs[..|pcs| - 1], d)
  }

  function CountOn(rs: seq<ActivityRecord>, d: int): nat {
    if |rs| == 0 then 0
    else CountOn(rs[..|rs| - 1], d) + (if RecordDay(rs[|rs| - 1]) == d then 1 else 0)
  }

  function CountHighOn(rs: seq<ActivityRecord>, d: int): nat {
    if |rs| == 0 then 0
    else CountHighOn(rs[..|rs| - 1], d)
         + (if RecordDay(rs[|rs| - 1]) == d && rs[|rs| - 1].effort == High then 1 else 0)
  }

  function CountOnFor(rs: seq<ActivityRecord>, d: int, id: string): nat {
    if |rs| == 0 then 0
    else CountOnFor(rs[..|rs| - 1], d, id)
         + (if RecordDay(rs[|rs| - 1]) == d && rs[|rs| - 1].componentId == id then 1 else 0)
  }

  // ----- per-component tallies -----

  predicate DistinctIds(ts: seq<Tally>) {
    |ts| == 0 || (ts[0].id !in TallyIds(ts[1..]) && DistinctIds(ts[1..]))
  }

  /** `componentActivities.get(id)?.count || 0`. */
  function TallyCount(ts: seq<Tally>, id: string): nat {
    if |ts| == 0 then 0
    else if ts[0].id == id then ts[0].count
    else TallyCount(ts[1..], id)
  }

  function TallyIds(ts: seq<Tally>): (ids: seq<string>)
    ensures |ids| == |ts|
    ensures forall i :: 0 <= i < |ts| ==> ids[i] == ts[i].id
  {
    if |ts| == 0 then [] else [ts[0].id] + TallyIds(ts[1..])
  }

  /** Counts one record of component `id` in a day's tallies, creating the
      tally when the component is new that day. */
  function Bump(ts: seq<Tally>, id: string, high: bool): (r: seq<Tally>)
    requires DistinctIds(ts)
    ensures DistinctIds(r)
    ensures forall x :: TallyCount(r, x) == TallyCount(ts, x) + (if x == id then 1 else 0)
    ensures id in TallyIds(ts) ==> TallyIds(r) == TallyIds(ts)
    ensures id !in TallyIds(ts) ==> TallyIds(r) == TallyIds(ts) + [id]
  {
    if |ts| == 0 then [Tally(id, 1, if high then 1 else 0)]
    else if ts[0].id == id then
      NotInTallies(ts[1..], id);
      [Tally(id, ts[0].count + 1, ts[0].highEffort + if high then 1 else 0)] + ts[1..]
    else
      var rest := Bump(ts[1..], id, high);
      assert TallyIds([ts[0]] + rest) == [ts[0].id] + TallyIds(rest);
      [ts[0]] + rest
  }

  lemma {:induction false} NotInTallies(ts: seq<Tally>, id: string)
    requires id !in TallyIds(ts)
    ensures TallyCount(ts, id) == 0
  {
    if |ts| > 0 {
      NotInTallies(ts[1..], id);
    }
  }

  // ----- building the series -----

  function Fresh(pc: PulseCheck): DayEntry {
    DayEntry(pc.day, pc.energy, pc.mood, 0, 0, [])
  }

  /** `dayDataMap.set(dateKey, ...)` for one pulse check, with the series
      kept sorted by day. */
  function AddPulseCheck(series: seq<DayEntry>, pc: PulseCheck): (r: seq<DayEntry>)
    requires StrictlySorted(series)
    ensures StrictlySorted(r)
    ensures Days(r) == Days(series) + {pc.day}
    ensures forall e :: e in r ==> e == Fresh(pc) || (e in series && e.day != pc.day)
    ensures forall e :: e in series && e.day != pc.day ==> e in r
  {
    if |series| == 0 then [Fresh(pc)]
    else if series[0].day == pc.day then
      AddReplacesFirst(series, pc);
      [Fresh(pc)] + series[1..]
    else if pc.day < series[0].day then
      AddBeforeFirst(series, pc);
      [Fresh(pc)] + series
    else
      var rest := AddPulseCheck(series[1..], pc);
      AddAfterFirst(series, rest, pc);
      [series[0]] + rest
  }

  lemma AddReplacesFirst(series: seq<DayEntry>, pc: PulseCheck)
    requires StrictlySorted(series) && |series| > 0 && series[0].day == pc.day
    ensures var r := [Fresh(pc)] + series[1..];
      && StrictlySorted(r)
      && Days(r) == Days(series) + {pc.day}
      && (forall e :: e in r ==> e == Fresh(pc) || (e in series && e.day != pc.day))
      && (forall e :: e in series && e.day != pc.day ==> e in r)
  {
    FirstIsLeast(series);
    ConsSorted(Fresh(pc), series[1..]);
    ReplacedMembers(series, pc);
  }

  lemma ReplacedMembers(series: seq<DayEntry>, pc: PulseCheck)
    requires |series| > 0 && series[0].day == pc.day
    requires forall e :: e in series[1..] ==> series[0].day < e.day
    ensures forall e :: e in [Fresh(pc)] + series[1..] ==> e == Fresh(pc) || (e in series && e.day != pc.day)
    ensures forall e :: e in series && e.day != pc.day ==> e in [Fresh(pc)] + series[1..]
  {
    forall e | e in series[1..]
      ensures e in series
    {
      var i :| 0 <= i < |series[1..]| && series[1..][i] == e;
      assert series[i + 1] == e;
    }
    forall e | e in series && e.day != pc.day
      ensures e in series[1..]
    {
      var i :| 0 <= i < |series| && series[i] == e;
      assert series[1..][i - 1] == e;
    }
  }

  lemma AddBeforeFirst(series: seq<DayEntry>, pc: PulseCheck)
    requires StrictlySorted(series) && |series| > 0 && pc.day < series[0].day
    ensures var r := [Fresh(pc)] + series;
      && StrictlySorted(r)
      && Days(r) == Days(series) + {pc.day}
      && (forall e :: e in r ==> e == Fresh(pc) || (e in series && e.day != pc.day))
      && (forall e :: e in series && e.day != pc.day ==> e in r)
  {
    forall e | e in series
      ensures pc.day < e.day
    {
      var i :| 0 <= i < |series| && series[i] == e;
      if i > 0 {
        assert series[0].day < series[i].day;
      }
    }
    ConsSorted(Fresh(pc), series);
  }

  lemma AddAfterFirst(series: seq<DayEntry>, rest: seq<DayEntry>, pc: PulseCheck)
    requires StrictlySorted(series) && |series| > 0 && series[0].day < pc.day
    requires StrictlySorted(rest) && Days(rest) == Days(series[1..]) + {pc.day}
    requires forall e :: e in rest ==> e == Fresh(pc) || (e in series[1..] && e.day != pc.day)
    requires forall e :: e in series[1..] && e.day != pc.day ==> e in rest
    ensures var r := [series[0]] + rest;
      && StrictlySorted(r)
      && Days(r) == Days(series) + {pc.day}
      && (forall e :: e in r ==> e == Fresh(pc) || (e in series && e.day != pc.day))
      && (forall e :: e in series && e.day != pc.day ==> e in r)
  {
    AfterFirstSorted(series, rest, pc);
    AfterFirstMembers(series, rest, pc);
  }

  lemma AfterFirstSorted(series: seq<DayEntry>, rest: seq<DayEntry>, pc: PulseCheck)
    requires StrictlySorted(series) && |series| > 0 && series[0].day < pc.day
    requires StrictlySorted(rest) && Days(rest) == Days(series[1..]) + {pc.day}
    requires forall e :: e in rest ==> e == Fresh(pc) || (e in series[1..] && e.day != pc.day)
    ensures StrictlySorted([series[0]] + rest)
    ensures Days([series[0]] + rest) == Days(series) + {pc.day}
  {
    FirstIsLeast(series);
    assert forall e :: e in rest ==> series[0].day < e.day;
    ConsSorted(series[0], rest);
    assert Days(series) == {series[0].day} + Days(series[1..]);
  }

  lemma AfterFirstMembers(series: seq<DayEntry>, rest: seq<DayEntry>, pc: PulseCheck)
    requires |series| > 0 && series[0].day != pc.day
    requires forall e :: e in rest ==> e == Fresh(pc) || (e in series[1..] && e.day != pc.day)
    requires forall e :: e in series[1..] && e.day != pc.day ==> e in rest
    ensures forall e :: e in [series[0]] + rest ==> e == Fresh(pc) || (e in series && e.day != pc.day)
    ensures forall e :: e in series && e.day != pc.day ==> e in [series[0]] + rest
  {
    assert series == [series[0]] + series[1..];
  }

  lemma ConsSorted(e: DayEntry, rest: seq<DayEntry>)
    requires StrictlySorted(rest)
    requires forall x :: x in rest ==> e.day < x.day
    ensures StrictlySorted([e] + rest)
    ensures Days([e] + rest) == {e.day} + Days(rest)
  {
    var r := [e] + rest;
    assert r[1..] == rest;
    forall i, j | 0 <= i < j < |r|
      ensures r[i].day < r[j].day
    {
      assert r[j] == rest[j - 1];
      if i > 0 {
        assert r[i] == rest[i - 1];
      } else {
        assert rest[j - 1] in rest;
      }
    }
  }

  /** Every entry after the first lies on a later day. */
  lemma FirstIsLeast(series: seq<DayEntry>)
    requires StrictlySorted(series) && |series| > 0
    ensures forall e :: e in series[1..] ==> series[0].day < e.day
  {
  }

  function FromPulseChecks(pcs: seq<PulseCheck>): (r: seq<DayEntry>)
    ensures StrictlySorted(r)
    ensures forall d :: d in Days(r) <==> LastCheckOn(pcs, d).Some?
    ensures forall e :: e in r ==> LastCheckOn(pcs, e.day).Some? && e == Fresh(LastCheckOn(pcs, e.day).value)
  {
    if |pcs| == 0 then []
    else
      var prev := FromPulseChecks(pcs[..|pcs| - 1]);
      assert forall e :: e in prev ==> e.day in Days(prev);
      AddPulseCheck(prev, pcs[|pcs| - 1])
  }

  /** Counts one record into the entry of its day, if there is one. */
  function AddRecord(series: seq<DayEntry>, r: ActivityRecord): (out: seq<DayEntry>)
    requires forall e :: e in series ==> DistinctIds(e.tallies)
    ensures |out| == |series|
    ensures forall i :: 0 <= i < |series| ==>
      out[i].day == series[i].day && out[i].energy == series[i].energy && out[i].mood == series[i].mood
    ensures forall e :: e in out ==> DistinctIds(e.tallies)
  {
    seq(|series|, i requires 0 <= i < |series| =>
      var e := series[i];
      if e.day == RecordDay(r) then
        e.(activityCount := e.activityCount + 1,
           highEffortCount := e.highEffortCount + (if r.effort == High then 1 else 0),
           tallies := Bump(e.tallies, r.componentId, r.effort == High))
      else e)
  }

  function FromRecords(series: seq<DayEntry>, rs: seq<ActivityRecord>): (out: seq<DayEntry>)
    requires forall e :: e in series ==> DistinctIds(e.tallies)
    ensures |out| == |series|
    ensures forall i :: 0 <= i < |series| ==>
      out[i].day == series[i].day && out[i].energy == series[i].energy && out[i].mood == series[i].mood
    ensures forall e :: e in out ==> DistinctIds(e.tallies)
  {
    if |rs| == 0 then series
    else AddRecord(FromRecords(series, rs[..|rs| - 1]), rs[|rs| - 1])
  }

  /** The records' counters, as functions of the records alone. */
  lemma {:induction false} FromRecordsCounts(series: seq<DayEntry>, rs: seq<ActivityRecord>)
    requires StrictlySorted(series)
    requires forall e :: e in series ==> e.activityCount == 0 && e.highEffortCount == 0 && e.tallies == []
    ensures forall i :: 0 <= i < |series| ==>
      var e := FromRecords(series, rs)[i];
      && e.activityCount == CountOn(rs, e.day)
      && e.highEffortCount == CountHighOn(rs, e.day)
      && forall id :: TallyCount(e.tallies, id) == CountOnFor(rs, e.day, id)
  {
    if |rs| > 0 {
      FromRecordsCounts(series, rs[..|rs| - 1]);
    } else {
      forall i | 0 <= i < |series|
        ensures forall id :: TallyCount(series[i].tallies, id) == 0
      {
        assert series[i] in series;
      }
    }
  }

  /** The day series, sorted by day: the first stage of getInsights. */
  function BuildSeries(pcs: seq<PulseCheck>, rs: seq<ActivityRecord>): (r: seq<DayEntry>)
    ensures StrictlySorted(r)
    ensures forall d :: d in Days(r) <==> LastCheckOn(pcs, d).Some?
    ensures forall e :: e in r ==> LastCheckOn(pcs, e.day).Some?
    ensures forall e :: e in r ==>
      && e.energy == LastCheckOn(pcs, e.day).value.energy
      && e.mood == LastCheckOn(pcs, e.day).value.mood
      && e.activityCount == CountOn(rs, e.day)
      && e.highEffortCount == CountHighOn(rs, e.day)
      && (forall id :: TallyCount(e.tallies, id) == CountOnFor(rs, e.day, id))
      && DistinctIds(e.tallies)
  {
    var base := FromPulseChecks(pcs);
    var out := FromRecords(base, rs);
    BuildSeriesFacts(base, out, pcs, rs);
    out
  }

  lemma BuildSeriesFacts(base: seq<DayEntry>, out: seq<DayEntry>, pcs: seq<PulseCheck>, rs: seq<ActivityRecord>)
    requires base == FromPulseChecks(pcs) && out == FromRecords(base, rs)
    ensures StrictlySorted(out)
    ensures Days(out) == Days(base)
    ensures forall e :: e in out ==> e.day in Days(base)
    ensures forall e :: e in out ==>
      && e.energy == LastCheckOn(pcs, e.day).value.energy
      && e.mood == LastCheckOn(pcs, e.day).value.mood
      && e.activityCount == CountOn(rs, e.day)
      && e.highEffortCount == CountHighOn(rs, e.day)
      && (forall id :: TallyCount(e.tallies, id) == CountOnFor(rs, e.day, id))
  {
    SameDaysSameShape(base, out);
    FromRecordsCounts(base, rs);
    forall e | e in out
      ensures e.day in Days(base)
      ensures e.energy == LastCheckOn(pcs, e.day).value.energy
      ensures e.mood == LastCheckOn(pcs, e.day).value.mood
      ensures e.activityCount == CountOn(rs, e.day)
      ensures e.highEffortCount == CountHighOn(rs, e.day)
      ensures forall id :: TallyCount(e.tallies, id) == CountOnFor(rs, e.day, id)
    {
      var i :| 0 <= i < |out| && out[i] == e;
      assert base[i] in base;
    }
  }

  /** Two series with the same days position by position. */
  lemma SameDaysSameShape(a: seq<DayEntry>, b: seq<DayEntry>)
    requires |a| == |b| && forall i :: 0 <= i < |a| ==> a[i].day == b[i].day
    requires StrictlySorted(a)
    ensures StrictlySorted(b)
    ensures Days(a) == Days(b)
    ensures forall e :: e in b ==> e.day in Days(a)
  {
    forall d ensures d in Days(a) <==> d in Days(b) {
      InDays(a, d);
      InDays(b, d);
    }
    forall e | e in b ensures e.day in Days(a) {
      InDays(b, e.day);
    }
  }

  /** A record is counted as high effort only if it is counted at all. */
  lemma {:induction false} HighNeverExceedsAll(rs: seq<ActivityRecord>, d: int)
    ensures CountHighOn(rs, d) <= CountOn(rs, d)
  {
    if |rs| > 0 {
      HighNeverExceedsAll(rs[..|rs| - 1], d);
    }
  }

  /** Records on a day without a pulse check leave the series unchanged. */
  lemma RecordWithoutCheckIgnored(series: seq<DayEntry>, r: ActivityRecord)
    requires forall e :: e in series ==> DistinctIds(e.tallies)
    requires RecordDay(r) !in Days(series)
    ensures AddRecord(series, r) == series
  {
    InDays(series, RecordDay(r));
  }
}
