/** The dashboard calendar: the week and month grids, the record-date key,
    the component filter, the per-day buckets and the four-icon day cell. */
module CalendarView {
  import opened Common
  import opened Calendar

  /** A record's component reference: a bare id, or the populated component
      whose `_id` is used. */
  datatype ComponentRef = ById(id: string) | Embedded(id: string, name: string)

  datatype CalendarRecord = CalendarRecord(
    id: string, component: ComponentRef, date: string, effort: Level)

  // ----- record dates -----

  /** parseRecordDate. The last branch, `formatDateKey(new Date(s))`,
      depends on the runtime's date parser and time zone and is a parameter. */
  function ParseRecordDate(s: string, fallback: string -> string): (r: string)
    ensures 'T' in s ==> r == BeforeT(s) && |r| < |s| && s[|r|] == 'T'
    ensures 'T' !in s && IsDateShape(s) ==> r == s
    ensures 'T' !in s && !IsDateShape(s) ==> r == fallback(s)
  {
    if 'T' in s then BeforeT(s)
    else if IsDateShape(s) then s
    else fallback(s)
  }

  /** A key made by formatDateKey (four-digit year) is read back unchanged,
      and so is the date part of an ISO timestamp built from it. */
  lemma ParseRecordDateOfKey(y: int, m: int, d: int, time: string, fallback: string -> string)
    requires ValidCivil(y, m, d) && 1000 <= y <= 9999
    ensures ParseRecordDate(FormatDateKey(y, m, d), fallback) == FormatDateKey(y, m, d)
    ensures ParseRecordDate(FormatDateKey(y, m, d) + "T" + time, fallback) == FormatDateKey(y, m, d)
  {
    var k := FormatDateKey(y, m, d);
    KeyHasNoT(k);
    BeforeTOfPrefix(k, time);
  }

  // ----- grids -----

  /** Seven consecutive days from `first`. */
  function WeekFrom(first: int): (w: seq<int>)
    ensures |w| == 7 && forall j :: 0 <= j < 7 ==> w[j] == first + j
  {
    seq(7, j => first + j)
  }

  /** getWeekDays: the Monday-to-Sunday week holding the reference day. */
  function WeekDays(ref: int): (w: seq<int>)
    ensures |w| == 7 && Weekday(w[0]) == 1
    ensures forall j :: 0 <= j < 7 ==> w[j] == w[0] + j
    ensures ref in w
  {
    var w := WeekFrom(MondayOnOrBefore(ref));
    assert w[ref - w[0]] == ref;
    w
  }

  /** Two days share a week grid exactly when one lies in the other's grid
      (a Sunday belongs to the preceding Monday's week). */
  lemma WeekDaysSameWeek(a: int, b: int)
    ensures WeekDays(a) == WeekDays(b) <==> b in WeekDays(a)
  {
    var m := MondayOnOrBefore(a);
    MondayOnOrBeforeCharacterized(b, m);
    if b in WeekDays(a) {
      var j :| 0 <= j < 7 && WeekDays(a)[j] == b;
      assert m <= b < m + 7;
    }
  }

  /** Day `d` appears somewhere in the grid. */
  predicate InGrid(weeks: seq<seq<int>>, d: int) {
    exists i, j :: 0 <= i < |weeks| && 0 <= j < |weeks[i]| && weeks[i][j] == d
  }

  /** getMonthWeeks for month `m` (1..12) of year `y`: whole weeks from the
      Monday on or before the 1st, at least four, until the month's last day
      is passed, at most six. */
  method MonthWeeks(y: int, m: int) returns (weeks: seq<seq<int>>)
    requires 1 <= m <= 12
    ensures 4 <= |weeks| <= 6
    ensures weeks[0] == WeekFrom(MondayOnOrBefore(DaysFromCivil(y, m, 1)))
    ensures forall i :: 0 <= i < |weeks| ==> weeks[i] == WeekFrom(weeks[0][0] + 7 * i)
    ensures Weekday(weeks[0][0]) == 1
    ensures weeks[0][0] + 7 * (|weeks| - 1) < DaysFromCivil(y, m, 1) + DaysInMonth(y, m)
    ensures forall d :: DaysFromCivil(y, m, 1) <= d < DaysFromCivil(y, m, 1) + DaysInMonth(y, m) ==> InGrid(weeks, d)
  {
    var first := DaysFromCivil(y, m, 1);
    MonthLength(y, m);
    var last := first + DaysInMonth(y, m) - 1;
    var start := MondayOnOrBefore(first);
    weeks := GridWeeks(start, last);
    GridCovers(weeks, start, last);
  }

  /** The loop of getMonthWeeks, from the grid's first Monday to the
      month's last day; a month spans 28 to 31 days after a start at most
      six days before its 1st. */
  method GridWeeks(start: int, last: int) returns (weeks: seq<seq<int>>)
    requires 27 <= last - start <= 36
    ensures 4 <= |weeks| <= 6
    ensures forall i :: 0 <= i < |weeks| ==> weeks[i] == WeekFrom(start + 7 * i)
    ensures start + 7 * (|weeks| - 1) <= last < start + 7 * |weeks|
  {
    weeks := [];
    var current := start;
    while current <= last || |weeks| < 5
      invariant |weeks| <= 6
      invariant current == start + 7 * |weeks|
      invariant forall i :: 0 <= i < |weeks| ==> weeks[i] == WeekFrom(start + 7 * i)
      invariant |weeks| > 0 ==> start + 7 * (|weeks| - 1) <= last
      invariant |weeks| >= 4 ==> current <= last
      decreases 6 - |weeks|
    {
      weeks := weeks + [WeekFrom(current)];
      current := current + 7;
      if current > last && |weeks| >= 4 {
        break;
      }
      if |weeks| >= 6 {
        break;
      }
    }
  }

  /** Whole weeks from `start` past `last` hold every day in between. */
  lemma GridCovers(weeks: seq<seq<int>>, start: int, last: int)
    requires forall i :: 0 <= i < |weeks| ==> weeks[i] == WeekFrom(start + 7 * i)
    requires last < start + 7 * |weeks|
    ensures forall d :: start <= d <= last ==> InGrid(weeks, d)
  {
    forall d | start <= d <= last
      ensures InGrid(weeks, d)
    {
      var i := (d - start) / 7;
      var j := (d - start) % 7;
      assert weeks[i][j] == d;
    }
  }

  // ----- component filter and date buckets -----

  function ComponentIdOf(r: CalendarRecord): string {
    r.component.id
  }

  /** filteredRecords: the selection "all" keeps everything, any other
      selection keeps the records of that component. */
  function FilterRecords(rs: seq<CalendarRecord>, selected: string): (r: seq<CalendarRecord>)
    ensures |r| <= |rs|
    ensures selected == "all" ==> r == rs
  {
    if selected == "all" then rs else OfComponent(rs, selected)
  }

  function OfComponent(rs: seq<CalendarRecord>, id: string): (r: seq<CalendarRecord>)
    ensures |r| <= |rs|
  {
    if |rs| == 0 then []
    else if ComponentIdOf(rs[0]) == id then [rs[0]] + OfComponent(rs[1..], id)
    else OfComponent(rs[1..], id)
  }

  /** Exactly the records of the selected component are kept. */
  lemma {:induction false} OfComponentMembers(rs: seq<CalendarRecord>, id: string, x: CalendarRecord)
    ensures x in OfComponent(rs, id) <==> x in rs && ComponentIdOf(x) == id
  {
    if |rs| > 0 {
      OfComponentMembers(rs[1..], id, x);
      assert rs == [rs[0]] + rs[1..];
    }
  }

  /** Input order is kept: filtering a concatenation concatenates the parts. */
  lemma {:induction false} OfComponentConcat(a: seq<CalendarRecord>, b: seq<CalendarRecord>, id: string)
    ensures OfComponent(a + b, id) == OfComponent(a, id) + OfComponent(b, id)
  {
    if |a| > 0 {
      assert (a + b)[1..] == a[1..] + b;
      OfComponentConcat(a[1..], b, id);
    } else {
      assert a + b == b;
    }
  }

  /** The bucket key of a record. */
  function KeyOf(r: CalendarRecord, fallback: string -> string): string {
    ParseRecordDate(r.date, fallback)
  }

  /** recordsByDate: each record appended to the list under its key, in
      input order. */
  function ByDate(rs: seq<CalendarRecord>, fallback: string -> string): (b: map<string, seq<CalendarRecord>>)
  {
    if |rs| == 0 then map[]
    else
      var prev := ByDate(rs[..|rs| - 1], fallback);
      var k := KeyOf(rs[|rs| - 1], fallback);
      var existing: seq<CalendarRecord> := if k in prev then prev[k] else [];
      prev[k := existing + [rs[|rs| - 1]]]
  }

  /** The records of one key, in input order. */
  function WithKey(rs: seq<CalendarRecord>, k: string, fallback: string -> string): seq<CalendarRecord> {
    if |rs| == 0 then []
    else
      var prev := WithKey(rs[..|rs| - 1], k, fallback);
      if KeyOf(rs[|rs| - 1], fallback) == k then prev + [rs[|rs| - 1]] else prev
  }

  /** A key has a bucket exactly when some record has that key, and the
      bucket holds exactly that key's records in input order: every record
      sits in the one bucket of its own key. */
  lemma {:induction false} ByDateBuckets(rs: seq<CalendarRecord>, k: string, fallback: string -> string)
    ensures k in ByDate(rs, fallback) <==> WithKey(rs, k, fallback) != []
    ensures k in ByDate(rs, fallback) ==> ByDate(rs, fallback)[k] == WithKey(rs, k, fallback)
  {
    if |rs| > 0 {
      ByDateBuckets(rs[..|rs| - 1], k, fallback);
    }
  }

  /** The records of a key are exactly the records whose key it is. */
  lemma {:induction false} WithKeyMembers(rs: seq<CalendarRecord>, k: string, x: CalendarRecord, fallback: string -> string)
    ensures x in WithKey(rs, k, fallback) <==> x in rs && KeyOf(x, fallback) == k
  {
    if |rs| > 0 {
      var init := rs[..|rs| - 1];
      WithKeyMembers(init, k, x, fallback);
      assert rs == init + [rs[|rs| - 1]];
    }
  }

  // ----- day cell -----

  /** `recordsByDate.get(dateStr) || []`. */
  function DayRecords(buckets: map<string, seq<CalendarRecord>>, key: string): seq<CalendarRecord> {
    if key in buckets then buckets[key] else []
  }

  /** A day cell draws the first four records and, only when there are more,
      a "+n" marker counting the rest. */
  function DayCell(recs: seq<CalendarRecord>): (cell: (seq<CalendarRecord>, Option<int>))
    ensures |cell.0| <= 4 && cell.0 <= recs
    ensures cell.1.Some? <==> |recs| > 4
    ensures |cell.0| + cell.1.GetOr(0) == |recs|
    ensures cell.1.Some? ==> cell.1.value >= 1
  {
    if |recs| > 4 then (recs[..4], Some(|recs| - 4)) else (recs, None)
  }
}
