/** The pulse-check endpoints over an in-memory collection: dates are
    normalised to UTC midnight, a create is an upsert keyed by (user, day),
    listings filter by an inclusive date range and come newest first. */
module PulseCheckStore {
  import opened Common
  import opened Calendar
  import Sorting

  /** A stored check; `date` is an instant in milliseconds. */
  datatype StoredCheck = StoredCheck(
    id: string, userId: string, date: int, energy: int, mood: int, note: Option<string>)

  const CHECK_NOT_FOUND: Error := NotFound("Pulse check not found")

  /** normalizeDate: the UTC midnight starting the instant's day. */
  function NormalizeDate(t: int): (n: int)
    ensures n % MS_PER_DAY == 0
    ensures n <= t < n + MS_PER_DAY
  {
    DayOf(t) * MS_PER_DAY
  }

  /** Normalising twice changes nothing, and two instants normalise alike
      exactly when they fall on the same day. */
  lemma NormalizeDateIdempotent(t: int, u: int)
    ensures NormalizeDate(NormalizeDate(t)) == NormalizeDate(t)
    ensures NormalizeDate(t) == NormalizeDate(u) <==> DayOf(t) == DayOf(u)
  {
  }

  /** At most one check per user and day. */
  predicate OnePerDay(checks: seq<StoredCheck>) {
    forall i, j :: 0 <= i < j < |checks| ==>
      !(checks[i].userId == checks[j].userId && checks[i].date == checks[j].date)
  }

  predicate IdsDistinct(checks: seq<StoredCheck>) {
    forall i, j :: 0 <= i < j < |checks| ==> checks[i].id != checks[j].id
  }

  /** What a lookup goes by: the normalised day or the document id; either
      way only the user's own checks match. */
  datatype Key = ByDay(date: int) | ById(id: string)

  predicate Matches(c: StoredCheck, user: string, key: Key) {
    c.userId == user
    && match key
       case ByDay(date) => c.date == date
       case ById(id) => c.id == id
  }

  /** The position of the first of the user's checks matching the key, or -1. */
  function Find(checks: seq<StoredCheck>, user: string, key: Key): (k: int)
    ensures -1 <= k < |checks|
    ensures k >= 0 ==> Matches(checks[k], user, key)
    ensures k == -1 ==> forall j :: 0 <= j < |checks| ==> !Matches(checks[j], user, key)
  {
    if |checks| == 0 then -1
    else if Matches(checks[0], user, key) then 0
    else
      var k := Find(checks[1..], user, key);
      if k == -1 then -1 else k + 1
  }

  // ----- create (upsert) -----

  /** createPulseCheck: the user's check for the normalised day gets the new
      levels and note; without one, a check is added under the id the
      database assigns. */
  function CreatePulseCheck(checks: seq<StoredCheck>, user: string, newId: string, date: int,
                            energy: int, mood: int, note: Option<string>): (r: (seq<StoredCheck>, StoredCheck))
    requires forall i :: 0 <= i < |checks| ==> checks[i].id != newId
    ensures r.1.userId == user && r.1.date == NormalizeDate(date)
    ensures r.1.energy == energy && r.1.mood == mood && r.1.note == note
    ensures r.1 in r.0
  {
    var day := NormalizeDate(date);
    var k := Find(checks, user, ByDay(day));
    if k >= 0 then
      var c := checks[k].(energy := energy, mood := mood, note := note);
      assert checks[k := c][k] == c;
      (checks[k := c], c)
    else
      var c := StoredCheck(newId, user, day, energy, mood, note);
      (checks + [c], c)
  }

  /** After the upsert the user has exactly one check on that day, the new
      one; every other check is unchanged and one-per-day still holds. */
  lemma CreateIsUpsert(checks: seq<StoredCheck>, user: string, newId: string, date: int,
                       energy: int, mood: int, note: Option<string>)
    requires OnePerDay(checks)
    requires forall i :: 0 <= i < |checks| ==> checks[i].id != newId
    ensures var r := CreatePulseCheck(checks, user, newId, date, energy, mood, note);
      OnePerDay(r.0)
      && (forall i :: 0 <= i < |r.0| && r.0[i].userId == user && r.0[i].date == NormalizeDate(date) ==> r.0[i] == r.1)
      && (forall c :: c in checks && !(c.userId == user && c.date == NormalizeDate(date)) ==> c in r.0)
      && (forall c :: c in r.0 && !(c.userId == user && c.date == NormalizeDate(date)) ==> c in checks)
      && |r.0| == |checks| + (if Find(checks, user, ByDay(NormalizeDate(date))) == -1 then 1 else 0)
  {
    var day := NormalizeDate(date);
    var k := Find(checks, user, ByDay(day));
    var r := CreatePulseCheck(checks, user, newId, date, energy, mood, note);
    if k >= 0 {
      forall c | c in checks && !(c.userId == user && c.date == day)
        ensures c in r.0
      {
        var i :| 0 <= i < |checks| && checks[i] == c;
        assert r.0[i] == c;
      }
    }
  }

  // ----- update and delete -----

  /** Absent fields are left alone; the note may be set to null. */
  datatype CheckPatch = CheckPatch(energy: Option<int>, mood: Option<int>, note: Option<Option<string>>)

  /** updatePulseCheck: 404 for an id the user does not have; otherwise the
      patch is applied to that check alone. */
  function UpdatePulseCheck(checks: seq<StoredCheck>, user: string, id: string, p: CheckPatch): (r: Result<(seq<StoredCheck>, StoredCheck)>)
    ensures r.Fail? <==> Find(checks, user, ById(id)) == -1
    ensures r.Fail? ==> r.error == CHECK_NOT_FOUND
    ensures r.Ok? ==> |r.value.0| == |checks|
    ensures r.Ok? ==> forall j :: 0 <= j < |checks| && j != Find(checks, user, ById(id)) ==> r.value.0[j] == checks[j]
    ensures r.Ok? ==> var c := checks[Find(checks, user, ById(id))];
      r.value.1 == c.(energy := p.energy.GetOr(c.energy), mood := p.mood.GetOr(c.mood), note := p.note.GetOr(c.note))
  {
    var k := Find(checks, user, ById(id));
    if k == -1 then Fail(CHECK_NOT_FOUND)
    else
      var c := checks[k];
      var c' := c.(energy := p.energy.GetOr(c.energy), mood := p.mood.GetOr(c.mood), note := p.note.GetOr(c.note));
      Ok((checks[k := c'], c'))
  }

  /** deletePulseCheck: 404 for an id the user does not have; otherwise that
      check alone is removed. */
  function DeletePulseCheck(checks: seq<StoredCheck>, user: string, id: string): (r: Result<seq<StoredCheck>>)
    ensures r.Fail? <==> Find(checks, user, ById(id)) == -1
    ensures r.Fail? ==> r.error == CHECK_NOT_FOUND
    ensures r.Ok? ==> var k := Find(checks, user, ById(id)); r.value == checks[..k] + checks[k + 1..]
  {
    var k := Find(checks, user, ById(id));
    if k == -1 then Fail(CHECK_NOT_FOUND) else Ok(checks[..k] + checks[k + 1..])
  }

  /** With distinct ids, a delete leaves no check with that id. */
  lemma DeleteRemovesId(checks: seq<StoredCheck>, user: string, id: string)
    requires IdsDistinct(checks) && DeletePulseCheck(checks, user, id).Ok?
    ensures forall c :: c in DeletePulseCheck(checks, user, id).value ==> c.id != id
    ensures |DeletePulseCheck(checks, user, id).value| == |checks| - 1
  {
    var k := Find(checks, user, ById(id));
    var r := DeletePulseCheck(checks, user, id).value;
    forall c | c in r
      ensures c.id != id
    {
      var i :| 0 <= i < |r| && r[i] == c;
      if i < k { assert c == checks[i]; } else { assert c == checks[i + 1]; }
    }
  }

  /** getPulseCheckById. */
  function GetPulseCheck(checks: seq<StoredCheck>, user: string, id: string): (r: Result<StoredCheck>)
    ensures r.Fail? <==> Find(checks, user, ById(id)) == -1
    ensures r.Fail? ==> r.error == CHECK_NOT_FOUND
    ensures r.Ok? ==> r.value in checks && r.value.id == id && r.value.userId == user
  {
    var k := Find(checks, user, ById(id));
    if k == -1 then Fail(CHECK_NOT_FOUND) else Ok(checks[k])
  }

  /** getTodayPulseCheck: the user's check dated today's UTC midnight, if any. */
  function TodayPulseCheck(checks: seq<StoredCheck>, user: string, now: int): (r: Option<StoredCheck>)
    ensures r.Some? ==> r.value in checks && r.value.userId == user && r.value.date == NormalizeDate(now)
    ensures r.None? ==> forall c :: c in checks ==> !(c.userId == user && c.date == NormalizeDate(now))
  {
    var k := Find(checks, user, ByDay(NormalizeDate(now)));
    if k == -1 then None else Some(checks[k])
  }

  // ----- listing -----

  /** The date filter: each bound is normalised and inclusive, and applies
      only when given. */
  predicate InRange(c: StoredCheck, user: string, startDate: Option<int>, endDate: Option<int>) {
    c.userId == user
    && (startDate.Some? ==> c.date >= NormalizeDate(startDate.value))
    && (endDate.Some? ==> c.date <= NormalizeDate(endDate.value))
  }

  function Selected(checks: seq<StoredCheck>, user: string, startDate: Option<int>, endDate: Option<int>): (r: seq<StoredCheck>)
    ensures |r| <= |checks|
  {
    if |checks| == 0 then []
    else
      var prev := Selected(checks[..|checks| - 1], user, startDate, endDate);
      if InRange(checks[|checks| - 1], user, startDate, endDate) then prev + [checks[|checks| - 1]] else prev
  }

  lemma {:induction false} SelectedMembers(checks: seq<StoredCheck>, user: string, startDate: Option<int>, endDate: Option<int>, x: StoredCheck)
    ensures x in Selected(checks, user, startDate, endDate) <==> x in checks && InRange(x, user, startDate, endDate)
  {
    if |checks| > 0 {
      var init := checks[..|checks| - 1];
      SelectedMembers(init, user, startDate, endDate, x);
      assert checks == init + [checks[|checks| - 1]];
    }
  }

  /** Sorting key for newest first. */
  function NewestFirst(c: StoredCheck): int { -c.date }

  /** getAllPulseChecks: the user's checks within the bounds, newest first. */
  function ListPulseChecks(checks: seq<StoredCheck>, user: string, startDate: Option<int>, endDate: Option<int>): (r: seq<StoredCheck>)
    ensures forall i, j :: 0 <= i < j < |r| ==> r[i].date >= r[j].date
    ensures multiset(r) == multiset(Selected(checks, user, startDate, endDate))
  {
    var r := Sorting.SortBy(Selected(checks, user, startDate, endDate), NewestFirst);
    assert forall i, j :: 0 <= i < j < |r| ==> NewestFirst(r[i]) <= NewestFirst(r[j]);
    r
  }

  /** A check is listed exactly when it is the user's and within the bounds. */
  lemma ListPulseChecksMembers(checks: seq<StoredCheck>, user: string, startDate: Option<int>, endDate: Option<int>, x: StoredCheck)
    ensures x in ListPulseChecks(checks, user, startDate, endDate) <==> x in checks && InRange(x, user, startDate, endDate)
  {
    SelectedMembers(checks, user, startDate, endDate, x);
    assert x in ListPulseChecks(checks, user, startDate, endDate) <==> x in multiset(ListPulseChecks(checks, user, startDate, endDate));
    assert x in Selected(checks, user, startDate, endDate) <==> x in multiset(Selected(checks, user, startDate, endDate));
  }
}
