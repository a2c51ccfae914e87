/** The pulse-check request schemas: create, update, id and query. The
    parsed update body is the patch the pulse-check store applies. */
module PulseCheckSchema {
  import opened Common
  import opened Validation
  import PulseCheckStore
  import Calendar

  /** A parsed create body. */
  datatype PulseInput = PulseInput(date: string, energy: int, mood: int, note: Option<string>)

  function LevelRule(v: Value): Option<int> { IntBetween(v, 1, 5) }
  function NoteRule(v: Value): Option<string> { Text(v, 0, 500) }

  predicate ValidInput(p: PulseInput, isDatetime: string -> bool) {
    (isDatetime(p.date) || Calendar.IsDateShape(p.date))
    && 1 <= p.energy <= 5 && 1 <= p.mood <= 5
    && (p.note.Some? ==> |p.note.value| <= 500)
  }

  /** createPulseCheckSchema: a datetime or date, energy and mood integers
      from 1 to 5, an optional note of at most 500 characters. */
  function CreatePulseBody(date: Field, energyLevel: Field, moodLevel: Field, note: Field,
                           isDatetime: string -> bool): (r: Option<PulseInput>)
    ensures r.Some? <==> date.Given? && DateValue(date.value, isDatetime).Some?
                         && energyLevel.Given? && LevelRule(energyLevel.value).Some?
                         && moodLevel.Given? && LevelRule(moodLevel.value).Some?
                         && OptionalPasses(note, NoteRule)
    ensures r.Some? ==> ValidInput(r.value, isDatetime)
    ensures r.Some? ==> r.value.date == date.value.s && r.value.energy as real == energyLevel.value.n
                        && r.value.mood as real == moodLevel.value.n
    ensures r.Some? ==> (r.value.note.None? <==> note.Absent?)
    ensures r.Some? && note.Given? ==> r.value.note == Some(note.value.s)
  {
    var d := Required(date, v => DateValue(v, isDatetime));
    var e := Required(energyLevel, LevelRule);
    var m := Required(moodLevel, LevelRule);
    var n := Optional(note, NoteRule);
    if d.Some? && e.Some? && m.Some? && n.Some? then Some(PulseInput(d.value, e.value, m.value, n.value))
    else None
  }

  function EncodeOptional(o: Option<string>): Field {
    match o
    case None => Absent
    case Some(s) => Given(VStr(s))
  }

  /** The body a client sends for an input. */
  function Encode(p: PulseInput): (Field, Field, Field, Field) {
    (Given(VStr(p.date)), Given(VNum(p.energy as real)), Given(VNum(p.mood as real)), EncodeOptional(p.note))
  }

  /** Every valid input's body parses back to it. */
  lemma CreatePulseRoundTrip(p: PulseInput, isDatetime: string -> bool)
    requires ValidInput(p, isDatetime)
    ensures var e := Encode(p); CreatePulseBody(e.0, e.1, e.2, e.3, isDatetime) == Some(p)
  {
  }

  /** Levels outside 1..5 and fractional levels are refused. */
  lemma LevelRuleBounds(x: real)
    ensures LevelRule(VNum(x)).Some? <==> IsInteger(x) && 1.0 <= x <= 5.0
    ensures x == 2.5 ==> LevelRule(VNum(x)).None?
  {
  }

  /** updatePulseCheckSchema: optional levels from 1 to 5, a note that may
      also be null (clearing it), and a non-empty id. */
  function UpdatePulseBody(id: Field, energyLevel: Field, moodLevel: Field, note: Field): (r: Option<(string, PulseCheckStore.CheckPatch)>)
    ensures r.Some? <==> IdParam(id).Some? && OptionalPasses(energyLevel, LevelRule)
                         && OptionalPasses(moodLevel, LevelRule) && NullablePasses(note, NoteRule)
    ensures r.Some? ==> |r.value.0| >= 1 && r.value.0 == id.value.s
    ensures r.Some? && r.value.1.energy.Some? ==> 1 <= r.value.1.energy.value <= 5
    ensures r.Some? && r.value.1.mood.Some? ==> 1 <= r.value.1.mood.value <= 5
    ensures r.Some? && r.value.1.note.Some? && r.value.1.note.value.Some? ==> |r.value.1.note.value.value| <= 500
    ensures r.Some? ==> (r.value.1.energy.None? <==> energyLevel.Absent?) && (r.value.1.mood.None? <==> moodLevel.Absent?)
    ensures r.Some? && energyLevel.Given? ==> r.value.1.energy.value as real == energyLevel.value.n
    ensures r.Some? && moodLevel.Given? ==> r.value.1.mood.value as real == moodLevel.value.n
    ensures r.Some? ==> (r.value.1.note == Some(None) <==> note == Given(VNull))
    ensures r.Some? ==> (r.value.1.note.None? <==> note.Absent?)
    ensures r.Some? && note.Given? && note.value != VNull ==> r.value.1.note == Some(Some(note.value.s))
  {
    var i := IdParam(id);
    var e := Optional(energyLevel, LevelRule);
    var m := Optional(moodLevel, LevelRule);
    var n := OptionalNullable(note, NoteRule);
    if i.Some? && e.Some? && m.Some? && n.Some? then
      Some((i.value, PulseCheckStore.CheckPatch(e.value, m.value, n.value)))
    else None
  }

  /** An update holding a level passes exactly when the level would pass on
      create, and it carries that level. */
  lemma UpdateLevelsAsCreate(id: string, x: real)
    requires |id| >= 1
    ensures UpdatePulseBody(Given(VStr(id)), Given(VNum(x)), Absent, Absent).Some? <==> LevelRule(VNum(x)).Some?
    ensures UpdatePulseBody(Given(VStr(id)), Given(VNum(x)), Absent, Absent).Some? ==>
      UpdatePulseBody(Given(VStr(id)), Given(VNum(x)), Absent, Absent).value.1.energy == Some(x.Floor)
  {
  }

  /** pulseCheckQuerySchema: two optional strings. */
  function PulseQuery(startDate: Field, endDate: Field): (r: Option<(Option<string>, Option<string>)>)
    ensures r.Some? <==> (startDate.Absent? || startDate.value.VStr?) && (endDate.Absent? || endDate.value.VStr?)
    ensures r.Some? ==> (r.value.0.None? <==> startDate.Absent?) && (r.value.1.None? <==> endDate.Absent?)
    ensures r.Some? && startDate.Given? ==> r.value.0 == Some(startDate.value.s)
    ensures r.Some? && endDate.Given? ==> r.value.1 == Some(endDate.value.s)
  {
    var s := Optional(startDate, AnyText);
    var e := Optional(endDate, AnyText);
    if s.Some? && e.Some? then Some((s.value, e.value)) else None
  }
}
