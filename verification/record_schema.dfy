/** The activity-record request schemas: create, query, id and update. */
module RecordSchema {
  import opened Common
  import opened Validation
  import opened Calendar

  /** A parsed create body. */
  datatype RecordInput = RecordInput(componentId: string, date: string, effort: Level, note: Option<string>)

  /** A parsed update body: absent fields are None. */
  datatype RecordPatch = RecordPatch(date: Option<string>, effort: Option<Level>, note: Option<string>)

  function NoteRule(v: Value): Option<string> { Text(v, 0, 500) }

  predicate ValidDate(s: string, isDatetime: string -> bool) {
    isDatetime(s) || IsDateShape(s)
  }

  predicate ValidInput(r: RecordInput, isDatetime: string -> bool) {
    |r.componentId| >= 1 && ValidDate(r.date, isDatetime)
    && (r.note.Some? ==> |r.note.value| <= 500)
  }

  /** createRecordSchema: a non-empty component id, an ISO datetime or a
      YYYY-MM-DD date, an effort level defaulting to medium, an optional
      note of at most 500 characters. */
  function CreateRecordBody(componentId: Field, date: Field, effortLevel: Field, note: Field,
                            isDatetime: string -> bool): (r: Option<RecordInput>)
    ensures r.Some? <==> componentId.Given? && TextMin(componentId.value, 1).Some?
                         && date.Given? && DateValue(date.value, isDatetime).Some?
                         && OptionalPasses(effortLevel, LevelValue) && OptionalPasses(note, NoteRule)
    ensures r.Some? ==> ValidInput(r.value, isDatetime)
    ensures r.Some? ==> r.value.componentId == componentId.value.s && r.value.date == date.value.s
    ensures r.Some? && effortLevel.Absent? ==> r.value.effort == Medium
    ensures r.Some? && effortLevel.Given? ==> LevelName(r.value.effort) == effortLevel.value.s
    ensures r.Some? ==> (r.value.note.None? <==> note.Absent?)
    ensures r.Some? && note.Given? ==> r.value.note == Some(note.value.s)
  {
    var c := Required(componentId, v => TextMin(v, 1));
    var d := Required(date, v => DateValue(v, isDatetime));
    var e := Defaulted(effortLevel, LevelValue, Medium);
    var n := Optional(note, NoteRule);
    if c.Some? && d.Some? && e.Some? && n.Some? then Some(RecordInput(c.value, d.value, e.value, n.value))
    else None
  }

  function EncodeOptional(o: Option<string>): Field {
    match o
    case None => Absent
    case Some(s) => Given(VStr(s))
  }

  /** The body a client sends for an input. */
  function Encode(r: RecordInput): (Field, Field, Field, Field) {
    (Given(VStr(r.componentId)), Given(VStr(r.date)), Given(VStr(LevelName(r.effort))), EncodeOptional(r.note))
  }

  /** Every valid input's body parses back to it. */
  lemma CreateRecordRoundTrip(r: RecordInput, isDatetime: string -> bool)
    requires ValidInput(r, isDatetime)
    ensures var e := Encode(r); CreateRecordBody(e.0, e.1, e.2, e.3, isDatetime) == Some(r)
  {
    ParseLevelName(r.effort);
  }

  /** A date key made by the calendar's formatter is always an acceptable
      date, whatever the datetime grammar. */
  lemma FormattedKeyAccepted(y: int, m: int, d: int, isDatetime: string -> bool)
    requires ValidCivil(y, m, d) && 1000 <= y <= 9999
    ensures DateValue(VStr(FormatDateKey(y, m, d)), isDatetime) == Some(FormatDateKey(y, m, d))
  {
    FormatParseRoundTrip(y, m, d);
  }

  /** recordQuerySchema: three optional strings. */
  function RecordQuery(startDate: Field, endDate: Field, componentId: Field): (r: Option<(Option<string>, Option<string>, Option<string>)>)
    ensures r.Some? <==> (startDate.Absent? || startDate.value.VStr?) && (endDate.Absent? || endDate.value.VStr?)
                         && (componentId.Absent? || componentId.value.VStr?)
    ensures r.Some? ==> (r.value.0.None? <==> startDate.Absent?) && (r.value.1.None? <==> endDate.Absent?)
                        && (r.value.2.None? <==> componentId.Absent?)
    ensures r.Some? && startDate.Given? ==> r.value.0 == Some(startDate.value.s)
    ensures r.Some? && endDate.Given? ==> r.value.1 == Some(endDate.value.s)
    ensures r.Some? && componentId.Given? ==> r.value.2 == Some(componentId.value.s)
  {
    var s := Optional(startDate, AnyText);
    var e := Optional(endDate, AnyText);
    var c := Optional(componentId, AnyText);
    if s.Some? && e.Some? && c.Some? then Some((s.value, e.value, c.value)) else None
  }

  /** updateRecordSchema: every field optional with the create rules except
      that effort has no default; a non-empty id. */
  function UpdateRecordBody(id: Field, date: Field, effortLevel: Field, note: Field,
                            isDatetime: string -> bool): (r: Option<(string, RecordPatch)>)
    ensures r.Some? <==> IdParam(id).Some? && OptionalPasses(date, v => DateValue(v, isDatetime))
                         && OptionalPasses(effortLevel, LevelValue) && OptionalPasses(note, NoteRule)
    ensures r.Some? ==> |r.value.0| >= 1 && r.value.0 == id.value.s
    ensures r.Some? && r.value.1.date.Some? ==> ValidDate(r.value.1.date.value, isDatetime)
    ensures r.Some? && r.value.1.note.Some? ==> |r.value.1.note.value| <= 500
    ensures r.Some? ==> (r.value.1.date.None? <==> date.Absent?) && (r.value.1.effort.None? <==> effortLevel.Absent?)
                        && (r.value.1.note.None? <==> note.Absent?)
    ensures r.Some? && date.Given? ==> r.value.1.date == Some(date.value.s)
    ensures r.Some? && effortLevel.Given? ==> LevelName(r.value.1.effort.value) == effortLevel.value.s
    ensures r.Some? && note.Given? ==> r.value.1.note == Some(note.value.s)
  {
    var i := IdParam(id);
    var d := Optional(date, v => DateValue(v, isDatetime));
    var e := Optional(effortLevel, LevelValue);
    var n := Optional(note, NoteRule);
    if i.Some? && d.Some? && e.Some? && n.Some? then Some((i.value, RecordPatch(d.value, e.value, n.value)))
    else None
  }

  /** Create and update agree on what a date, an effort level and a note
      may be. */
  lemma UpdateUsesCreateRules(id: string, componentId: string, v: Value, isDatetime: string -> bool)
    requires |id| >= 1 && |componentId| >= 1
    ensures UpdateRecordBody(Given(VStr(id)), Given(v), Absent, Absent, isDatetime).Some?
      <==> CreateRecordBody(Given(VStr(componentId)), Given(v), Absent, Absent, isDatetime).Some?
    ensures UpdateRecordBody(Given(VStr(id)), Absent, Given(v), Absent, isDatetime).Some?
      <==> CreateRecordBody(Given(VStr(componentId)), Given(VStr("2024-01-01")), Given(v), Absent, isDatetime).Some?
  {
    assert IsDateShape("2024-01-01");
  }
}
