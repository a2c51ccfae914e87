/** The component request schemas: create, update and the id parameter. */
module ComponentSchema {
  import opened Common
  import opened Validation

  datatype ComponentInput = ComponentInput(name: string, weight: Level, minWeeklyFreq: int, color: string)

  /** An update body: absent fields are None. */
  datatype ComponentPatch = ComponentPatch(
    name: Option<string>, weight: Option<Level>, minWeeklyFreq: Option<int>, color: Option<string>)

  predicate ValidName(s: string) { 1 <= |s| <= 100 }

  predicate ValidInput(c: ComponentInput) {
    ValidName(c.name) && c.minWeeklyFreq >= 1 && IsHexColor(c.color)
  }

  function NameRule(v: Value): Option<string> { Text(v, 1, 100) }
  function FreqRule(v: Value): Option<int> { IntAtLeast(v, 1) }

  /** createComponentSchema: name of 1..100 characters, weight defaulting to
      medium, an integer weekly minimum of at least 1, a hex colour. */
  function CreateComponent(name: Field, weight: Field, minWeeklyFreq: Field, color: Field): (r: Option<ComponentInput>)
    ensures r.Some? ==> ValidInput(r.value)
    ensures r.Some? && weight.Absent? ==> r.value.weight == Medium
    ensures r.Some? <==> (Required(name, NameRule).Some? && Defaulted(weight, LevelValue, Medium).Some?
                          && Required(minWeeklyFreq, FreqRule).Some? && Required(color, ColorValue).Some?)
    ensures r.Some? ==> r.value.name == name.value.s && r.value.minWeeklyFreq as real == minWeeklyFreq.value.n
                        && r.value.color == color.value.s
    ensures r.Some? && weight.Given? ==> LevelName(r.value.weight) == weight.value.s
  {
    var n := Required(name, NameRule);
    var w := Defaulted(weight, LevelValue, Medium);
    var f := Required(minWeeklyFreq, FreqRule);
    var c := Required(color, ColorValue);
    if n.Some? && w.Some? && f.Some? && c.Some? then Some(ComponentInput(n.value, w.value, f.value, c.value))
    else None
  }

  /** The request body a client sends for an input. */
  function Encode(c: ComponentInput): (Field, Field, Field, Field) {
    (Given(VStr(c.name)), Given(VStr(LevelName(c.weight))), Given(VNum(c.minWeeklyFreq as real)), Given(VStr(c.color)))
  }

  /** The schema accepts exactly the valid inputs: every valid input's body
      parses back to it, and whatever parses is valid. */
  lemma CreateComponentRoundTrip(c: ComponentInput)
    requires ValidInput(c)
    ensures var e := Encode(c); CreateComponent(e.0, e.1, e.2, e.3) == Some(c)
  {
    ParseLevelName(c.weight);
  }

  /** updateComponentSchema: every field optional with the create rules, and
      a non-empty id. */
  function UpdateComponent(id: Field, name: Field, weight: Field, minWeeklyFreq: Field, color: Field): (r: Option<(string, ComponentPatch)>)
    ensures r.Some? <==> IdParam(id).Some? && OptionalPasses(name, NameRule) && OptionalPasses(weight, LevelValue)
                         && OptionalPasses(minWeeklyFreq, FreqRule) && OptionalPasses(color, ColorValue)
    ensures r.Some? ==> |r.value.0| >= 1 && r.value.0 == id.value.s
    ensures r.Some? && r.value.1.name.Some? ==> ValidName(r.value.1.name.value)
    ensures r.Some? && r.value.1.minWeeklyFreq.Some? ==> r.value.1.minWeeklyFreq.value >= 1
    ensures r.Some? && r.value.1.color.Some? ==> IsHexColor(r.value.1.color.value)
    ensures r.Some? ==> (r.value.1.weight.None? <==> weight.Absent?)
    ensures r.Some? ==> (r.value.1.name.None? <==> name.Absent?) && (r.value.1.minWeeklyFreq.None? <==> minWeeklyFreq.Absent?)
                        && (r.value.1.color.None? <==> color.Absent?)
    ensures r.Some? && name.Given? ==> r.value.1.name == Some(name.value.s)
    ensures r.Some? && weight.Given? ==> LevelName(r.value.1.weight.value) == weight.value.s
    ensures r.Some? && minWeeklyFreq.Given? ==> r.value.1.minWeeklyFreq.value as real == minWeeklyFreq.value.n
    ensures r.Some? && color.Given? ==> r.value.1.color == Some(color.value.s)
  {
    var i := IdParam(id);
    var n := Optional(name, NameRule);
    var w := Optional(weight, LevelValue);
    var f := Optional(minWeeklyFreq, FreqRule);
    var c := Optional(color, ColorValue);
    if i.Some? && n.Some? && w.Some? && f.Some? && c.Some? then
      Some((i.value, ComponentPatch(n.value, w.value, f.value, c.value)))
    else None
  }

  /** An update carrying one field passes exactly when that field would pass
      on create, and an update with no field passes with an empty patch. */
  lemma UpdateUsesCreateRules(id: string, v: Value)
    requires |id| >= 1
    ensures UpdateComponent(Given(VStr(id)), Given(v), Absent, Absent, Absent).Some? <==> NameRule(v).Some?
    ensures UpdateComponent(Given(VStr(id)), Absent, Absent, Given(v), Absent).Some? <==> FreqRule(v).Some?
    ensures UpdateComponent(Given(VStr(id)), Absent, Absent, Absent, Given(v)).Some? <==> ColorValue(v).Some?
    ensures UpdateComponent(Given(VStr(id)), Absent, Absent, Absent, Absent)
      == Some((id, ComponentPatch(None, None, None, None)))
  {
  }
}
