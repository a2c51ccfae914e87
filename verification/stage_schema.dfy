/** The stage request schemas: create, update, the id and component-id
    parameters, and the reorder body. The parsed bodies are the inputs the
    stage store takes. */
module StageSchema {
  import opened Common
  import opened Validation
  import StageStore

  function NameRule(v: Value): Option<string> { Text(v, 1, 200) }
  function DescriptionRule(v: Value): Option<string> { Text(v, 0, 1000) }

  predicate ValidInput(s: StageStore.NewStage) {
    |s.componentId| >= 1 && 1 <= |s.name| <= 200
    && (s.description.Some? ==> |s.description.value| <= 1000)
    && (s.color.Some? ==> IsHexColor(s.color.value))
  }

  /** createStageSchema: a non-empty component id, a name of 1..200
      characters, an optional description of at most 1000, a required
      effort level, an optional hex colour. */
  function CreateStageBody(componentId: Field, name: Field, description: Field, effortLevel: Field, color: Field): (r: Option<StageStore.NewStage>)
    ensures r.Some? <==> componentId.Given? && TextMin(componentId.value, 1).Some?
                         && name.Given? && NameRule(name.value).Some?
                         && OptionalPasses(description, DescriptionRule)
                         && effortLevel.Given? && LevelValue(effortLevel.value).Some?
                         && OptionalPasses(color, ColorValue)
    ensures r.Some? ==> ValidInput(r.value)
    ensures r.Some? ==> r.value.componentId == componentId.value.s && r.value.name == name.value.s
                        && LevelName(r.value.effort) == effortLevel.value.s
    ensures r.Some? ==> (r.value.description.None? <==> description.Absent?)
    ensures r.Some? && description.Given? ==> r.value.description == Some(description.value.s)
    ensures r.Some? ==> (r.value.color.None? <==> color.Absent?)
    ensures r.Some? && color.Given? ==> r.value.color == Some(color.value.s)
  {
    var c := Required(componentId, v => TextMin(v, 1));
    var n := Required(name, NameRule);
    var d := Optional(description, DescriptionRule);
    var e := Required(effortLevel, LevelValue);
    var k := Optional(color, ColorValue);
    if c.Some? && n.Some? && d.Some? && e.Some? && k.Some? then
      Some(StageStore.NewStage(c.value, n.value, d.value, e.value, k.value))
    else None
  }

  function EncodeOptional(o: Option<string>): Field {
    match o
    case None => Absent
    case Some(s) => Given(VStr(s))
  }

  /** The body a client sends for an input. */
  function Encode(s: StageStore.NewStage): (Field, Field, Field, Field, Field) {
    (Given(VStr(s.componentId)), Given(VStr(s.name)), EncodeOptional(s.description),
     Given(VStr(LevelName(s.effort))), EncodeOptional(s.color))
  }

  /** Every valid input's body parses back to it. */
  lemma CreateStageRoundTrip(s: StageStore.NewStage)
    requires ValidInput(s)
    ensures var e := Encode(s); CreateStageBody(e.0, e.1, e.2, e.3, e.4) == Some(s)
  {
    ParseLevelName(s.effort);
  }

  /** updateStageSchema: every field optional; description and colour may
      also be null, which clears them; a non-empty id. */
  function UpdateStageBody(id: Field, name: Field, description: Field, effortLevel: Field, status: Field, color: Field): (r: Option<(string, StageStore.StagePatch)>)
    ensures r.Some? <==> IdParam(id).Some? && OptionalPasses(name, NameRule)
                         && NullablePasses(description, DescriptionRule) && OptionalPasses(effortLevel, LevelValue)
                         && OptionalPasses(status, StatusValue) && NullablePasses(color, ColorValue)
    ensures r.Some? ==> |r.value.0| >= 1 && r.value.0 == id.value.s
    ensures r.Some? && r.value.1.name.Some? ==> 1 <= |r.value.1.name.value| <= 200
    ensures r.Some? && r.value.1.description.Some? && r.value.1.description.value.Some? ==>
      |r.value.1.description.value.value| <= 1000
    ensures r.Some? && r.value.1.color.Some? && r.value.1.color.value.Some? ==> IsHexColor(r.value.1.color.value.value)
    ensures r.Some? ==> (r.value.1.name.None? <==> name.Absent?) && (r.value.1.description.None? <==> description.Absent?)
                        && (r.value.1.effort.None? <==> effortLevel.Absent?) && (r.value.1.status.None? <==> status.Absent?)
                        && (r.value.1.color.None? <==> color.Absent?)
    ensures r.Some? && name.Given? ==> r.value.1.name == Some(name.value.s)
    ensures r.Some? && effortLevel.Given? ==> LevelName(r.value.1.effort.value) == effortLevel.value.s
    ensures r.Some? && status.Given? ==> StatusName(r.value.1.status.value) == status.value.s
    ensures r.Some? ==> (r.value.1.description == Some(None) <==> description == Given(VNull))
    ensures r.Some? && description.Given? && description.value != VNull ==>
      r.value.1.description == Some(Some(description.value.s))
    ensures r.Some? ==> (r.value.1.color == Some(None) <==> color == Given(VNull))
    ensures r.Some? && color.Given? && color.value != VNull ==> r.value.1.color == Some(Some(color.value.s))
  {
    var i := IdParam(id);
    var n := Optional(name, NameRule);
    var d := OptionalNullable(description, DescriptionRule);
    var e := Optional(effortLevel, LevelValue);
    var s := Optional(status, StatusValue);
    var c := OptionalNullable(color, ColorValue);
    if i.Some? && n.Some? && d.Some? && e.Some? && s.Some? && c.Some? then
      Some((i.value, StageStore.StagePatch(n.value, d.value, e.value, s.value, c.value)))
    else None
  }

  /** null is accepted only where the schema says nullable: the name and
      status reject it, description and colour read it as "clear". */
  lemma UpdateNullHandling(id: string)
    requires |id| >= 1
    ensures UpdateStageBody(Given(VStr(id)), Given(VNull), Absent, Absent, Absent, Absent).None?
    ensures UpdateStageBody(Given(VStr(id)), Absent, Absent, Absent, Given(VNull), Absent).None?
    ensures UpdateStageBody(Given(VStr(id)), Absent, Given(VNull), Absent, Absent, Given(VNull))
      == Some((id, StageStore.StagePatch(None, Some(None), None, None, Some(None))))
  {
  }

  /** A status update passes exactly for the three status names and sets
      that status. */
  lemma UpdateStatusNames(id: string, st: StageStatus)
    requires |id| >= 1
    ensures UpdateStageBody(Given(VStr(id)), Absent, Absent, Absent, Given(VStr(StatusName(st))), Absent)
      == Some((id, StageStore.StagePatch(None, None, None, Some(st), None)))
  {
    ParseStatusName(st);
  }

  /** getStagesByComponentSchema: the component id query field. */
  function StagesQuery(componentId: Field): (r: Option<string>)
    ensures r.Some? <==> componentId.Given? && componentId.value.VStr? && |componentId.value.s| >= 1
    ensures r.Some? ==> r.value == componentId.value.s
  {
    Required(componentId, v => TextMin(v, 1))
  }

  /** reorderStagesSchema: a non-empty list of non-empty ids and the
      component id parameter. */
  function ReorderBody(stageIds: Field, componentId: Field): (r: Option<(string, seq<string>)>)
    ensures r.Some? <==> IdParam(componentId).Some? && stageIds.Given? && stageIds.value.VList?
                         && |stageIds.value.items| >= 1
                         && forall i :: 0 <= i < |stageIds.value.items| ==>
                              stageIds.value.items[i].VStr? && |stageIds.value.items[i].s| >= 1
    ensures r.Some? ==> r.value.0 == componentId.value.s && |r.value.1| == |stageIds.value.items|
                        && forall i :: 0 <= i < |r.value.1| ==> r.value.1[i] == stageIds.value.items[i].s
    ensures r.Some? ==> |r.value.0| >= 1 && |r.value.1| >= 1
    ensures r.Some? ==> forall i :: 0 <= i < |r.value.1| ==> |r.value.1[i]| >= 1
  {
    var ids := Required(stageIds, NonEmptyIdList);
    var c := IdParam(componentId);
    if ids.Some? && c.Some? then Some((c.value, ids.value)) else None
  }

  /** The reorder body a client sends for an id list. */
  function EncodeIds(ids: seq<string>): (vs: seq<Value>)
    ensures |vs| == |ids| && forall i :: 0 <= i < |ids| ==> vs[i] == VStr(ids[i])
  {
    seq(|ids|, i requires 0 <= i < |ids| => VStr(ids[i]))
  }

  /** Exactly the non-empty lists of non-empty ids are accepted, and they
      come back in the order sent. */
  lemma ReorderRoundTrip(ids: seq<string>, componentId: string)
    requires |componentId| >= 1
    ensures ReorderBody(Given(VList(EncodeIds(ids))), Given(VStr(componentId))).Some?
      <==> (|ids| >= 1 && forall i :: 0 <= i < |ids| ==> |ids[i]| >= 1)
    ensures ReorderBody(Given(VList(EncodeIds(ids))), Given(VStr(componentId))).Some? ==>
      ReorderBody(Given(VList(EncodeIds(ids))), Given(VStr(componentId))).value == (componentId, ids)
  {
    var vs := EncodeIds(ids);
    if IdList(vs).Some? {
      assert IdList(vs).value == ids;
    }
  }
}
