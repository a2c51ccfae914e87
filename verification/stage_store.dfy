/** The stage endpoints over an in-memory stage collection: listing by
    component, creation with the next order number, updates with the
    completedAt rules, deletion and reordering. Every operation runs for
    one authenticated user and sees only that user's documents. */
module StageStore {
  import opened Common
  import Sorting

  datatype StoredStage = StoredStage(
    id: string, userId: string, componentId: string, name: string,
    description: Option<string>, effort: Level, color: Option<string>,
    order: int, status: StageStatus, completedAt: Option<int>)

  /** The stage collection (ids distinct) and the owner of each component. */
  datatype Db = Db(stages: seq<StoredStage>, owners: map<string, string>)

  predicate IdsDistinct(stages: seq<StoredStage>) {
    forall i, j :: 0 <= i < j < |stages| ==> stages[i].id != stages[j].id
  }

  /** `Component.findOne({ _id: componentId, userId })` succeeds. */
  predicate OwnsComponent(db: Db, user: string, componentId: string) {
    componentId in db.owners && db.owners[componentId] == user
  }

  predicate InComponent(s: StoredStage, user: string, componentId: string) {
    s.userId == user && s.componentId == componentId
  }

  const COMPONENT_NOT_FOUND: Error := NotFound("Component not found")
  const STAGE_NOT_FOUND: Error := NotFound("Stage not found")

  // ----- listing -----

  function Matching(stages: seq<StoredStage>, user: string, componentId: string): (r: seq<StoredStage>)
    ensures |r| <= |stages|
  {
    if |stages| == 0 then []
    else
      var prev := Matching(stages[..|stages| - 1], user, componentId);
      if InComponent(stages[|stages| - 1], user, componentId) then prev + [stages[|stages| - 1]] else prev
  }

  lemma {:induction false} MatchingMembers(stages: seq<StoredStage>, user: string, componentId: string, x: StoredStage)
    ensures x in Matching(stages, user, componentId) <==> x in stages && InComponent(x, user, componentId)
  {
    if |stages| > 0 {
      var init := stages[..|stages| - 1];
      MatchingMembers(init, user, componentId, x);
      assert stages == init + [stages[|stages| - 1]];
    }
  }

  function OrderKey(s: StoredStage): int { s.order }

  /** getStagesByComponent: 404 unless the user owns the component, else
      the component's stages by ascending order. */
  function ListStages(db: Db, user: string, componentId: string): (r: Result<seq<StoredStage>>)
    ensures r.Fail? <==> !OwnsComponent(db, user, componentId)
    ensures r.Fail? ==> r.error == COMPONENT_NOT_FOUND
    ensures r.Ok? ==> Sorting.SortedBy(r.value, OrderKey)
    ensures r.Ok? ==> multiset(r.value) == multiset(Matching(db.stages, user, componentId))
  {
    if !OwnsComponent(db, user, componentId) then Fail(COMPONENT_NOT_FOUND)
    else Ok(Sorting.SortBy(Matching(db.stages, user, componentId), OrderKey))
  }

  // ----- creation -----

  /** The order a new stage of the component gets: one past the highest
      existing order, or 0 when the component has no stage. */
  function NextOrder(stages: seq<StoredStage>, user: string, componentId: string): (o: int)
  {
    if |stages| == 0 then 0
    else
      var prev := NextOrder(stages[..|stages| - 1], user, componentId);
      var last := stages[|stages| - 1];
      if !InComponent(last, user, componentId) then prev
      else if HasStage(stages[..|stages| - 1], user, componentId) then Max(prev, last.order + 1)
      else last.order + 1
  }

  predicate HasStage(stages: seq<StoredStage>, user: string, componentId: string) {
    exists i :: 0 <= i < |stages| && InComponent(stages[i], user, componentId)
  }

  /** The next order exceeds every order of the component and is 0 or one
      past an existing one. */
  lemma {:induction false} NextOrderIsMaxPlusOne(stages: seq<StoredStage>, user: string, componentId: string)
    ensures !HasStage(stages, user, componentId) ==> NextOrder(stages, user, componentId) == 0
    ensures forall i :: 0 <= i < |stages| && InComponent(stages[i], user, componentId) ==>
      stages[i].order < NextOrder(stages, user, componentId)
    ensures HasStage(stages, user, componentId) ==>
      exists i :: 0 <= i < |stages| && InComponent(stages[i], user, componentId) &&
        stages[i].order + 1 == NextOrder(stages, user, componentId)
  {
    if |stages| > 0 {
      var init := stages[..|stages| - 1];
      NextOrderIsMaxPlusOne(init, user, componentId);
      var n := |stages| - 1;
      if HasStage(init, user, componentId) {
        var i :| 0 <= i < |init| && InComponent(init[i], user, componentId);
        assert InComponent(stages[i], user, componentId);
      }
      if HasStage(stages, user, componentId) && !HasStage(init, user, componentId) {
        var i :| 0 <= i < |stages| && InComponent(stages[i], user, componentId);
        assert i == n;
      }
    }
  }

  datatype NewStage = NewStage(
    componentId: string, name: string, description: Option<string>, effort: Level, color: Option<string>)

  /** createStage: 404 unless the user owns the component; otherwise a new
      active, uncompleted stage with the next order is added under the id
      the database assigns. */
  function CreateStage(db: Db, user: string, newId: string, input: NewStage): (r: Result<(Db, StoredStage)>)
    requires forall i :: 0 <= i < |db.stages| ==> db.stages[i].id != newId
    ensures r.Fail? <==> !OwnsComponent(db, user, input.componentId)
    ensures r.Fail? ==> r.error == COMPONENT_NOT_FOUND
    ensures r.Ok? ==> r.value.0 == db.(stages := db.stages + [r.value.1])
    ensures r.Ok? ==> r.value.1.status == Active && r.value.1.completedAt.None?
    ensures r.Ok? ==> r.value.1.id == newId && r.value.1.userId == user && r.value.1.componentId == input.componentId
    ensures r.Ok? ==> r.value.1.order == NextOrder(db.stages, user, input.componentId)
  {
    if !OwnsComponent(db, user, input.componentId) then Fail(COMPONENT_NOT_FOUND)
    else
      var s := StoredStage(newId, user, input.componentId, input.name, input.description,
        input.effort, input.color, NextOrder(db.stages, user, input.componentId), Active, None);
      Ok((db.(stages := db.stages + [s]), s))
  }

  /** Creation keeps the ids distinct. */
  lemma CreateKeepsIdsDistinct(db: Db, user: string, newId: string, input: NewStage)
    requires IdsDistinct(db.stages)
    requires forall i :: 0 <= i < |db.stages| ==> db.stages[i].id != newId
    ensures CreateStage(db, user, newId, input).Ok? ==> IdsDistinct(CreateStage(db, user, newId, input).value.0.stages)
  {
  }

  // ----- update -----

  /** Absent fields are left alone; description and colour may be set to null. */
  datatype StagePatch = StagePatch(
    name: Option<string>, description: Option<Option<string>>, effort: Option<Level>,
    status: Option<StageStatus>, color: Option<Option<string>>)

  /** The position of the user's stage with that id, or -1. */
  function FindStage(stages: seq<StoredStage>, user: string, id: string): (k: int)
    ensures -1 <= k < |stages|
    ensures k >= 0 ==> stages[k].id == id && stages[k].userId == user
    ensures k == -1 ==> forall j :: 0 <= j < |stages| ==> !(stages[j].id == id && stages[j].userId == user)
  {
    if |stages| == 0 then -1
    else
      var k := FindStage(stages[..|stages| - 1], user, id);
      if k >= 0 then k
      else if stages[|stages| - 1].id == id && stages[|stages| - 1].userId == user then |stages| - 1
      else -1
  }

  /** The completedAt rule: a move to completed stamps `now` unless the
      stored stage was already completed; a move to active clears it; any
      other update keeps it. */
  function CompletedAtAfter(stored: StageStatus, storedAt: Option<int>, newStatus: Option<StageStatus>, now: int): (c: Option<int>)
    ensures newStatus == Some(Completed) && stored != Completed ==> c == Some(now)
    ensures newStatus == Some(Completed) && stored == Completed ==> c == storedAt
    ensures newStatus == Some(Active) ==> c.None?
    ensures newStatus.None? || newStatus == Some(Archived) ==> c == storedAt
  {
    match newStatus
    case Some(Completed) => if stored != Completed then Some(now) else storedAt
    case Some(Active) => None
    case _ => storedAt
  }

  function Apply(s: StoredStage, p: StagePatch, now: int): (r: StoredStage)
    ensures r.id == s.id && r.userId == s.userId && r.componentId == s.componentId && r.order == s.order
  {
    StoredStage(
      s.id, s.userId, s.componentId,
      p.name.GetOr(s.name),
      p.description.GetOr(s.description),
      p.effort.GetOr(s.effort),
      p.color.GetOr(s.color),
      s.order,
      p.status.GetOr(s.status),
      CompletedAtAfter(s.status, s.completedAt, p.status, now))
  }

  /** updateStage: 404 for a stage the user does not have; otherwise the
      patch is applied to that stage alone. */
  function UpdateStage(db: Db, user: string, id: string, p: StagePatch, now: int): (r: Result<(Db, StoredStage)>)
    ensures r.Fail? <==> FindStage(db.stages, user, id) == -1
    ensures r.Fail? ==> r.error == STAGE_NOT_FOUND
    ensures r.Ok? ==> |r.value.0.stages| == |db.stages| && r.value.0.owners == db.owners
    ensures r.Ok? ==> forall j :: 0 <= j < |db.stages| && j != FindStage(db.stages, user, id) ==>
      r.value.0.stages[j] == db.stages[j]
    ensures r.Ok? ==> r.value.0.stages[FindStage(db.stages, user, id)] == r.value.1
  {
    var k := FindStage(db.stages, user, id);
    if k == -1 then Fail(STAGE_NOT_FOUND)
    else
      var s := Apply(db.stages[k], p, now);
      Ok((db.(stages := db.stages[k := s]), s))
  }

  /** What an update does to the stage: each given field takes its new
      value (a null description or colour clears it), each absent one keeps
      the stored value, and completedAt follows the rule above in all its
      cases. */
  lemma UpdateStageEffect(db: Db, user: string, id: string, p: StagePatch, now: int)
    requires UpdateStage(db, user, id, p, now).Ok?
    ensures var before := db.stages[FindStage(db.stages, user, id)];
      var s := UpdateStage(db, user, id, p, now).value.1;
      && s.id == id && s.userId == user && s.order == before.order && s.componentId == before.componentId
      && s.status == p.status.GetOr(before.status)
      && (p.name.Some? ==> s.name == p.name.value) && (p.name.None? ==> s.name == before.name)
      && (p.description.Some? ==> s.description == p.description.value)
      && (p.description.None? ==> s.description == before.description)
      && (p.effort.Some? ==> s.effort == p.effort.value) && (p.effort.None? ==> s.effort == before.effort)
      && (p.color.Some? ==> s.color == p.color.value) && (p.color.None? ==> s.color == before.color)
    ensures var before := db.stages[FindStage(db.stages, user, id)];
      var s := UpdateStage(db, user, id, p, now).value.1;
      && (p.status == Some(Completed) && before.status != Completed ==> s.completedAt == Some(now))
      && (p.status == Some(Completed) && before.status == Completed ==> s.completedAt == before.completedAt)
      && (p.status == Some(Active) ==> s.completedAt.None?)
      && (p.status == Some(Archived) ==> s.completedAt == before.completedAt)
      && (p.status.None? ==> s.completedAt == before.completedAt)
  {
  }

  // ----- deletion -----

  /** deleteStage: 404 for a stage the user does not have; otherwise that
      stage alone is removed. */
  function DeleteStage(db: Db, user: string, id: string): (r: Result<Db>)
    ensures r.Fail? <==> FindStage(db.stages, user, id) == -1
    ensures r.Fail? ==> r.error == STAGE_NOT_FOUND
    ensures r.Ok? ==> |r.value.stages| == |db.stages| - 1
    ensures r.Ok? ==> var k := FindStage(db.stages, user, id);
      r.value.stages == db.stages[..k] + db.stages[k + 1..]
  {
    var k := FindStage(db.stages, user, id);
    if k == -1 then Fail(STAGE_NOT_FOUND)
    else Ok(db.(stages := db.stages[..k] + db.stages[k + 1..]))
  }

  // ----- reordering -----

  /** One `findOneAndUpdate({ _id, componentId, userId }, { order: index })`. */
  function SetOrder(stages: seq<StoredStage>, user: string, componentId: string, id: string, index: int): (r: seq<StoredStage>)
    ensures |r| == |stages|
  {
    seq(|stages|, j requires 0 <= j < |stages| =>
      if stages[j].id == id && InComponent(stages[j], user, componentId) then stages[j].(order := index) else stages[j])
  }

  /** The updates issued for `ids[0..n]`, one after another. */
  function ApplyOrders(stages: seq<StoredStage>, user: string, componentId: string, ids: seq<string>, n: nat): (r: seq<StoredStage>)
    requires n <= |ids|
    ensures |r| == |stages|
  {
    if n == 0 then stages
    else SetOrder(ApplyOrders(stages, user, componentId, ids, n - 1), user, componentId, ids[n - 1], n - 1)
  }

  /** The last position of `id` among the first n ids, or -1. */
  function LastPos(ids: seq<string>, id: string, n: nat): (k: int)
    requires n <= |ids|
    ensures -1 <= k < n
    ensures k >= 0 ==> ids[k] == id && forall j :: k < j < n ==> ids[j] != id
    ensures k == -1 ==> forall j :: 0 <= j < n ==> ids[j] != id
  {
    if n == 0 then -1
    else if ids[n - 1] == id then n - 1
    else LastPos(ids, id, n - 1)
  }

  /** The order a stage ends up with: its last position in the list if the
      stage is the component's and listed, its old order otherwise. */
  function ReorderedOrder(s: StoredStage, user: string, componentId: string, ids: seq<string>): int {
    var k := LastPos(ids, s.id, |ids|);
    if InComponent(s, user, componentId) && k >= 0 then k else s.order
  }

  /** Applying the updates one by one leaves every stage with the order
      ReorderedOrder names and changes nothing else. */
  lemma {:induction false} ApplyOrdersEffect(stages: seq<StoredStage>, user: string, componentId: string, ids: seq<string>, n: nat)
    requires n <= |ids|
    ensures forall j :: 0 <= j < |stages| ==>
      ApplyOrders(stages, user, componentId, ids, n)[j] == stages[j].(order := ReorderedOrder(stages[j], user, componentId, ids[..n]))
  {
    if n > 0 {
      ApplyOrdersEffect(stages, user, componentId, ids, n - 1);
      forall j | 0 <= j < |stages|
        ensures ApplyOrders(stages, user, componentId, ids, n)[j] == stages[j].(order := ReorderedOrder(stages[j], user, componentId, ids[..n]))
      {
        var s := stages[j];
        assert ids[..n][..n - 1] == ids[..n - 1];
        var k := LastPos(ids[..n], s.id, n);
        var k' := LastPos(ids[..n - 1], s.id, n - 1);
        if ids[n - 1] != s.id {
          assert forall i :: 0 <= i < n - 1 ==> ids[..n][i] == ids[..n - 1][i];
          LastPosPrefix(ids[..n], ids[..n - 1], s.id, n - 1);
        }
      }
    }
  }

  lemma {:induction false} LastPosPrefix(a: seq<string>, b: seq<string>, id: string, n: nat)
    requires n <= |b| && n < |a| && a[n] != id
    requires forall i :: 0 <= i < n ==> a[i] == b[i]
    ensures LastPos(a, id, n + 1) == LastPos(b, id, n)
  {
    if n > 0 {
      LastPosAgree(a, b, id, n);
    }
  }

  lemma {:induction false} LastPosAgree(a: seq<string>, b: seq<string>, id: string, n: nat)
    requires n <= |a| && n <= |b|
    requires forall i :: 0 <= i < n ==> a[i] == b[i]
    ensures LastPos(a, id, n) == LastPos(b, id, n)
  {
    if n > 0 {
      LastPosAgree(a, b, id, n - 1);
    }
  }

  /** reorderStages: 404 unless the user owns the component; otherwise each
      listed stage of the component takes its position as order, the rest
      keep theirs, and the component's stages are returned by order. */
  function ReorderStages(db: Db, user: string, componentId: string, ids: seq<string>): (r: Result<(Db, seq<StoredStage>)>)
    ensures r.Fail? <==> !OwnsComponent(db, user, componentId)
    ensures r.Fail? ==> r.error == COMPONENT_NOT_FOUND
    ensures r.Ok? ==> |r.value.0.stages| == |db.stages| && r.value.0.owners == db.owners
    ensures r.Ok? ==> Sorting.SortedBy(r.value.1, OrderKey)
    ensures r.Ok? ==> multiset(r.value.1) == multiset(Matching(r.value.0.stages, user, componentId))
    ensures r.Ok? ==> ListStages(r.value.0, user, componentId) == Ok(r.value.1)
  {
    if !OwnsComponent(db, user, componentId) then Fail(COMPONENT_NOT_FOUND)
    else
      var stages := ApplyOrders(db.stages, user, componentId, ids, |ids|);
      var db' := db.(stages := stages);
      Ok((db', Sorting.SortBy(Matching(stages, user, componentId), OrderKey)))
  }

  /** A listed stage of the component gets its (last) position in the list;
      every other stage keeps its order; nothing but orders changes. */
  lemma ReorderStagesEffect(db: Db, user: string, componentId: string, ids: seq<string>, j: int)
    requires ReorderStages(db, user, componentId, ids).Ok? && 0 <= j < |db.stages|
    ensures var s := db.stages[j];
      var s' := ReorderStages(db, user, componentId, ids).value.0.stages[j];
      s' == s.(order := s'.order)
      && (InComponent(s, user, componentId) && s.id in ids ==>
            (0 <= s'.order < |ids| && ids[s'.order] == s.id &&
             forall i :: s'.order < i < |ids| ==> ids[i] != s.id))
      && (!InComponent(s, user, componentId) || s.id !in ids ==> s'.order == s.order)
  {
    ApplyOrdersEffect(db.stages, user, componentId, ids, |ids|);
    assert ids[..|ids|] == ids;
  }
}
