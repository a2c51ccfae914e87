/** The stage list of a component: the visibility filter, the status
    counters, the complete/active toggle, the adjacent-swap reordering and
    the progress percentage. */
module StagesPanel {
  import opened Common

  datatype PanelStage = PanelStage(id: string, name: string, status: StageStatus)

  // ----- filter -----

  /** Archived stages show only with showArchived; completed ones hide with
      hideCompleted; active stages always show. */
  predicate Visible(s: PanelStage, showArchived: bool, hideCompleted: bool) {
    !(s.status == Archived && !showArchived) && !(s.status == Completed && hideCompleted)
  }

  /** filteredStages. */
  function FilteredStages(stages: seq<PanelStage>, showArchived: bool, hideCompleted: bool): (r: seq<PanelStage>)
    ensures |r| <= |stages|
  {
    if |stages| == 0 then []
    else
      var prev := FilteredStages(stages[..|stages| - 1], showArchived, hideCompleted);
      if Visible(stages[|stages| - 1], showArchived, hideCompleted) then prev + [stages[|stages| - 1]] else prev
  }

  /** A stage is kept exactly when it is visible; in particular active
      stages are always kept. */
  lemma {:induction false} FilteredMembers(stages: seq<PanelStage>, showArchived: bool, hideCompleted: bool, x: PanelStage)
    ensures x in FilteredStages(stages, showArchived, hideCompleted) <==> x in stages && Visible(x, showArchived, hideCompleted)
    ensures x in stages && x.status == Active ==> x in FilteredStages(stages, showArchived, hideCompleted)
  {
    if |stages| > 0 {
      var init := stages[..|stages| - 1];
      FilteredMembers(init, showArchived, hideCompleted, x);
      assert stages == init + [stages[|stages| - 1]];
    }
  }

  /** The input order is kept: filtering distributes over concatenation. */
  lemma {:induction false} FilteredConcat(a: seq<PanelStage>, b: seq<PanelStage>, showArchived: bool, hideCompleted: bool)
    ensures FilteredStages(a + b, showArchived, hideCompleted)
      == FilteredStages(a, showArchived, hideCompleted) + FilteredStages(b, showArchived, hideCompleted)
    decreases |b|
  {
    if |b| == 0 {
      assert a + b == a;
    } else {
      var init := b[..|b| - 1];
      assert (a + b)[..|a + b| - 1] == a + init;
      FilteredConcat(a, init, showArchived, hideCompleted);
    }
  }

  // ----- counters -----

  function CountStatus(stages: seq<PanelStage>, st: StageStatus): (n: nat)
    ensures n <= |stages|
  {
    if |stages| == 0 then 0
    else CountStatus(stages[..|stages| - 1], st) + (if stages[|stages| - 1].status == st then 1 else 0)
  }

  /** stageStats: active, completed and archived stages and the total. */
  datatype StageStats = StageStats(active: nat, completed: nat, archived: nat, total: nat)

  function Stats(stages: seq<PanelStage>): (r: StageStats)
    ensures r.total == |stages|
  {
    StageStats(CountStatus(stages, Active), CountStatus(stages, Completed), CountStatus(stages, Archived), |stages|)
  }

  /** Every stage has exactly one of the three statuses. */
  lemma {:induction false} StatsAddUp(stages: seq<PanelStage>)
    ensures Stats(stages).active + Stats(stages).completed + Stats(stages).archived == Stats(stages).total
  {
    if |stages| > 0 {
      StatsAddUp(stages[..|stages| - 1]);
    }
  }

  // ----- toggle -----

  /** handleToggleStatus: completed goes back to active, anything else
      (archived included) becomes completed. */
  function Toggle(s: StageStatus): (r: StageStatus)
    ensures r != Archived
    ensures r == Active <==> s == Completed
  {
    if s == Completed then Active else Completed
  }

  /** Toggling twice restores an active or completed stage; an archived one
      comes back as active. */
  lemma ToggleTwice(s: StageStatus)
    ensures s != Archived ==> Toggle(Toggle(s)) == s
    ensures s == Archived ==> Toggle(Toggle(s)) == Active
  {
  }

  // ----- reordering -----

  /** `findIndex` by id: the first position holding the id, or -1. */
  function FindIndex(stages: seq<PanelStage>, id: string): (k: int)
    ensures -1 <= k < |stages|
    ensures k >= 0 ==> stages[k].id == id && forall j :: 0 <= j < k ==> stages[j].id != id
    ensures k == -1 ==> forall j :: 0 <= j < |stages| ==> stages[j].id != id
  {
    if |stages| == 0 then -1
    else if stages[0].id == id then 0
    else
      var k := FindIndex(stages[1..], id);
      if k == -1 then -1 else k + 1
  }

  function Ids(stages: seq<PanelStage>): (r: seq<string>)
    ensures |r| == |stages| && forall j :: 0 <= j < |r| ==> r[j] == stages[j].id
  {
    seq(|stages|, j requires 0 <= j < |stages| => stages[j].id)
  }

  /** The list with positions i and i + 1 exchanged. */
  function SwapNext<T>(xs: seq<T>, i: nat): (r: seq<T>)
    requires i + 1 < |xs|
    ensures |r| == |xs| && r[i] == xs[i + 1] && r[i + 1] == xs[i]
    ensures forall j :: 0 <= j < |xs| && j != i && j != i + 1 ==> r[j] == xs[j]
  {
    xs[..i] + [xs[i + 1], xs[i]] + xs[i + 2..]
  }

  /** handleMoveUp: the ids of the filtered list with the stage swapped
      with its predecessor, or no request for the first or an unknown stage. */
  function MoveUp(filtered: seq<PanelStage>, id: string): (r: Option<seq<string>>)
    ensures r.None? <==> FindIndex(filtered, id) <= 0
    ensures r.Some? ==> var k := FindIndex(filtered, id);
      |r.value| == |filtered| && r.value[k - 1] == id && r.value[k] == filtered[k - 1].id
      && (forall j :: 0 <= j < |r.value| && j != k - 1 && j != k ==> r.value[j] == filtered[j].id)
      && multiset(r.value) == multiset(Ids(filtered))
  {
    var k := FindIndex(filtered, id);
    if k <= 0 then None
    else
      SwapPermutes(Ids(filtered), k - 1);
      assert Ids(SwapNext(filtered, k - 1)) == SwapNext(Ids(filtered), k - 1);
      Some(Ids(SwapNext(filtered, k - 1)))
  }

  /** handleMoveDown: the same with the successor; no request for the last
      or an unknown stage. */
  function MoveDown(filtered: seq<PanelStage>, id: string): (r: Option<seq<string>>)
    ensures r.None? <==> FindIndex(filtered, id) < 0 || FindIndex(filtered, id) >= |filtered| - 1
    ensures r.Some? ==> var k := FindIndex(filtered, id);
      |r.value| == |filtered| && r.value[k + 1] == id && r.value[k] == filtered[k + 1].id
      && (forall j :: 0 <= j < |r.value| && j != k && j != k + 1 ==> r.value[j] == filtered[j].id)
      && multiset(r.value) == multiset(Ids(filtered))
  {
    var k := FindIndex(filtered, id);
    if k < 0 || k >= |filtered| - 1 then None
    else
      SwapPermutes(Ids(filtered), k);
      assert Ids(SwapNext(filtered, k)) == SwapNext(Ids(filtered), k);
      Some(Ids(SwapNext(filtered, k)))
  }

  lemma SwapPermutes<T>(xs: seq<T>, i: nat)
    requires i + 1 < |xs|
    ensures multiset(SwapNext(xs, i)) == multiset(xs)
  {
    assert xs == xs[..i] + [xs[i], xs[i + 1]] + xs[i + 2..];
  }

  predicate DistinctIds(stages: seq<PanelStage>) {
    forall i, j :: 0 <= i < j < |stages| ==> stages[i].id != stages[j].id
  }

  /** With distinct ids, moving a stage down after moving it up (in the
      reordered list) sends the original order back. */
  lemma MoveUpThenDown(filtered: seq<PanelStage>, id: string)
    requires DistinctIds(filtered) && MoveUp(filtered, id).Some?
    ensures var k := FindIndex(filtered, id);
      MoveDown(SwapNext(filtered, k - 1), id) == Some(Ids(filtered))
  {
    var k := FindIndex(filtered, id);
    var moved := SwapNext(filtered, k - 1);
    assert moved[k - 1].id == id;
    assert FindIndex(moved, id) == k - 1;
    assert SwapNext(moved, k - 1) == filtered;
  }

  // ----- progress -----

  /** progressPercentage: the rounded share of completed stages, 0 with no
      stages. */
  function ProgressPercentage(stages: seq<PanelStage>): (p: int)
    ensures |stages| == 0 ==> p == 0
    ensures 0 <= p <= 100
    ensures |stages| > 0 && CountStatus(stages, Completed) == |stages| ==> p == 100
    ensures CountStatus(stages, Completed) == 0 ==> p == 0
    ensures |stages| > 0 ==>
      var share := (CountStatus(stages, Completed) * 100) as real / |stages| as real;
      share - 0.5 < p as real <= share + 0.5
  {
    if |stages| == 0 then 0 else Percent(CountStatus(stages, Completed), |stages|)
  }

  /** `Math.round(part / whole * 100)` for 0 <= part <= whole. */
  function Percent(part: nat, whole: nat): (p: int)
    requires 0 < whole && part <= whole
    ensures 0 <= p <= 100
    ensures part == whole ==> p == 100
    ensures part == 0 ==> p == 0
    ensures (part * 100) as real / whole as real - 0.5 < p as real <= (part * 100) as real / whole as real + 0.5
  {
    var q := (part * 100) as real / whole as real;
    ShareBounds(part, whole);
    RoundMonotonic(q, 100.0);
    RoundMonotonic(0.0, q);
    RoundOfInt(0);
    RoundOfInt(100);
    Round(q)
  }

  lemma ShareBounds(part: nat, whole: nat)
    requires 0 < whole && part <= whole
    ensures 0.0 <= (part * 100) as real / whole as real <= 100.0
    ensures part == whole ==> (part * 100) as real / whole as real == 100.0
    ensures part == 0 ==> (part * 100) as real / whole as real == 0.0
  {
    var n := whole as real;
    var q := (part * 100) as real / n;
    assert q * n == (part * 100) as real;
    assert (100.0 - q) * n == ((whole - part) * 100) as real;
    NonNegativeFactor(q, n);
    NonNegativeFactor(100.0 - q, n);
  }

  lemma NonNegativeFactor(a: real, f: real)
    requires f > 0.0 && a * f >= 0.0
    ensures a >= 0.0
  {
  }
}
