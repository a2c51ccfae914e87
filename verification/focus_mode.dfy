/** Focus mode on the dashboard: pick the most urgent unfinished component
    that the user has not skipped, and keep the set of skipped ids. */
module FocusMode {
  import opened Common

  /** The slice of a component focus mode looks at. */
  datatype FocusComponent = FocusComponent(
    id: string, minWeeklyFreq: int, currentWeekLogs: int, weight: Level)

  function WeightValue(w: Level): (v: int)
    ensures 1 <= v <= 3
  {
    match w
    case High => 3
    case Medium => 2
    case Low => 1
  }

  /** Outstanding logs this week, scaled by the component's weight. */
  function Urgency(c: FocusComponent): int {
    (c.minWeeklyFreq - c.currentWeekLogs) * WeightValue(c.weight)
  }

  /** The filter of getRecommendedComponent: unfinished and not skipped. */
  predicate Eligible(c: FocusComponent, skipped: set<string>) {
    c.currentWeekLogs < c.minWeeklyFreq && c.id !in skipped
  }

  /** The position among the first `n` components that the stable
      descending sort would put first: the earliest eligible component of
      greatest urgency, or -1 when none is eligible. */
  function BestIndex(cs: seq<FocusComponent>, skipped: set<string>, n: nat): (k: int)
    requires n <= |cs|
    ensures -1 <= k < n
    ensures k == -1 <==> forall j :: 0 <= j < n ==> !Eligible(cs[j], skipped)
    ensures k >= 0 ==> Eligible(cs[k], skipped)
    ensures k >= 0 ==> forall j :: 0 <= j < n && Eligible(cs[j], skipped) ==> Urgency(cs[j]) <= Urgency(cs[k])
    ensures k >= 0 ==> forall j :: 0 <= j < k && Eligible(cs[j], skipped) ==> Urgency(cs[j]) < Urgency(cs[k])
  {
    if n == 0 then -1
    else
      var b := BestIndex(cs, skipped, n - 1);
      if Eligible(cs[n - 1], skipped) && (b == -1 || Urgency(cs[n - 1]) > Urgency(cs[b])) then n - 1
      else b
  }

  /** getRecommendedComponent. */
  function Recommended(cs: seq<FocusComponent>, skipped: set<string>): (r: Option<FocusComponent>)
    ensures r.Some? ==> r.value in cs
  {
    var k := BestIndex(cs, skipped, |cs|);
    if k == -1 then None else Some(cs[k])
  }

  /** null exactly when nothing is both unfinished and unskipped. */
  lemma RecommendedNone(cs: seq<FocusComponent>, skipped: set<string>)
    ensures Recommended(cs, skipped).None? <==> forall c :: c in cs ==> !Eligible(c, skipped)
  {
    if Recommended(cs, skipped).Some? {
      assert Recommended(cs, skipped).value in cs;
    }
  }

  /** The recommendation is eligible, of maximal urgency, and no earlier
      component has the same urgency. */
  lemma RecommendedIsMostUrgent(cs: seq<FocusComponent>, skipped: set<string>)
    requires Recommended(cs, skipped).Some?
    ensures Eligible(Recommended(cs, skipped).value, skipped)
    ensures forall c :: c in cs && Eligible(c, skipped) ==> Urgency(c) <= Urgency(Recommended(cs, skipped).value)
    ensures exists k :: 0 <= k < |cs| && cs[k] == Recommended(cs, skipped).value &&
              (forall j :: 0 <= j < k && Eligible(cs[j], skipped) ==> Urgency(cs[j]) < Urgency(cs[k]))
  {
    var k := BestIndex(cs, skipped, |cs|);
    assert cs[k] == Recommended(cs, skipped).value;
  }

  /** The "remaining" count shown for the recommendation is positive. */
  function Remaining(c: FocusComponent): (n: int)
    requires c.currentWeekLogs < c.minWeeklyFreq
    ensures n >= 1
  {
    c.minWeeklyFreq - c.currentWeekLogs
  }

  lemma RecommendedRemainingPositive(cs: seq<FocusComponent>, skipped: set<string>)
    requires Recommended(cs, skipped).Some?
    ensures Remaining(Recommended(cs, skipped).value) >= 1
  {
    RecommendedIsMostUrgent(cs, skipped);
  }

  /** The `allComplete` test. */
  predicate AllComplete(cs: seq<FocusComponent>) {
    forall c :: c in cs ==> c.currentWeekLogs >= c.minWeeklyFreq
  }

  /** When every goal is met nothing is recommended, whatever was skipped;
      otherwise no recommendation means every unfinished one was skipped. */
  lemma AllCompleteMeansNoRecommendation(cs: seq<FocusComponent>, skipped: set<string>)
    ensures AllComplete(cs) ==> Recommended(cs, skipped).None?
    ensures Recommended(cs, skipped).None? && !AllComplete(cs) ==>
      exists c :: c in cs && c.currentWeekLogs < c.minWeeklyFreq && c.id in skipped
  {
    RecommendedNone(cs, skipped);
  }

  /** handleSkip: the recommended id joins the skipped set, if there is one. */
  function Skip(cs: seq<FocusComponent>, skipped: set<string>): (s: set<string>)
    ensures skipped <= s
    ensures Recommended(cs, skipped).None? ==> s == skipped
    ensures Recommended(cs, skipped).Some? ==> s == skipped + {Recommended(cs, skipped).value.id}
  {
    match Recommended(cs, skipped)
    case Some(c) => skipped + {c.id}
    case None => skipped
  }

  /** handleLogActivity: logs the recommendation (returned so the caller can
      record it) and clears the skipped set; without one nothing happens. */
  function LogActivity(cs: seq<FocusComponent>, skipped: set<string>): (r: (Option<FocusComponent>, set<string>))
    ensures r.0 == Recommended(cs, skipped)
    ensures r.0.Some? ==> r.1 == {}
    ensures r.0.None? ==> r.1 == skipped
  {
    var rec := Recommended(cs, skipped);
    if rec.Some? then (rec, {}) else (rec, skipped)
  }

  /** The eligible positions. */
  function EligibleIds(cs: seq<FocusComponent>, skipped: set<string>): set<string> {
    set c | c in cs && Eligible(c, skipped) :: c.id
  }

  /** A skip that takes effect shrinks the set of eligible ids strictly, so
      repeated skipping reaches "no recommendation" after at most |cs| steps. */
  lemma SkipShrinksEligible(cs: seq<FocusComponent>, skipped: set<string>)
    requires Recommended(cs, skipped).Some?
    ensures EligibleIds(cs, Skip(cs, skipped)) < EligibleIds(cs, skipped)
  {
    var c := Recommended(cs, skipped).value;
    RecommendedIsMostUrgent(cs, skipped);
    assert c.id in EligibleIds(cs, skipped);
    assert c.id !in EligibleIds(cs, Skip(cs, skipped));
  }
}
