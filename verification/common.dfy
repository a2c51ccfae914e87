/** Shared vocabulary of the habit tracker model: optional values, error
    results, the three-level effort/weight scale and JavaScript's Math.round. */
module Common {

  datatype Option<+T> = None | Some(value: T) {
    function GetOr(default: T): T {
      match this
      case Some(v) => v
      case None => default
    }
  }

  /** The HTTP errors the controllers raise through `createError`. */
  datatype Error = NotFound(message: string)

  datatype Result<+R> = Ok(value: R) | Fail(error: Error)

  /** The `'low' | 'medium' | 'high'` scale used for record effort, stage
      effort and component weight alike. */
  datatype Level = Low | Medium | High

  function LevelName(l: Level): string {
    match l
    case Low => "low"
    case Medium => "medium"
    case High => "high"
  }

  /** Reads one of the three enum literals; anything else is rejected. */
  function ParseLevel(s: string): (r: Option<Level>)
    ensures r.Some? <==> s in {"low", "medium", "high"}
    ensures r.Some? ==> LevelName(r.value) == s
  {
    if s == "low" then Some(Low)
    else if s == "medium" then Some(Medium)
    else if s == "high" then Some(High)
    else None
  }

  lemma ParseLevelName(l: Level)
    ensures ParseLevel(LevelName(l)) == Some(l)
  {
  }

  /** A stage's lifecycle status. */
  datatype StageStatus = Active | Completed | Archived

  function StatusName(s: StageStatus): string {
    match s
    case Active => "active"
    case Completed => "completed"
    case Archived => "archived"
  }

  function ParseStatus(s: string): (r: Option<StageStatus>)
    ensures r.Some? <==> s in {"active", "completed", "archived"}
    ensures r.Some? ==> StatusName(r.value) == s
  {
    if s == "active" then Some(Active)
    else if s == "completed" then Some(Completed)
    else if s == "archived" then Some(Archived)
    else None
  }

  lemma ParseStatusName(s: StageStatus)
    ensures ParseStatus(StatusName(s)) == Some(s)
  {
  }

  /** JavaScript's Math.round on an exact rational: the nearest integer,
      halves rounded towards +infinity. */
  function Round(x: real): (r: int)
    ensures x - 0.5 < r as real <= x + 0.5
  {
    (x + 0.5).Floor
  }

  /** `Math.round(x * 100) / 100`: two-decimal presentation rounding. */
  function Round2(x: real): (r: real)
    ensures x - 0.005 < r <= x + 0.005
  {
    Round(x * 100.0) as real / 100.0
  }

  lemma RoundMonotonic(x: real, y: real)
    requires x <= y
    ensures Round(x) <= Round(y)
  {
  }

  lemma RoundOfInt(k: int)
    ensures Round(k as real) == k
  {
  }

  function Min(a: int, b: int): int { if a <= b then a else b }
  function Max(a: int, b: int): int { if a >= b then a else b }
}
