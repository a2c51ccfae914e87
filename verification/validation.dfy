/** The request validators' building blocks: a JSON-like request value,
    present-or-absent fields, and the rules the schemas combine (string
    length bounds, integer bounds, the enums, the hex colour, the date
    shape). Each rule yields the accepted value or nothing. */
module Validation {
  import opened Common
  import opened Calendar

  datatype Value = VStr(s: string) | VNum(n: real) | VBool(b: bool) | VNull | VList(items: seq<Value>)

  /** A body, query or path field: missing, or given with some value. */
  datatype Field = Absent | Given(value: Value)

  // ----- value rules -----

  predicate IsHexDigit(c: char) {
    '0' <= c <= '9' || 'a' <= c <= 'f' || 'A' <= c <= 'F'
  }

  /** The regular expression `^#[0-9A-Fa-f]{6}$`. */
  predicate IsHexColor(s: string) {
    |s| == 7 && s[0] == '#' && forall i :: 1 <= i < 7 ==> IsHexDigit(s[i])
  }

  predicate IsInteger(r: real) {
    r.Floor as real == r
  }

  /** `z.string()` with no bounds. */
  function AnyText(v: Value): (r: Option<string>)
    ensures r.Some? <==> v.VStr?
    ensures r.Some? ==> r.value == v.s
  {
    if v.VStr? then Some(v.s) else None
  }

  /** `z.string().min(lo)`. */
  function TextMin(v: Value, lo: nat): (r: Option<string>)
    ensures r.Some? <==> v.VStr? && lo <= |v.s|
    ensures r.Some? ==> r.value == v.s
  {
    if v.VStr? && lo <= |v.s| then Some(v.s) else None
  }

  /** `z.string().min(lo).max(hi)`. */
  function Text(v: Value, lo: nat, hi: nat): (r: Option<string>)
    ensures r.Some? <==> v.VStr? && lo <= |v.s| <= hi
    ensures r.Some? ==> r.value == v.s
  {
    if v.VStr? && lo <= |v.s| <= hi then Some(v.s) else None
  }

  /** `z.number().int().min(lo)`. */
  function IntAtLeast(v: Value, lo: int): (r: Option<int>)
    ensures r.Some? <==> v.VNum? && IsInteger(v.n) && lo as real <= v.n
    ensures r.Some? ==> r.value as real == v.n && lo <= r.value
  {
    if v.VNum? && IsInteger(v.n) && lo as real <= v.n then Some(v.n.Floor) else None
  }

  /** `z.number().int().min(lo).max(hi)`. */
  function IntBetween(v: Value, lo: int, hi: int): (r: Option<int>)
    ensures r.Some? <==> v.VNum? && IsInteger(v.n) && lo as real <= v.n <= hi as real
    ensures r.Some? ==> r.value as real == v.n && lo <= r.value <= hi
  {
    if v.VNum? && IsInteger(v.n) && lo as real <= v.n <= hi as real then Some(v.n.Floor) else None
  }

  /** `z.enum(['low', 'medium', 'high'])`. */
  function LevelValue(v: Value): (r: Option<Level>)
    ensures r.Some? <==> v.VStr? && v.s in {"low", "medium", "high"}
    ensures r.Some? ==> LevelName(r.value) == v.s
  {
    if v.VStr? then ParseLevel(v.s) else None
  }

  /** `z.enum(['active', 'completed', 'archived'])`. */
  function StatusValue(v: Value): (r: Option<StageStatus>)
    ensures r.Some? <==> v.VStr? && v.s in {"active", "completed", "archived"}
    ensures r.Some? ==> StatusName(r.value) == v.s
  {
    if v.VStr? then ParseStatus(v.s) else None
  }

  /** `z.string().regex(hexColorRegex)`. */
  function ColorValue(v: Value): (r: Option<string>)
    ensures r.Some? <==> v.VStr? && IsHexColor(v.s)
    ensures r.Some? ==> r.value == v.s
  {
    if v.VStr? && IsHexColor(v.s) then Some(v.s) else None
  }

  /** `z.string().datetime().or(z.string().regex(/^\d{4}-\d{2}-\d{2}$/))`;
      zod's ISO-datetime grammar is the parameter `isDatetime`. */
  function DateValue(v: Value, isDatetime: string -> bool): (r: Option<string>)
    ensures r.Some? <==> v.VStr? && (isDatetime(v.s) || IsDateShape(v.s))
    ensures r.Some? ==> r.value == v.s
  {
    if v.VStr? && (isDatetime(v.s) || IsDateShape(v.s)) then Some(v.s) else None
  }

  /** `z.array(z.string().min(1))` over the items. */
  function IdList(items: seq<Value>): (r: Option<seq<string>>)
    ensures r.Some? <==> forall i :: 0 <= i < |items| ==> items[i].VStr? && |items[i].s| >= 1
    ensures r.Some? ==> |r.value| == |items| && forall i :: 0 <= i < |items| ==> r.value[i] == items[i].s
  {
    if |items| == 0 then Some([])
    else
      var rest := IdList(items[1..]);
      if items[0].VStr? && |items[0].s| >= 1 && rest.Some? then
        Some([items[0].s] + rest.value)
      else
        assert rest.None? ==> exists i :: 1 <= i < |items| && !(items[i].VStr? && |items[i].s| >= 1) by {
          if rest.None? {
            var i :| 0 <= i < |items[1..]| && !(items[1..][i].VStr? && |items[1..][i].s| >= 1);
            assert items[i + 1] == items[1..][i];
          }
        }
        None
  }

  /** `.min(1, ...)` on that array. */
  function NonEmptyIdList(v: Value): (r: Option<seq<string>>)
    ensures r.Some? <==> v.VList? && |v.items| >= 1 && IdList(v.items).Some?
    ensures r.Some? ==> r.value == IdList(v.items).value && |r.value| >= 1
  {
    if v.VList? && |v.items| >= 1 then IdList(v.items) else None
  }

  // ----- field modifiers -----

  /** A required field: absent fails. */
  function Required<T>(f: Field, rule: Value -> Option<T>): (r: Option<T>)
    ensures f.Absent? ==> r.None?
    ensures f.Given? ==> r == rule(f.value)
  {
    match f
    case Absent => None
    case Given(v) => rule(v)
  }

  /** `.optional()`: absent is fine and reads as None; a given value must
      pass the rule (null included). */
  function Optional<T>(f: Field, rule: Value -> Option<T>): (r: Option<Option<T>>)
    ensures f.Absent? ==> r == Some(None)
    ensures f.Given? ==> (r.Some? <==> rule(f.value).Some?)
    ensures f.Given? && r.Some? ==> r.value == Some(rule(f.value).value)
  {
    match f
    case Absent => Some(None)
    case Given(v) => if rule(v).Some? then Some(Some(rule(v).value)) else None
  }

  /** `.optional().nullable()`: absent reads as None (keep), null as
      Some(None) (clear), a value that passes the rule as Some(Some(x)). */
  function OptionalNullable<T>(f: Field, rule: Value -> Option<T>): (r: Option<Option<Option<T>>>)
    ensures f.Absent? ==> r == Some(None)
    ensures f == Given(VNull) ==> r == Some(Some(None))
    ensures f.Given? && f.value != VNull ==> (r.Some? <==> rule(f.value).Some?)
    ensures f.Given? && f.value != VNull && r.Some? ==> r.value == Some(Some(rule(f.value).value))
  {
    match f
    case Absent => Some(None)
    case Given(VNull) => Some(Some(None))
    case Given(v) => if rule(v).Some? then Some(Some(Some(rule(v).value))) else None
  }

  /** What `.optional()` lets through: nothing, or a value passing the rule. */
  predicate OptionalPasses<T>(f: Field, rule: Value -> Option<T>) {
    f.Absent? || rule(f.value).Some?
  }

  /** What `.optional().nullable()` lets through: nothing, null, or a value
      passing the rule. */
  predicate NullablePasses<T>(f: Field, rule: Value -> Option<T>) {
    f.Absent? || f.value == VNull || rule(f.value).Some?
  }

  /** `.default(d)`: absent reads as `d`. */
  function Defaulted<T>(f: Field, rule: Value -> Option<T>, d: T): (r: Option<T>)
    ensures f.Absent? ==> r == Some(d)
    ensures f.Given? ==> r == rule(f.value)
  {
    match f
    case Absent => Some(d)
    case Given(v) => rule(v)
  }

  /** The `id` path parameter schema, shared by components, stages,
      records and pulse checks: `z.string().min(1)`. */
  function IdParam(f: Field): (r: Option<string>)
    ensures r.Some? <==> f.Given? && f.value.VStr? && |f.value.s| >= 1
    ensures r.Some? ==> r.value == f.value.s
  {
    Required(f, v => TextMin(v, 1))
  }
}
