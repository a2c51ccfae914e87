/** Calendar arithmetic shared by the backend and the dashboard.

    A day is an integer counting days since 1970-01-01 (a Thursday); an
    instant is an integer count of milliseconds since the epoch, as in
    JavaScript's `Date.getTime()`. Local time and UTC coincide in this model. */
module Calendar {

  const MS_PER_DAY: int := 86400000
  const DAY_NAMES: seq<string> :=
    ["Sunday", "Monday", "Tuesday", "Wednesday", "Thursday", "Friday", "Saturday"]

  /** The day an instant falls on (division rounds towards -infinity, as
      `Date` does for instants before the epoch). */
  function DayOf(t: int): (d: int)
    ensures d * MS_PER_DAY <= t < (d + 1) * MS_PER_DAY
  {
    t / MS_PER_DAY
  }

  /** `getUTCDay()` of a day: 0 = Sunday .. 6 = Saturday. */
  function Weekday(d: int): (w: int)
    ensures 0 <= w < 7
  {
    (d + 4) % 7
  }

  lemma WeekdayPeriodic(d: int, k: int)
    ensures Weekday(d + 7 * k) == Weekday(d)
  {
  }

  /** The name the report prints for a weekday index; an index outside 0..6
      reads as JavaScript's `undefined`. */
  function DayName(w: int): string {
    if 0 <= w < 7 then DAY_NAMES[w] else "undefined"
  }

  /** The `day === 0 ? -6 : 1 - day` offset used by getWeekBounds,
      getWeekDays, getMonthWeeks and the metrics panel. */
  function MondayOffset(w: int): int
    requires 0 <= w < 7
  {
    if w == 0 then -6 else 1 - w
  }

  function MondayOnOrBefore(d: int): (m: int)
    ensures Weekday(m) == 1
    ensures d - 6 <= m <= d
  {
    d + MondayOffset(Weekday(d))
  }

  /** Every day of a Monday-started week maps back to that Monday, Sunday
      included; so the week of `d` is exactly `[m, m + 7)`. */
  lemma MondayOnOrBeforeCharacterized(d: int, m: int)
    requires Weekday(m) == 1
    ensures MondayOnOrBefore(d) == m <==> m <= d < m + 7
  {
    var m' := MondayOnOrBefore(d);
    if m <= d < m + 7 {
      assert Weekday(d) == (d - m + 1) % 7;
    } else if m' == m {
      assert false;
    }
  }

  // ----- Gregorian calendar -----

  predicate IsLeap(y: int) {
    y % 4 == 0 && (y % 100 != 0 || y % 400 == 0)
  }

  function DaysInMonth(y: int, m: int): (n: int)
    requires 1 <= m <= 12
    ensures 28 <= n <= 31
  {
    if m == 2 then (if IsLeap(y) then 29 else 28)
    else if m == 4 || m == 6 || m == 9 || m == 11 then 30
    else 31
  }

  predicate ValidCivil(y: int, m: int, d: int) {
    1 <= m <= 12 && 1 <= d <= DaysInMonth(y, m)
  }

  /** Days since 1970-01-01 of a proleptic Gregorian date; month 1..12.
      The year is counted from March so that the leap day comes last. */
  function DaysFromCivil(y: int, m: int, d: int): int
    requires 1 <= m <= 12
  {
    var y' := if m <= 2 then y - 1 else y;
    var mp := (m + 9) % 12;
    MarchYearStart(y') + (153 * mp + 2) / 5 + d - 1
  }

  /** Days since the epoch of March 1st of year `y`, minus 719468 shifted. */
  function MarchYearStart(y: int): int {
    var era := y / 400;
    var yoe := y - era * 400;
    era * 146097 + yoe * 365 + yoe / 4 - yoe / 100 - 719468
  }

  lemma EpochIsThursday()
    ensures DaysFromCivil(1970, 1, 1) == 0
    ensures Weekday(DaysFromCivil(1970, 1, 1)) == 4
  {
  }

  /** A March-based year has 366 days exactly when the February it ends
      with is a leap February. */
  lemma MarchYearLength(y: int)
    ensures MarchYearStart(y + 1) - MarchYearStart(y) == if IsLeap(y + 1) then 366 else 365
  {
    var era := y / 400;
    var k := y % 400;
    assert y == 400 * era + k;
    if k == 399 {
      EraEndLength(era);
    } else {
      InEraLength(era, k);
    }
  }

  /** The last year of a 400-year era ends with a leap February. */
  lemma EraEndLength(era: int)
    ensures MarchYearStart(400 * era + 400) - MarchYearStart(400 * era + 399) == 366
    ensures IsLeap(400 * era + 400)
  {
    MarchYearStartAt(era, 399);
    MarchYearStartAt(era + 1, 0);
    ModOfShift(era + 1, 0, 400);
    ModOfShift(100 * (era + 1), 0, 4);
  }

  /** Inside an era the length follows the four- and hundred-year rules. */
  lemma InEraLength(era: int, k: int)
    requires 0 <= k < 399
    ensures MarchYearStart(400 * era + k + 1) - MarchYearStart(400 * era + k)
      == if IsLeap(400 * era + k + 1) then 366 else 365
  {
    MarchYearStartAt(era, k);
    MarchYearStartAt(era, k + 1);
    LeapInEra(era, k + 1);
    YearStep(MarchYearStart(400 * era + k), MarchYearStart(400 * era + k + 1),
             era * 146097 - 719468, k, IsLeap(400 * era + k + 1));
  }

  /** Consecutive closed-form year starts differ by a year's length. */
  lemma YearStep(a: int, b: int, e: int, k: int, leap: bool)
    requires 0 <= k < 399
    requires a == e + k * 365 + k / 4 - k / 100
    requires b == e + (k + 1) * 365 + (k + 1) / 4 - (k + 1) / 100
    requires leap <==> (k + 1) % 4 == 0 && (k + 1) % 100 != 0
    ensures b - a == if leap then 366 else 365
  {
    LeapStep(k);
  }

  /** Inside an era the leap rule reads on the year of the era. */
  lemma LeapInEra(era: int, j: int)
    requires 0 < j < 400
    ensures IsLeap(400 * era + j) <==> j % 4 == 0 && j % 100 != 0
  {
    ModOfShift(100 * era, j, 4);
    ModOfShift(4 * era, j, 100);
    ModOfShift(era, j, 400);
  }

  /** The start of year `k` of era `era`, in closed form. */
  lemma MarchYearStartAt(era: int, k: int)
    requires 0 <= k < 400
    ensures MarchYearStart(400 * era + k) == era * 146097 + k * 365 + k / 4 - k / 100 - 719468
  {
    assert (400 * era + k) / 400 == era;
  }

  lemma LeapStep(k: int)
    requires 0 <= k < 399
    ensures (k + 1) / 4 - k / 4 == (if (k + 1) % 4 == 0 then 1 else 0)
    ensures (k + 1) / 100 - k / 100 == (if (k + 1) % 100 == 0 then 1 else 0)
  {
  }

  /** Adding a multiple of `n` does not change the remainder. */
  lemma ModOfShift(q: int, j: int, n: int)
    requires n > 0
    ensures (n * q + j) % n == j % n
  {
    var r := j % n;
    assert j == n * (j / n) + r;
    assert n * q + j == n * (q + j / n) + r;
    DivModUnique(n * q + j, n, q + j / n, r);
  }

  lemma DivModUnique(x: int, n: int, a: int, r: int)
    requires n > 0 && 0 <= r < n && x == n * a + r
    ensures x % n == r
  {
    var q := x / n;
    var d := a - q;
    assert n * d == x % n - r;
    if d >= 1 {
      assert n * d == n + n * (d - 1);
      MulNonNegative(n, d - 1);
    } else if d <= -1 {
      assert n * d == -n - n * (-d - 1);
      MulNonNegative(n, -d - 1);
    }
  }

  lemma MulNonNegative(a: int, b: int)
    requires a >= 0 && b >= 0
    ensures a * b >= 0
  {
  }

  /** The first day of the month after `m` of year `y`. */
  function NextMonthFirst(y: int, m: int): int
    requires 1 <= m <= 12
  {
    if m == 12 then DaysFromCivil(y + 1, 1, 1) else DaysFromCivil(y, m + 1, 1)
  }

  /** The day-number formula agrees with the month lengths: the month after
      `m` starts exactly `DaysInMonth(y, m)` days after `m` does. */
  lemma {:induction false} MonthLength(y: int, m: int)
    requires 1 <= m <= 12
    ensures NextMonthFirst(y, m) - DaysFromCivil(y, m, 1) == DaysInMonth(y, m)
  {
    FirstOfMonth(y, m);
    if m == 12 {
      FirstOfMonth(y + 1, 1);
    } else {
      FirstOfMonth(y, m + 1);
      if m == 2 {
        MarchYearLength(y - 1);
      }
    }
  }

  /** Day offset of the 1st of month `m` within its March-based year. */
  function MonthOffset(m: int): int
    requires 1 <= m <= 12
  {
    match m
    case 3 => 0 case 4 => 31 case 5 => 61 case 6 => 92 case 7 => 122 case 8 => 153
    case 9 => 184 case 10 => 214 case 11 => 245 case 12 => 275 case 1 => 306 case _ => 337
  }

  lemma FirstOfMonth(y: int, m: int)
    requires 1 <= m <= 12
    ensures DaysFromCivil(y, m, 1) == MarchYearStart(if m <= 2 then y - 1 else y) + MonthOffset(m)
  {
  }

  // ----- decimal text -----

  function DigitChar(n: int): (c: char)
    requires 0 <= n < 10
    ensures '0' <= c <= '9'
  {
    "0123456789"[n]
  }

  predicate IsDigit(c: char) { '0' <= c <= '9' }

  predicate AllDigits(s: string) {
    forall i :: 0 <= i < |s| ==> IsDigit(s[i])
  }

  /** The value of a non-empty string of decimal digits. */
  function DigitsValue(s: string): (v: nat)
    requires AllDigits(s)
  {
    if |s| == 0 then 0
    else 10 * DigitsValue(s[..|s| - 1]) + (s[|s| - 1] as int - '0' as int)
  }

  /** `String(n)` for a natural number. */
  function NatToString(n: nat): (s: string)
    ensures 1 <= |s|
    ensures AllDigits(s)
    ensures n < 10 <==> |s| == 1
  {
    if n < 10 then [DigitChar(n)] else NatToString(n / 10) + [DigitChar(n % 10)]
  }

  lemma {:induction false} NatToStringValue(n: nat)
    ensures DigitsValue(NatToString(n)) == n
  {
    if n >= 10 {
      var s := NatToString(n);
      assert s[..|s| - 1] == NatToString(n / 10);
      NatToStringValue(n / 10);
    }
  }

  lemma {:induction false} NatToStringLength(n: nat, k: nat)
    requires Pow10(k) <= n < Pow10(k + 1)
    ensures |NatToString(n)| == k + 1
  {
    if k > 0 {
      NatToStringLength(n / 10, k - 1);
    }
  }

  function Pow10(k: nat): (p: nat)
    ensures p >= 1
  {
    if k == 0 then 1 else 10 * Pow10(k - 1)
  }

  /** `String(n).padStart(2, '0')`. */
  function Pad2(n: nat): (s: string)
    ensures AllDigits(s)
    ensures n < 100 ==> |s| == 2
    ensures DigitsValue(s) == n
  {
    NatToStringValue(n);
    if n < 10 then
      assert DigitsValue(['0', DigitChar(n)]) == DigitsValue(['0']) * 10 + n;
      ['0', DigitChar(n)]
    else
      NatToString(n)
  }

  /** `String(y)` for any integer year. */
  function YearText(y: int): (s: string)
    ensures |s| >= 1
  {
    if y < 0 then "-" + NatToString(-y) else NatToString(y)
  }

  /** formatDateKey: `${year}-${month}-${day}` with month and day padded. */
  function FormatDateKey(y: int, m: int, d: int): (s: string)
    requires ValidCivil(y, m, d)
    ensures |s| >= 7
    ensures s[|s| - 6] == '-' && s[|s| - 3] == '-'
    ensures AllDigits(s[|s| - 5..|s| - 3]) && DigitsValue(s[|s| - 5..|s| - 3]) == m
    ensures AllDigits(s[|s| - 2..]) && DigitsValue(s[|s| - 2..]) == d
    ensures 1000 <= y <= 9999 ==> |s| == 10 && IsDateShape(s)
    ensures 1000 <= y <= 9999 ==> DigitsValue(s[..4]) == y
  {
    FourDigitYear(y);
    var yt := YearText(y);
    var s := yt + "-" + Pad2(m) + "-" + Pad2(d);
    KeyParts(yt, Pad2(m), Pad2(d));
    s
  }

  /** Where the parts of `yt-mm-dd` sit. */
  lemma KeyParts(yt: string, mm: string, dd: string)
    requires |mm| == 2 && |dd| == 2
    ensures var s := yt + "-" + mm + "-" + dd;
      |s| == |yt| + 6 && s[|s| - 6] == '-' && s[|s| - 3] == '-'
      && s[|s| - 5..|s| - 3] == mm && s[|s| - 2..] == dd && s[..|yt|] == yt
  {
  }

  lemma FourDigitYear(y: int)
    ensures 1000 <= y <= 9999 ==> |YearText(y)| == 4 && AllDigits(YearText(y))
    ensures 1000 <= y <= 9999 ==> DigitsValue(YearText(y)) == y
  {
    if 1000 <= y <= 9999 {
      NatToStringLength(y, 3);
      NatToStringValue(y);
    }
  }

  /** The regular expression `^\d{4}-\d{2}-\d{2}$`. */
  predicate IsDateShape(s: string) {
    |s| == 10 && s[4] == '-' && s[7] == '-'
    && (forall i :: 0 <= i < 4 ==> IsDigit(s[i]))
    && IsDigit(s[5]) && IsDigit(s[6]) && IsDigit(s[8]) && IsDigit(s[9])
  }

  /** Reads a `YYYY-MM-DD` key back into its three numbers (shape only:
      the numbers are not checked against the calendar). */
  function ParseDateKey(s: string): (r: (int, int, int))
    requires IsDateShape(s)
  {
    (DigitsValue(s[..4]), DigitsValue(s[5..7]), DigitsValue(s[8..]))
  }

  lemma FormatParseRoundTrip(y: int, m: int, d: int)
    requires ValidCivil(y, m, d) && 1000 <= y <= 9999
    ensures ParseDateKey(FormatDateKey(y, m, d)) == (y, m, d)
  {
    var s := FormatDateKey(y, m, d);
    assert s[5..7] == s[|s| - 5..|s| - 3];
    assert s[8..] == s[|s| - 2..];
  }

  /** `s.split('T')[0]`: the text before the first `T`, or all of `s`. */
  function BeforeT(s: string): (r: string)
    ensures r <= s
    ensures 'T' !in r
    ensures |r| < |s| ==> s[|r|] == 'T'
    ensures 'T' !in s ==> r == s
  {
    if |s| == 0 then s
    else if s[0] == 'T' then ""
    else [s[0]] + BeforeT(s[1..])
  }

  /** A `YYYY-MM-DD` key has no `T` in it. */
  lemma KeyHasNoT(k: string)
    requires IsDateShape(k)
    ensures 'T' !in k
  {
    forall i | 0 <= i < |k|
      ensures k[i] != 'T'
    {
      if i != 4 && i != 7 {
        assert IsDigit(k[i]);
      }
    }
  }

  /** The date part of `key + "T" + time` is the key. */
  lemma {:induction false} BeforeTOfPrefix(k: string, rest: string)
    requires 'T' !in k
    ensures BeforeT(k + "T" + rest) == k
  {
    if |k| > 0 {
      assert (k + "T" + rest)[1..] == k[1..] + "T" + rest;
      BeforeTOfPrefix(k[1..], rest);
      assert [k[0]] + k[1..] == k;
    }
  }
}
