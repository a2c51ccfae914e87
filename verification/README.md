# Personal rhythm: a Dafny model of the habit tracker's core

The habit tracker records activities against user-defined components (habits
with a weight and a weekly minimum). It also records a daily pulse check of
energy and mood, each from 1 to 5, and splits each component into stages that
are shown as a puzzle. This project models the computational core of the
backend and the dashboard. It proves the properties the code promises.

- **Insights** (`InsightEngine`, `DaySeries`, `Pearson`). From the pulse checks
  and activity records, build a day series with one entry per pulse-check day.
  Then run the fixed battery:
  - the five-day short-circuit;
  - same-day Pearson correlations;
  - next-day correlations over one-day gaps, first global, then per component;
  - the weekday pattern with its best and worst day;
  - the summary averages.

  Every correlated series is integral, so Pearson's r is kept exactly as a
  pair `Corr(num, den)` meaning `num / sqrt(den)`. Each threshold (0.3, 0.4,
  0.6) is decided by comparing squares of integers.
- **Calendar arithmetic** (`Calendar`, `StatsCalculator`, `CalendarView`,
  `MetricsPanel`):
  - days are integers counting from 1970-01-01, and the weekday is a fixed
    function of the day;
  - the Monday-based week bounds and the capped weekly success rate;
  - the `YYYY-MM-DD` date key and its parser;
  - the week and month grids of the calendar, its component filter and its
    per-day buckets;
  - the dashboard metrics: effort counts, this week against last week, the
    average success rate, the streak and the four-week trends.
- **Decision rules** (`FocusMode`, `StagesPanel`, `PuzzleCanvas`,
  `PulseCheckModal`):
  - the urgency-ranked recommendation and its skip set;
  - stage filtering, status toggling and adjacent-swap reordering;
  - the near-square puzzle grid;
  - emoji clamping and the pulse form's defaults.
- **Stores** (`StageStore`, `PulseCheckStore`). These are the stage and
  pulse-check endpoints over in-memory collections:
  - a new stage's order;
  - the `completedAt` transitions;
  - reordering;
  - the upsert of one pulse check per user and day;
  - the inclusive date filter;
  - the not-found errors.
- **Request validators** (`Validation`, `ComponentSchema`, `StageSchema`,
  `RecordSchema`, `PulseCheckSchema`). Each zod schema is a parser from a
  JSON-like value to a typed input, or to nothing. Each body parser states
  exactly which bodies it accepts and that the result carries the given
  values. The create and reorder bodies also come with a round trip: every
  valid input's request body parses back to that input.

`Common` holds `Option`, `Result`, the three-level `Level`, the stage status
and JavaScript's `Math.round` on exact rationals. `Sorting` is an insertion
sort by an integer key. It stands in for the database's `sort`.

## Model

| member | source | states |
|---|---|---|
| Pearson.Correlation | backend/src/controllers/insights.controller.ts:50-65 | r is the literal 0 exactly when the lengths differ, there are fewer than 2 points, or either series is constant; otherwise its numerator is n·Σxy − ΣxΣy and its squared denominator the product of the two spreads |
| Pearson.SpreadZeroIffConstant | backend/src/controllers/insights.controller.ts:60-63 | n·Σx² − (Σx)² is never negative and is zero exactly for a constant series, so the source's denominator vanishes only then |
| Pearson.AtLeastMeansRSquared | backend/src/controllers/insights.controller.ts:68-70 | the integer test q²·num² ≥ p²·den agrees with comparing the real r² against (p/q)² |
| Pearson.ConfidenceOf | backend/src/controllers/insights.controller.ts:67-72 | high iff at least 20 points and r² ≥ 0.36; otherwise medium iff at least 10 points and r² ≥ 0.16; otherwise low |
| Pearson.DirectionOf | backend/src/controllers/insights.controller.ts:74-78 | positive iff r ≥ 0.3, negative iff r ≤ −0.3, otherwise neutral; never "pattern" |
| Pearson.SignificantDirection | backend/src/controllers/insights.controller.ts:165-177 | once |r| ≥ 0.3 the direction is never neutral and follows the sign of r |
| Pearson.SelfCorrelation | backend/src/controllers/insights.controller.ts:50-65 | a non-constant series correlates with itself with r = 1 |
| Pearson.CorrelationSymmetric | backend/src/controllers/insights.controller.ts:50-65 | r(x, y) = r(y, x) |
| Pearson.AffineInvariance | backend/src/controllers/insights.controller.ts:50-65 | r is unchanged when x is rescaled by a positive factor and shifted |
| DaySeries.LastCheckOn | backend/src/controllers/insights.controller.ts:106-116 | a day's entry takes the last pulse check of that day (later ones overwrite earlier ones); none exactly when no check falls on the day |
| DaySeries.Bump | backend/src/controllers/insights.controller.ts:128-134 | one record adds one to its component's count on that day and to no other component's; a new component is appended to the day's tallies |
| DaySeries.AddPulseCheck | backend/src/controllers/insights.controller.ts:106-116 | setting a day's entry keeps the series strictly sorted by day and adds exactly that day |
| DaySeries.FromPulseChecks | backend/src/controllers/insights.controller.ts:106-141 | the series has one entry per pulse-check day, sorted by day, each fresh (zero counters) with that day's last check's levels |
| DaySeries.AddRecord | backend/src/controllers/insights.controller.ts:119-136 | a record changes no day, level or entry count, and keeps the tallies free of duplicates |
| DaySeries.FromRecordsCounts | backend/src/controllers/insights.controller.ts:119-136 | after all records each entry's activity, high-effort and per-component counts are the numbers of records of that day (high-effort ones, of that component) |
| DaySeries.BuildSeries | backend/src/controllers/insights.controller.ts:103-141 | the day series is sorted, has an entry exactly for each pulse-check day, and carries that day's levels and record counts |
| DaySeries.RecordWithoutCheckIgnored | backend/src/controllers/insights.controller.ts:121-122 | a record on a day without a pulse check leaves the series unchanged |
| DaySeries.HighNeverExceedsAll | backend/src/controllers/insights.controller.ts:123-126 | the high-effort count of a day never exceeds its activity count |
| DaySeries.InDays | backend/src/controllers/insights.controller.ts:139-141 | a day is in the series exactly when some entry has it |
| InsightEngine.Analyze | backend/src/controllers/insights.controller.ts:144-367 | fewer than 5 entries give the empty report: no correlations, no weekly pattern, zero averages, no best or worst day; otherwise the averages are the means of energy and mood over all entries, rounded to hundredths (the insights and weekly pattern of a long enough series are in InsightEngine.ReportBlocks) |
| InsightEngine.CorrelationInsight | backend/src/controllers/insights.controller.ts:164-178 | an insight is emitted exactly when |r| ≥ 0.3, with the graded confidence, the sample size as dataPoints, direction and wording after the sign of r |
| InsightEngine.SameDayInsightsFacts | backend/src/controllers/insights.controller.ts:159-196 | the mood (energy) insight is present exactly when the activity count correlates with mood (energy) with |r| ≥ 0.3; both are graded on the whole series |
| InsightEngine.SameDayMoodFirst | backend/src/controllers/insights.controller.ts:159-196 | within the same-day block a mood insight comes first and an energy insight last |
| InsightEngine.NextDayPairs | backend/src/controllers/insights.controller.ts:204-215 | there are no pairs for at most one entry, and at most one pair per adjacent couple |
| InsightEngine.NextDayPairsExact | backend/src/controllers/insights.controller.ts:204-215 | a pair is taken exactly for each adjacent couple of entries one day apart, in series order |
| InsightEngine.NextDayInsightsFacts | backend/src/controllers/insights.controller.ts:199-252 | next-day insights are graded on the number of one-day pairs, which is at least 5; the mood (energy) insight is present exactly when there are at least 5 one-day pairs and previous-day high-effort count correlates with next-day mood (energy) with |r| ≥ 0.3 |
| InsightEngine.NextDayMoodFirst | backend/src/controllers/insights.controller.ts:218-250 | within the global next-day block a mood insight comes first and an energy insight last |
| InsightEngine.NextDayGuardRedundant | backend/src/controllers/insights.controller.ts:199-217 | five one-day pairs already need six entries, so the six-entry guard never decides anything |
| InsightEngine.ComponentOrder | backend/src/controllers/insights.controller.ts:255-260 | the component ids form a list without repetition (first-seen order and coverage are the two lemmas below) |
| InsightEngine.ComponentOrderCovers | backend/src/controllers/insights.controller.ts:255-260 | exactly the components with activity on some day are listed |
| InsightEngine.ComponentOrderFirstSeen | backend/src/controllers/insights.controller.ts:255-260 | every listed component has a first day, and a component listed earlier never first appears later than one listed after it (ties on one day are not ordered by this lemma) |
| InsightEngine.PrevComponentActivity | backend/src/controllers/insights.controller.ts:267-277 | per pair, the component's count on the earlier day, 0 when it had no activity then |
| InsightEngine.NameOf | backend/src/controllers/insights.controller.ts:98-263 | the last component with the id names it; an unknown id or an empty name reads as "Unknown" |
| InsightEngine.ComponentInsightsFacts | backend/src/controllers/insights.controller.ts:262-298 | at most one insight per listed component, and every present component insight is in the list; each is well formed, named and worded after its component, and graded on at least 5 one-day pairs (no six-entry guard) |
| InsightEngine.ComponentInsightPresence | backend/src/controllers/insights.controller.ts:267-296 | a component's insight is present exactly when there are at least 5 one-day pairs and its previous-day count correlates with next-day mood with |r| ≥ 0.3; it carries that coefficient and the component's name |
| InsightEngine.ComponentInsightsConcat | backend/src/controllers/insights.controller.ts:262-298 | component insights keep the order of the ids: those of a concatenation are the first part's followed by the second's |
| InsightEngine.WeekStatsAt | backend/src/controllers/insights.controller.ts:301-320 | each weekday's accumulator counts the entries of that weekday and averages their energy and mood |
| InsightEngine.WeeklyRowsSorted | backend/src/controllers/insights.controller.ts:313-371 | weekly rows come in increasing weekday order, each with its weekday's count and its rounded averages |
| InsightEngine.WeeklyRowsCover | backend/src/controllers/insights.controller.ts:318-327 | every weekday with an entry has a row |
| InsightEngine.WeeklyCountsSumToSeries | backend/src/controllers/insights.controller.ts:306-326 | the row counts add up to the number of entries |
| InsightEngine.BucketMembers | backend/src/controllers/insights.controller.ts:306-311 | a weekday's bucket holds exactly the entries whose day falls on that weekday |
| InsightEngine.BucketsPartition | backend/src/controllers/insights.controller.ts:306-311 | each entry lies in the bucket of its own weekday and in no other, and the seven bucket sizes add up to the number of entries |
| InsightEngine.BestDay | backend/src/controllers/insights.controller.ts:314-331 | the earliest observed weekday of highest mean mood, which must beat the baseline 0; none when no weekday averages above 0 |
| InsightEngine.WorstDay | backend/src/controllers/insights.controller.ts:315-334 | the earliest observed weekday of lowest mean mood, which must be below the baseline 5; none when every observed weekday averages 5 |
| InsightEngine.WeeklyInsightFacts | backend/src/controllers/insights.controller.ts:339-353 | the weekly insight is present exactly when at least 3 weekdays are observed, the best and worst days differ and their unrounded mood range is at least 0.5; it reads "<best> tends to be your best day; <worst> tends to be your lowest", is high iff the total count is at least 20 and medium otherwise, with direction "pattern" |
| InsightEngine.ValidMoodsInRange | backend/src/controllers/insights.controller.ts:319-320 | with moods from 1 to 5, every weekday average lies from 1 to 5 |
| InsightEngine.MeanBounds | backend/src/controllers/insights.controller.ts:319-361 | the mean of values on a scale stays on that scale |
| InsightEngine.ReportShape | backend/src/controllers/insights.controller.ts:159-353 | at the level of kinds, same-day insights come first, then next-day ones, then the weekly one; every correlation insight is well formed (the order inside each block is in the block lemmas) |
| InsightEngine.ReportBlocks | backend/src/controllers/insights.controller.ts:159-371 | with at least 5 entries the insights are the same-day block, the global next-day block, the per-component insights in first-seen component order and the weekly insight, in that order; the weekly pattern is the weekday rows |
| InsightEngine.SummaryDays | backend/src/controllers/insights.controller.ts:368-369 | the summary names the best and worst weekday as the scans found them, or null |
| StatsCalculator.WeekBounds | backend/src/utils/statsCalculator.ts:1-15 | the week starts at midnight of a Monday, ends 7 days less 1 ms later, and contains the instant |
| StatsCalculator.WeekBoundsSameWeek | backend/src/utils/statsCalculator.ts:1-15 | two instants get the same bounds exactly when the second lies in the first's week |
| StatsCalculator.SuccessRate | backend/src/utils/statsCalculator.ts:17-21 | 0 for a non-positive frequency; never above 100; non-negative for non-negative logs; a whole number of tenths |
| StatsCalculator.SuccessRateFull | backend/src/utils/statsCalculator.ts:19-20 | meeting the weekly minimum gives exactly 100 |
| StatsCalculator.SuccessRateApproximates | backend/src/utils/statsCalculator.ts:19-20 | below the cap the rate is the exact percentage to within 0.05 |
| StatsCalculator.SuccessRateMonotonic | backend/src/utils/statsCalculator.ts:19-20 | more logs never lower the rate |
| Calendar.DayOf | backend/src/controllers/pulseCheck.controller.ts:7-11 | the day of an instant contains it |
| Calendar.MondayOnOrBefore | frontend/src/components/Dashboard/CalendarView.tsx:77-82 | a Monday at most six days before the day |
| Calendar.MondayOnOrBeforeCharacterized | frontend/src/components/Dashboard/CalendarView.tsx:77-82 | a day maps to Monday m exactly when it lies in [m, m + 7), so Sunday belongs to the preceding Monday |
| Calendar.EpochIsThursday | backend/src/controllers/insights.controller.ts:307 | 1970-01-01 is day 0 and a Thursday |
| Calendar.MonthLength | frontend/src/components/Dashboard/CalendarView.tsx:94-95 | the day after a month's last day is the 1st of the next month, so the month has its calendar length |
| Calendar.MarchYearLength | frontend/src/components/Dashboard/CalendarView.tsx:94-95 | a March-based year has 366 days exactly when its February is a Gregorian leap February |
| Calendar.NatToStringValue | frontend/src/components/Dashboard/CalendarView.tsx:59-60 | the decimal text of n reads back as n |
| Calendar.Pad2 | frontend/src/components/Dashboard/CalendarView.tsx:59-60 | padding to two digits keeps the value and gives two digits below 100 |
| Calendar.FormatDateKey | frontend/src/components/Dashboard/CalendarView.tsx:57-62 | the key is year, dash, two-digit month, dash, two-digit day; a four-digit year gives the `YYYY-MM-DD` shape |
| Calendar.FormatParseRoundTrip | frontend/src/components/Dashboard/CalendarView.tsx:57-62 | reading a formatted key back gives the date |
| Calendar.BeforeT | frontend/src/components/Dashboard/CalendarView.tsx:65-66 | `split('T')[0]`: a prefix without `T`, followed by `T` when shorter than the input |
| Calendar.BeforeTOfPrefix | frontend/src/components/Dashboard/CalendarView.tsx:65-66 | the date part of `key + "T" + time` is the key |
| CalendarView.ParseRecordDate | frontend/src/components/Dashboard/CalendarView.tsx:64-73 | the text before the first `T` when there is one; otherwise a string of the date shape unchanged; otherwise the fallback |
| CalendarView.ParseRecordDateOfKey | frontend/src/components/Dashboard/CalendarView.tsx:64-73 | a formatted key, and an ISO timestamp built from it, both read back as the key |
| CalendarView.WeekDays | frontend/src/components/Dashboard/CalendarView.tsx:75-91 | seven consecutive days from a Monday, containing the reference day |
| CalendarView.WeekDaysSameWeek | frontend/src/components/Dashboard/CalendarView.tsx:75-91 | two days share a week grid exactly when one lies in the other's |
| CalendarView.MonthWeeks | frontend/src/components/Dashboard/CalendarView.tsx:93-121 | 4 to 6 contiguous weeks of 7 days from the Monday on or before the 1st, covering every day of the month, the last week starting inside the month |
| CalendarView.GridWeeks | frontend/src/components/Dashboard/CalendarView.tsx:103-118 | the loop stops after 4 to 6 weeks with the last week holding the month's last day |
| CalendarView.GridCovers | frontend/src/components/Dashboard/CalendarView.tsx:106-117 | whole weeks from the start past the last day hold every day in between |
| CalendarView.FilterRecords | frontend/src/components/Dashboard/CalendarView.tsx:144-154 | the selection "all" returns the records unchanged |
| CalendarView.OfComponentMembers | frontend/src/components/Dashboard/CalendarView.tsx:148-153 | exactly the records whose id (bare or embedded) equals the selection are kept |
| CalendarView.OfComponentConcat | frontend/src/components/Dashboard/CalendarView.tsx:148-153 | the filter keeps input order |
| CalendarView.ByDateBuckets | frontend/src/components/Dashboard/CalendarView.tsx:156-164 | a key has a bucket exactly when some record has that key, and the bucket holds exactly those records in input order |
| CalendarView.WithKeyMembers | frontend/src/components/Dashboard/CalendarView.tsx:156-164 | a record is in a key's list exactly when its own key is that key, so it is in one bucket only |
| CalendarView.DayCell | frontend/src/components/Dashboard/CalendarView.tsx:360-379 | at most the first four records are drawn, plus a "+n" marker only when there are more, with n the rest |
| MetricsPanel.EffortsCount | frontend/src/components/Dashboard/MetricsPanel.tsx:32-46 | each effort slot counts the records of its level, and the slots add up to the number of records |
| MetricsPanel.CurrentWeekStart | frontend/src/components/Dashboard/MetricsPanel.tsx:19-23 | the Monday that starts today's week |
| MetricsPanel.WeekCountsDisjoint | frontend/src/components/Dashboard/MetricsPanel.tsx:49-56 | this week (from Monday, unbounded) and last week ([Monday − 7, Monday)) never overlap; together they count every record from last Monday on |
| MetricsPanel.WeeklyChange | frontend/src/components/Dashboard/MetricsPanel.tsx:65-67 | 100 when last week is empty and this week is not, 0 when both are empty, never below −100 |
| MetricsPanel.WeeklyChangeApproximates | frontend/src/components/Dashboard/MetricsPanel.tsx:65-66 | with records last week, the change is the exact percentage to within half a point and has the sign of the difference |
| MetricsPanel.TotalSuccessRate | frontend/src/components/Dashboard/MetricsPanel.tsx:70-72 | 0 without components; otherwise within half a point of the mean of the rates (halves rounded up) |
| MetricsPanel.TotalSuccessRateBounds | frontend/src/components/Dashboard/MetricsPanel.tsx:70-72 | rates from 0 to 100 average to a rounded value from 0 to 100 |
| MetricsPanel.StreakAsWrittenCharacterized | frontend/src/components/Dashboard/MetricsPanel.tsx:75-90 | the loop as written equals the intended streak when today has a record, and otherwise is capped at one less than the number of distinct dates |
| MetricsPanel.StreakAsWrittenMissesYesterday | frontend/src/components/Dashboard/MetricsPanel.tsx:80-90 | a single record dated yesterday gives streak 0, where the intended streak is 1 |
| MetricsPanel.StreakMeans | frontend/src/components/Dashboard/MetricsPanel.tsx:75-90 | the streak never exceeds the number of distinct dates; every day of it has a record and the day before it has none; a missing today does not break it |
| MetricsPanel.RunLengthMeans | frontend/src/components/Dashboard/MetricsPanel.tsx:80-90 | the run ending on a day covers only recorded days and stops at the first day without a record |
| MetricsPanel.ComponentTrend | frontend/src/components/Dashboard/MetricsPanel.tsx:93-128 | exactly four weekly counts labelled 1..4; count k is the component's records in the half-open 7 days starting 3 − k weeks before this Monday; currentWeek is the fourth and trend is the fourth minus the third |
| MetricsPanel.TrendWindowsTile | frontend/src/components/Dashboard/MetricsPanel.tsx:101-117 | the four counts add up to the component's records in the 28 days from three Mondays back to the end of this week, and currentWeek counts this week |
| FocusMode.WeightValue | frontend/src/components/Dashboard/FocusMode.tsx:10 | high, medium and low weigh 3, 2 and 1 |
| FocusMode.BestIndex | frontend/src/components/Dashboard/FocusMode.tsx:16-26 | none exactly when nothing is eligible; otherwise an eligible component of maximal urgency with no earlier one of equal urgency |
| FocusMode.RecommendedNone | frontend/src/components/Dashboard/FocusMode.tsx:16-20 | null exactly when no component is both unfinished and unskipped |
| FocusMode.RecommendedIsMostUrgent | frontend/src/components/Dashboard/FocusMode.tsx:16-26 | the recommendation is unfinished, unskipped, of maximal urgency, and the earliest such (stable sort) |
| FocusMode.AllCompleteMeansNoRecommendation | frontend/src/components/Dashboard/FocusMode.tsx:37-40 | when every goal is met nothing is recommended; otherwise no recommendation means the unfinished ones were all skipped |
| FocusMode.Skip | frontend/src/components/Dashboard/FocusMode.tsx:42-46 | skipping adds the recommended id and nothing else; without a recommendation nothing changes |
| FocusMode.LogActivity | frontend/src/components/Dashboard/FocusMode.tsx:48-54 | logging hands over the recommendation and empties the skip set; without one nothing happens |
| FocusMode.SkipShrinksEligible | frontend/src/components/Dashboard/FocusMode.tsx:42-46 | an effective skip strictly shrinks the set of eligible ids |
| FocusMode.RecommendedRemainingPositive | frontend/src/components/Dashboard/FocusMode.tsx:127 | the remaining count shown for the recommendation is at least 1 |
| StagesPanel.FilteredMembers | frontend/src/components/StagesPanel.tsx:31-37 | a stage is kept exactly when it is visible: archived ones only with showArchived, completed ones not with hideCompleted, active ones always |
| StagesPanel.FilteredConcat | frontend/src/components/StagesPanel.tsx:31-37 | the filter keeps input order |
| StagesPanel.StatsAddUp | frontend/src/components/StagesPanel.tsx:39-44 | active + completed + archived equals the total |
| StagesPanel.Toggle | frontend/src/components/StagesPanel.tsx:76-83 | completed becomes active, and every other status, archived included, becomes completed |
| StagesPanel.ToggleTwice | frontend/src/components/StagesPanel.tsx:76-83 | toggling twice restores active and completed stages; an archived stage comes back active |
| StagesPanel.FindIndex | frontend/src/components/StagesPanel.tsx:92-105 | the first position holding the id, or −1 when none does |
| StagesPanel.MoveUp | frontend/src/components/StagesPanel.tsx:91-102 | no reorder for the first or an unknown stage; otherwise a permutation of the filtered ids with only the stage and its predecessor exchanged |
| StagesPanel.MoveDown | frontend/src/components/StagesPanel.tsx:104-115 | no reorder for the last or an unknown stage; otherwise a permutation of the filtered ids with only the stage and its successor exchanged |
| StagesPanel.MoveUpThenDown | frontend/src/components/StagesPanel.tsx:91-115 | with distinct ids, moving a stage down after moving it up sends the original order |
| StagesPanel.ProgressPercentage | frontend/src/components/StagesPanel.tsx:117-118 | 0 without stages; otherwise within half a point of the completed share times 100; always from 0 to 100, 100 when all are completed, 0 when none are |
| StagesPanel.Percent | frontend/src/components/StagesPanel.tsx:118 | within half a point of part · 100 / whole, from 0 to 100, exact at the endpoints |
| PuzzleCanvas.Cols | frontend/src/components/PuzzleCanvas.tsx:125 | the least c with c·c ≥ n |
| PuzzleCanvas.Rows | frontend/src/components/PuzzleCanvas.tsx:126 | the least number of rows of `cols` cells that holds n cells |
| PuzzleCanvas.Pieces | frontend/src/components/PuzzleCanvas.tsx:122-151 | no pieces for no stages; otherwise one per stage, stage i at column i mod cols and row i div cols |
| PuzzleCanvas.PiecesLabelled | frontend/src/components/PuzzleCanvas.tsx:144-150 | piece i is stage i, labelled i + 1 |
| PuzzleCanvas.PiecesDistinct | frontend/src/components/PuzzleCanvas.tsx:135-147 | no two pieces share a cell |
| PuzzleCanvas.PiecesInsideCanvas | frontend/src/components/PuzzleCanvas.tsx:146-184 | every piece lies inside the canvas |
| PuzzleCanvas.FallbackSameCells | frontend/src/components/PuzzleCanvas.tsx:158-170 | the fallback branch places every piece where the normal branch does |
| PuzzleCanvas.CanvasSize | frontend/src/components/PuzzleCanvas.tsx:174-185 | 800×600 without stages, otherwise cols·100 by rows·100 |
| PulseCheckModal.EmojiIndex | frontend/src/components/PulseCheckModal.tsx:157-163 | always a valid index of the five emojis; level − 1 for levels 1..5, the first at or below 1, the last at or above 5 |
| PulseCheckModal.EmojiIndexMonotoneOnto | frontend/src/components/PulseCheckModal.tsx:157-163 | the index never decreases with the level, and every emoji is reached |
| PulseCheckModal.SelectEmoji | frontend/src/components/PulseCheckModal.tsx:48-54 | only the chosen level changes; the date, the other level and the note stay |
| PulseCheckModal.SelectEmojiLaws | frontend/src/components/PulseCheckModal.tsx:48-54 | reselecting the shown level changes nothing, and a second selection overrides the first |
| PulseCheckModal.InitialForm | frontend/src/components/PulseCheckModal.tsx:25-41 | without a check: today, levels 3 and 3, an empty note; with one: its date before `T`, its levels, its note or "" |
| PulseCheckModal.InitialFormDate | frontend/src/components/PulseCheckModal.tsx:28 | a check dated by an ISO timestamp opens with its date key |
| StageStore.ListStages | backend/src/controllers/stage.controller.ts:7-27 | 404 unless the user owns the component; otherwise exactly the component's stages of that user, by ascending order |
| StageStore.CreateStage | backend/src/controllers/stage.controller.ts:29-64 | 404 unless the user owns the component; otherwise one new stage is appended: active, not completed, with the next order |
| StageStore.NextOrderIsMaxPlusOne | backend/src/controllers/stage.controller.ts:44-46 | 0 when the component has no stage; otherwise above every existing order and one past one of them |
| StageStore.CreateKeepsIdsDistinct | backend/src/controllers/stage.controller.ts:48-59 | creation keeps stage ids distinct |
| StageStore.CompletedAtAfter | backend/src/controllers/stage.controller.ts:76-85 | a move to completed stamps now unless the stage was already completed; a move to active clears it; other updates keep it |
| StageStore.UpdateStage | backend/src/controllers/stage.controller.ts:66-101 | 404 for a stage the user lacks; otherwise only that stage changes |
| StageStore.UpdateStageEffect | backend/src/controllers/stage.controller.ts:74-91 | every given field takes its new value and every absent one keeps the stored value, null clearing description and colour; id, owner, order and component stay; completedAt is stamped when a non-completed stage is completed, kept when an already completed one is completed again, cleared on a move to active, and kept on archiving or without a status |
| StageStore.DeleteStage | backend/src/controllers/stage.controller.ts:103-120 | 404 for a stage the user lacks; otherwise that stage alone is removed |
| StageStore.ReorderStages | backend/src/controllers/stage.controller.ts:122-155 | 404 unless the user owns the component; otherwise no stage is added or removed, and the returned list is sorted by order, is a permutation of the component's updated stages, and equals what listing the component afterwards gives |
| StageStore.ReorderStagesEffect | backend/src/controllers/stage.controller.ts:138-147 | a listed stage of the component takes its (last) position in the list as order; every other stage keeps its order; nothing else changes |
| StageStore.MatchingMembers | backend/src/controllers/stage.controller.ts:22-150 | a listing holds exactly the stages of that user and component |
| PulseCheckStore.NormalizeDate | backend/src/controllers/pulseCheck.controller.ts:7-11 | a UTC midnight t′ with t′ ≤ t < t′ + one day |
| PulseCheckStore.NormalizeDateIdempotent | backend/src/controllers/pulseCheck.controller.ts:7-11 | normalising twice changes nothing; two instants normalise alike exactly when they fall on the same day |
| PulseCheckStore.CreatePulseCheck | backend/src/controllers/pulseCheck.controller.ts:80-111 | the returned check is the user's, dated the normalised day, holds the new levels and note, and is stored |
| PulseCheckStore.CreateIsUpsert | backend/src/controllers/pulseCheck.controller.ts:88-105 | afterwards the user has exactly one check on that day, the new one; every other check is unchanged and one check per user and day still holds |
| PulseCheckStore.UpdatePulseCheck | backend/src/controllers/pulseCheck.controller.ts:113-134 | 404 for an unknown id; otherwise only that check changes, taking the patched fields |
| PulseCheckStore.DeletePulseCheck | backend/src/controllers/pulseCheck.controller.ts:136-152 | 404 for an unknown id; otherwise that check alone is removed |
| PulseCheckStore.DeleteRemovesId | backend/src/controllers/pulseCheck.controller.ts:143 | with distinct ids no check with the id remains |
| PulseCheckStore.GetPulseCheck | backend/src/controllers/pulseCheck.controller.ts:63-78 | 404 for an unknown id; otherwise the user's check with that id |
| PulseCheckStore.TodayPulseCheck | backend/src/controllers/pulseCheck.controller.ts:48-61 | the user's check dated today's UTC midnight, or none when there is none |
| PulseCheckStore.ListPulseChecks | backend/src/controllers/pulseCheck.controller.ts:41 | the selected checks, newest first |
| PulseCheckStore.ListPulseChecksMembers | backend/src/controllers/pulseCheck.controller.ts:29-39 | a check is listed exactly when it is the user's and within each given bound, both normalised and inclusive |
| Sorting.SortBy | backend/src/controllers/stage.controller.ts:22 | a sorted permutation of the input |
| Common.ParseLevelName | backend/src/schemas/component.schema.ts:8 | each level's name parses back to it |
| Common.ParseLevel | backend/src/schemas/component.schema.ts:8 | exactly "low", "medium" and "high" are levels |
| Common.ParseStatus | backend/src/schemas/stage.schema.ts:20 | exactly "active", "completed" and "archived" are statuses |
| Common.Round | backend/src/controllers/insights.controller.ts:175 | `Math.round`: within half of the input, halves rounded up |
| Common.RoundMonotonic | frontend/src/components/StagesPanel.tsx:118 | rounding never reverses an order |
| Validation.ColorValue | backend/src/schemas/component.schema.ts:3-10 | accepted exactly for `#` and six hex digits of either case |
| Validation.Text | backend/src/schemas/component.schema.ts:7 | accepted exactly for a string whose length lies within the bounds |
| Validation.IntAtLeast | backend/src/schemas/component.schema.ts:9 | accepted exactly for an integral number at or above the bound |
| Validation.IntBetween | backend/src/schemas/pulseCheck.schema.ts:6-7 | accepted exactly for an integral number within the bounds |
| Validation.DateValue | backend/src/schemas/record.schema.ts:6 | accepted exactly for an ISO datetime or a string of the `YYYY-MM-DD` shape (shape only) |
| Validation.NonEmptyIdList | backend/src/schemas/stage.schema.ts:42 | accepted exactly for a non-empty list of non-empty strings, kept in order |
| Validation.OptionalNullable | backend/src/schemas/stage.schema.ts:18-21 | absent keeps the field, null clears it, any other value must pass the rule |
| Validation.Defaulted | backend/src/schemas/component.schema.ts:8 | absent reads as the default |
| Validation.IdParam | backend/src/schemas/component.schema.ts:26-30 | the `:id` parameter schema, shared by components, stages, records and pulse checks: accepted exactly for a non-empty string, which it returns |
| ComponentSchema.CreateComponent | backend/src/schemas/component.schema.ts:5-12 | accepted exactly when name, weight, weekly minimum and colour each pass their rule; the result is valid and carries the given values; weight defaults to medium |
| ComponentSchema.CreateComponentRoundTrip | backend/src/schemas/component.schema.ts:5-12 | every valid component's body parses back to it |
| ComponentSchema.UpdateComponent | backend/src/schemas/component.schema.ts:14-24 | accepted exactly when the id is non-empty and each present field passes its create rule; the patch carries exactly the given fields with their values; weight has no default |
| ComponentSchema.UpdateUsesCreateRules | backend/src/schemas/component.schema.ts:14-24 | a one-field update passes exactly when the field passes on create; an empty update gives an empty patch |
| StageSchema.CreateStageBody | backend/src/schemas/stage.schema.ts:5-13 | accepted exactly when component id (non-empty), name (1..200), effort level and any given description (up to 1000) and colour (hex) pass; the result carries the given values; effort is required; description and colour are optional |
| StageSchema.CreateStageRoundTrip | backend/src/schemas/stage.schema.ts:5-13 | every valid stage's body parses back to it |
| StageSchema.UpdateStageBody | backend/src/schemas/stage.schema.ts:15-26 | accepted exactly when the id is non-empty and each present field passes its rule, null being allowed only for description and colour; the patch carries exactly the given fields, null clearing |
| StageSchema.UpdateNullHandling | backend/src/schemas/stage.schema.ts:17-21 | null is refused for name and status and means "clear" for description and colour |
| StageSchema.UpdateStatusNames | backend/src/schemas/stage.schema.ts:20 | each status name sets that status |
| StageSchema.StagesQuery | backend/src/schemas/stage.schema.ts:34-38 | accepted exactly for a non-empty component id, which is returned |
| StageSchema.ReorderBody | backend/src/schemas/stage.schema.ts:40-47 | accepted exactly for a non-empty component id and a non-empty list of non-empty strings; the result is that id and those strings in the order sent |
| StageSchema.ReorderRoundTrip | backend/src/schemas/stage.schema.ts:40-47 | a list of ids is accepted exactly when it and every id in it are non-empty, and it comes back in order |
| RecordSchema.CreateRecordBody | backend/src/schemas/record.schema.ts:3-10 | accepted exactly when component id (non-empty), date, and any given effort level and note (up to 500) pass; the result carries the given values; effort defaults to medium; note is optional |
| RecordSchema.CreateRecordRoundTrip | backend/src/schemas/record.schema.ts:3-10 | every valid record's body parses back to it |
| RecordSchema.FormattedKeyAccepted | backend/src/schemas/record.schema.ts:6 | a date key made by the calendar's formatter is always accepted |
| RecordSchema.RecordQuery | backend/src/schemas/record.schema.ts:12-18 | accepted exactly when each of the three fields is absent or a string; each result is None exactly when its field is absent, and the given string otherwise |
| RecordSchema.UpdateRecordBody | backend/src/schemas/record.schema.ts:26-35 | accepted exactly when the id is non-empty and each present field passes its create rule; the patch carries exactly the given fields; effort has no default |
| RecordSchema.UpdateUsesCreateRules | backend/src/schemas/record.schema.ts:26-35 | update and create accept the same dates and effort levels |
| PulseCheckSchema.CreatePulseBody | backend/src/schemas/pulseCheck.schema.ts:3-10 | accepted exactly when the date, both levels (integers 1..5) and any given note (up to 500) pass; the result carries the given values; both levels are required |
| PulseCheckSchema.CreatePulseRoundTrip | backend/src/schemas/pulseCheck.schema.ts:3-10 | every valid pulse check's body parses back to it |
| PulseCheckSchema.LevelRuleBounds | backend/src/schemas/pulseCheck.schema.ts:6-7 | a level is accepted exactly when it is an integer from 1 to 5; 2.5 is refused |
| PulseCheckSchema.UpdatePulseBody | backend/src/schemas/pulseCheck.schema.ts:12-21 | accepted exactly when the id is non-empty, present levels are integers 1..5 and the note is absent, null or up to 500; the patch carries exactly the given fields, null clearing the note |
| PulseCheckSchema.UpdateLevelsAsCreate | backend/src/schemas/pulseCheck.schema.ts:12-21 | an update level passes exactly when it would pass on create, and is carried |
| PulseCheckSchema.PulseQuery | backend/src/schemas/pulseCheck.schema.ts:29-34 | accepted exactly when both fields are absent or strings; each result is None exactly when its field is absent, and the given string otherwise |

## Left out

- Express, Mongoose, routes and middleware. Requests, responses, `next` and
  every database call are left out. The stores are sequences passed in. A
  new document's id is a parameter that differs from every stored id.
- `PulseCheckStore.CreatePulseCheck` follows the controller's upsert filter
  `{ userId, date }`. Two facts of the stored schema are not modelled:
  - The pulse-check schema (`backend/src/models/PulseCheck.ts:4-35`) declares
    no `userId` path, and its unique index is on `date` alone. In the stored
    data, two users' checks for the same day therefore collide. Depending on
    the query settings, the second user's check either replaces the first or
    fails on the unique index. The model keeps one check per user and day, as
    the controller's filter intends, so `PulseCheckStore.CreateIsUpsert` and
    the one-per-day invariant state that per-user behaviour.
  - An absent note is sent as `note: undefined`. Mongoose versions that drop
    undefined keys from an update leave an existing check's note in place. The
    model sets the note to none.
- Authentication, the Cognito and Amplify client, and the AWS infrastructure.
  These are network services.
- `record.controller.ts` and `component.controller.ts` are not part of this
  model. They are plain CRUD over the database.
- Time zones. Local time and UTC coincide in the model. Local-time `Date`
  getters and setters become day-number arithmetic. So does the streak's mix
  of local midnight and `toISOString`.
- Floating point:
  - `Math.sqrt(den)` is never taken, so r itself is not computed;
  - the rounded coefficient `Math.round(r * 100) / 100` in `details.correlation`
    is left out because it is irrational in general;
  - the other divisions are exact rationals, and IEEE doubles could differ from
    them only at exact threshold boundaries.
- `averagePerDay` and the 30-day window in `MetricsPanel.tsx:28-29, 58-61,
  139-141`. They are a `toFixed` presentation string.
- The runtime's date parsing:
  - `new Date(s)` in `parseRecordDate` is a parameter (`fallback`);
  - zod's `datetime()` grammar is a parameter (`isDatetime`);
  - request dates reach the stores as instants.
- `MetricsPanel`: a record's day is always a valid day. The panel's own date
  reader (`MetricsPanel.tsx:9-14`) has no fallback. A date string that is not
  a date key becomes an invalid `Date`. Such a record would still count in the
  effort counts, fall in no week or trend window, and lengthen the streak
  loop's bound. The model takes record dates as day numbers, so it does not
  cover this case.
- String lengths count characters rather than UTF-16 code units, because the
  model has no text encoding.
- `Promise.all` in `getInsights` and `reorderStages`. The three queries are
  the analysis's inputs, and the order updates are applied one after another
  in list order.
- `StageStore.ReorderStages`: the reorder body does not require distinct ids.
  A repeated id sends two concurrent updates to one document, and the stored
  order is whichever lands last. The model chooses the id's last position in
  the list (`StageStore.LastPos`); the source does not fix that outcome.
- The Headbreaker puzzle generation and the SVG path strings. They come from a
  foreign library. The two branches differ only in the outline, which is
  modelled as a tag.
- JSX, React state and the purely presentational components.
- The month grid takes month 1..12. The source's `new Date(year, month, 1)`
  takes month 0..11.
- `Sorting.SortBy`: documents with equal keys may come back in any order.
  The model does not pin that order down, and neither does the database.
- `InsightEngine.GetInsights` has no contract of its own. It composes
  `DaySeries.BuildSeries` and `InsightEngine.Analyze`, and the properties are
  stated on those two.
- `InsightEngine.ComponentOrderFirstSeen`: components first seen on the same
  day are listed in the order of that day's tallies. The source uses that
  day's `Map` insertion order. No lemma states that the two orders agree.
- `InsightEngine.WeeklyInsightFacts`: the weekday indices in the weekly
  insight's text are stated to lie in 0..6 only when every mood lies from 1
  to 5 (`InsightEngine.ValidMoodsInRange`). Model moods are unbounded integers.
  The source would print `undefined` for an out-of-range index.

## Findings

| source | as written | input that shows it | evidently intended | confidence | as-written member | corrected member |
|---|---|---|---|---|---|---|
| frontend/src/components/Dashboard/MetricsPanel.tsx:80-90 | the streak loop runs `i` only up to the number of distinct record dates, yet a missing today at `i = 0` uses up one of those steps | records on yesterday only: the loop stops after `i = 0` and the streak is 0 | the run of consecutive recorded days ending today, or ending yesterday when today has no record yet: 1 here | not executed | MetricsPanel.StreakAsWrittenMissesYesterday | MetricsPanel.StreakMeans |
