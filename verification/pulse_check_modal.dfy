/** The pulse-check form: level emoji lookup, emoji selection and the
    values the form starts from. */
module PulseCheckModal {
  import opened Common
  import opened Calendar

  /** Five emojis per scale; a level is shown by its position. */
  const EMOJI_COUNT: int := 5

  /** `Math.min(Math.max(level - 1, 0), 4)`. */
  function EmojiIndex(level: int): (i: int)
    ensures 0 <= i < EMOJI_COUNT
    ensures 1 <= level <= 5 ==> i == level - 1
    ensures level <= 1 ==> i == 0
    ensures level >= 5 ==> i == 4
  {
    Min(Max(level - 1, 0), 4)
  }

  /** The index never decreases with the level, and every slot is reached. */
  lemma EmojiIndexMonotoneOnto(a: int, b: int, i: int)
    requires a <= b && 0 <= i < EMOJI_COUNT
    ensures EmojiIndex(a) <= EmojiIndex(b)
    ensures EmojiIndex(i + 1) == i
  {
  }

  datatype Scale = Energy | Mood

  datatype FormData = FormData(date: string, energy: int, mood: int, note: string)

  /** handleEmojiSelect: only the chosen scale's level changes. */
  function SelectEmoji(f: FormData, scale: Scale, level: int): (g: FormData)
    ensures g.date == f.date && g.note == f.note
    ensures scale == Energy ==> g.energy == level && g.mood == f.mood
    ensures scale == Mood ==> g.mood == level && g.energy == f.energy
  {
    match scale
    case Energy => f.(energy := level)
    case Mood => f.(mood := level)
  }

  /** Selecting the level already shown changes nothing, and a second
      selection on the same scale overrides the first. */
  lemma SelectEmojiLaws(f: FormData, scale: Scale, a: int, b: int)
    ensures SelectEmoji(f, scale, if scale == Energy then f.energy else f.mood) == f
    ensures SelectEmoji(SelectEmoji(f, scale, a), scale, b) == SelectEmoji(f, scale, b)
  {
  }

  /** An existing check as the form receives it. */
  datatype ExistingCheck = ExistingCheck(date: string, energy: int, mood: int, note: Option<string>)

  /** The form's reset: the existing check's values (its date cut at `T`,
      a missing or empty note as ""), otherwise today's date with both
      levels at 3 and an empty note. `today` is the current UTC date key. */
  function InitialForm(existing: Option<ExistingCheck>, today: string): (f: FormData)
    ensures existing.None? ==> f == FormData(today, 3, 3, "")
    ensures existing.Some? ==> f.date == BeforeT(existing.value.date) && 'T' !in f.date
    ensures existing.Some? ==> f.energy == existing.value.energy && f.mood == existing.value.mood
    ensures existing.Some? ==> f.note == existing.value.note.GetOr("")
  {
    match existing
    case None => FormData(today, 3, 3, "")
    case Some(c) => FormData(BeforeT(c.date), c.energy, c.mood, c.note.GetOr(""))
  }

  /** A check dated by an ISO timestamp opens with its date part. */
  lemma InitialFormDate(y: int, m: int, d: int, time: string, c: ExistingCheck, today: string)
    requires ValidCivil(y, m, d) && 1000 <= y <= 9999
    requires c.date == FormatDateKey(y, m, d) + "T" + time
    ensures InitialForm(Some(c), today).date == FormatDateKey(y, m, d)
  {
    var k := FormatDateKey(y, m, d);
    KeyHasNoT(k);
    BeforeTOfPrefix(k, time);
  }
}
