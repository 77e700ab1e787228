/** The records of the vocabulary app and its fixed review-interval table.

    Calendar days are modelled as integers (a UTC day number), so that
    comparing two "YYYY-MM-DD" strings is comparing two days and adding
    days is addition. Timestamps are integers counting milliseconds. */
module Types {

  datatype Option<+T> = None | Some(value: T)

  /** A calendar day, as a UTC day number. */
  type Day = int

  /** A millisecond timestamp, as returned by the clock. */
  type Timestamp = int

  /** The two tracks a word can belong to. */
  datatype Language = Chinese | English

  /** The literal string the source stores for each language. */
  function LanguageName(l: Language): (r: string)
    ensures r == "chinese" || r == "english"
  {
    match l
    case Chinese => "chinese"
    case English => "english"
  }

  /** The inverse of LanguageName, for a string read back from storage. */
  function ParseLanguage(s: string): (r: Option<Language>)
    ensures r.Some? <==> s == "chinese" || s == "english"
  {
    if s == "chinese" then Some(Chinese)
    else if s == "english" then Some(English)
    else None
  }

  lemma LanguageNameRoundTrip(l: Language)
    ensures ParseLanguage(LanguageName(l)) == Some(l)
    ensures forall m: Language :: LanguageName(m) == LanguageName(l) ==> m == l
  {
    assert "chinese" != "english" by { assert "chinese"[0] != "english"[0]; }
  }

  /** A "YYYY-MM-DD:<language>" key of the check-in log and the water history. */
  datatype DayKey = DayKey(day: Day, language: Language)

  datatype WordItem = WordItem(
    id: string,
    text: string,
    language: Language,
    addedAt: Timestamp,
    lastReviewed: Option<Timestamp>,
    nextReviewDate: Day,
    streak: int,        // index into the interval table
    familiarity: int,   // 0 to 5 stars
    isKnownToday: bool) // reset when the day rolls over

  datatype PlantState = PlantState(
    waterLevel: int,        // 0 to 29 between claims
    plantsCollected: int,
    waterHistory: seq<DayKey>)

  datatype AppState = AppState(
    version: int,
    words: seq<WordItem>,
    checkIns: seq<DayKey>,
    plant: PlantState)

  /** Days until the next review, indexed by streak level. */
  const EbbinghausIntervals: seq<int> := [1, 2, 4, 7, 15, 30]

  /** The highest streak level: the last index of the interval table. */
  const MaxStreak: int := |EbbinghausIntervals| - 1

  lemma IntervalTableShape()
    ensures |EbbinghausIntervals| == 6 && MaxStreak == 5
    ensures forall i :: 0 <= i < |EbbinghausIntervals| ==> EbbinghausIntervals[i] >= 1
    ensures forall i, j :: 0 <= i < j < |EbbinghausIntervals| ==> EbbinghausIntervals[i] < EbbinghausIntervals[j]
  {
  }

  /** The documented ranges of a word's counters. */
  predicate WordInRange(w: WordItem)
  {
    0 <= w.streak <= MaxStreak && 0 <= w.familiarity <= 5
  }
}
