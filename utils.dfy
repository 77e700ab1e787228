/** Date helpers, the spaced-repetition scheduler and loading of the stored
    state with its schema migration. */
module Utils {
  import opened Types

  /** `addDays` on day numbers: the day arithmetic done in UTC throughout
      (what `getUTCDate`/`setUTCDate` compute). */
  function AddDays(d: Day, n: int): (r: Day)
    ensures r - d == n
  {
    d + n
  }

  /** `isSameDay`: two "YYYY-MM-DD" strings are the same day exactly when equal. */
  predicate IsSameDay(d1: Day, d2: Day)
  {
    d1 == d2
  }

  /** Moving a day by n days lands on the same day exactly when n is 0. */
  lemma SameDayAfterAddDays(d: Day, n: int)
    ensures IsSameDay(AddDays(d, n), d) <==> n == 0
  {
  }

  const MillisPerDay: int := 86_400_000

  /** The UTC calendar day of a timestamp (the date part of `toISOString`).
      Dafny's division rounds down for a positive divisor, as the date does. */
  function UtcDay(t: Timestamp): (d: Day)
    ensures d * MillisPerDay <= t < (d + 1) * MillisPerDay
  {
    t / MillisPerDay
  }

  /** `addDays` as written: the date string is read as UTC midnight, the day
      is moved on the local wall clock (`getDate`/`setDate`), and the date is
      read back in UTC. `offsetBefore` and `offsetAfter` are the local zone's
      offsets from UTC, in milliseconds, at the start and at the result. With
      no offset change in between it agrees with `AddDays`. */
  function AddDaysLocalClock(d: Day, n: int, offsetBefore: int, offsetAfter: int): (r: Day)
    ensures offsetBefore == offsetAfter ==> r == AddDays(d, n)
  {
    UtcDay(d * MillisPerDay + offsetBefore + n * MillisPerDay - offsetAfter)
  }

  /** Across the start of daylight saving time in a zone east of UTC (one hour
      ahead in winter, two in summer) adding one day gives the same day back,
      so a failed review would be due again on the day it failed. */
  lemma AddDaysLocalClockRepeatsDay(d: Day)
    ensures AddDaysLocalClock(d, 1, 3_600_000, 7_200_000) == d
  {
    var t := d * MillisPerDay + 3_600_000 + MillisPerDay - 7_200_000;
    assert d * MillisPerDay <= t < (d + 1) * MillisPerDay;
  }

  // ---------------------------------------------------------------------
  // Scheduler
  // ---------------------------------------------------------------------

  datatype Review = Review(nextDate: Day, newStreak: int, familiarity: int)

  /** `EBBINGHAUS_INTERVALS[streak] || 1`: the table entry, or one day when the
      index falls outside the table (or hits a zero entry, which the table does
      not have). */
  function DaysToAdd(streak: int): (r: int)
    ensures r >= 1
    ensures 0 <= streak <= MaxStreak ==> r == EbbinghausIntervals[streak]
    ensures !(0 <= streak <= MaxStreak) ==> r == 1
  {
    if 0 <= streak < |EbbinghausIntervals| && EbbinghausIntervals[streak] != 0
    then EbbinghausIntervals[streak]
    else 1
  }

  /** `calculateNextReview`: the new streak, familiarity and next due day for
      a word graded on day `today`. */
  function CalculateNextReview(today: Day, currentStreak: int, isSuccess: bool): (r: Review)
    ensures r.nextDate > today
    ensures isSuccess ==> r.newStreak <= MaxStreak && r.familiarity == r.newStreak
    ensures !isSuccess ==> r.nextDate == today + 1 && r.familiarity == 0 && r.newStreak >= 0
  {
    if isSuccess then
      var newStreak := Min(currentStreak + 1, |EbbinghausIntervals| - 1);
      var nextDate := AddDays(today, DaysToAdd(currentStreak));
      var familiarity := Min(newStreak, 5);
      Review(nextDate, newStreak, familiarity)
    else
      var newStreak := Max(0, currentStreak - 1);
      var nextDate := AddDays(today, 1);
      Review(nextDate, newStreak, 0)
  }

  function Min(a: int, b: int): int { if a <= b then a else b }
  function Max(a: int, b: int): int { if a >= b then a else b }

  /** Success climbs one level, capped at the top of the table, and waits the
      interval of the level it leaves; failure drops one level, floored at 0,
      is due the next day and resets the stars. */
  lemma {:induction false} ReviewLevels(today: Day, s: int)
    ensures var r := CalculateNextReview(today, s, true);
            r.newStreak == (if s < MaxStreak then s + 1 else MaxStreak)
            && r.familiarity == r.newStreak
            && r.nextDate == today + DaysToAdd(s)
            && (0 <= s <= MaxStreak ==> r.nextDate == today + EbbinghausIntervals[s])
            && (!(0 <= s <= MaxStreak) ==> r.nextDate == today + 1)
    ensures var r := CalculateNextReview(today, s, false);
            r.newStreak == (if s > 0 then s - 1 else 0) && r.familiarity == 0 && r.nextDate == today + 1
  {
  }

  /** A word whose streak and familiarity are within their documented ranges,
      with the stars either reset or equal to the streak. */
  predicate WellGraded(streak: int, familiarity: int)
  {
    0 <= streak <= MaxStreak && (familiarity == 0 || familiarity == streak)
  }

  /** Grading keeps the streak inside the table and the stars in 0..5. */
  lemma ReviewKeepsRanges(today: Day, s: int, f: int, isSuccess: bool)
    requires WellGraded(s, f)
    ensures var r := CalculateNextReview(today, s, isSuccess);
            WellGraded(r.newStreak, r.familiarity) && 0 <= r.familiarity <= 5
  {
  }

  /** The gap to the next review never shrinks as the level rises. */
  lemma DaysToAddMonotone(s: int, t: int)
    requires 0 <= s <= t <= MaxStreak
    ensures DaysToAdd(s) <= DaysToAdd(t)
  {
    IntervalTableShape();
  }

  /** A word reviewed on each due day with the given outcomes: its streak, its
      stars and its due day after the last review. */
  function Replay(day: Day, streak: int, familiarity: int, outcomes: seq<bool>): (r: Review)
    decreases |outcomes|
  {
    if outcomes == [] then Review(day, streak, familiarity)
    else
      var step := CalculateNextReview(day, streak, outcomes[0]);
      Replay(step.nextDate, step.newStreak, step.familiarity, outcomes[1..])
  }

  /** Sum of the gaps waited by a word that starts at level 0 and is always
      known: 1, 2, 4, 7, 15, and then 30 for every further success. */
  function SuccessGaps(n: nat): int
  {
    if n == 0 then 0 else SuccessGaps(n - 1) + DaysToAdd(Min(n - 1, MaxStreak))
  }

  /** Along any run of reviews the streak stays inside the table and the
      stars are either reset or equal to the streak, and the due day only
      moves forward. */
  lemma {:induction false} ReplayKeepsRanges(day: Day, s: int, f: int, outcomes: seq<bool>)
    requires WellGraded(s, f)
    ensures var r := Replay(day, s, f, outcomes);
            WellGraded(r.newStreak, r.familiarity) && r.nextDate >= day + |outcomes|
    decreases |outcomes|
  {
    if outcomes != [] {
      var step := CalculateNextReview(day, s, outcomes[0]);
      ReviewKeepsRanges(day, s, f, outcomes[0]);
      ReplayKeepsRanges(step.nextDate, step.newStreak, step.familiarity, outcomes[1..]);
    }
  }

  /** A new word known at every review reaches level min(n, 5) after n
      reviews, with its due day pushed by the table's intervals in order. */
  lemma {:induction false} AlwaysKnown(day: Day, n: nat)
    ensures var r := Replay(day, 0, 0, seq(n, _ => true));
            r.newStreak == Min(n, MaxStreak) && r.familiarity == r.newStreak
            && r.nextDate == day + SuccessGaps(n)
  {
    if n > 0 {
      AlwaysKnown(day, n - 1);
      ReplaySnoc(day, 0, 0, seq(n - 1, _ => true), true);
      assert seq(n, _ => true) == seq(n - 1, _ => true) + [true];
    }
  }

  /** Replaying one more outcome is one more review after the replay. */
  lemma {:induction false} ReplaySnoc(day: Day, s: int, f: int, outcomes: seq<bool>, last: bool)
    ensures var r := Replay(day, s, f, outcomes);
            Replay(day, s, f, outcomes + [last])
            == (var step := CalculateNextReview(r.nextDate, r.newStreak, last);
                Review(step.nextDate, step.newStreak, step.familiarity))
    decreases |outcomes|
  {
    if outcomes != [] {
      var step := CalculateNextReview(day, s, outcomes[0]);
      assert (outcomes + [last])[1..] == outcomes[1..] + [last];
      ReplaySnoc(step.nextDate, step.newStreak, step.familiarity, outcomes[1..], last);
    } else {
      assert [last][1..] == [];
    }
  }

  // ---------------------------------------------------------------------
  // Loading the stored state
  // ---------------------------------------------------------------------

  const CurrentVersion: int := 2

  /** The plant record as decoded from storage; `waterHistory` may be
      missing in data written before version 2. */
  datatype StoredPlant = StoredPlant(
    waterLevel: int,
    plantsCollected: int,
    waterHistory: Option<seq<DayKey>>)

  /** The state record as decoded from storage. The fields migration looks
      at may be missing; `version` 0 counts as missing, as in a truthiness test. */
  datatype StoredState = StoredState(
    version: Option<int>,
    words: seq<WordItem>,
    checkIns: seq<DayKey>,
    plant: Option<StoredPlant>)

  /** What storage yields: nothing (or an empty string), text that does not
      parse, or a decoded record. */
  datatype Blob = Missing | Unparseable | Parsed(state: StoredState)

  /** The state a first run starts from. */
  const InitialState: AppState :=
    AppState(CurrentVersion, [], [], PlantState(0, 0, []))

  /** An application state as it is written to storage. */
  function Store(s: AppState): (r: StoredState)
    ensures r.version == Some(s.version) && r.words == s.words && r.checkIns == s.checkIns
  {
    StoredState(Some(s.version), s.words, s.checkIns,
      Some(StoredPlant(s.plant.waterLevel, s.plant.plantsCollected, Some(s.plant.waterHistory))))
  }

  /** A stored record that has every field of an application state. */
  function AsAppState(r: StoredState): (s: Option<AppState>)
    ensures s.Some? <==> r.version.Some? && r.plant.Some? && r.plant.value.waterHistory.Some?
  {
    if r.version.Some? && r.plant.Some? && r.plant.value.waterHistory.Some? then
      Some(AppState(r.version.value, r.words, r.checkIns,
        PlantState(r.plant.value.waterLevel, r.plant.value.plantsCollected, r.plant.value.waterHistory.value)))
    else None
  }

  predicate NeedsMigration(r: StoredState)
  {
    r.version.None? || r.version.value == 0 || r.version.value < CurrentVersion
  }

  /** The migration step: a present plant without a history gets an empty
      one, and the version is stamped. */
  function Migrate(r: StoredState): (m: StoredState)
    ensures m.version == Some(CurrentVersion)
    ensures m.words == r.words && m.checkIns == r.checkIns
    ensures m.plant.Some? <==> r.plant.Some?
    ensures m.plant.Some? ==> m.plant.value.waterHistory.Some?
                              && m.plant.value.waterLevel == r.plant.value.waterLevel
                              && m.plant.value.plantsCollected == r.plant.value.plantsCollected
    ensures r.plant.Some? && r.plant.value.waterHistory.Some? ==> m.plant == r.plant
    ensures r.plant.Some? && r.plant.value.waterHistory.None? ==> m.plant.value.waterHistory == Some([])
  {
    var plant :=
      if r.plant.Some? && r.plant.value.waterHistory.None?
      then Some(r.plant.value.(waterHistory := Some([])))
      else r.plant;
    r.(plant := plant, version := Some(CurrentVersion))
  }

  /** `loadState`: the initial state when storage is empty or unreadable,
      the decoded record migrated when its version is missing or old, and the
      decoded record itself otherwise. */
  function LoadState(b: Blob): (r: StoredState)
    ensures r.version.Some? && r.version.value >= CurrentVersion
    ensures !b.Parsed? ==> r == Store(InitialState)
    ensures b.Parsed? && !NeedsMigration(b.state) ==> r == b.state
    ensures b.Parsed? && NeedsMigration(b.state) ==> r == Migrate(b.state)
    ensures b.Parsed? ==> r.words == b.state.words && r.checkIns == b.state.checkIns
  {
    match b
    case Missing => Store(InitialState)
    case Unparseable => Store(InitialState)
    case Parsed(state) => if NeedsMigration(state) then Migrate(state) else state
  }

  /** Loading what was just loaded changes nothing. */
  lemma LoadStateIdempotent(b: Blob)
    ensures LoadState(Parsed(LoadState(b))) == LoadState(b)
  {
  }

  /** Saving a current-version state and loading it back gives the same state. */
  lemma SaveLoadRoundTrip(s: AppState)
    requires s.version >= CurrentVersion
    ensures AsAppState(LoadState(Parsed(Store(s)))) == Some(s)
  {
  }

  /** A record from before version 2 that has a plant loads as a complete
      application state, with an empty history if it had none. */
  lemma MigratedOldStateIsComplete(r: StoredState)
    requires NeedsMigration(r) && r.plant.Some?
    ensures var s := AsAppState(LoadState(Parsed(r)));
            s.Some? && s.value.version == CurrentVersion
            && s.value.words == r.words && s.value.checkIns == r.checkIns
            && s.value.plant.waterHistory
               == (if r.plant.value.waterHistory.Some? then r.plant.value.waterHistory.value else [])
  {
  }
}
