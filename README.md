# Spaced-repetition core of a vocabulary app, in Dafny

This project models the engine of a small vocabulary trainer for Chinese
characters and English words. The engine has five parts:

- **The scheduler** (`calculateNextReview`). It maps a word's streak level and
  the outcome of a review to a new level, a 0–5 star familiarity and the next
  due day. The gaps come from the fixed table `[1, 2, 4, 7, 15, 30]` days.
- **Loading the stored state** (`loadState`). It falls back to the initial
  state when storage is empty or unreadable. Records from before schema
  version 2 are migrated.
- **The application-state store** (`AppProvider`). It holds one `AppState`.
  Its operations are `addWord`, `deleteWord`, `updateWordProgress`, `checkIn`,
  `waterPlant` and `refreshState`, and each replaces the state with a new value.
- **The session queue** of the learning screen. It is built once per session
  from the due words of one language. It has a cursor with clamped previous and
  next moves, and two grading transitions: "don't know" sends the word to the
  end of the queue, and "know" removes it. A session that empties its queue is
  complete and checks the language in for the day.
- **The add-word form.** It runs a character-class check on the typed text
  before calling `addWord`.

Modelling conventions:

- Calendar days are integers, counted as UTC day numbers. The source compares
  "YYYY-MM-DD" strings, and for such strings string order is day order.
  `addDays(d, n)` is `d + n`.
- Timestamps are integers counting milliseconds. The calendar day of a
  timestamp is `t / 86400000`, which rounds down as the date part of
  `toISOString` does.
- The clock (`today`, `now`) and the fresh word id are parameters of the
  operations that use them.
- A check-in or water-history key "YYYY-MM-DD:language" is the pair
  `DayKey(day, language)`. Two such strings are equal exactly when their day
  and language are.
- Each store operation is a pure function ending in `Step`, in module
  `AppContext`. The class `AppContext.AppProvider` holds the state in a field,
  and its methods are proved to leave exactly the state that the function
  computes. `UpdateWordProgress` finds the word with a loop. `WaterPlant`
  updates its counters step by step, as the source does.
- The learning screen is the class `LearningScreen.Session`. Its fields are the
  queue (a `seq`), the cursor, the completion flag and the processing lock.
  "Don't know" awaits a pause in the middle of the handler, so it is two
  methods. `BeginDontKnow` locks the screen and records the grade.
  `FinishDontKnow` moves the word to the end and unlocks.
  `Next`, `Prev` and the grading methods do nothing while the screen is locked.
- The store invariant `AppContext.ValidState` holds of the initial state and is
  kept by every operation. It says:
  - every streak is in 0..5;
  - familiarity is either 0 or equal to the streak;
  - ids are unique;
  - no two words of one language have the same text ignoring case;
  - the water level between claims is in 0..29.

Behaviour of the code that the model keeps as it is:

- **Familiarity.** The field is documented as "0-5 stars" (types.ts:11), and a
  success sets it to the new level (utils.ts:148). A failed review sets it to 0
  (utils.ts:156), not to the lowered level. The invariant kept is therefore
  "0 or equal to the streak".
- **Migration.** A missing water history is added only when the plant record
  is present (utils.ts:51-53). A record already at version 2 or later is
  returned unchanged, even if it lacks a history (utils.ts:48).
- **Rollover.** The day-rollover clean-up also needs a truthy `lastReviewed`.
  A timestamp of 0 counts as "never reviewed".
- **Whitespace-only English.** English input made only of whitespace passes
  the character-class check (`\s` is in the class). `addWord` trims it to the
  empty text and stores that as a word (`AddWordScreen.BlankEnglishIsAccepted`).

## Model

| member | source | states |
|---|---|---|
| `Types.LanguageName` | types.ts:1 | a language is stored as one of exactly two literals, "chinese" or "english" |
| `Types.ParseLanguage` | types.ts:1 | a stored string is a language exactly when it is one of the two literals |
| `Types.LanguageNameRoundTrip` | types.ts:1 | parsing a language's literal gives that language back, and the two literals are distinct |
| `Types.IntervalTableShape` | types.ts:30 | the interval table has six entries, all at least 1, strictly ascending, so the top level is 5 |
| `JsString.SkipLeading` | services/appContext.tsx:49 | the scan for the end of the leading whitespace skips only whitespace and stops at a non-whitespace character or the end |
| `JsString.SkipTrailing` | services/appContext.tsx:49 | the scan back over the trailing whitespace drops only whitespace and stops after a non-whitespace character or at the start |
| `JsString.Trim` | services/appContext.tsx:49 | `trim` gives a middle slice with only whitespace on either side; the slice is empty exactly when the text is all whitespace |
| `JsString.TrimOfTrimmed` | services/appContext.tsx:49 | text that starts and ends with a non-whitespace character is its own trim |
| `JsString.TrimIdempotent` | services/appContext.tsx:49 | trimming twice is trimming once |
| `JsString.LowerChar` | services/appContext.tsx:50 | a capital ASCII letter goes to its own small letter (32 code points on) and every other character is unchanged, so no capital remains and the set of letters is kept |
| `JsString.LowerCharEqIff` | services/appContext.tsx:50 | two characters lower-case to the same character exactly when they are equal or one is the capital of the other |
| `JsString.ToLower` | services/appContext.tsx:50 | `toLowerCase` keeps the length and lower-cases each character |
| `JsString.ToLowerEqIff` | services/appContext.tsx:50 | two texts lower-case to the same text exactly when they have the same length and differ at most in ASCII letter case at each position |
| `JsString.ToLowerIdempotent` | services/appContext.tsx:50 | lower-casing twice is lower-casing once |
| `Utils.AddDays` | utils.ts:9-13 | adding n days moves the day by exactly n (the day arithmetic done in UTC) |
| `Utils.SameDayAfterAddDays` | utils.ts:9-15 | a day moved by n days is the same day exactly when n is 0 |
| `Utils.AddDaysLocalClock` | utils.ts:9-13 | `addDays` as written, moving the day on the local clock: with no change of UTC offset in between it agrees with `AddDays` |
| `Utils.AddDaysLocalClockRepeatsDay` | utils.ts:9-13 | across a daylight-saving start in a zone going from one to two hours ahead of UTC, adding one day returns the same day |
| `Utils.UtcDay` | services/appContext.tsx:30 | the calendar day of a timestamp is the day whose 24 hours contain it |
| `Utils.DaysToAdd` | utils.ts:145 | the gap is the table entry for a level 0..5 and exactly 1 day for any other level |
| `Utils.CalculateNextReview` | utils.ts:140-160 | the next due day is strictly after today for every streak; success keeps the level at most 5 and sets familiarity to the new level; failure is due tomorrow, resets familiarity to 0 and keeps the level non-negative |
| `Utils.ReviewLevels` | utils.ts:143-156 | for every level s, success goes to min(s+1, 5) with familiarity equal to the new level and waits the gap of level s, not of the new level: the table entry for s in 0..5 and one day for any other s; failure goes to max(s-1, 0), resets familiarity to 0 and waits one day |
| `Utils.ReviewKeepsRanges` | utils.ts:144-156 | grading keeps the streak in 0..5 and familiarity either 0 or equal to the streak, so it stays in 0..5 |
| `Utils.DaysToAddMonotone` | utils.ts:145 | a higher level never waits a shorter gap |
| `Utils.ReplayKeepsRanges` | utils.ts:140-160 | over any run of reviews held on their due days the ranges hold, and each review moves the due day forward by at least one day |
| `Utils.AlwaysKnown` | utils.ts:143-150 | a new word known at every review is at level min(n, 5) after n reviews, and its due day has moved by 1, 2, 4, 7, 15 and then 30 days per review |
| `Utils.Store` | utils.ts:67-75 | the record written to storage carries the state's version, words and check-ins |
| `Utils.AsAppState` | types.ts:22-28 | a stored record is a complete application state exactly when its version, plant and water history are present |
| `Utils.Migrate` | utils.ts:48-58 | migration stamps version 2 and gives a present plant without history an empty one; all other fields are unchanged and no plant is invented |
| `Utils.LoadState` | utils.ts:40-65 | empty or unreadable storage loads the initial state (version 2, no words, no check-ins, water 0, collected 0, empty history); a record at version 2 or later loads unchanged; a record with a missing or older version loads as its migration (`Migrate`); the loaded version is always at least 2 |
| `Utils.LoadStateIdempotent` | utils.ts:48-60 | loading what was loaded changes nothing, so migration runs at most once |
| `Utils.SaveLoadRoundTrip` | utils.ts:40-75 | a current-version state that is saved and loaded back is the same state |
| `Utils.MigratedOldStateIsComplete` | utils.ts:48-58 | an old record with a plant loads as a complete state at version 2, with its words and check-ins, and its history or an empty one |
| `AppContext.WithoutId` | services/appContext.tsx:79 | removing an id keeps exactly the words with other ids; an absent id changes nothing |
| `AppContext.WithoutIdAppend` | services/appContext.tsx:79 | removal works piecewise over concatenation, so the kept words stay in their order |
| `AppContext.WithoutIdRemovesOne` | services/appContext.tsx:79 | with unique ids, removing a present id deletes just that one position |
| `AppContext.WithoutIdKeepsUniqueIds` | services/appContext.tsx:79 | removal keeps ids unique |
| `AppContext.WithoutIdKeepsDistinctEntries` | services/appContext.tsx:79 | removal keeps texts distinct within each language |
| `AppContext.FindIndex` | services/appContext.tsx:85-86 | gives the first position holding the id, or -1 exactly when no word has it |
| `AppContext.InitialStateValid` | utils.ts:29-38 | the initial state satisfies the store invariant |
| `AppContext.ValidWordsInRange` | types.ts:10-11 | under the invariant, every streak is a table index and every familiarity is 0 to 5 stars |
| `AppContext.AddWordStep` | services/appContext.tsx:48-74 | the add fails exactly when a word of the language has the trimmed text ignoring case, and then the state is unchanged; otherwise exactly one new word (streak 0, familiarity 0, not reviewed, due today, not known) goes in front of the old words, and check-ins and plant are unchanged; the messages match the outcome |
| `AppContext.AddWordKeepsValid` | services/appContext.tsx:48-74 | adding with a fresh id keeps the invariant, including no duplicate text within a language |
| `AppContext.AddWordTwiceRejected` | services/appContext.tsx:49-54 | after a successful add, adding the lower-cased text again is rejected and changes nothing |
| `AppContext.TrimOfLower` | services/appContext.tsx:49-50 | trimming and lower-casing commute |
| `AppContext.DeleteWordStep` | services/appContext.tsx:76-81 | the new word list is the id filter `WithoutId` of the old one, so deletion removes every word with the id and keeps the others in their order; an unknown id leaves the state unchanged; check-ins and plant are untouched |
| `AppContext.DeleteWordKeepsValid` | services/appContext.tsx:76-81 | deletion keeps the invariant |
| `AppContext.DeleteWordIdempotent` | services/appContext.tsx:76-81 | deleting twice is deleting once |
| `AppContext.Graded` | services/appContext.tsx:88-98 | a graded word keeps its id, text, language and creation time; its streak, familiarity and due day are those `calculateNextReview` gives for its streak and the outcome, so it is due after today; it is reviewed now and known today exactly when it was known |
| `AppContext.UpdateWordProgressStep` | services/appContext.tsx:83-108 | an unknown id leaves the state unchanged; otherwise only the first word with the id is replaced, by its graded copy; the length, check-ins and plant are unchanged |
| `AppContext.UpdateWordProgressKeepsValid` | services/appContext.tsx:83-108 | grading keeps the invariant |
| `AppContext.KnownTodaySurvivesRefresh` | services/appContext.tsx:27-36 | a word known at time `now` keeps its flag through the rollover clean-up of the same UTC day and loses it on any other day |
| `AppContext.CheckInStep` | services/appContext.tsx:111-121 | after a check-in the key for today and the language is recorded; the log only grows, by at most one entry; an existing key changes nothing; words and plant are unchanged |
| `AppContext.CheckInIdempotent` | services/appContext.tsx:111-121 | checking in twice on a day is checking in once |
| `AppContext.CheckInOnlyGrows` | services/appContext.tsx:114-119 | a check-in never removes an earlier one |
| `AppContext.WaterPlantStep` | services/appContext.tsx:124-151 | a key already in the history changes nothing; otherwise the key is appended and the level goes up by one, and reaching 30 resets it to 0 and collects one plant; words and check-ins are unchanged |
| `AppContext.WaterPlantCounts` | services/appContext.tsx:130-147 | from a level in 0..29 the level stays in 0..29, and the level plus 30 per collected plant rises by exactly one per new claim |
| `AppContext.WaterPlantIdempotent` | services/appContext.tsx:130 | a second claim for the same language and day changes nothing |
| `AppContext.WaterAllCounts` | services/appContext.tsx:124-151 | a run of claims on distinct new keys adds one to the total per claim, keeps the level in range and records every key in order |
| `AppContext.ThirtyClaimsCollectOnePlant` | services/appContext.tsx:132-139 | thirty claims on distinct days from an empty can collect exactly one plant and empty the can again |
| `AppContext.RefreshStateStep` | services/appContext.tsx:24-41 | only the "known today" flag changes; it is cleared exactly on flagged words reviewed (at a non-zero time) on another UTC day; with no such word the state is unchanged |
| `AppContext.RefreshStateIdempotent` | services/appContext.tsx:24-41 | the clean-up twice is the clean-up once |
| `AppContext.RefreshStateKeepsValid` | services/appContext.tsx:24-41 | the clean-up keeps the invariant |
| `AppContext.CheckInAndWaterKeepValid` | services/appContext.tsx:111-151 | check-in and watering keep the invariant, including the level in 0..29 |
| `AppContext.AppProvider.constructor` | services/appContext.tsx:18 | the provider starts from the state it is given |
| `AppContext.AppProvider.AddWord` | services/appContext.tsx:48-74 | returns the outcome and leaves the state that `AddWordStep` gives |
| `AppContext.AppProvider.DeleteWord` | services/appContext.tsx:76-81 | leaves the state that `DeleteWordStep` gives |
| `AppContext.AppProvider.UpdateWordProgress` | services/appContext.tsx:83-108 | scans for the id, then replaces one slot of a copy of the list; leaves the state that `UpdateWordProgressStep` gives |
| `AppContext.AppProvider.CheckIn` | services/appContext.tsx:111-121 | leaves the state that `CheckInStep` gives |
| `AppContext.AppProvider.WaterPlant` | services/appContext.tsx:124-151 | updates its counters step by step and leaves the state that `WaterPlantStep` gives |
| `AppContext.AppProvider.RefreshState` | services/appContext.tsx:24-41 | leaves the state that `RefreshStateStep` gives |
| `LearningScreen.Due` | screens/LearningScreen.tsx:31-44 | the filtered list holds exactly the eligible words of the language and mode, never more often than the word list does |
| `LearningScreen.DueAppend` | screens/LearningScreen.tsx:31-44 | the filter works piece by piece over concatenation, so the kept words come in word-list order, each as often as in the word list |
| `LearningScreen.AddedAtOfDue` | screens/LearningScreen.tsx:31-46 | the words added at one time that pass the filter are the same, in the same order, whether the filter or the selection by time is applied first |
| `LearningScreen.Insert` | screens/LearningScreen.tsx:46 | inserting adds the word once and keeps a list sorted by creation time sorted |
| `LearningScreen.SortByAddedAt` | screens/LearningScreen.tsx:46 | the sort is a permutation and orders the words by creation time |
| `LearningScreen.InsertStable` | screens/LearningScreen.tsx:46 | among words created at the same time, an inserted word goes in front of the ones already sorted |
| `LearningScreen.SortStable` | screens/LearningScreen.tsx:46 | the sort is stable: words created at the same time keep their relative order |
| `LearningScreen.BuildQueueSpec` | screens/LearningScreen.tsx:31-46 | the queue holds exactly the eligible words (new: streak 0 and not known today; review: streak > 0, due by today and not known today), as a permutation of the filtered list, oldest first; the queued words added at any one time are exactly the eligible words added at that time, in word-list order |
| `LearningScreen.DueKeepsUniqueIds` | screens/LearningScreen.tsx:31-44 | filtering keeps ids unique |
| `LearningScreen.InsertKeepsUniqueIds` | screens/LearningScreen.tsx:46 | inserting a word with a new id keeps ids unique |
| `LearningScreen.SortKeepsUniqueIds` | screens/LearningScreen.tsx:46 | sorting keeps ids unique |
| `LearningScreen.BuildQueueKeepsUniqueIds` | screens/LearningScreen.tsx:31-47 | a queue built from words with unique ids has unique ids |
| `LearningScreen.MoveToEnd` | screens/LearningScreen.tsx:106-115 | "don't know" gives a permutation of the same length: the word at the cursor is last, earlier words stay, later words move up one |
| `LearningScreen.MoveToEndKeepsUniqueIds` | screens/LearningScreen.tsx:106-115 | moving a word to the end keeps ids unique |
| `LearningScreen.ClampCursor` | screens/LearningScreen.tsx:127-130 | a cursor still inside the queue stays; one past the end goes to max(0, length - 1), the last word or 0 for an empty queue |
| `LearningScreen.KnowRemovesCurrent` | screens/LearningScreen.tsx:121-130 | with unique ids "know" removes exactly the current word, so the length drops by one; the cursor then shows the next word if there is one, and the new last word when the last word was removed |
| `LearningScreen.AddThenKnow` | screens/LearningScreen.tsx:31-56 | a character added today, with no other new Chinese word pending, is the whole of today's new-word queue at streak 0; knowing it empties the queue, moves it to level 1 due tomorrow and known today; completion records today's Chinese check-in |
| `LearningScreen.Session.Phase` | screens/LearningScreen.tsx:58-70 | a session shows the empty screen exactly when its queue was empty when built |
| `LearningScreen.Session.constructor` | screens/LearningScreen.tsx:25-49 | the queue is built once from the words at session start, with the cursor at 0 and the session neither complete nor locked; unique ids stay unique |
| `LearningScreen.Session.Next` | screens/LearningScreen.tsx:74-79 | the cursor moves forward by one only when it is not on the last word and the screen is not locked, and never wraps |
| `LearningScreen.Session.Prev` | screens/LearningScreen.tsx:81-86 | the cursor moves back by one only when it is not on the first word and the screen is not locked, and never wraps |
| `LearningScreen.Session.Know` | screens/LearningScreen.tsx:119-135 | with no current word or a locked screen nothing changes; otherwise the store grades the word known, the queue loses it and the cursor is clamped; an emptied queue completes the session and checks the language in (screens/LearningScreen.tsx:52-56) |
| `LearningScreen.Session.RemoveCurrent` | screens/LearningScreen.tsx:123-134 | the queue is filtered by the current id, the cursor is clamped, and the session is complete exactly when the queue is empty; the session invariant is kept |
| `LearningScreen.Session.BeginDontKnow` | screens/LearningScreen.tsx:89-100 | with no current word or a locked screen nothing changes; otherwise the screen locks and the store grades the current word not known |
| `LearningScreen.Session.FinishDontKnow` | screens/LearningScreen.tsx:105-117 | the current word moves to the end, length and cursor stay, and the screen unlocks |
| `AddWordScreen.FullMatch` | screens/AddWordScreen.tsx:18-20 | an anchored `^[class]+$` match succeeds exactly when the text is non-empty and every character is in the class |
| `AddWordScreen.Validate` | screens/AddWordScreen.tsx:16-22 | Chinese input is valid exactly when it is non-empty and all characters are in U+4E00..U+9FA5; English input exactly when it is non-empty and all characters are ASCII letters or whitespace |
| `AddWordScreen.ValidChineseIsTrimmed` | screens/AddWordScreen.tsx:18 | valid Chinese input holds no whitespace, so `addWord` stores it as typed |
| `AddWordScreen.BlankEnglishIsAccepted` | screens/AddWordScreen.tsx:19-20 | all-whitespace English input passes the check, and `addWord` trims it and stores a word with empty text |
| `AddWordScreen.Decide` | screens/AddWordScreen.tsx:26-31 | empty input is skipped, input failing the check is rejected, and only valid input reaches the store |
| `AddWordScreen.AddWordForm.constructor` | screens/AddWordScreen.tsx:13-14 | the form starts with empty input and no feedback |
| `AddWordScreen.AddWordForm.Change` | screens/AddWordScreen.tsx:54-57 | typing replaces the input and clears the feedback |
| `AddWordScreen.AddWordForm.Submit` | screens/AddWordScreen.tsx:24-42 | empty input changes nothing; invalid input shows the script error and does not call the store; otherwise the store adds the word, a success clears the input, and the store's message is shown |

## Findings

| source | as written | input that shows it | evidently intended | confidence | as-written member | corrected member |
|---|---|---|---|---|---|---|
| utils.ts:9-13 | `addDays` reads the date as UTC midnight, moves it with the local-time `getDate`/`setDate`, and reads it back in UTC | "2024-03-31" plus 1 day in a zone one hour ahead of UTC in winter and two in summer (Central European time): the result is "2024-03-31", so a word failed that day (utils.ts:155) is due again the same day | move the date by whole UTC days (`getUTCDate`/`setUTCDate`), so the next review is always strictly after today | medium, not executed | `Utils.AddDaysLocalClockRepeatsDay` | `Utils.AddDays` |

## Left out

- Persistence: `localStorage`, `JSON.stringify`/`JSON.parse`, `saveState` and the save-on-change effect are I/O. `loadState` is modelled over the decoded record, with cases for "missing" and "unparseable". Fields other than `version`, `plant` and `waterHistory` are taken to be present and well typed after decoding.
- Clock and date library: `getTodayDateString` and `Date.now` are library behaviour; days are integers and the clock values are parameters. The rest of the model uses the UTC day arithmetic `Utils.AddDays`, so `Utils.CalculateNextReview`'s "due strictly after today" holds only under that arithmetic. The program as written can fail it on a daylight-saving start day (see Findings). The local-clock version `Utils.AddDaysLocalClock` takes the two UTC offsets as parameters, and no time-zone database is modelled.
- Random ids: `generateId` uses `crypto.randomUUID` or `Math.random`. The id is a parameter, and the invariant lemmas require it to be fresh.
- Audio: `speak` and `playWaterSound`.
- `JsString.LowerChar`: maps only the ASCII letters. JavaScript's `toLowerCase` also maps non-ASCII letters, which no valid input contains.
- Strings are sequences of Unicode code points, while JavaScript uses UTF-16 code units. This does not change the outcome of the checks modelled: all the classes lie in the Basic Multilingual Plane.
- React mechanics:
  - the 1500 ms pause and the spoken hint in "don't know";
  - `useEffect`/`useRef` scheduling;
  - the two-second auto-clear of the success message;
  - the first render before the queue is built.
- The completion effect depends on the `checkIn` function, which is a new function on every render, so the effect may run again while the session is complete. `checkIn` is idempotent (`AppContext.CheckInIdempotent`), so one call in `Session.Know` models them all.
- Stale closure: `addWord` checks duplicates against the rendered state but updates from the latest one. In this sequential model they coincide.
- The calendar screen (drawing, animation, the grid), the library screen (a read-only search and sort, plus a delete confirmation whose deletion is `DeleteWord`), `App.tsx` and `components/Button.tsx`: navigation and presentation only.
