/** The application-state store. `AppProvider` holds one `AppState`; every
    operation replaces it with the value a pure transition computes from the
    old one. The transitions are the functions ending in `Step`; the lemmas
    below them state what they promise and the invariant they keep. */
module AppContext {
  import opened Types
  import opened JsString
  import opened Utils

  // ---------------------------------------------------------------------
  // Word lists
  // ---------------------------------------------------------------------

  /** Two words that `addWord` treats as the same entry: same language and
      the same text ignoring case. */
  predicate SameEntry(a: WordItem, b: WordItem)
  {
    a.language == b.language && ToLower(a.text) == ToLower(b.text)
  }

  predicate UniqueIds(ws: seq<WordItem>)
  {
    forall i, j :: 0 <= i < j < |ws| ==> ws[i].id != ws[j].id
  }

  predicate DistinctEntries(ws: seq<WordItem>)
  {
    forall i, j :: 0 <= i < j < |ws| ==> !SameEntry(ws[i], ws[j])
  }

  /** `words.filter(w => w.id !== id)`. */
  function WithoutId(ws: seq<WordItem>, id: string): (r: seq<WordItem>)
    ensures |r| <= |ws|
    ensures forall w :: w in r <==> w in ws && w.id != id
    ensures (forall w :: w in ws ==> w.id != id) ==> r == ws
  {
    if ws == [] then []
    else (if ws[0].id == id then [] else [ws[0]]) + WithoutId(ws[1..], id)
  }

  /** Filtering works piecewise, so the kept words stay in their order. */
  lemma {:induction false} WithoutIdAppend(a: seq<WordItem>, b: seq<WordItem>, id: string)
    ensures WithoutId(a + b, id) == WithoutId(a, id) + WithoutId(b, id)
  {
    if a != [] {
      var head := if a[0].id == id then [] else [a[0]];
      assert (a + b)[0] == a[0] && (a + b)[1..] == a[1..] + b;
      assert WithoutId(a + b, id) == head + WithoutId(a[1..] + b, id);
      WithoutIdAppend(a[1..], b, id);
      assert WithoutId(a, id) == head + WithoutId(a[1..], id);
    } else {
      assert a + b == b;
    }
  }

  /** The tail of a list with unique ids has unique ids, none of them the head's. */
  lemma UniqueIdsTail(ws: seq<WordItem>)
    requires UniqueIds(ws) && ws != []
    ensures UniqueIds(ws[1..])
    ensures forall w :: w in ws[1..] ==> w.id != ws[0].id
  {
    var tail := ws[1..];
    forall i, j | 0 <= i < j < |tail| ensures tail[i].id != tail[j].id {
      assert tail[i] == ws[i + 1] && tail[j] == ws[j + 1];
    }
    forall w | w in tail ensures w.id != ws[0].id {
      var j :| 0 <= j < |tail| && tail[j] == w;
      assert ws[j + 1] == w;
    }
  }

  /** With unique ids, removing the head's id drops just the head. */
  lemma WithoutIdRemovesHead(ws: seq<WordItem>)
    requires UniqueIds(ws) && ws != []
    ensures WithoutId(ws, ws[0].id) == ws[1..]
  {
    UniqueIdsTail(ws);
    assert WithoutId(ws, ws[0].id) == WithoutId(ws[1..], ws[0].id);
  }

  /** With unique ids, removing a present id drops exactly that one word. */
  lemma {:induction false} WithoutIdRemovesOne(ws: seq<WordItem>, k: int)
    requires UniqueIds(ws) && 0 <= k < |ws|
    ensures WithoutId(ws, ws[k].id) == ws[..k] + ws[k + 1..]
    decreases |ws|, 1
  {
    if k == 0 {
      WithoutIdRemovesHead(ws);
      assert ws[..0] + ws[1..] == ws[1..];
    } else {
      WithoutIdRemovesLater(ws, k);
    }
  }

  lemma {:induction false} WithoutIdRemovesLater(ws: seq<WordItem>, k: int)
    requires UniqueIds(ws) && 0 < k < |ws|
    ensures WithoutId(ws, ws[k].id) == ws[..k] + ws[k + 1..]
    decreases |ws|, 0
  {
    var id := ws[k].id;
    var tail := ws[1..];
    UniqueIdsTail(ws);
    assert tail[k - 1] == ws[k];
    WithoutIdRemovesOne(tail, k - 1);
    assert ws[0].id != id;
    assert WithoutId(ws, id) == [ws[0]] + WithoutId(tail, id);
    DropLaterSlice(ws, k);
  }

  /** Dropping position `k > 0` is keeping the head and dropping `k - 1` of the tail. */
  lemma DropLaterSlice(ws: seq<WordItem>, k: int)
    requires 0 < k < |ws|
    ensures ws[..k] + ws[k + 1..] == [ws[0]] + (ws[1..][..k - 1] + ws[1..][k..])
  {
  }

  /** Removing words keeps ids unique. */
  lemma {:induction false} WithoutIdKeepsUniqueIds(ws: seq<WordItem>, id: string)
    requires UniqueIds(ws)
    ensures UniqueIds(WithoutId(ws, id))
  {
    if ws != [] {
      var tail := ws[1..];
      UniqueIdsTail(ws);
      WithoutIdKeepsUniqueIds(tail, id);
      var rest := WithoutId(tail, id);
      if ws[0].id != id {
        assert WithoutId(ws, id) == [ws[0]] + rest;
        ConsUniqueIds(ws[0], rest);
      } else {
        assert WithoutId(ws, id) == rest;
      }
    }
  }

  /** A word whose id is new to a list with unique ids can go in front. */
  lemma ConsUniqueIds(w: WordItem, ws: seq<WordItem>)
    requires UniqueIds(ws) && forall x :: x in ws ==> x.id != w.id
    ensures UniqueIds([w] + ws)
  {
    var r := [w] + ws;
    forall i, j | 0 <= i < j < |r| ensures r[i].id != r[j].id {
      assert r[j] == ws[j - 1];
      if i > 0 {
        assert r[i] == ws[i - 1];
      }
    }
  }

  /** The tail of a list of distinct entries has distinct entries, none of
      them the head's. */
  lemma DistinctEntriesTail(ws: seq<WordItem>)
    requires DistinctEntries(ws) && ws != []
    ensures DistinctEntries(ws[1..])
    ensures forall x :: x in ws[1..] ==> !SameEntry(ws[0], x)
  {
    var tail := ws[1..];
    forall i, j | 0 <= i < j < |tail| ensures !SameEntry(tail[i], tail[j]) {
      assert tail[i] == ws[i + 1] && tail[j] == ws[j + 1];
    }
    forall x | x in tail ensures !SameEntry(ws[0], x) {
      var j :| 0 <= j < |tail| && tail[j] == x;
      assert ws[j + 1] == x;
    }
  }

  /** A word that is no entry of a list of distinct entries can go in front. */
  lemma ConsDistinctEntries(w: WordItem, ws: seq<WordItem>)
    requires DistinctEntries(ws) && forall x :: x in ws ==> !SameEntry(w, x)
    ensures DistinctEntries([w] + ws)
  {
    var r := [w] + ws;
    forall i, j | 0 <= i < j < |r| ensures !SameEntry(r[i], r[j]) {
      assert r[j] == ws[j - 1];
      if i > 0 {
        assert r[i] == ws[i - 1];
      }
    }
  }

  /** Removing words keeps entries distinct. */
  lemma {:induction false} WithoutIdKeepsDistinctEntries(ws: seq<WordItem>, id: string)
    requires DistinctEntries(ws)
    ensures DistinctEntries(WithoutId(ws, id))
  {
    if ws != [] {
      var tail := ws[1..];
      DistinctEntriesTail(ws);
      WithoutIdKeepsDistinctEntries(tail, id);
      var rest := WithoutId(tail, id);
      if ws[0].id != id {
        assert WithoutId(ws, id) == [ws[0]] + rest;
        ConsDistinctEntries(ws[0], rest);
      } else {
        assert WithoutId(ws, id) == rest;
      }
    }
  }

  /** `findIndex(w => w.id === id)`: the first position holding the id, or -1. */
  function FindIndex(ws: seq<WordItem>, id: string): (r: int)
    ensures -1 <= r < |ws|
    ensures r == -1 <==> forall w :: w in ws ==> w.id != id
    ensures r >= 0 ==> ws[r].id == id && forall j :: 0 <= j < r ==> ws[j].id != id
  {
    if ws == [] then -1
    else if ws[0].id == id then 0
    else
      var k := FindIndex(ws[1..], id);
      if k == -1 then -1 else k + 1
  }

  // ---------------------------------------------------------------------
  // The state invariant
  // ---------------------------------------------------------------------

  /** Number of claims needed to finish one plant. */
  const WaterThreshold: int := 30

  /** What every operation of the store keeps: counters in their documented
      ranges, stars reset or equal to the streak, unique ids, no duplicate
      entry per language, and a water level between claims in 0..29. */
  predicate ValidState(s: AppState)
  {
    && (forall i :: 0 <= i < |s.words| ==> WellGraded(s.words[i].streak, s.words[i].familiarity))
    && UniqueIds(s.words)
    && DistinctEntries(s.words)
    && 0 <= s.plant.waterLevel < WaterThreshold
    && s.plant.plantsCollected >= 0
  }

  lemma InitialStateValid()
    ensures ValidState(InitialState)
  {
  }

  lemma ValidWordsInRange(s: AppState)
    requires ValidState(s)
    ensures forall w :: w in s.words ==> WordInRange(w)
  {
  }

  // ---------------------------------------------------------------------
  // addWord
  // ---------------------------------------------------------------------

  datatype AddResult = AddResult(success: bool, message: string)

  const DuplicateMessage: string := "该字/词已存在！"
  const AddedMessage: string := "录入成功！"

  /** Some word of the language has the same text ignoring case. */
  predicate Exists(ws: seq<WordItem>, cleanText: string, language: Language)
  {
    exists i :: 0 <= i < |ws| && ToLower(ws[i].text) == ToLower(cleanText) && ws[i].language == language
  }

  /** The word `addWord` creates, due on the day it is added. */
  function NewWord(id: string, cleanText: string, language: Language, now: Timestamp, today: Day): WordItem
  {
    WordItem(id, cleanText, language, now, None, today, 0, 0, false)
  }

  datatype AddOutcome = AddOutcome(result: AddResult, state: AppState)

  /** `addWord`: trim the text; reject a duplicate within the language and
      keep the state; otherwise put the new word in front of the others. */
  function AddWordStep(s: AppState, text: string, language: Language, id: string, now: Timestamp, today: Day): (r: AddOutcome)
    ensures r.result.success <==> !Exists(s.words, Trim(text), language)
    ensures r.result.message == if r.result.success then AddedMessage else DuplicateMessage
    ensures !r.result.success ==> r.state == s
    ensures r.result.success ==>
      && |r.state.words| == |s.words| + 1
      && r.state.words[1..] == s.words
      && r.state.words[0] == NewWord(id, Trim(text), language, now, today)
      && r.state.checkIns == s.checkIns && r.state.plant == s.plant && r.state.version == s.version
  {
    var cleanText := Trim(text);
    if Exists(s.words, cleanText, language) then
      AddOutcome(AddResult(false, DuplicateMessage), s)
    else
      var w := NewWord(id, cleanText, language, now, today);
      AddOutcome(AddResult(true, AddedMessage), s.(words := [w] + s.words))
  }

  /** Adding a word with a fresh id keeps the invariant. */
  lemma AddWordKeepsValid(s: AppState, text: string, language: Language, id: string, now: Timestamp, today: Day)
    requires ValidState(s)
    requires forall w :: w in s.words ==> w.id != id
    ensures ValidState(AddWordStep(s, text, language, id, now, today).state)
  {
    var r := AddWordStep(s, text, language, id, now, today);
    if r.result.success {
      var ws := r.state.words;
      forall i, j | 0 <= i < j < |ws| ensures ws[i].id != ws[j].id && !SameEntry(ws[i], ws[j]) {
        if i == 0 {
          assert ws[j] == s.words[j - 1];
        } else {
          assert ws[i] == s.words[i - 1] && ws[j] == s.words[j - 1];
        }
      }
    }
  }

  /** A second add of the same text, in any letter case, is rejected. */
  lemma AddWordTwiceRejected(s: AppState, text: string, language: Language, id: string, id': string, now: Timestamp, now': Timestamp, today: Day)
    requires AddWordStep(s, text, language, id, now, today).result.success
    ensures var s1 := AddWordStep(s, text, language, id, now, today).state;
            var r := AddWordStep(s1, ToLower(text), language, id', now', today);
            !r.result.success && r.state == s1
  {
    var s1 := AddWordStep(s, text, language, id, now, today).state;
    TrimOfLower(text);
    ToLowerIdempotent(Trim(text));
    assert ToLower(s1.words[0].text) == ToLower(Trim(ToLower(text)));
  }

  /** Trimming and lower-casing commute, since lower-casing maps no
      whitespace to anything else. */
  lemma TrimOfLower(s: string)
    ensures ToLower(Trim(s)) == Trim(ToLower(s))
  {
    var i := SkipLeading(s, 0);
    var e := SkipTrailing(s, i, |s|);
    SkipLeadingOfLower(s, 0);
    SkipTrailingOfLower(s, i, |s|);
    ToLowerSlice(s, i, e);
  }

  lemma LowerKeepsWhitespace(c: char)
    ensures IsWhitespace(LowerChar(c)) <==> IsWhitespace(c)
  {
  }

  /** Lower-casing does not move the end of the leading whitespace. */
  lemma {:induction false} SkipLeadingOfLower(s: string, i: int)
    requires 0 <= i <= |s|
    ensures SkipLeading(ToLower(s), i) == SkipLeading(s, i)
    decreases |s| - i
  {
    if i < |s| {
      LowerKeepsWhitespace(s[i]);
      if IsWhitespace(s[i]) {
        SkipLeadingOfLower(s, i + 1);
      }
    }
  }

  /** Lower-casing does not move the start of the trailing whitespace. */
  lemma {:induction false} SkipTrailingOfLower(s: string, lo: int, j: int)
    requires 0 <= lo <= j <= |s|
    ensures SkipTrailing(ToLower(s), lo, j) == SkipTrailing(s, lo, j)
    decreases j
  {
    if j > lo {
      LowerKeepsWhitespace(s[j - 1]);
      if IsWhitespace(s[j - 1]) {
        SkipTrailingOfLower(s, lo, j - 1);
      }
    }
  }

  // ---------------------------------------------------------------------
  // deleteWord
  // ---------------------------------------------------------------------

  /** `deleteWord`: drop every word with the id, keep the rest in order. */
  function DeleteWordStep(s: AppState, id: string): (r: AppState)
    ensures r.words == WithoutId(s.words, id)
    ensures forall w :: w in r.words <==> w in s.words && w.id != id
    ensures (forall w :: w in s.words ==> w.id != id) ==> r == s
    ensures r.checkIns == s.checkIns && r.plant == s.plant && r.version == s.version
  {
    s.(words := WithoutId(s.words, id))
  }

  lemma DeleteWordKeepsValid(s: AppState, id: string)
    requires ValidState(s)
    ensures ValidState(DeleteWordStep(s, id))
  {
    WithoutIdKeepsUniqueIds(s.words, id);
    WithoutIdKeepsDistinctEntries(s.words, id);
    var ws := DeleteWordStep(s, id).words;
    forall i | 0 <= i < |ws| ensures WellGraded(ws[i].streak, ws[i].familiarity) {
      assert ws[i] in s.words;
    }
  }

  /** Deleting twice is deleting once. */
  lemma DeleteWordIdempotent(s: AppState, id: string)
    ensures DeleteWordStep(DeleteWordStep(s, id), id) == DeleteWordStep(s, id)
  {
  }

  // ---------------------------------------------------------------------
  // updateWordProgress
  // ---------------------------------------------------------------------

  /** The graded copy of a word: the scheduler's streak, stars and due day,
      reviewed now, known today exactly when it was known. */
  function Graded(w: WordItem, isKnown: bool, now: Timestamp, today: Day): (g: WordItem)
    ensures g.id == w.id && g.text == w.text && g.language == w.language && g.addedAt == w.addedAt
    ensures g.lastReviewed == Some(now) && g.isKnownToday == isKnown
    ensures var r := CalculateNextReview(today, w.streak, isKnown);
            g.streak == r.newStreak && g.familiarity == r.familiarity && g.nextReviewDate == r.nextDate
    ensures g.nextReviewDate > today
  {
    var r := CalculateNextReview(today, w.streak, isKnown);
    w.(lastReviewed := Some(now), nextReviewDate := r.nextDate, streak := r.newStreak,
       familiarity := r.familiarity, isKnownToday := isKnown)
  }

  /** `updateWordProgress`: grade the first word with the id; an unknown id
      leaves the state as it is. */
  function UpdateWordProgressStep(s: AppState, id: string, isKnown: bool, now: Timestamp, today: Day): (r: AppState)
    ensures (forall w :: w in s.words ==> w.id != id) ==> r == s
    ensures |r.words| == |s.words|
    ensures r.checkIns == s.checkIns && r.plant == s.plant && r.version == s.version
    ensures forall i :: 0 <= i < |s.words| && i != FindIndex(s.words, id) ==> r.words[i] == s.words[i]
    ensures var k := FindIndex(s.words, id);
            k >= 0 ==> r.words[k] == Graded(s.words[k], isKnown, now, today)
  {
    var k := FindIndex(s.words, id);
    if k == -1 then s
    else s.(words := s.words[k := Graded(s.words[k], isKnown, now, today)])
  }

  lemma UpdateWordProgressKeepsValid(s: AppState, id: string, isKnown: bool, now: Timestamp, today: Day)
    requires ValidState(s)
    ensures ValidState(UpdateWordProgressStep(s, id, isKnown, now, today))
  {
    var k := FindIndex(s.words, id);
    if k >= 0 {
      var w := s.words[k];
      ReviewKeepsRanges(today, w.streak, w.familiarity, isKnown);
      var ws := UpdateWordProgressStep(s, id, isKnown, now, today).words;
      assert forall i :: 0 <= i < |ws| ==> ws[i].id == s.words[i].id && SameEntry(ws[i], s.words[i]);
      forall i, j | 0 <= i < j < |ws| ensures !SameEntry(ws[i], ws[j]) {
        assert !SameEntry(s.words[i], s.words[j]);
      }
    }
  }

  /** After a word is graded "known" today, the day-rollover clean-up of the
      same day leaves it known; on any other day it clears the flag. */
  lemma KnownTodaySurvivesRefresh(s: AppState, id: string, now: Timestamp, day: Day)
    requires now != 0
    requires FindIndex(s.words, id) >= 0
    ensures var k := FindIndex(s.words, id);
            var w := RefreshStateStep(UpdateWordProgressStep(s, id, true, now, UtcDay(now)), day).words[k];
            w.isKnownToday <==> day == UtcDay(now)
  {
  }

  // ---------------------------------------------------------------------
  // checkIn
  // ---------------------------------------------------------------------

  /** `checkIn`: record "today:language" unless it is already recorded. */
  function CheckInStep(s: AppState, language: Language, today: Day): (r: AppState)
    ensures DayKey(today, language) in r.checkIns
    ensures |s.checkIns| <= |r.checkIns| <= |s.checkIns| + 1 && r.checkIns[..|s.checkIns|] == s.checkIns
    ensures DayKey(today, language) in s.checkIns ==> r == s
    ensures r.words == s.words && r.plant == s.plant && r.version == s.version
  {
    var key := DayKey(today, language);
    if key in s.checkIns then s else s.(checkIns := s.checkIns + [key])
  }

  /** Checking in twice on a day is checking in once. */
  lemma CheckInIdempotent(s: AppState, language: Language, today: Day)
    ensures CheckInStep(CheckInStep(s, language, today), language, today) == CheckInStep(s, language, today)
  {
  }

  /** Whether a language is checked in on a day: the membership test the
      calendar screen makes on the check-in log. */
  predicate IsCheckedIn(s: AppState, language: Language, day: Day)
  {
    DayKey(day, language) in s.checkIns
  }

  /** A check-in never erases another. */
  lemma CheckInOnlyGrows(s: AppState, language: Language, today: Day, l: Language, d: Day)
    requires IsCheckedIn(s, l, d)
    ensures IsCheckedIn(CheckInStep(s, language, today), l, d)
  {
    var r := CheckInStep(s, language, today);
    var k :| 0 <= k < |s.checkIns| && s.checkIns[k] == DayKey(d, l);
    assert r.checkIns[..|s.checkIns|][k] == DayKey(d, l);
  }

  // ---------------------------------------------------------------------
  // waterPlant
  // ---------------------------------------------------------------------

  /** `waterPlant`: at most one claim per language per day; a claim raises
      the level, and reaching the threshold collects a plant and empties it. */
  function WaterPlantStep(s: AppState, language: Language, today: Day): (r: AppState)
    ensures DayKey(today, language) in s.plant.waterHistory ==> r == s
    ensures DayKey(today, language) !in s.plant.waterHistory ==>
      && r.plant.waterHistory == s.plant.waterHistory + [DayKey(today, language)]
      && (s.plant.waterLevel + 1 < WaterThreshold ==>
            r.plant.waterLevel == s.plant.waterLevel + 1 && r.plant.plantsCollected == s.plant.plantsCollected)
      && (s.plant.waterLevel + 1 >= WaterThreshold ==>
            r.plant.waterLevel == 0 && r.plant.plantsCollected == s.plant.plantsCollected + 1)
    ensures r.words == s.words && r.checkIns == s.checkIns && r.version == s.version
  {
    var key := DayKey(today, language);
    if key in s.plant.waterHistory then s
    else
      var newWaterLevel := s.plant.waterLevel + 1;
      var collected := if newWaterLevel >= WaterThreshold then s.plant.plantsCollected + 1 else s.plant.plantsCollected;
      var level := if newWaterLevel >= WaterThreshold then 0 else newWaterLevel;
      s.(plant := PlantState(level, collected, s.plant.waterHistory + [key]))
  }

  /** Total water ever poured: the level plus a full threshold per plant. */
  function TotalWater(p: PlantState): int
  {
    p.waterLevel + WaterThreshold * p.plantsCollected
  }

  /** From a level in 0..29, a claim keeps the level in 0..29 and adds
      exactly one to the total; a repeated claim changes nothing. */
  lemma WaterPlantCounts(s: AppState, language: Language, today: Day)
    requires 0 <= s.plant.waterLevel < WaterThreshold
    ensures var r := WaterPlantStep(s, language, today);
            0 <= r.plant.waterLevel < WaterThreshold
            && TotalWater(r.plant) == TotalWater(s.plant) + (if DayKey(today, language) in s.plant.waterHistory then 0 else 1)
  {
  }

  lemma WaterPlantIdempotent(s: AppState, language: Language, today: Day)
    ensures WaterPlantStep(WaterPlantStep(s, language, today), language, today) == WaterPlantStep(s, language, today)
  {
  }

  /** One claim per key, in order. */
  function WaterAll(s: AppState, claims: seq<DayKey>): AppState
    decreases |claims|
  {
    if claims == [] then s
    else WaterAll(WaterPlantStep(s, claims[0].language, claims[0].day), claims[1..])
  }

  predicate NoRepeats(claims: seq<DayKey>)
  {
    forall i, j :: 0 <= i < j < |claims| ==> claims[i] != claims[j]
  }

  /** Claims on distinct, unclaimed keys each add one to the total, keep
      the level in range and are all recorded. */
  lemma {:induction false} WaterAllCounts(s: AppState, claims: seq<DayKey>)
    requires 0 <= s.plant.waterLevel < WaterThreshold
    requires NoRepeats(claims)
    requires forall c :: c in claims ==> c !in s.plant.waterHistory
    ensures var r := WaterAll(s, claims);
            0 <= r.plant.waterLevel < WaterThreshold
            && TotalWater(r.plant) == TotalWater(s.plant) + |claims|
            && r.plant.waterHistory == s.plant.waterHistory + claims
    decreases |claims|
  {
    if claims != [] {
      var c := claims[0];
      var s1 := WaterPlantStep(s, c.language, c.day);
      WaterPlantCounts(s, c.language, c.day);
      forall x | x in claims[1..] ensures x !in s1.plant.waterHistory {
        var k :| 0 <= k < |claims[1..]| && claims[1..][k] == x;
        assert claims[k + 1] == x && claims[0] != claims[k + 1];
      }
      WaterAllCounts(s1, claims[1..]);
      assert s1.plant.waterHistory + claims[1..] == s.plant.waterHistory + claims;
    }
  }

  /** Thirty claims on distinct days from an empty can grow one plant and
      leave the can empty again. */
  lemma ThirtyClaimsCollectOnePlant(s: AppState, claims: seq<DayKey>)
    requires s.plant.waterLevel == 0
    requires |claims| == WaterThreshold && NoRepeats(claims)
    requires forall c :: c in claims ==> c !in s.plant.waterHistory
    ensures WaterAll(s, claims).plant.waterLevel == 0
    ensures WaterAll(s, claims).plant.plantsCollected == s.plant.plantsCollected + 1
  {
    WaterAllCounts(s, claims);
  }

  // ---------------------------------------------------------------------
  // refreshState
  // ---------------------------------------------------------------------

  /** A word marked known on a day other than today. A review at timestamp 0
      counts as never reviewed, as in the source's truthiness test. */
  predicate IsStale(w: WordItem, today: Day)
  {
    w.isKnownToday && w.lastReviewed.Some? && w.lastReviewed.value != 0
    && UtcDay(w.lastReviewed.value) != today
  }

  function ClearIfStale(w: WordItem, today: Day): WordItem
  {
    if IsStale(w, today) then w.(isKnownToday := false) else w
  }

  /** `refreshState`: clear the "known today" flag of every stale word. */
  function RefreshStateStep(s: AppState, today: Day): (r: AppState)
    ensures |r.words| == |s.words|
    ensures forall i :: 0 <= i < |s.words| ==>
              r.words[i].(isKnownToday := s.words[i].isKnownToday) == s.words[i]
              && (r.words[i].isKnownToday <==> s.words[i].isKnownToday && !IsStale(s.words[i], today))
    ensures (forall i :: 0 <= i < |s.words| ==> !IsStale(s.words[i], today)) ==> r == s
    ensures r.checkIns == s.checkIns && r.plant == s.plant && r.version == s.version
  {
    var ws := seq(|s.words|, i requires 0 <= i < |s.words| => ClearIfStale(s.words[i], today));
    assert (forall i :: 0 <= i < |s.words| ==> !IsStale(s.words[i], today)) ==> ws == s.words;
    s.(words := ws)
  }

  lemma RefreshStateIdempotent(s: AppState, today: Day)
    ensures RefreshStateStep(RefreshStateStep(s, today), today) == RefreshStateStep(s, today)
  {
  }

  lemma RefreshStateKeepsValid(s: AppState, today: Day)
    requires ValidState(s)
    ensures ValidState(RefreshStateStep(s, today))
  {
    var ws := RefreshStateStep(s, today).words;
    assert forall i :: 0 <= i < |ws| ==> ws[i].id == s.words[i].id && SameEntry(ws[i], s.words[i]);
    forall i, j | 0 <= i < j < |ws| ensures !SameEntry(ws[i], ws[j]) {
      assert !SameEntry(s.words[i], s.words[j]);
    }
  }

  lemma CheckInAndWaterKeepValid(s: AppState, language: Language, today: Day)
    requires ValidState(s)
    ensures ValidState(CheckInStep(s, language, today))
    ensures ValidState(WaterPlantStep(s, language, today))
  {
  }

  // ---------------------------------------------------------------------
  // The provider
  // ---------------------------------------------------------------------

  /** The state cell of the provider and the operations it hands to the
      screens. The clock and the id generator are parameters. */
  class AppProvider {
    var state: AppState

    constructor (initial: AppState)
      ensures state == initial
    {
      state := initial;
    }

    method AddWord(text: string, language: Language, id: string, now: Timestamp, today: Day) returns (result: AddResult)
      modifies this
      ensures result == AddWordStep(old(state), text, language, id, now, today).result
      ensures state == AddWordStep(old(state), text, language, id, now, today).state
    {
      var outcome := AddWordStep(state, text, language, id, now, today);
      state := outcome.state;
      result := outcome.result;
    }

    method DeleteWord(id: string)
      modifies this
      ensures state == DeleteWordStep(old(state), id)
    {
      state := DeleteWordStep(state, id);
    }

    /** Finds the word by a scan, then assigns one slot of a copy of the list. */
    method UpdateWordProgress(id: string, isKnown: bool, now: Timestamp, today: Day)
      modifies this
      ensures state == UpdateWordProgressStep(old(state), id, isKnown, now, today)
    {
      var words := state.words;
      var wordIndex := -1;
      var i := 0;
      while i < |words|
        invariant 0 <= i <= |words|
        invariant forall j :: 0 <= j < i ==> words[j].id != id
        invariant wordIndex == -1
      {
        if words[i].id == id {
          wordIndex := i;
          break;
        }
        i := i + 1;
      }
      if wordIndex == -1 {
        assert forall w :: w in words ==> w.id != id;
        return;
      }
      FindIndexIsFirst(words, id, wordIndex);
      var updated := Graded(words[wordIndex], isKnown, now, today);
      var newWords := words[wordIndex := updated];
      state := state.(words := newWords);
    }

    method CheckIn(language: Language, today: Day)
      modifies this
      ensures state == CheckInStep(old(state), language, today)
    {
      var key := DayKey(today, language);
      if key in state.checkIns {
        return;
      }
      state := state.(checkIns := state.checkIns + [key]);
    }

    method WaterPlant(language: Language, today: Day)
      modifies this
      ensures state == WaterPlantStep(old(state), language, today)
    {
      var key := DayKey(today, language);
      if key in state.plant.waterHistory {
        return;
      }
      var newWaterLevel := state.plant.waterLevel + 1;
      var newPlantsCollected := state.plant.plantsCollected;
      var finalWaterLevel := newWaterLevel;
      if newWaterLevel >= WaterThreshold {
        newPlantsCollected := newPlantsCollected + 1;
        finalWaterLevel := 0;
      }
      state := state.(plant := PlantState(finalWaterLevel, newPlantsCollected, state.plant.waterHistory + [key]));
    }

    method RefreshState(today: Day)
      modifies this
      ensures state == RefreshStateStep(old(state), today)
    {
      state := RefreshStateStep(state, today);
    }
  }

  /** The first position holding an id is what `FindIndex` returns. */
  lemma FindIndexIsFirst(ws: seq<WordItem>, id: string, k: int)
    requires 0 <= k < |ws| && ws[k].id == id
    requires forall j :: 0 <= j < k ==> ws[j].id != id
    ensures FindIndex(ws, id) == k
  {
    var r := FindIndex(ws, id);
    assert r != -1 by { assert ws[k] in ws; }
  }
}
