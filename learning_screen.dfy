/** A learning or review session over one language: the queue of due words
    built when the session starts, a cursor into it, and the two grading
    transitions that record progress in the store and reorder the queue. */
module LearningScreen {
  import opened Types
  import opened JsString
  import opened Utils
  import opened AppContext

  datatype Mode = New | Review

  // ---------------------------------------------------------------------
  // Building the queue
  // ---------------------------------------------------------------------

  /** A word the session shows: new words have streak 0, review words a
      positive streak and a due day no later than today; neither kind may
      already be known today. */
  predicate Eligible(w: WordItem, language: Language, mode: Mode, today: Day)
  {
    match mode
    case New => w.language == language && w.streak == 0 && !w.isKnownToday
    case Review => w.language == language && w.streak > 0 && w.nextReviewDate <= today && !w.isKnownToday
  }

  /** `state.words.filter(...)` with the session's criterion. */
  function Due(ws: seq<WordItem>, language: Language, mode: Mode, today: Day): (r: seq<WordItem>)
    ensures |r| <= |ws|
    ensures forall w :: w in r <==> w in ws && Eligible(w, language, mode, today)
    ensures multiset(r) <= multiset(ws)
  {
    if ws == [] then []
    else
      var r := (if Eligible(ws[0], language, mode, today) then [ws[0]] else []) + Due(ws[1..], language, mode, today);
      assert ws == [ws[0]] + ws[1..];
      r
  }

  /** The filter works piecewise, so the kept words stay in their order in
      the word list, each as often as it occurs there. */
  lemma {:induction false} DueAppend(a: seq<WordItem>, b: seq<WordItem>, language: Language, mode: Mode, today: Day)
    ensures Due(a + b, language, mode, today) == Due(a, language, mode, today) + Due(b, language, mode, today)
  {
    if a != [] {
      DueAppend(a[1..], b, language, mode, today);
      DueAppendStep(a, b, language, mode, today);
    } else {
      assert a + b == b;
    }
  }

  /** The step of `DueAppend` that puts the head of `a` back. */
  lemma DueAppendStep(a: seq<WordItem>, b: seq<WordItem>, language: Language, mode: Mode, today: Day)
    requires a != []
    requires Due(a[1..] + b, language, mode, today) == Due(a[1..], language, mode, today) + Due(b, language, mode, today)
    ensures Due(a + b, language, mode, today) == Due(a, language, mode, today) + Due(b, language, mode, today)
  {
    var h, t := a[0], a[1..];
    var e := if Eligible(h, language, mode, today) then [h] else [];
    HeadSplit(a, b);
    DueCons(h, t + b, language, mode, today);
    DueCons(h, t, language, mode, today);
    var dt, db := Due(t, language, mode, today), Due(b, language, mode, today);
    ConcatAssoc(e, dt, db);
  }

  /** A non-empty list is its head followed by its tail, also in front of `b`. */
  lemma HeadSplit(a: seq<WordItem>, b: seq<WordItem>)
    requires a != []
    ensures a == [a[0]] + a[1..] && a + b == [a[0]] + (a[1..] + b)
  {
  }

  /** Concatenation is associative. */
  lemma ConcatAssoc(x: seq<WordItem>, y: seq<WordItem>, z: seq<WordItem>)
    ensures x + (y + z) == (x + y) + z
  {
  }

  /** The filter looks at the head, then at the rest. */
  lemma DueCons(w: WordItem, ws: seq<WordItem>, language: Language, mode: Mode, today: Day)
    ensures Due([w] + ws, language, mode, today)
            == (if Eligible(w, language, mode, today) then [w] else []) + Due(ws, language, mode, today)
  {
    assert ([w] + ws)[1..] == ws;
  }

  predicate SortedByAddedAt(ws: seq<WordItem>)
  {
    forall i, j :: 0 <= i < j < |ws| ==> ws[i].addedAt <= ws[j].addedAt
  }

  /** The words of `ws` added at timestamp `t`, in their order in `ws`. */
  function AddedAt(ws: seq<WordItem>, t: Timestamp): seq<WordItem>
  {
    if ws == [] then []
    else (if ws[0].addedAt == t then [ws[0]] else []) + AddedAt(ws[1..], t)
  }

  /** Put `x` in front of the first word of `ws` added no earlier than it. */
  function Insert(x: WordItem, ws: seq<WordItem>): (r: seq<WordItem>)
    ensures multiset(r) == multiset{x} + multiset(ws)
    ensures |r| == |ws| + 1 && r[0] == (if ws == [] || x.addedAt <= ws[0].addedAt then x else ws[0])
    ensures SortedByAddedAt(ws) ==> SortedByAddedAt(r)
  {
    if ws == [] then [x]
    else if x.addedAt <= ws[0].addedAt then
      assert SortedByAddedAt(ws) ==> SortedByAddedAt([x] + ws) by {
        if SortedByAddedAt(ws) {
          ConsSorted(x, ws);
        }
      }
      [x] + ws
    else
      var rest := Insert(x, ws[1..]);
      assert ws == [ws[0]] + ws[1..];
      assert SortedByAddedAt(ws) ==> SortedByAddedAt([ws[0]] + rest) by {
        if SortedByAddedAt(ws) {
          ConsSorted(ws[0], rest);
        }
      }
      [ws[0]] + rest
  }

  /** A word no later than the head of a sorted list can go in front of it. */
  lemma ConsSorted(w: WordItem, ws: seq<WordItem>)
    requires SortedByAddedAt(ws) && ws != [] && w.addedAt <= ws[0].addedAt
    ensures SortedByAddedAt([w] + ws)
  {
    var r := [w] + ws;
    forall i, j | 0 <= i < j < |r| ensures r[i].addedAt <= r[j].addedAt {
      if i == 0 {
        assert r[j] == ws[j - 1];
      } else {
        assert r[i] == ws[i - 1] && r[j] == ws[j - 1];
      }
    }
  }

  /** `sort((a, b) => a.addedAt - b.addedAt)`, which is stable: an insertion
      sort that puts each word in front of the ones added at the same time. */
  function SortByAddedAt(ws: seq<WordItem>): (r: seq<WordItem>)
    ensures multiset(r) == multiset(ws)
    ensures SortedByAddedAt(r)
  {
    if ws == [] then []
    else
      var r := Insert(ws[0], SortByAddedAt(ws[1..]));
      assert ws == [ws[0]] + ws[1..];
      r
  }

  /** Inserting keeps the order among the words added at any one time. */
  lemma {:induction false} InsertStable(x: WordItem, ws: seq<WordItem>, t: Timestamp)
    ensures AddedAt(Insert(x, ws), t) == (if x.addedAt == t then [x] else []) + AddedAt(ws, t)
  {
    if ws == [] {
      assert Insert(x, ws) == [x] + [];
      AddedAtCons(x, [], t);
    } else if x.addedAt <= ws[0].addedAt {
      assert Insert(x, ws) == [x] + ws;
      AddedAtCons(x, ws, t);
    } else {
      var rest := Insert(x, ws[1..]);
      assert Insert(x, ws) == [ws[0]] + rest;
      InsertStable(x, ws[1..], t);
      InsertStableStep(x, ws, rest, t);
    }
  }

  /** The step of `InsertStable` where `x` goes after the head. */
  lemma InsertStableStep(x: WordItem, ws: seq<WordItem>, rest: seq<WordItem>, t: Timestamp)
    requires ws != [] && x.addedAt > ws[0].addedAt
    requires AddedAt(rest, t) == (if x.addedAt == t then [x] else []) + AddedAt(ws[1..], t)
    ensures AddedAt([ws[0]] + rest, t) == (if x.addedAt == t then [x] else []) + AddedAt(ws, t)
  {
    AddedAtCons(ws[0], rest, t);
    AddedAtCons(ws[0], ws[1..], t);
    HeadSplit(ws, []);
    var tail := AddedAt(ws[1..], t);
    if x.addedAt == t {
      assert [] + ([x] + tail) == [x] + ([] + tail);
    } else {
      ConcatAssoc([], [], tail);
    }
  }

  /** The filter by timestamp looks at the head, then at the rest. */
  lemma AddedAtCons(w: WordItem, ws: seq<WordItem>, t: Timestamp)
    ensures AddedAt([w] + ws, t) == (if w.addedAt == t then [w] else []) + AddedAt(ws, t)
  {
    assert ([w] + ws)[1..] == ws;
  }

  /** The sort is stable: words added at the same time keep their order. */
  lemma {:induction false} SortStable(ws: seq<WordItem>, t: Timestamp)
    ensures AddedAt(SortByAddedAt(ws), t) == AddedAt(ws, t)
  {
    if ws != [] {
      SortStable(ws[1..], t);
      InsertStable(ws[0], SortByAddedAt(ws[1..]), t);
    }
  }

  /** Keeping the eligible words and keeping the words added at `t` can be
      done in either order. */
  lemma {:induction false} AddedAtOfDue(ws: seq<WordItem>, t: Timestamp, language: Language, mode: Mode, today: Day)
    ensures AddedAt(Due(ws, language, mode, today), t) == Due(AddedAt(ws, t), language, mode, today)
  {
    if ws != [] {
      AddedAtOfDue(ws[1..], t, language, mode, today);
      HeadSplit(ws, []);
      DueCons(ws[0], ws[1..], language, mode, today);
      AddedAtCons(ws[0], ws[1..], t);
      AddedAtOfDueStep(ws[0], ws[1..], t, language, mode, today);
    }
  }

  /** The step of `AddedAtOfDue` that puts the head back. */
  lemma AddedAtOfDueStep(w: WordItem, rest: seq<WordItem>, t: Timestamp, language: Language, mode: Mode, today: Day)
    requires AddedAt(Due(rest, language, mode, today), t) == Due(AddedAt(rest, t), language, mode, today)
    ensures var e := if Eligible(w, language, mode, today) then [w] else [];
            var a := if w.addedAt == t then [w] else [];
            AddedAt(e + Due(rest, language, mode, today), t) == Due(a + AddedAt(rest, t), language, mode, today)
  {
    var d, at := Due(rest, language, mode, today), AddedAt(rest, t);
    if Eligible(w, language, mode, today) {
      AddedAtCons(w, d, t);
    } else {
      assert [] + d == d;
    }
    if w.addedAt == t {
      DueCons(w, at, language, mode, today);
    } else {
      assert [] + at == at;
    }
  }

  /** The queue of a session, as its initialisation builds it. */
  function BuildQueue(ws: seq<WordItem>, language: Language, mode: Mode, today: Day): seq<WordItem>
  {
    SortByAddedAt(Due(ws, language, mode, today))
  }

  /** The queue holds exactly the eligible words, each as often as in the
      word list, oldest first, ties in the word list's order. */
  lemma BuildQueueSpec(ws: seq<WordItem>, language: Language, mode: Mode, today: Day)
    ensures var q := BuildQueue(ws, language, mode, today);
            && (forall w :: w in q <==> w in ws && Eligible(w, language, mode, today))
            && multiset(q) == multiset(Due(ws, language, mode, today))
            && SortedByAddedAt(q)
            && (forall t :: AddedAt(q, t) == AddedAt(Due(ws, language, mode, today), t))
            && forall t :: AddedAt(q, t) == Due(AddedAt(ws, t), language, mode, today)
  {
    var d := Due(ws, language, mode, today);
    forall w ensures w in SortByAddedAt(d) <==> w in d {
      assert w in SortByAddedAt(d) <==> w in multiset(SortByAddedAt(d));
    }
    forall t ensures AddedAt(SortByAddedAt(d), t) == AddedAt(d, t) == Due(AddedAt(ws, t), language, mode, today) {
      SortStable(d, t);
      AddedAtOfDue(ws, t, language, mode, today);
    }
  }

  /** Ids unique in the word list stay unique in the queue. */
  lemma {:induction false} DueKeepsUniqueIds(ws: seq<WordItem>, language: Language, mode: Mode, today: Day)
    requires UniqueIds(ws)
    ensures UniqueIds(Due(ws, language, mode, today))
  {
    if ws != [] {
      UniqueIdsTail(ws);
      DueKeepsUniqueIds(ws[1..], language, mode, today);
      var rest := Due(ws[1..], language, mode, today);
      if Eligible(ws[0], language, mode, today) {
        var r := [ws[0]] + rest;
        forall i, j | 0 <= i < j < |r| ensures r[i].id != r[j].id {
          if i == 0 {
            assert r[j] == rest[j - 1] && rest[j - 1] in ws[1..];
          } else {
            assert rest[i - 1].id != rest[j - 1].id;
          }
        }
      }
    }
  }

  lemma {:induction false} InsertKeepsUniqueIds(x: WordItem, ws: seq<WordItem>)
    requires UniqueIds(ws)
    requires forall w :: w in ws ==> w.id != x.id
    ensures UniqueIds(Insert(x, ws))
  {
    if ws != [] && x.addedAt > ws[0].addedAt {
      UniqueIdsTail(ws);
      InsertKeepsUniqueIds(x, ws[1..]);
      var rest := Insert(x, ws[1..]);
      var r := [ws[0]] + rest;
      forall i, j | 0 <= i < j < |r| ensures r[i].id != r[j].id {
        if i == 0 {
          assert r[j] == rest[j - 1] && rest[j - 1] in multiset(rest);
          assert rest[j - 1] == x || rest[j - 1] in ws[1..];
        } else {
          assert rest[i - 1].id != rest[j - 1].id;
        }
      }
    }
  }

  lemma {:induction false} SortKeepsUniqueIds(ws: seq<WordItem>)
    requires UniqueIds(ws)
    ensures UniqueIds(SortByAddedAt(ws))
  {
    if ws != [] {
      UniqueIdsTail(ws);
      SortKeepsUniqueIds(ws[1..]);
      forall w | w in SortByAddedAt(ws[1..]) ensures w.id != ws[0].id {
        assert w in multiset(SortByAddedAt(ws[1..]));
      }
      InsertKeepsUniqueIds(ws[0], SortByAddedAt(ws[1..]));
    }
  }

  lemma BuildQueueKeepsUniqueIds(ws: seq<WordItem>, language: Language, mode: Mode, today: Day)
    requires UniqueIds(ws)
    ensures UniqueIds(BuildQueue(ws, language, mode, today))
  {
    DueKeepsUniqueIds(ws, language, mode, today);
    SortKeepsUniqueIds(Due(ws, language, mode, today));
  }

  // ---------------------------------------------------------------------
  // Queue transitions
  // ---------------------------------------------------------------------

  /** "Don't know": take the word at `i` out and push it at the end. */
  function MoveToEnd(q: seq<WordItem>, i: int): (r: seq<WordItem>)
    requires 0 <= i < |q|
    ensures |r| == |q| && multiset(r) == multiset(q)
    ensures r[|r| - 1] == q[i]
    ensures forall j :: 0 <= j < i ==> r[j] == q[j]
    ensures forall j :: i <= j < |q| - 1 ==> r[j] == q[j + 1]
  {
    var r := q[..i] + q[i + 1..] + [q[i]];
    assert q == q[..i] + [q[i]] + q[i + 1..];
    r
  }

  lemma MoveToEndKeepsUniqueIds(q: seq<WordItem>, i: int)
    requires 0 <= i < |q| && UniqueIds(q)
    ensures UniqueIds(MoveToEnd(q, i))
  {
    var r := MoveToEnd(q, i);
    var n := |q|;
    forall a, b | 0 <= a < b < n ensures r[a].id != r[b].id {
      var pa := if a < i then a else a + 1;
      var pb := if b == n - 1 then i else if b < i then b else b + 1;
      assert r[a] == q[pa] && r[b] == q[pb] && pa != pb;
    }
  }

  /** The cursor after "know": unchanged while it still points into the
      queue, otherwise the last position (0 for an empty queue). */
  function ClampCursor(index: int, len: int): (r: int)
    requires 0 <= index && 0 <= len
    ensures len > 0 ==> 0 <= r < len
    ensures len == 0 ==> r == 0
    ensures index < len ==> r == index
    ensures index >= len ==> r == Max(0, len - 1)
  {
    if index >= len then Max(0, len - 1) else index
  }

  /** "Know" removes exactly the current word, so the queue shrinks by one,
      and the cursor stays on the word after it when there is one. */
  lemma KnowRemovesCurrent(q: seq<WordItem>, i: int)
    requires UniqueIds(q) && 0 <= i < |q|
    ensures var r := WithoutId(q, q[i].id);
            |r| == |q| - 1 && r == q[..i] + q[i + 1..]
            && q[i] !in r
            && (i < |r| ==> r[ClampCursor(i, |r|)] == q[i + 1])
            && (i == |r| && i > 0 ==> r[ClampCursor(i, |r|)] == q[i - 1])
  {
    WithoutIdRemovesOne(q, i);
  }

  /** A new character added today shows up in today's new-word session;
      knowing it moves it to level 1, due tomorrow, known today, and the
      session's completion checks Chinese in for today. */
  lemma AddThenKnow(s: AppState, id: string, now: Timestamp, now': Timestamp, today: Day)
    requires !Exists(s.words, "日", Chinese)
    requires Due(s.words, Chinese, New, today) == []
    ensures var s1 := AddWordStep(s, "日", Chinese, id, now, today).state;
            var w := s1.words[0];
            var s2 := UpdateWordProgressStep(s1, id, true, now', today);
            && w.text == "日" && w.streak == 0
            && BuildQueue(s1.words, Chinese, New, today) == [w]
            && WithoutId([w], w.id) == []
            && s2.words[0].streak == 1 && s2.words[0].nextReviewDate == today + 1 && s2.words[0].isKnownToday
            && DayKey(today, Chinese) in CheckInStep(s2, Chinese, today).checkIns
  {
    TrimOfTrimmed("日");
    var s1 := AddWordStep(s, "日", Chinese, id, now, today).state;
    var w := s1.words[0];
    assert s1.words[1..] == s.words;
    assert Due(s1.words, Chinese, New, today) == [w];
    assert SortByAddedAt([w]) == [w] by {
      assert [w][1..] == [];
    }
    assert FindIndex(s1.words, id) == 0;
  }

  // ---------------------------------------------------------------------
  // The session
  // ---------------------------------------------------------------------

  datatype Phase = EmptyAtStart | Active | Complete

  /** The state of one learning screen. Its queue is built once, from the
      words at the time the session starts, and not rebuilt afterwards. */
  class Session {
    const language: Language
    const mode: Mode
    var queue: seq<WordItem>
    var currentIndex: int
    var showComplete: bool
    var isProcessing: bool
    ghost var built: seq<WordItem>

    ghost predicate Valid()
      reads this
    {
      && (|queue| > 0 ==> 0 <= currentIndex < |queue|)
      && (|queue| == 0 ==> currentIndex == 0)
      && (showComplete ==> |queue| == 0 && |built| > 0)
      && (|queue| == 0 && !showComplete ==> built == [])
      && (isProcessing ==> |queue| > 0)
      && multiset(queue) <= multiset(built)
    }

    function Phase(): (p: Phase)
      reads this
      requires Valid()
      ensures p == EmptyAtStart <==> built == []
    {
      if showComplete then Complete else if |queue| == 0 then EmptyAtStart else Active
    }

    /** The initialisation effect: build the queue once. */
    constructor (app: AppProvider, language: Language, mode: Mode, today: Day)
      ensures Valid()
      ensures this.language == language && this.mode == mode
      ensures queue == BuildQueue(app.state.words, language, mode, today) && built == queue
      ensures currentIndex == 0 && !showComplete && !isProcessing
      ensures UniqueIds(app.state.words) ==> UniqueIds(queue)
    {
      var q := BuildQueue(app.state.words, language, mode, today);
      if UniqueIds(app.state.words) {
        BuildQueueKeepsUniqueIds(app.state.words, language, mode, today);
      }
      this.language := language;
      this.mode := mode;
      queue := q;
      built := q;
      currentIndex := 0;
      showComplete := false;
      isProcessing := false;
    }

    /** `handleNext`: one step forward, never past the last word. */
    method Next()
      requires Valid()
      modifies this`currentIndex
      ensures Valid()
      ensures currentIndex == if !isProcessing && old(currentIndex) < |queue| - 1
                              then old(currentIndex) + 1 else old(currentIndex)
    {
      if isProcessing {
        return;
      }
      if currentIndex < |queue| - 1 {
        currentIndex := currentIndex + 1;
      }
    }

    /** `handlePrev`: one step back, never before the first word. */
    method Prev()
      requires Valid()
      modifies this`currentIndex
      ensures Valid()
      ensures currentIndex == if !isProcessing && old(currentIndex) > 0
                              then old(currentIndex) - 1 else old(currentIndex)
    {
      if isProcessing {
        return;
      }
      if currentIndex > 0 {
        currentIndex := currentIndex - 1;
      }
    }

    /** `handleResult(true)`: record the word as known, drop it from the
      queue, clamp the cursor; an emptied queue completes the session, and
      completion checks the language in for today. */
    method Know(app: AppProvider, now: Timestamp, today: Day)
      requires Valid()
      modifies this`queue, this`currentIndex, this`showComplete, app
      ensures Valid()
      ensures isProcessing == old(isProcessing) && built == old(built)
      ensures old(isProcessing) || old(|queue|) == 0 ==>
                queue == old(queue) && currentIndex == old(currentIndex)
                && showComplete == old(showComplete) && app.state == old(app.state)
      ensures !old(isProcessing) && old(|queue|) > 0 ==>
                var id := old(queue)[old(currentIndex)].id;
                var graded := UpdateWordProgressStep(old(app.state), id, true, now, today);
                && queue == WithoutId(old(queue), id)
                && currentIndex == ClampCursor(old(currentIndex), |queue|)
                && showComplete == (queue == [])
                && app.state == (if queue == [] then CheckInStep(graded, language, today) else graded)
    {
      if isProcessing || |queue| == 0 {
        return;
      }
      var currentWord := queue[currentIndex];
      app.UpdateWordProgress(currentWord.id, true, now, today);
      ghost var graded := app.state;
      RemoveCurrent();
      if |queue| == 0 {
        app.CheckIn(language, today);
        assert app.state == CheckInStep(graded, language, today);
      } else {
        assert app.state == graded;
      }
    }

    /** The queue part of "know": filter the current word out, clamp the
      cursor when it ran past the end, and complete on an empty queue. */
    method RemoveCurrent()
      requires Valid() && |queue| > 0 && !isProcessing
      modifies this`queue, this`currentIndex, this`showComplete
      ensures Valid()
      ensures queue == WithoutId(old(queue), old(queue)[old(currentIndex)].id)
      ensures currentIndex == ClampCursor(old(currentIndex), |queue|)
      ensures showComplete == (queue == [])
    {
      var newQueue := WithoutId(queue, queue[currentIndex].id);
      KnowKeepsQueueFacts(queue, currentIndex, built);
      queue := newQueue;
      if currentIndex >= |newQueue| {
        currentIndex := Max(0, |newQueue| - 1);
      }
      if |newQueue| == 0 {
        showComplete := true;
      }
    }

    /** The first half of `handleResult(false)`: lock the screen and record
      the word as not known. */
    method BeginDontKnow(app: AppProvider, now: Timestamp, today: Day)
      requires Valid()
      modifies this`isProcessing, app
      ensures Valid()
      ensures old(isProcessing) || |queue| == 0 ==>
                isProcessing == old(isProcessing) && app.state == old(app.state)
      ensures !old(isProcessing) && |queue| > 0 ==>
                isProcessing
                && app.state == UpdateWordProgressStep(old(app.state), queue[currentIndex].id, false, now, today)
    {
      if isProcessing || |queue| == 0 {
        return;
      }
      isProcessing := true;
      app.UpdateWordProgress(queue[currentIndex].id, false, now, today);
    }

    /** The second half of `handleResult(false)`, after the pause: move the
      word to the end of the queue, keep the cursor, unlock. */
    method FinishDontKnow()
      requires Valid() && isProcessing
      modifies this`queue, this`isProcessing
      ensures Valid() && !isProcessing
      ensures queue == MoveToEnd(old(queue), currentIndex)
      ensures UniqueIds(old(queue)) ==> UniqueIds(queue)
    {
      queue := MoveToEnd(queue, currentIndex);
      isProcessing := false;
      if UniqueIds(old(queue)) {
        MoveToEndKeepsUniqueIds(old(queue), currentIndex);
      }
    }
  }

  /** What "know" keeps of the session's invariant about the queue. */
  lemma KnowKeepsQueueFacts(q: seq<WordItem>, i: int, built: seq<WordItem>)
    requires 0 <= i < |q| && multiset(q) <= multiset(built)
    ensures multiset(WithoutId(q, q[i].id)) <= multiset(built) && |built| > 0
  {
    WithoutIdShrinks(q, q[i].id);
    assert q[i] in multiset(built);
  }

  /** Removing words never adds any, counted with multiplicity. */
  lemma {:induction false} WithoutIdShrinks(ws: seq<WordItem>, id: string)
    ensures multiset(WithoutId(ws, id)) <= multiset(ws)
  {
    if ws != [] {
      var head := if ws[0].id == id then [] else [ws[0]];
      WithoutIdShrinks(ws[1..], id);
      HeadSplit(ws, []);
      assert WithoutId(ws, id) == head + WithoutId(ws[1..], id);
      ConsShrinks(ws[0], head, WithoutId(ws[1..], id), ws[1..]);
    }
  }

  /** Keeping at most the head and a sub-multiset of the tail keeps a
      sub-multiset of the whole list. */
  lemma ConsShrinks(w: WordItem, head: seq<WordItem>, rest: seq<WordItem>, tail: seq<WordItem>)
    requires head == [] || head == [w]
    requires multiset(rest) <= multiset(tail)
    ensures multiset(head + rest) <= multiset([w] + tail)
  {
  }
}
