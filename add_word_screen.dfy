/** The add-word form: a character-class check on the typed text, then a
    call to the store's `addWord`, with the feedback the form shows. */
module AddWordScreen {
  import opened Types
  import opened JsString
  import opened AppContext

  /** The two bracket classes of the form's regular expressions:
      `[一-龥]` and `[a-zA-Z\s]`. */
  datatype CharClass = Hanzi | LatinOrSpace

  predicate InClass(cls: CharClass, c: char)
  {
    match cls
    case Hanzi => '\U{4E00}' <= c <= '\U{9FA5}'
    case LatinOrSpace => ('a' <= c <= 'z') || ('A' <= c <= 'Z') || IsWhitespace(c)
  }

  /** Whether `^[cls]+$` matches all of `s`: one class character, then
      either the end or another match. */
  function FullMatch(cls: CharClass, s: string): (r: bool)
    ensures r <==> s != [] && forall k :: 0 <= k < |s| ==> InClass(cls, s[k])
  {
    if s == [] then false
    else if !InClass(cls, s[0]) then false
    else if |s| == 1 then true
    else
      var rest := FullMatch(cls, s[1..]);
      assert rest ==> forall k :: 0 <= k < |s| ==> InClass(cls, s[k]) by {
        if rest {
          forall k | 0 < k < |s| ensures InClass(cls, s[k]) { assert s[k] == s[1..][k - 1]; }
        }
      }
      assert (forall k :: 0 <= k < |s| ==> InClass(cls, s[k])) ==> rest by {
        if forall k :: 0 <= k < |s| ==> InClass(cls, s[k]) {
          forall k | 0 <= k < |s[1..]| ensures InClass(cls, s[1..][k]) { assert s[1..][k] == s[k + 1]; }
        }
      }
      rest
  }

  /** `validate`: the class follows the form's language. */
  function Validate(language: Language, text: string): (ok: bool)
    ensures language == Chinese ==>
              (ok <==> text != [] && forall k :: 0 <= k < |text| ==> '\U{4E00}' <= text[k] <= '\U{9FA5}')
    ensures language == English ==>
              (ok <==> text != [] && forall k :: 0 <= k < |text| ==>
                 ('a' <= text[k] <= 'z') || ('A' <= text[k] <= 'Z') || IsWhitespace(text[k]))
  {
    FullMatch(if language == Chinese then Hanzi else LatinOrSpace, text)
  }

  /** Valid Chinese input holds no whitespace, so trimming keeps it whole. */
  lemma ValidChineseIsTrimmed(text: string)
    requires Validate(Chinese, text)
    ensures Trim(text) == text
  {
    HanziIsNotWhitespace(text[0]);
    HanziIsNotWhitespace(text[|text| - 1]);
    TrimOfTrimmed(text);
  }

  lemma HanziIsNotWhitespace(c: char)
    requires InClass(Hanzi, c)
    ensures !IsWhitespace(c)
  {
  }

  /** English input made only of whitespace passes the check, and the store
      trims it to the empty text and files that as a word. */
  lemma BlankEnglishIsAccepted(s: AppState, text: string, id: string, now: Timestamp, today: Day)
    requires text != [] && AllWhitespace(text)
    requires forall w :: w in s.words && w.language == English ==> w.text != []
    ensures Validate(English, text)
    ensures var r := AddWordStep(s, text, English, id, now, today);
            r.result.success && r.state.words[0].text == []
  {
    assert Trim(text) == [];
    forall i | 0 <= i < |s.words| && s.words[i].language == English
      ensures ToLower(s.words[i].text) != ToLower([])
    {
      assert s.words[i] in s.words;
    }
  }

  // ---------------------------------------------------------------------
  // The form
  // ---------------------------------------------------------------------

  const ChineseOnlyMessage: string := "只能输入中文汉字"
  const EnglishOnlyMessage: string := "只能输入英文单词"

  datatype FeedbackKind = NoFeedback | SuccessFeedback | ErrorFeedback
  datatype Feedback = Feedback(kind: FeedbackKind, msg: string)

  /** What `handleSubmit` does with the current input. */
  datatype Decision = Skip | Reject | Send

  function Decide(language: Language, input: string): (d: Decision)
    ensures d == Skip <==> input == []
    ensures d == Reject <==> input != [] && !Validate(language, input)
    ensures d == Send ==> Validate(language, input)
  {
    if input == [] then Skip
    else if !Validate(language, input) then Reject
    else Send
  }

  class AddWordForm {
    const language: Language
    var input: string
    var feedback: Feedback

    constructor (language: Language)
      ensures this.language == language && input == [] && feedback == Feedback(NoFeedback, [])
    {
      this.language := language;
      input := [];
      feedback := Feedback(NoFeedback, []);
    }

    /** Typing replaces the input and clears the feedback. */
    method Change(text: string)
      modifies this
      ensures input == text && feedback == Feedback(NoFeedback, [])
    {
      input := text;
      feedback := Feedback(NoFeedback, []);
    }

    /** `handleSubmit`: nothing for an empty input; an error and no call to
      the store for input of the wrong script; otherwise `addWord`, clearing
      the input on success and showing the store's message either way. */
    method Submit(app: AppProvider, id: string, now: Timestamp, today: Day)
      modifies this, app
      ensures Decide(language, old(input)) == Skip ==>
                input == old(input) && feedback == old(feedback) && app.state == old(app.state)
      ensures Decide(language, old(input)) == Reject ==>
                && input == old(input) && app.state == old(app.state)
                && feedback == Feedback(ErrorFeedback, if language == Chinese then ChineseOnlyMessage else EnglishOnlyMessage)
      ensures Decide(language, old(input)) == Send ==>
                var r := AddWordStep(old(app.state), old(input), language, id, now, today);
                && app.state == r.state
                && input == (if r.result.success then [] else old(input))
                && feedback == Feedback(if r.result.success then SuccessFeedback else ErrorFeedback, r.result.message)
    {
      if input == [] {
        return;
      }
      if !Validate(language, input) {
        feedback := Feedback(ErrorFeedback, if language == Chinese then ChineseOnlyMessage else EnglishOnlyMessage);
        return;
      }
      var result := app.AddWord(input, language, id, now, today);
      if result.success {
        feedback := Feedback(SuccessFeedback, result.message);
        input := [];
      } else {
        feedback := Feedback(ErrorFeedback, result.message);
      }
    }
  }
}
