/** The JavaScript string built-ins the core relies on: `trim`, `toLowerCase`
    and the whitespace class `\s` of regular expressions. */
module JsString {

  /** A JavaScript WhiteSpace or LineTerminator code point: the set that
      `String.prototype.trim` strips and that `\s` matches (tab to carriage
      return, space, no-break space, the Ogham space mark, the spaces U+2000 to
      U+200A, the line and paragraph separators, the narrow no-break and medium
      mathematical spaces, the ideographic space and the byte order mark). */
  predicate IsWhitespace(c: char)
  {
    var n := c as int;
    (9 <= n <= 13) || n == 0x20 || n == 0xA0 || n == 0x1680 || (0x2000 <= n <= 0x200A)
    || n == 0x2028 || n == 0x2029 || n == 0x202F || n == 0x205F || n == 0x3000 || n == 0xFEFF
  }

  predicate AllWhitespace(s: string)
  {
    forall k :: 0 <= k < |s| ==> IsWhitespace(s[k])
  }

  /** The first position at or after `i` that does not hold whitespace (or
      the end of `s`): everything skipped is whitespace. */
  function SkipLeading(s: string, i: int): (j: int)
    requires 0 <= i <= |s|
    ensures i <= j <= |s|
    ensures forall k :: i <= k < j ==> IsWhitespace(s[k])
    ensures j < |s| ==> !IsWhitespace(s[j])
    decreases |s| - i
  {
    if i < |s| && IsWhitespace(s[i]) then SkipLeading(s, i + 1) else i
  }

  /** The end of `s[lo..j]` once its trailing whitespace is dropped:
      everything dropped is whitespace, and what remains ends with a
      character that is not. */
  function SkipTrailing(s: string, lo: int, j: int): (e: int)
    requires 0 <= lo <= j <= |s|
    ensures lo <= e <= j
    ensures forall k :: e <= k < j ==> IsWhitespace(s[k])
    ensures e > lo ==> !IsWhitespace(s[e - 1])
    decreases j
  {
    if j > lo && IsWhitespace(s[j - 1]) then SkipTrailing(s, lo, j - 1) else j
  }

  /** `String.prototype.trim`: the middle slice of `s` between its leading and
      trailing whitespace. */
  function Trim(s: string): (r: string)
    ensures exists i, j :: 0 <= i <= j <= |s| && r == s[i..j]
                           && (forall k :: 0 <= k < i ==> IsWhitespace(s[k]))
                           && (forall k :: j <= k < |s| ==> IsWhitespace(s[k]))
    ensures r != [] ==> !IsWhitespace(r[0]) && !IsWhitespace(r[|r| - 1])
    ensures r == [] <==> AllWhitespace(s)
  {
    var i := SkipLeading(s, 0);
    var e := SkipTrailing(s, i, |s|);
    assert e > i ==> !AllWhitespace(s);
    s[i..e]
  }

  /** Text that starts and ends with non-whitespace is its own trim. */
  lemma TrimOfTrimmed(s: string)
    requires s != [] && !IsWhitespace(s[0]) && !IsWhitespace(s[|s| - 1])
    ensures Trim(s) == s
  {
    assert SkipLeading(s, 0) == 0;
    assert SkipTrailing(s, 0, |s|) == |s|;
  }

  lemma TrimIdempotent(s: string)
    ensures Trim(Trim(s)) == Trim(s)
  {
    var r := Trim(s);
    if r != [] {
      TrimOfTrimmed(r);
    }
  }

  /** `toLowerCase` on one character. Only the ASCII letters are mapped: a
      capital goes to its own small letter, 32 code points further on, and
      every other character stays. */
  function LowerChar(c: char): (r: char)
    ensures 'A' <= c <= 'Z' ==> r as int == c as int + 32
    ensures !('A' <= c <= 'Z') ==> r == c
    ensures !('A' <= r <= 'Z')
    ensures 'a' <= r <= 'z' <==> ('a' <= c <= 'z' || 'A' <= c <= 'Z')
  {
    if 'A' <= c <= 'Z' then (c as int - 'A' as int + 'a' as int) as char else c
  }

  /** Two characters that are equal once ASCII letter case is ignored: the
      same character, or a capital and its small letter. */
  predicate SameIgnoringCase(c: char, d: char)
  {
    c == d
    || ('A' <= c <= 'Z' && d as int == c as int + 32)
    || ('A' <= d <= 'Z' && c as int == d as int + 32)
  }

  /** Lower-casing identifies two characters exactly when they differ at
      most in ASCII letter case. */
  lemma LowerCharEqIff(c: char, d: char)
    ensures LowerChar(c) == LowerChar(d) <==> SameIgnoringCase(c, d)
  {
    if 'A' <= c <= 'Z' {
      assert LowerChar(c) as int == c as int + 32;
    }
    if 'A' <= d <= 'Z' {
      assert LowerChar(d) as int == d as int + 32;
    }
  }

  /** `String.prototype.toLowerCase` on the characters it maps here. */
  function ToLower(s: string): (r: string)
    ensures |r| == |s|
    ensures forall k :: 0 <= k < |s| ==> r[k] == LowerChar(s[k])
  {
    seq(|s|, k requires 0 <= k < |s| => LowerChar(s[k]))
  }

  /** Lower-casing a slice is slicing the lower-cased text. */
  lemma ToLowerSlice(s: string, i: int, j: int)
    requires 0 <= i <= j <= |s|
    ensures ToLower(s[i..j]) == ToLower(s)[i..j]
  {
  }

  /** Two texts lower-case to the same text exactly when they have the same
      length and differ at most in ASCII letter case, position by position. */
  lemma ToLowerEqIff(a: string, b: string)
    ensures ToLower(a) == ToLower(b)
            <==> |a| == |b| && forall k :: 0 <= k < |a| ==> SameIgnoringCase(a[k], b[k])
  {
    if ToLower(a) == ToLower(b) {
      forall k | 0 <= k < |a| ensures SameIgnoringCase(a[k], b[k]) {
        assert ToLower(a)[k] == ToLower(b)[k];
        LowerCharEqIff(a[k], b[k]);
      }
    }
    if |a| == |b| && forall k :: 0 <= k < |a| ==> SameIgnoringCase(a[k], b[k]) {
      forall k | 0 <= k < |a| ensures ToLower(a)[k] == ToLower(b)[k] {
        LowerCharEqIff(a[k], b[k]);
      }
    }
  }

  lemma ToLowerIdempotent(s: string)
    ensures ToLower(ToLower(s)) == ToLower(s)
  {
  }
}
