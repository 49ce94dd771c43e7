/**
 * The string rules the editor and the list screen rely on: Kotlin's `isBlank`, Kotlin's
 * `split(Regex("\\s+"))`, `String.length` in UTF-16 code units, and the decimal form of a count.
 */
module Text {

  /**
   * `\s` as the JDK's `java.util.regex.Pattern` defines it without UNICODE_CHARACTER_CLASS:
   * `[ \t\n\x0B\f\r]`. The word count below is stated for this class.
   */
  predicate IsRegexSpace(c: char): (b: bool)
    ensures b ==> IsWhitespace(c)
  {
    c == ' ' || c == '\t' || c == '\n' || c == '\U{B}' || c == '\U{C}' || c == '\r'
  }

  /**
   * Kotlin's `Char.isWhitespace` on the JVM (`Character.isWhitespace || Character.isSpaceChar`):
   * U+0009..U+000D, U+001C..U+001F and the Unicode space, line and paragraph separators.
   */
  predicate IsWhitespace(c: char): (b: bool)
    ensures b ==> c <= '\U{3000}'
  {
    || ('\t' <= c <= '\r')
    || ('\U{1C}' <= c <= ' ')
    || c == '\U{A0}' || c == '\U{1680}'
    || ('\U{2000}' <= c <= '\U{200A}')
    || c == '\U{2028}' || c == '\U{2029}' || c == '\U{202F}' || c == '\U{205F}' || c == '\U{3000}'
  }

  /** Kotlin's `isBlank`: empty, or whitespace only. */
  function IsBlank(s: string): (b: bool)
    ensures b <==> forall i :: 0 <= i < |s| ==> IsWhitespace(s[i])
  {
    if s == [] then true
    else IsWhitespace(s[0]) && IsBlank(s[1..])
  }

  /** `s` holds no `\s` character. */
  ghost predicate NoSpace(s: string) {
    forall k :: 0 <= k < |s| ==> !IsRegexSpace(s[k])
  }

  /** Start of the first `\s+` match, or `|s|` when there is none. */
  function FirstSpace(s: string): (i: nat)
    ensures i <= |s|
    ensures NoSpace(s[..i])
    ensures i < |s| ==> IsRegexSpace(s[i])
  {
    if s == [] || IsRegexSpace(s[0]) then 0
    else
      var i := 1 + FirstSpace(s[1..]);
      assert forall k :: 1 <= k < i ==> s[..i][k] == s[1..][..i - 1][k - 1];
      i
  }

  /** End of the greedy `\s+` match that starts at `i`. */
  function SpaceRunEnd(s: string, i: nat): (j: nat)
    requires i < |s| && IsRegexSpace(s[i])
    ensures i < j <= |s|
    ensures forall k :: i <= k < j ==> IsRegexSpace(s[k])
    ensures j < |s| ==> !IsRegexSpace(s[j])
    decreases |s| - i
  {
    if i + 1 < |s| && IsRegexSpace(s[i + 1]) then SpaceRunEnd(s, i + 1) else i + 1
  }

  /**
   * Kotlin's `CharSequence.split(Regex("\\s+"))`: the input itself when nothing matches, otherwise
   * the pieces before, between and after the successive greedy matches, empty pieces included.
   */
  function SplitOnSpaces(s: string): (pieces: seq<string>)
    ensures |pieces| >= 1
    ensures forall n :: 0 <= n < |pieces| ==> NoSpace(pieces[n])
    decreases |s|
  {
    var i := FirstSpace(s);
    if i == |s| then
      assert s[..i] == s;
      [s]
    else
      [s[..i]] + SplitOnSpaces(s[SpaceRunEnd(s, i)..])
  }

  /** `.count { it.isNotEmpty() }`. */
  function CountNonEmpty(pieces: seq<string>): (n: nat)
    ensures n <= |pieces|
  {
    if pieces == [] then 0
    else (if pieces[0] != [] then 1 else 0) + CountNonEmpty(pieces[1..])
  }

  /** `wordCount` of `AddNoteScreen`. */
  function WordCount(content: string): (n: nat)
    ensures n <= |SplitOnSpaces(content)|
  {
    CountNonEmpty(SplitOnSpaces(content))
  }

  /**
   * Reference count of words: the positions where a maximal run of non-`\s` characters begins
   * (`afterSpace` says whether the position before `s` ends a run, or is the start of the text).
   */
  function RunStarts(s: string, afterSpace: bool): nat {
    if s == [] then 0
    else (if afterSpace && !IsRegexSpace(s[0]) then 1 else 0) + RunStarts(s[1..], IsRegexSpace(s[0]))
  }

  lemma {:induction false} RunStartsOverWord(s: string, i: nat, afterSpace: bool)
    requires 0 < i <= |s| && NoSpace(s[..i])
    ensures RunStarts(s, afterSpace) == (if afterSpace then 1 else 0) + RunStarts(s[i..], false)
    decreases i
  {
    assert !IsRegexSpace(s[..i][0]);
    if i > 1 {
      var w := s[1..][..i - 1];
      assert forall k :: 0 <= k < |w| ==> w[k] == s[k + 1];
      RunStartsOverWord(s[1..], i - 1, false);
      assert s[1..][i - 1..] == s[i..];
    }
  }

  lemma {:induction false} RunStartsOverSpaces(s: string, i: nat, j: nat, afterSpace: bool)
    requires i < j <= |s|
    requires forall k :: i <= k < j ==> IsRegexSpace(s[k])
    ensures RunStarts(s[i..], afterSpace) == RunStarts(s[j..], true)
    decreases j - i
  {
    assert s[i..][1..] == s[i + 1..];
    if i + 1 < j {
      RunStartsOverSpaces(s, i + 1, j, true);
    }
  }

  /** The word count of the editor is the number of maximal runs of non-`\s` characters. */
  lemma {:induction false} WordCountIsRunCount(s: string)
    ensures WordCount(s) == RunStarts(s, true)
    decreases |s|
  {
    var i := FirstSpace(s);
    if i == |s| {
      assert s[..i] == s;
      if s != [] {
        RunStartsOverWord(s, i, true);
      }
    } else {
      var j := SpaceRunEnd(s, i);
      var pieces := SplitOnSpaces(s);
      assert pieces == [s[..i]] + SplitOnSpaces(s[j..]);
      assert pieces[1..] == SplitOnSpaces(s[j..]);
      WordCountIsRunCount(s[j..]);
      RunStartsOverSpaces(s, i, j, i == 0);
      if i > 0 {
        RunStartsOverWord(s, i, true);
      } else {
        assert s[0..] == s;
      }
    }
  }

  /** No words exactly when every character is a `\s` character. */
  lemma {:induction false} NoWordsIffAllSpace(s: string)
    ensures WordCount(s) == 0 <==> forall k :: 0 <= k < |s| ==> IsRegexSpace(s[k])
  {
    WordCountIsRunCount(s);
    NoRunStartsIffAllSpace(s);
  }

  lemma {:induction false} NoRunStartsIffAllSpace(s: string)
    ensures RunStarts(s, true) == 0 <==> forall k :: 0 <= k < |s| ==> IsRegexSpace(s[k])
    decreases |s|
  {
    if s != [] && IsRegexSpace(s[0]) {
      NoRunStartsIffAllSpace(s[1..]);
      assert forall k :: 1 <= k < |s| ==> s[1..][k - 1] == s[k];
    }
  }

  /** A `\s` character is whitespace for `isBlank` too, so text with no words is blank. */
  lemma NoWordsIsBlank(s: string)
    requires WordCount(s) == 0
    ensures IsBlank(s)
  {
    NoWordsIffAllSpace(s);
  }

  /** The converse fails: a no-break space is blank for `isBlank` but counts as a word. */
  lemma NoBreakSpaceIsBlankWord()
    ensures IsBlank("\U{A0}") && WordCount("\U{A0}") == 1
  {
    assert FirstSpace("\U{A0}") == 1;
  }

  /** `String.length`: the number of UTF-16 code units; a character beyond U+FFFF takes two. */
  function Utf16Length(s: string): (n: nat)
    ensures |s| <= n <= 2 * |s|
  {
    if s == [] then 0
    else (if s[0] as int > 0xFFFF then 2 else 1) + Utf16Length(s[1..])
  }

  /** For text in the Basic Multilingual Plane the length is the number of characters. */
  lemma {:induction false} Utf16LengthOfBmp(s: string)
    requires forall k :: 0 <= k < |s| ==> s[k] as int <= 0xFFFF
    ensures Utf16Length(s) == |s|
  {
    if s != [] {
      assert forall k :: 0 <= k < |s| - 1 ==> s[1..][k] == s[k + 1];
      Utf16LengthOfBmp(s[1..]);
    }
  }

  predicate IsDigit(c: char) { '0' <= c <= '9' }

  function DigitChar(d: nat): (c: char)
    requires d < 10
    ensures IsDigit(c) && c as int - '0' as int == d
  {
    ('0' as int + d) as char
  }

  /** Kotlin's `Int.toString()` for a non-negative value: decimal digits, no leading zero. */
  function DecimalString(n: nat): (s: string)
    ensures |s| >= 1
    ensures forall k :: 0 <= k < |s| ==> IsDigit(s[k])
    ensures |s| > 1 ==> s[0] != '0'
  {
    if n < 10 then [DigitChar(n)] else DecimalString(n / 10) + [DigitChar(n % 10)]
  }

  function DigitValue(c: char): (d: nat)
    requires IsDigit(c)
    ensures d < 10
  {
    c as int - '0' as int
  }

  /** The value of a string of decimal digits. */
  function ParseDecimal(s: string): nat
    requires forall k :: 0 <= k < |s| ==> IsDigit(s[k])
  {
    if s == [] then 0
    else ParseDecimal(s[..|s| - 1]) * 10 + DigitValue(s[|s| - 1])
  }

  /** Reading the decimal form of a count gives the count back. */
  lemma {:induction false} DecimalRoundTrip(n: nat)
    ensures ParseDecimal(DecimalString(n)) == n
  {
    if n >= 10 {
      var s := DecimalString(n);
      assert s[..|s| - 1] == DecimalString(n / 10);
      DecimalRoundTrip(n / 10);
    }
  }
}
