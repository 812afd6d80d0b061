/**
 * The two pure string helpers of static/js/app.js: `capitalize` and
 * `truncateText`. Case mapping is modelled for ASCII letters only; every
 * other character maps to itself.
 */
module TextHelpers {

  predicate IsAsciiLower(c: char) { 'a' <= c <= 'z' }
  predicate IsAsciiUpper(c: char) { 'A' <= c <= 'Z' }

  /** `toUpperCase` on one character. */
  function UpperChar(c: char): (u: char)
    ensures !IsAsciiLower(u)
    ensures !IsAsciiLower(c) ==> u == c
  {
    if IsAsciiLower(c) then (c as int - 32) as char else c
  }

  /** `toLowerCase` on one character. */
  function LowerChar(c: char): (l: char)
    ensures !IsAsciiUpper(l)
    ensures !IsAsciiUpper(c) ==> l == c
  {
    if IsAsciiUpper(c) then (c as int + 32) as char else c
  }

  /** `toLowerCase` on a string. */
  function LowerAll(s: string): (r: string)
    ensures |r| == |s|
    ensures forall i :: 0 <= i < |s| ==> r[i] == LowerChar(s[i])
  {
    seq(|s|, i requires 0 <= i < |s| => LowerChar(s[i]))
  }

  /** `text.charAt(0).toUpperCase() + text.slice(1).toLowerCase()`. */
  function Capitalize(text: string): (r: string)
    ensures |r| == |text|
    ensures text == "" ==> r == ""
    ensures text != "" ==> r[0] == UpperChar(text[0])
    ensures forall i :: 1 <= i < |text| ==> r[i] == LowerChar(text[i])
  {
    if text == "" then "" else [UpperChar(text[0])] + LowerAll(text[1..])
  }

  /** A string `capitalize` leaves alone: no lower-case first letter, no upper-case letter after it. */
  predicate IsCapitalized(t: string)
  {
    (t != "" ==> !IsAsciiLower(t[0])) && forall i :: 1 <= i < |t| ==> !IsAsciiUpper(t[i])
  }

  /** The result of `capitalize` is capitalized, and the capitalized strings are exactly its fixed points. */
  lemma CapitalizeFixedPoints(t: string)
    ensures IsCapitalized(Capitalize(t))
    ensures Capitalize(t) == t <==> IsCapitalized(t)
  {
    if IsCapitalized(t) {
      assert forall i :: 0 <= i < |t| ==> Capitalize(t)[i] == t[i];
    }
  }

  /** `capitalize` is idempotent. */
  lemma CapitalizeIdempotent(t: string)
    ensures Capitalize(Capitalize(t)) == Capitalize(t)
  {
    CapitalizeFixedPoints(t);
    CapitalizeFixedPoints(Capitalize(t));
  }

  /**
   * Where `String.prototype.slice(0, end)` stops on a string of length `len`:
   * a negative end counts from the back, and the result is clamped to
   * [0, len].
   */
  function SliceEnd(len: nat, end: int): (k: nat)
    ensures k <= len
    ensures 0 <= end <= len ==> k == end
    ensures end > len ==> k == len
    ensures end < 0 ==> k == if len + end < 0 then 0 else len + end
  {
    if end < 0 then (if len + end < 0 then 0 else len + end)
    else if end > len then len
    else end
  }

  /** `truncateText(text, maxLength)`. */
  function TruncateText(text: string, maxLength: int): (r: string)
    ensures |text| <= maxLength ==> r == text
    ensures |text| > maxLength ==> |r| >= 3 && r[|r| - 3..] == "..." && r[..|r| - 3] <= text
  {
    if |text| <= maxLength then text
    else text[..SliceEnd(|text|, maxLength - 3)] + "..."
  }

  /**
   * A text that fits is returned unchanged; a longer one, with a limit of at
   * least 3, becomes its first `maxLength - 3` characters followed by "...",
   * exactly `maxLength` long and shorter than the text.
   */
  lemma TruncateTextSpec(text: string, maxLength: int)
    ensures |text| <= maxLength ==> TruncateText(text, maxLength) == text
    ensures |text| > maxLength >= 3 ==>
      TruncateText(text, maxLength) == text[..maxLength - 3] + "..."
      && |TruncateText(text, maxLength)| == maxLength < |text|
  {
  }

  /** With a limit of at least 3, the result never exceeds the limit and truncating twice changes nothing. */
  lemma TruncateTextIdempotent(text: string, maxLength: int)
    requires maxLength >= 3
    ensures |TruncateText(text, maxLength)| <= maxLength
    ensures TruncateText(TruncateText(text, maxLength), maxLength) == TruncateText(text, maxLength)
  {
    TruncateTextSpec(text, maxLength);
  }

  /**
   * With a limit below 3 the slice end is negative, counts from the back of
   * the text, and the result is longer than the limit.
   */
  lemma TruncateTextSmallLimit(text: string, maxLength: int)
    requires maxLength < 3 && |text| > maxLength
    ensures |TruncateText(text, maxLength)| > maxLength
    ensures TruncateText(text, maxLength)[|TruncateText(text, maxLength)| - 3..] == "..."
  {
  }

  /** The smallest case: `truncateText("abcdef", 2)` is "abcde...", eight characters. */
  lemma TruncateTextSmallLimitExample()
    ensures TruncateText("abcdef", 2) == "abcde..."
  {
    assert "abcdef"[..5] == "abcde";
  }
}
