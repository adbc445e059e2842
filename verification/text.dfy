/**
  The few Kotlin string operations the view model relies on: `isBlank`,
  `isEmpty` and `contains(…, ignoreCase = true)`.
 */
module Text {

  /** Kotlin/JVM `Char.isWhitespace()`: `Character.isWhitespace(c) || Character.isSpaceChar(c)`,
      i.e. the ASCII controls TAB..CR and FS..US plus the Unicode space, line and
      paragraph separators. */
  predicate IsWhitespace(c: char)
  {
    || ('\t' <= c <= '\r')
    || ('\U{1C}' <= c <= '\U{1F}')
    || c == ' '
    || c == '\U{A0}'
    || c == '\U{1680}'
    || ('\U{2000}' <= c <= '\U{200A}')
    || c == '\U{2028}'
    || c == '\U{2029}'
    || c == '\U{202F}'
    || c == '\U{205F}'
    || c == '\U{3000}'
  }

  /** `CharSequence.isBlank()`: empty, or whitespace only. */
  predicate IsBlank(s: string)
  {
    forall k :: 0 <= k < |s| ==> IsWhitespace(s[k])
  }

  /** Case folding used when comparing characters ignoring case (ASCII letters only). */
  function LowerCase(c: char): char
  {
    if 'A' <= c <= 'Z' then (c as int + 32) as char else c
  }

  /** `regionMatches(…, ignoreCase = true)`: `query` occurs in `text` at `offset`. */
  predicate RegionMatchesIgnoreCase(text: string, offset: int, query: string)
  {
    && 0 <= offset
    && offset + |query| <= |text|
    && forall k :: 0 <= k < |query| ==> LowerCase(text[offset + k]) == LowerCase(query[k])
  }

  /** `indexOf(query, from, ignoreCase = true)`: the first offset at or after `from`
      where `query` occurs, or -1. */
  function IndexOfIgnoreCase(text: string, query: string, from: nat): (r: int)
    ensures r == -1 || from <= r
    ensures r == -1 <==> forall i :: from <= i ==> !RegionMatchesIgnoreCase(text, i, query)
    ensures r != -1 ==> RegionMatchesIgnoreCase(text, r, query)
    ensures r != -1 ==> forall i :: from <= i < r ==> !RegionMatchesIgnoreCase(text, i, query)
    decreases |text| - from
  {
    if from + |query| > |text| then -1
    else if RegionMatchesIgnoreCase(text, from, query) then from
    else IndexOfIgnoreCase(text, query, from + 1)
  }

  /** `text.contains(query, ignoreCase = true)`. */
  function ContainsIgnoreCase(text: string, query: string): (r: bool)
    ensures r <==> exists i :: RegionMatchesIgnoreCase(text, i, query)
  {
    IndexOfIgnoreCase(text, query, 0) >= 0
  }

  /** Every string contains the empty string. */
  lemma ContainsEmpty(text: string)
    ensures ContainsIgnoreCase(text, "")
  {
    assert RegionMatchesIgnoreCase(text, 0, "");
  }

  /** Containment ignoring case does not depend on the case of ASCII letters. */
  lemma ContainsIsCaseInsensitive(text: string, query: string, query': string)
    requires |query| == |query'|
    requires forall k :: 0 <= k < |query| ==> LowerCase(query[k]) == LowerCase(query'[k])
    ensures ContainsIgnoreCase(text, query) <==> ContainsIgnoreCase(text, query')
  {
    if ContainsIgnoreCase(text, query) {
      var i :| RegionMatchesIgnoreCase(text, i, query);
      assert RegionMatchesIgnoreCase(text, i, query');
    }
    if ContainsIgnoreCase(text, query') {
      var i :| RegionMatchesIgnoreCase(text, i, query');
      assert RegionMatchesIgnoreCase(text, i, query);
    }
  }
}
