/** Python's `str.strip()` with no argument: remove every leading and every
    trailing character that `str.isspace()` accepts. Like CPython, it is
    computed as two indices: the first kept character, found scanning from the
    left, and the end of the kept text, found scanning back from the right
    without crossing the first. */
module Whitespace {

  /** The characters for which Python 3's `str.isspace()` is true: the ASCII
      controls TAB through CR and FS through US, SPACE, NEL, NO-BREAK SPACE and
      the Unicode space separators, line separator and paragraph separator. */
  predicate IsSpace(c: char)
    ensures IsSpace(c) <==> c in SpaceChars
  {
    || ('\t' <= c <= '\r')
    || ('\U{1C}' <= c <= ' ')
    || c == '\U{85}'
    || c == '\U{A0}'
    || c == '\U{1680}'
    || ('\U{2000}' <= c <= '\U{200A}')
    || c == '\U{2028}'
    || c == '\U{2029}'
    || c == '\U{202F}'
    || c == '\U{205F}'
    || c == '\U{3000}'
  }

  /** The same set, one character at a time. */
  const SpaceChars: set<char> := {
    '\t', '\n', '\U{B}', '\U{C}', '\r', '\U{1C}', '\U{1D}', '\U{1E}', '\U{1F}', ' ',
    '\U{85}', '\U{A0}', '\U{1680}',
    '\U{2000}', '\U{2001}', '\U{2002}', '\U{2003}', '\U{2004}', '\U{2005}',
    '\U{2006}', '\U{2007}', '\U{2008}', '\U{2009}', '\U{200A}',
    '\U{2028}', '\U{2029}', '\U{202F}', '\U{205F}', '\U{3000}'
  }

  predicate AllSpace(s: string) {
    forall k :: 0 <= k < |s| ==> IsSpace(s[k])
  }

  /** The first index at or after `i` whose character is not whitespace, or
      `|s|` when there is none. */
  function SkipSpaces(s: string, i: nat): (r: nat)
    requires i <= |s|
    decreases |s| - i
    ensures i <= r <= |s|
    ensures forall k :: i <= k < r ==> IsSpace(s[k])
    ensures r < |s| ==> !IsSpace(s[r])
  {
    if i < |s| && IsSpace(s[i]) then SkipSpaces(s, i + 1) else i
  }

  /** Scanning back from `j`, but not below `lo`: the end of the last
      non-whitespace character, or `lo` when there is none. */
  function SkipSpacesBack(s: string, lo: nat, j: nat): (r: nat)
    requires lo <= j <= |s|
    decreases j
    ensures lo <= r <= j
    ensures forall k :: r <= k < j ==> IsSpace(s[k])
    ensures r > lo ==> !IsSpace(s[r - 1])
  {
    if j > lo && IsSpace(s[j - 1]) then SkipSpacesBack(s, lo, j - 1) else j
  }

  /** Where the stripped text lies in `s`: outside the bounds everything is
      whitespace, and inside they start and end on non-whitespace. */
  function StripBounds(s: string): (b: (nat, nat))
    ensures b.0 <= b.1 <= |s|
    ensures forall k :: 0 <= k < b.0 ==> IsSpace(s[k])
    ensures forall k :: b.1 <= k < |s| ==> IsSpace(s[k])
    ensures b.0 < b.1 ==> !IsSpace(s[b.0]) && !IsSpace(s[b.1 - 1])
  {
    var lo := SkipSpaces(s, 0);
    (lo, SkipSpacesBack(s, lo, |s|))
  }

  /** `s.strip()`. */
  function Strip(s: string): (r: string)
    ensures |r| <= |s|
    ensures r == [] || (!IsSpace(r[0]) && !IsSpace(r[|r| - 1]))
  {
    s[StripBounds(s).0..StripBounds(s).1]
  }

  /** The bounds are determined by their specification: whenever everything
      outside `[a, b)` is whitespace, and `a < b` only when `s[a]` and
      `s[b - 1]` are not, the stripped text is `s[a..b]` (and when `a == b`
      the whole of `s` is whitespace and nothing remains). */
  lemma StripCharacterised(s: string, a: nat, b: nat)
    requires a <= b <= |s|
    requires forall k :: 0 <= k < a ==> IsSpace(s[k])
    requires forall k :: b <= k < |s| ==> IsSpace(s[k])
    requires a < b ==> !IsSpace(s[a]) && !IsSpace(s[b - 1])
    ensures Strip(s) == s[a..b]
  {
    var (lo, hi) := StripBounds(s);
    if a < b {
      // s[a] and s[b - 1] are not whitespace, so neither is stripped.
      assert lo <= a && b <= hi;
      // Both bounds land on non-whitespace, so neither lies outside [a, b).
      assert a <= lo && hi <= b;
    } else {
      // Every character is whitespace, so nothing survives.
      assert forall k :: 0 <= k < |s| ==> IsSpace(s[k]);
      assert lo == hi;
    }
  }

  /** A text that does not start or end with whitespace is its own strip. */
  lemma StripTrimmed(s: string)
    requires s == [] || (!IsSpace(s[0]) && !IsSpace(s[|s| - 1]))
    ensures Strip(s) == s
  {
    StripCharacterised(s, 0, |s|);
  }

  /** Any piece of the stripped text is the same piece of `s`, shifted by the
      number of leading whitespace characters. */
  lemma StripPieceInSource(s: string, x: nat, y: nat)
    requires x <= y <= |Strip(s)|
    ensures var lo := StripBounds(s).0;
      lo + y <= |s| && Strip(s)[x..y] == s[lo + x..lo + y]
  {
    var (lo, hi) := StripBounds(s);
    forall k | 0 <= k < y - x ensures Strip(s)[x..y][k] == s[lo + x..lo + y][k] {
      assert Strip(s)[x + k] == s[lo + x + k];
    }
  }

  /** Stripping twice is stripping once. */
  lemma StripIdempotent(s: string)
    ensures Strip(Strip(s)) == Strip(s)
  {
    StripTrimmed(Strip(s));
  }

  /** The stripped text is empty exactly when the input is all whitespace. */
  lemma StripEmptyIff(s: string)
    ensures Strip(s) == [] <==> AllSpace(s)
  {
    if AllSpace(s) {
      StripCharacterised(s, 0, 0);
    }
  }
}
