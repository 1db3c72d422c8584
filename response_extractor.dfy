/** Turns the model's reply into the string `bogo_llm` returns: the fixed
    sentinel when the reply is absent or empty, otherwise "The sorted list is "
    followed by the leftmost bracket group of the stripped reply, or by the
    whole stripped reply wrapped in brackets when it holds no group. */
module ResponseExtractor {

  import opened Wrappers
  import opened Whitespace
  import opened BracketSearch

  /** Returned when the reply has no content. */
  const Sentinel: string := "I honestly have no idea! Get Bogo'd!"

  /** Every other result starts with this text. */
  const Lead: string := "The sorted list is "

  predicate StartsWith(s: string, prefix: string) {
    |prefix| <= |s| && s[..|prefix|] == prefix
  }

  /** The extraction. The emptiness test is applied to the reply as received,
      before stripping, so a reply made only of whitespace is not "empty". */
  function Extract(reply: Option<string>): (r: string)
    ensures r == Sentinel <==> reply == None || reply == Some("")
    ensures r != Sentinel ==> StartsWith(r, Lead)
  {
    if reply.None? || reply.value == "" then
      Sentinel
    else
      var text := Strip(reply.value);
      var r := match FindGroup(text)
        case Some(g) => Lead + text[g.start..g.end + 1]
        case None => Lead + "[" + text + "]";
      assert r[0] == Lead[0] != Sentinel[0];
      r
  }

  /** A reply whose stripped text has a group at `i`, and none before it,
      yields that group after the lead, and nothing else of the reply. */
  lemma ExtractLeftmostGroup(c: string, i: int, j: int)
    requires c != ""
    requires GroupAt(Strip(c), i, j)
    requires forall a, b :: 0 <= a < i ==> !GroupAt(Strip(c), a, b)
    ensures Extract(Some(c)) == Lead + Strip(c)[i..j + 1]
  {
    FindGroupLeftmost(Strip(c), i, j);
  }

  /** When the search finds a group, the result is the lead and that group. */
  lemma ExtractFound(c: string)
    requires c != ""
    requires FindGroup(Strip(c)).Some?
    ensures var g := FindGroup(Strip(c)).value;
      Extract(Some(c)) == Lead + Strip(c)[g.start..g.end + 1]
  {
  }

  /** The group that is returned is a contiguous piece of the reply itself,
      found at the same place once the leading whitespace is counted. */
  lemma ExtractGroupInReply(c: string)
    requires c != ""
    requires FindGroup(Strip(c)).Some?
    ensures var p := StripBounds(c).0;
      var g := FindGroup(Strip(c)).value;
      && p + g.end < |c|
      && Extract(Some(c)) == Lead + c[p + g.start..p + g.end + 1]
  {
    var g := FindGroup(Strip(c)).value;
    ExtractFound(c);
    StripPieceInSource(c, g.start, g.end + 1);
  }

  /** A reply whose stripped text holds no group is wrapped whole in brackets. */
  lemma ExtractFallback(c: string)
    requires c != ""
    requires forall a, b :: !GroupAt(Strip(c), a, b)
    ensures Extract(Some(c)) == Lead + "[" + Strip(c) + "]"
  {
  }

  /** A non-empty reply made only of whitespace is not the sentinel: it strips
      to nothing and is wrapped as an empty list. */
  lemma ExtractWhitespaceOnly(c: string)
    requires c != "" && AllSpace(c)
    ensures Extract(Some(c)) == "The sorted list is []"
  {
    StripEmptyIff(c);
    assert Strip(c) == [];
  }

  /** A group on its own is returned unchanged: it has nothing to strip and is
      its own leftmost match. */
  lemma ExtractGroupFixedPoint(s: string, i: int, j: int)
    requires GroupAt(s, i, j)
    ensures Extract(Some(s[i..j + 1])) == Lead + s[i..j + 1]
  {
    var m := s[i..j + 1];
    assert m[|m| - 1] == s[j];
    StripTrimmed(m);
    assert GroupAt(m, 0, |m| - 1) by {
      forall k | 0 < k < |m| - 1 ensures m[k] != ']' { assert m[k] == s[i + k]; }
    }
    ExtractLeftmostGroup(m, 0, |m| - 1);
  }

  /** Extracting again from what a match returned, lead removed, gives the same
      result: on a match, extraction is idempotent. */
  lemma ExtractMatchIdempotent(c: string)
    requires c != ""
    requires FindGroup(Strip(c)).Some?
    ensures var r := Extract(Some(c));
      StartsWith(r, Lead) && Extract(Some(r[|Lead|..])) == r
  {
    var t := Strip(c);
    var g := FindGroup(t).value;
    ExtractFound(c);
    MatchReextracts(t, g);
    ReextractFixedPoint(Extract(Some(c)), t[g.start..g.end + 1]);
  }

  /** The match the search returns, taken on its own, extracts to the lead
      followed by itself. */
  lemma MatchReextracts(t: string, g: Span)
    requires FindGroup(t) == Some(g)
    ensures g.end < |t| && Extract(Some(t[g.start..g.end + 1])) == Lead + t[g.start..g.end + 1]
  {
    ExtractGroupFixedPoint(t, g.start, g.end);
  }

  /** A result made of the lead and a piece that extracts to that same result
      is reproduced when the lead is removed and the piece extracted again. */
  lemma ReextractFixedPoint(r: string, m: string)
    requires r == Lead + m
    requires Extract(Some(m)) == r
    ensures StartsWith(r, Lead) && Extract(Some(r[|Lead|..])) == r
  {
    assert r[|Lead|..] == m;
  }

  /** No content at all gives the sentinel (the reply was None). */
  lemma ExtractAbsent()
    ensures Extract(None) == "I honestly have no idea! Get Bogo'd!"
  {
  }

  /** Prose around the list is dropped: text without `[` before a group, and
      anything after it, do not reach the result. */
  lemma ExtractDropsProse(before: string, group: string, after: string)
    requires '[' !in before
    requires GroupAt(group, 0, |group| - 1)
    ensures Extract(Some(before + group + after)) == Lead + group
  {
    var c := before + group + after;
    var i, j := |before|, |before| + |group| - 1;
    assert c[..i] == before;
    assert c[i..j + 1] == group;
    assert GroupAt(c, i, j) by {
      forall k | i < k < j ensures c[k] != ']' { assert c[k] == group[k - i]; }
    }
    ExtractFirstGroupOfReply(c, i, j);
  }

  /** The same on the raw reply: a group with no `[` before it in the reply
      is what follows the lead, whatever whitespace surrounds the reply. */
  lemma ExtractFirstGroupOfReply(c: string, i: int, j: int)
    requires GroupAt(c, i, j)
    requires '[' !in c[..i]
    ensures Extract(Some(c)) == Lead + c[i..j + 1]
  {
    var (lo, hi) := StripBounds(c);
    StrippedKeepsGroup(c, i, j);
    StrippedNoGroupBefore(c, i);
    ExtractLeftmostGroup(c, i - lo, j - lo);
    StripPieceInSource(c, i - lo, j - lo + 1);
  }

  /** Stripping never cuts into a group: it lies inside the kept range and is
      a group of the stripped text, shifted by the leading whitespace. */
  lemma StrippedKeepsGroup(c: string, i: int, j: int)
    requires GroupAt(c, i, j)
    ensures var (lo, hi) := StripBounds(c);
      && lo <= i && j < hi
      && GroupAt(Strip(c), i - lo, j - lo)
  {
    var (lo, hi) := StripBounds(c);
    var t := Strip(c);
    assert !IsSpace(c[i]) && !IsSpace(c[j]);
    assert lo <= i && j < hi;
    forall k | 0 <= k < hi - lo ensures t[k] == c[lo + k] {
    }
    assert t[i - lo] == '[' && t[j - lo] == ']';
    forall k | i - lo < k < j - lo ensures t[k] != ']' {
      assert t[k] == c[lo + k];
    }
  }

  /** A stretch of the reply without `[` stays without `[` once stripped, so
      no group of the stripped text starts in it. */
  lemma StrippedNoGroupBefore(c: string, i: nat)
    requires i <= |c| && '[' !in c[..i]
    requires StripBounds(c).0 <= i <= StripBounds(c).1
    ensures forall a, b :: 0 <= a < i - StripBounds(c).0 ==> !GroupAt(Strip(c), a, b)
  {
    var (lo, hi) := StripBounds(c);
    var t := Strip(c);
    var u := t[..i - lo];
    forall k | 0 <= k < |u| ensures u[k] != '[' {
      assert u[k] == c[..i][lo + k];
    }
    NoGroupBeforeOpen(t, i - lo);
  }

  /** The reply of the test with surrounding prose, written as its three
      parts: the prose before, the list, the prose after. */
  lemma ExtractDropsProseExample()
    ensures Extract(Some("Here is the sorted list: " + "[1, 2, 3]" + " Thank you!"))
         == "The sorted list is " + "[1, 2, 3]"
  {
    ExtractDropsProse("Here is the sorted list: ", "[1, 2, 3]", " Thank you!");
  }

  /** A reply without brackets is wrapped in brackets. */
  lemma ExtractWrapsBareList()
    ensures Extract(Some("1, 2, 3")) == "The sorted list is [1, 2, 3]"
  {
    var c := "1, 2, 3";
    StripTrimmed(c);
    assert forall a :: 0 <= a < |c| ==> c[a] != '[';
    ExtractFallback(c);
  }

  /** The pattern needs a character between the brackets, so "[]" is not a
      group: it falls through to the wrapping and comes back doubled. */
  lemma ExtractEmptyBrackets()
    ensures Extract(Some("[]")) == "The sorted list is [[]]"
  {
    var c := "[]";
    StripTrimmed(c);
    ExtractFallback(c);
  }
}
