/** The search `re.search(r"\[([^\]]+)\]", text)`: the leftmost `[` that is
    followed, after at least one character, by the first `]` after it. */
module BracketSearch {

  import opened Wrappers

  /** A match of the pattern: the text from index `start` to index `end`,
      both brackets included. */
  datatype Span = Span(start: nat, end: nat)

  /** The pattern matches `s[i..j + 1]`: `s[i]` is `[`, `s[j]` is `]`, at least
      one character lies between them and none of those characters is `]`.
      The negated class `[^\]]` admits every other character, `[` and line
      breaks included. */
  predicate GroupAt(s: string, i: int, j: int)
    ensures GroupAt(s, i, j) ==> 0 <= i < j < |s| && |s[i..j + 1]| >= 3 && ']' !in s[i + 1..j]
  {
    && 0 <= i < j < |s|
    && s[i] == '['
    && s[j] == ']'
    && i + 2 <= j
    && forall k :: i < k < j ==> s[k] != ']'
  }

  /** The first index at or after `k` that holds `]`, if there is one. */
  function NextClose(s: string, k: nat): (r: Option<nat>)
    decreases |s| - k
    ensures r.Some? ==> k <= r.value < |s| && s[r.value] == ']'
    ensures r.Some? ==> forall m :: k <= m < r.value ==> s[m] != ']'
    ensures r.None? ==> forall m :: k <= m < |s| ==> s[m] != ']'
  {
    if k >= |s| then None
    else if s[k] == ']' then Some(k)
    else NextClose(s, k + 1)
  }

  /** Tries each start index from `i` on, as the regular-expression engine
      does; at a `[` the group can only end at the first `]` after it (the
      class cannot consume a `]`, and giving characters back cannot produce
      one), and it needs one character in between. */
  function SearchFrom(s: string, i: nat): (r: Option<Span>)
    decreases |s| - i
    ensures r.Some? ==> i <= r.value.start && GroupAt(s, r.value.start, r.value.end)
    ensures r.Some? ==> forall a, b :: i <= a < r.value.start ==> !GroupAt(s, a, b)
    ensures r.None? ==> forall a, b :: i <= a ==> !GroupAt(s, a, b)
  {
    if i >= |s| then None
    else if s[i] == '[' && NextClose(s, i + 1).Some? && NextClose(s, i + 1).value >= i + 2 then
      Some(Span(i, NextClose(s, i + 1).value))
    else
      SearchFrom(s, i + 1)
  }

  /** `re.search` over the whole text. */
  function FindGroup(s: string): (r: Option<Span>)
    ensures r.Some? ==> GroupAt(s, r.value.start, r.value.end)
    ensures r.Some? ==> forall a, b :: 0 <= a < r.value.start ==> !GroupAt(s, a, b)
    ensures r.None? ==> forall a, b :: !GroupAt(s, a, b)
  {
    SearchFrom(s, 0)
  }

  /** The leftmost group is the match: whenever `s[i..j + 1]` is a group and
      no group starts before `i`, the search returns exactly that span. */
  lemma FindGroupLeftmost(s: string, i: int, j: int)
    requires GroupAt(s, i, j)
    requires forall a, b :: 0 <= a < i ==> !GroupAt(s, a, b)
    ensures FindGroup(s) == Some(Span(i, j))
  {
    var r := FindGroup(s);
    assert r.Some?;
    assert r.value.start == i;
  }

  /** No group can start in a stretch of text without `[`. */
  lemma NoGroupBeforeOpen(s: string, i: nat)
    requires i <= |s| && '[' !in s[..i]
    ensures forall a, b :: 0 <= a < i ==> !GroupAt(s, a, b)
  {
    forall a, b | 0 <= a < i ensures !GroupAt(s, a, b) {
      assert s[..i][a] == s[a];
    }
  }

  /** The match is a contiguous piece of the text that begins with `[`, ends
      with `]`, holds at least one character between them and no `]` inside. */
  lemma MatchShape(s: string)
    requires FindGroup(s).Some?
    ensures var m := s[FindGroup(s).value.start..FindGroup(s).value.end + 1];
      && |m| >= 3
      && m[0] == '['
      && m[|m| - 1] == ']'
      && forall k :: 0 <= k < |m| - 1 ==> m[k] != ']'
  {
    var g := FindGroup(s).value;
    var m := s[g.start..g.end + 1];
    forall k | 0 <= k < |m| - 1 ensures m[k] != ']' {
      assert m[k] == s[g.start + k];
    }
  }
}
