/** The prompt `bogo_llm` sends: the rendered numbers joined with ", " and
    placed in brackets after a fixed instruction. */
module PromptBuilder {

  import opened Wrappers

  /** The instruction, in the three parts the rest of the model refers to: the
      request, the example list it shows, and the lead-in to the numbers.
      The request is spelled in short pieces, which the verifier can look
      into character by character. */
  const Request: string :=
    "Sort the following " + "list of numbers and " + "return ONLY the " +
    "sorted list in " + "bracket notation " + "like this: "
  const Example: string := "[num1, num2, num3]"
  const LeadIn: string := ". Do not add any other text. Here is the list: "
  const Instruction: string := Request + Example + LeadIn

  /** A number as `str()` renders it: never empty and never with a comma. */
  predicate Rendered(x: string) {
    x != "" && ',' !in x
  }

  predicate AllRendered(xs: seq<string>) {
    forall i :: 0 <= i < |xs| ==> Rendered(xs[i])
  }

  /** `", ".join(items)`: one item is itself; more start with the first item
      and end with the last. */
  function Join(items: seq<string>): (r: string)
    ensures |items| == 1 ==> r == items[0]
    ensures |items| >= 1 ==> |items[0]| <= |r| && r[..|items[0]|] == items[0]
    ensures |items| >= 1 ==> var last := items[|items| - 1];
      |last| <= |r| && r[|r| - |last|..] == last
  {
    if |items| == 0 then ""
    else if |items| == 1 then items[0]
    else items[0] + ", " + Join(items[1..])
  }

  /** The prompt for already-rendered numbers, in the caller's order. */
  function BuildPrompt(rendered: seq<string>): (p: string)
    ensures |p| >= |Instruction| + 2 && p[..|Instruction| + 1] == Instruction + "["
    ensures p[|p| - 1] == ']'
  {
    Instruction + "[" + Join(rendered) + "]"
  }

  predicate SeparatorAt(s: string, k: int) {
    0 <= k && k + 1 < |s| && s[k] == ',' && s[k + 1] == ' '
  }

  /** The first index at or after `k` where ", " starts, if any. */
  function FindSeparator(s: string, k: nat): (r: Option<nat>)
    decreases |s| - k
    ensures r.Some? ==> k <= r.value && SeparatorAt(s, r.value)
    ensures r.Some? ==> forall m :: k <= m < r.value ==> !SeparatorAt(s, m)
    ensures r.None? ==> forall m :: k <= m ==> !SeparatorAt(s, m)
  {
    if k + 1 >= |s| then None
    else if SeparatorAt(s, k) then Some(k)
    else FindSeparator(s, k + 1)
  }

  /** `s.split(", ")`, the reference reading of a joined list: the pieces
      between consecutive separators, left to right (always at least one). */
  function Split(s: string): (r: seq<string>)
    decreases |s|
    ensures |r| >= 1
  {
    match FindSeparator(s, 0)
    case Some(k) => [s[..k]] + Split(s[k + 2..])
    case None => [s]
  }

  /** Reads the numbers back out of a prompt: the text between the bracket
      after the instruction and the final bracket, split at the separators. */
  function ParsePrompt(p: string): (r: Option<seq<string>>)
  {
    if |p| >= |Instruction| + 2 && p[..|Instruction| + 1] == Instruction + "[" && p[|p| - 1] == ']' then
      var inner := p[|Instruction| + 1..|p| - 1];
      Some(if inner == "" then [] else Split(inner))
    else
      None
  }

  /** Splitting a join gives the items back, in order, when no item has a
      comma: the join neither loses, reorders nor merges numbers. */
  lemma {:induction false} SplitJoin(items: seq<string>)
    requires |items| >= 1
    requires forall i :: 0 <= i < |items| ==> ',' !in items[i]
    ensures Split(Join(items)) == items
  {
    var s := Join(items);
    var x := items[0];
    if |items| == 1 {
      // A single item has no comma, so it has no separator either.
      forall m | 0 <= m < |s| ensures s[m] != ',' {
        assert s[m] in x;
      }
    } else {
      var rest := Join(items[1..]);
      assert s == x + ", " + rest;
      assert SeparatorAt(s, |x|);
      forall m | 0 <= m < |x| ensures !SeparatorAt(s, m) {
        assert s[m] == x[m];
      }
      assert FindSeparator(s, 0) == Some(|x|);
      assert s[..|x|] == x;
      assert s[|x| + 2..] == rest;
      SplitJoin(items[1..]);
      assert [x] + items[1..] == items;
    }
  }

  /** A joined list of rendered numbers is empty only for no numbers. */
  lemma JoinEmptyIff(items: seq<string>)
    requires AllRendered(items)
    ensures Join(items) == "" <==> items == []
  {
    if |items| >= 1 {
      assert Rendered(items[0]);
    }
  }

  /** The prompt keeps the numbers: they are read back from it exactly, in
      the caller's order. */
  lemma PromptRoundTrip(rendered: seq<string>)
    ensures AllRendered(rendered) ==> ParsePrompt(BuildPrompt(rendered)) == Some(rendered)
  {
    if AllRendered(rendered) {
      var p := BuildPrompt(rendered);
      var j := Join(rendered);
      assert p[|Instruction| + 1..|p| - 1] == j;
      JoinEmptyIff(rendered);
      if rendered != [] {
        SplitJoin(rendered);
      }
    }
  }

  /** No numbers give a prompt that ends with "Here is the list: []". */
  lemma PromptForNoNumbers()
    ensures var p := BuildPrompt([]);
      |p| >= 20 && p[|p| - 20..] == "Here is the list: []"
  {
  }
}
