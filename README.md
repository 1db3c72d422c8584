# bogo-llm in Dafny

A model of `bogo_llm`, the one function of bogo-llm that has any logic of its
own. It "sorts" a list of numbers by asking a chat-completion service to sort
them. It builds a prompt, sends one request, and recovers a bracketed list from
whatever text comes back. The model has the same three stages. The remote
service is a parameter.

- `PromptBuilder` (prompt_builder.dfy): the instruction text and
  `", ".join(map(str, numbers))` spliced into it. A reference reading,
  `Split`/`ParsePrompt` (Python's `str.split(", ")`), recovers the numbers. The
  round-trip lemmas show that the prompt keeps every number, in order.
- `ModelClient` (model_client.dfy): the request record: base URL, key, model,
  one user message and temperature 0.1. It also holds the defaults
  `local-model`, `http://localhost:1234/v1` and `not-needed`; the first two are
  default arguments, as in the Python signature. It reads
  `choices[0].message.content` from a response. `Endpoint` stands for the
  service: a function from a request to a response or a transport failure.
- `Whitespace` (whitespace.dfy): `str.strip()`. Like CPython, it scans inward
  from both ends. The whitespace set is Python 3's `str.isspace()` characters,
  listed one by one.
- `BracketSearch` (bracket_search.dfy): `re.search(r"\[([^\]]+)\]", text)`,
  written as a search over start indices. The match starts at the leftmost `[`
  whose first following `]` has at least one character before it. The match
  runs to that `]`. The characters in between may include `[` and line breaks.
- `ResponseExtractor` (response_extractor.dfy): there are three outcomes.
  - The sentinel `I honestly have no idea! Get Bogo'd!` when the content is
    `None` or `""`.
  - `The sorted list is ` and the leftmost group.
  - `The sorted list is [` + stripped reply + `]` when there is no group.
- `Bogosort` (bogosort.dfy): the pipeline, plus the end-to-end scenarios of the
  tests.

The code tests for empty content before it strips the reply
(bogosort.py:40-43), which leads to two outcomes a reader might not expect:
- A reply made only of whitespace is not the sentinel. It gives
  `The sorted list is []` (`ExtractWhitespaceOnly`).
- The reply `[]` is not a group, because `+` needs one character. It gives
  `The sorted list is [[]]`, not `The sorted list is []` (`ExtractEmptyBrackets`,
  `EmptyListReply`). The test at test.py:84-95 only checks that `[]` occurs in
  the result.

## Model

| member | source | states |
|---|---|---|
| `Whitespace.IsSpace` | bogosort.py:41 | a character is whitespace exactly when it is one of the 29 characters Python's `str.isspace()` accepts, listed one by one |
| `Whitespace.SkipSpaces` | bogosort.py:41 | the left scan of `strip()` stops at the first non-whitespace character at or after the start, or at the end; everything it skips is whitespace |
| `Whitespace.SkipSpacesBack` | bogosort.py:41 | the right scan of `strip()` stops just after the last non-whitespace character and never crosses the left bound; everything it skips is whitespace |
| `Whitespace.StripBounds` | bogosort.py:41 | the kept range has only whitespace outside it and starts and ends on non-whitespace |
| `Whitespace.Strip` | bogosort.py:41 | the stripped text is no longer than the input and neither starts nor ends with whitespace |
| `Whitespace.StripCharacterised` | bogosort.py:41 | any range with only whitespace outside it and non-whitespace at both of its ends is exactly what `strip()` keeps |
| `Whitespace.StripPieceInSource` | bogosort.py:41 | each piece of the stripped text is the same piece of the original reply, shifted by the leading whitespace |
| `Whitespace.StripIdempotent` | bogosort.py:41 | stripping twice equals stripping once |
| `Whitespace.StripEmptyIff` | bogosort.py:40-41 | the stripped text is empty if and only if the reply is all whitespace |
| `BracketSearch.GroupAt` | bogosort.py:46 | a group lies inside the text, spans at least three characters and has no `]` between its brackets |
| `BracketSearch.NextClose` | bogosort.py:46 | finds the first `]` at or after an index, or reports that there is none |
| `BracketSearch.SearchFrom` | bogosort.py:46 | the returned span is a group (`[`, at least one non-`]` character, `]`) and no group starts between the search start and it; `None` means no group starts at or after the search start |
| `BracketSearch.FindGroup` | bogosort.py:46 | `re.search` returns a group, and no group starts before it; `None` means the text holds no group |
| `BracketSearch.FindGroupLeftmost` | bogosort.py:46 | whenever a group starts at `i` and none starts earlier, the search returns exactly that group |
| `BracketSearch.NoGroupBeforeOpen` | bogosort.py:46 | text without `[` cannot start a group |
| `BracketSearch.MatchShape` | bogosort.py:46-48 | `match.group(0)` is at least three characters long, starts with `[`, ends with `]`, and has no `]` before its end |
| `ResponseExtractor.Extract` | bogosort.py:39-51 | the result is the sentinel exactly when the content is `None` or `""`; every other result starts with `The sorted list is ` |
| `ResponseExtractor.ExtractLeftmostGroup` | bogosort.py:45-49 | if the stripped reply has a group at `i` and none earlier, the result is the lead followed by exactly that group |
| `ResponseExtractor.ExtractGroupInReply` | bogosort.py:41-49 | the returned group is a contiguous substring of the raw reply, at the group's offset plus the leading whitespace |
| `ResponseExtractor.ExtractFallback` | bogosort.py:50-51 | if the stripped reply has no group, the result is the lead followed by `[`, the stripped reply and `]` |
| `ResponseExtractor.ExtractWhitespaceOnly` | bogosort.py:40-51 | a non-empty, all-whitespace reply gives `The sorted list is []`, not the sentinel |
| `ResponseExtractor.ExtractGroupFixedPoint` | bogosort.py:46-49 | any group, sent alone as the reply, comes back unchanged after the lead |
| `ResponseExtractor.ExtractMatchIdempotent` | bogosort.py:39-49 | when the search matched, extracting again from the result minus the lead gives the same result |
| `ResponseExtractor.MatchReextracts` | bogosort.py:46-49 | the match the search returns, sent alone as the reply, comes back unchanged after the lead |
| `ResponseExtractor.ExtractAbsent` | bogosort.py:39-43 | content `None` gives the sentinel |
| `ResponseExtractor.ExtractDropsProse` | bogosort.py:41-49 | text without `[` before a group, and any text after it, are dropped, whatever whitespace they hold |
| `ResponseExtractor.ExtractFirstGroupOfReply` | bogosort.py:41-49 | a group of the raw reply with no `[` before it is the result after the lead, whatever whitespace surrounds the reply |
| `ResponseExtractor.StrippedKeepsGroup` | bogosort.py:41-46 | stripping keeps every group of the reply, shifted left by the leading whitespace |
| `ResponseExtractor.StrippedNoGroupBefore` | bogosort.py:41-46 | no group of the stripped reply starts before a point of the reply that has no `[` ahead of it |
| `ResponseExtractor.ExtractDropsProseExample` | test.py:139-151 | `Here is the sorted list: [1, 2, 3] Thank you!` gives `The sorted list is [1, 2, 3]` |
| `ResponseExtractor.ExtractWrapsBareList` | test.py:166-178 | `1, 2, 3` gives `The sorted list is [1, 2, 3]` |
| `ResponseExtractor.ExtractEmptyBrackets` | bogosort.py:46-51 | `[]` is not a group and gives `The sorted list is [[]]` |
| `PromptBuilder.Join` | bogosort.py:30 | joining one item gives that item; a join of one or more items starts with the first and ends with the last |
| `PromptBuilder.BuildPrompt` | bogosort.py:30-31 | the prompt is the instruction, then `[`, and it ends with `]` |
| `PromptBuilder.SplitJoin` | bogosort.py:30 | splitting the `", "`-join of comma-free items at `", "` gives back the items in order |
| `PromptBuilder.JoinEmptyIff` | bogosort.py:30 | the join of rendered numbers is empty if and only if there are no numbers |
| `PromptBuilder.PromptRoundTrip` | bogosort.py:30-31 | the rendered numbers can be read back from the prompt exactly, in the caller's order |
| `PromptBuilder.PromptForNoNumbers` | bogosort.py:31 | an empty list gives a prompt that ends with `Here is the list: []` |
| `ModelClient.BuildRequest` | bogosort.py:23-37 | the request has the caller's model and URL (by default `local-model` and `http://localhost:1234/v1`), always the default key, one `user` message and temperature 0.1; the message content carries the numbers recoverably |
| `ModelClient.Complete` | bogosort.py:33-39 | one call; succeeds exactly when the service answers with at least one choice, and then returns the first choice's content; a transport failure is passed on |
| `Bogosort.BogoLlm` | bogosort.py:23-51 | the model and URL default as in the signature; fails exactly when the call fails, with the call's error; otherwise the result is the sentinel or starts with `The sorted list is ` |
| `Bogosort.DefaultsWhenOmitted` | bogosort.py:23-28 | a call that names no model and no URL sends `local-model` to `http://localhost:1234/v1` and gives the same result as naming them |
| `Bogosort.OnlyOneRequestMatters` | bogosort.py:33-39 | two services that give the same answer to the request built from the arguments give the same result |
| `Bogosort.SortedReply` | test.py:15-28 | a reply of `[1, 2, 3, 5, 8]` gives `The sorted list is [1, 2, 3, 5, 8]` for any input |
| `Bogosort.AbsentReply` | test.py:153-164 | a reply without content gives the sentinel |
| `Bogosort.EmptyListReply` | test.py:84-95 | a reply of `[]` gives `The sorted list is [[]]` |
| `Bogosort.TransportFailure` | bogosort.py:33-37 | a transport failure reaches the caller unchanged |
| `Bogosort.NoChoiceFailure` | bogosort.py:39 | a response with no choice is an error, not the sentinel |
| `Bogosort.EchoedPrompt` | bogosort.py:31-49 | a service that echoes the prompt yields the instruction's example `[num1, num2, num3]`, the leftmost group of the prompt |
| `Bogosort.EchoSendsPrompt` | bogosort.py:31-39 | the prompt is the one message sent, so an echoing service hands the prompt itself to the extraction |
| `Bogosort.PromptExtractsExample` | bogosort.py:31-49 | extracting from the prompt gives the lead and `[num1, num2, num3]`, whatever the numbers are |
| `Bogosort.ExampleIsGroup` | bogosort.py:31 | the instruction's example list is a group and no `[` comes before it |

## Left out

- The OpenAI client and the network call (bogosort.py:28, 33-37) are not modelled. The service is the `Endpoint` parameter. Timeouts and retries do not exist in the source and are not modelled.
- Environment loading (`load_dotenv`, `os.getenv`, bogosort.py:16-20) is not modelled. The defaults are constants with the environment unset.
- `main()` and its argument parsing (bogosort.py:54-79), and all of main.py (interactive loop, random data, process exit), are not modelled.
- `str(float)` rendering (bogosort.py:30) is not modelled. The numbers arrive already rendered as strings. The round-trip lemmas assume what that rendering guarantees: each rendered number is non-empty and has no comma.
- The response is modelled only as far as it is read: a list of choices, each with optional content. A content value that is not a string is not modelled.
- The regular expression is modelled by what it matches, not by the backtracking engine. Its recursion limits and performance are not modelled.
- `Whitespace.IsSpace` is the `str.isspace()` set of current Python 3 releases, fixed at the current Unicode version.
- `ModelClient.BuildRequest`: the temperature is the exact real 0.1, not the nearest binary float.
