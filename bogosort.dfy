/** `bogo_llm`: build the prompt, send one chat-completion request, and turn
    the reply into the result string. Sorting itself is left to the language model; the
    result is whatever the reply says. */
module Bogosort {

  import opened Wrappers
  import opened Whitespace
  import opened BracketSearch
  import opened PromptBuilder
  import opened ModelClient
  import opened ResponseExtractor

  /** The whole pipeline for numbers already rendered as text. The service
      comes first; the model and URL default to `DefaultModel` and
      `DefaultApiUrl`, as in the Python signature. A call error is passed on
      unchanged; any reply, with or without content, gives a string of one of
      the two shapes. */
  function BogoLlm(rendered: seq<string>, endpoint: Endpoint,
                   modelName: string := DefaultModel, apiUrl: string := DefaultApiUrl)
    : (r: Result<string, CallError>)
    ensures r.Failure? <==> Complete(endpoint, BuildRequest(rendered, modelName, apiUrl)).Failure?
    ensures r.Failure? ==> r.error == Complete(endpoint, BuildRequest(rendered, modelName, apiUrl)).error
    ensures r.Success? ==> r.value == Sentinel || StartsWith(r.value, Lead)
  {
    match Complete(endpoint, BuildRequest(rendered, modelName, apiUrl))
    case Failure(e) => Failure(e)
    case Success(content) => Success(Extract(content))
  }

  /** The result depends on the service only through its answer to the one
      request built from the caller's arguments. */
  lemma OnlyOneRequestMatters(rendered: seq<string>, modelName: string, apiUrl: string, e1: Endpoint, e2: Endpoint)
    requires e1(BuildRequest(rendered, modelName, apiUrl)) == e2(BuildRequest(rendered, modelName, apiUrl))
    ensures BogoLlm(rendered, e1, modelName, apiUrl) == BogoLlm(rendered, e2, modelName, apiUrl)
  {
  }

  /** A call that names no model and no URL asks the local defaults: the
      service sees the request for `local-model` at `http://localhost:1234/v1`,
      and nothing else decides the result. */
  lemma DefaultsWhenOmitted(rendered: seq<string>, endpoint: Endpoint)
    ensures var request := BuildRequest(rendered);
      request.model == "local-model" && request.baseUrl == "http://localhost:1234/v1"
    ensures BogoLlm(rendered, endpoint)
         == BogoLlm(rendered, endpoint, "local-model", "http://localhost:1234/v1")
  {
  }

  /** A service that answers with a sorted list gives that list back. */
  lemma SortedReply(rendered: seq<string>, modelName: string, apiUrl: string)
    ensures BogoLlm(rendered, _ => Success(ChatResponse([Choice(Some("[1, 2, 3, 5, 8]"))])),
                    modelName, apiUrl)
         == Success("The sorted list is " + "[1, 2, 3, 5, 8]")
  {
    var s := "[1, 2, 3, 5, 8]";
    assert GroupAt(s, 0, |s| - 1);
    ExtractGroupFixedPoint(s, 0, |s| - 1);
    assert s[0..|s|] == s;
  }

  /** A service that answers without content gives the sentinel. */
  lemma AbsentReply(rendered: seq<string>, modelName: string, apiUrl: string)
    ensures BogoLlm(rendered, _ => Success(ChatResponse([Choice(None)])), modelName, apiUrl)
         == Success("I honestly have no idea! Get Bogo'd!")
  {
  }

  /** An empty list as the answer is not a group, so it is wrapped again. */
  lemma EmptyListReply(rendered: seq<string>, modelName: string, apiUrl: string)
    ensures BogoLlm(rendered, _ => Success(ChatResponse([Choice(Some("[]"))])), modelName, apiUrl)
         == Success("The sorted list is [[]]")
  {
    ExtractEmptyBrackets();
  }

  /** A transport failure reaches the caller as it is. */
  lemma TransportFailure(rendered: seq<string>, modelName: string, apiUrl: string, reason: string)
    ensures BogoLlm(rendered, _ => Failure(TransportError(reason)), modelName, apiUrl)
         == Failure(Transport(reason))
  {
  }

  /** A response with no choice is an error, not the sentinel. */
  lemma NoChoiceFailure(rendered: seq<string>, modelName: string, apiUrl: string)
    ensures BogoLlm(rendered, _ => Success(ChatResponse([])), modelName, apiUrl) == Failure(NoChoices)
  {
  }

  /** A service that answers with the text of the first message it was sent. */
  function Echo(request: ChatRequest): Result<ChatResponse, TransportError> {
    if request.messages == [] then Success(ChatResponse([Choice(None)]))
    else Success(ChatResponse([Choice(Some(request.messages[0].content))]))
  }

  /** A service that echoes the prompt gets the instruction's own example
      list back: it is the leftmost group in the prompt, ahead of the numbers. */
  lemma EchoedPrompt(rendered: seq<string>, modelName: string, apiUrl: string)
    ensures BogoLlm(rendered, Echo, modelName, apiUrl) == Success(Lead + Example)
  {
    EchoSendsPrompt(rendered, modelName, apiUrl);
    PromptExtractsExample(rendered);
  }

  /** The echoing service hands the prompt itself to the extraction. */
  lemma EchoSendsPrompt(rendered: seq<string>, modelName: string, apiUrl: string)
    ensures BogoLlm(rendered, Echo, modelName, apiUrl) == Success(Extract(Some(BuildPrompt(rendered))))
  {
  }

  /** Extracting from the prompt itself finds the example list of the
      instruction, whatever the numbers are. */
  lemma PromptExtractsExample(rendered: seq<string>)
    ensures Extract(Some(BuildPrompt(rendered))) == Lead + Example
  {
    var after := LeadIn + "[" + Join(rendered) + "]";
    assert BuildPrompt(rendered) == Request + Example + after;
    ExampleIsGroup();
    ExtractDropsProse(Request, Example, after);
  }

  /** The instruction's example list is a bracket group, and no `[` comes
      before it. */
  lemma ExampleIsGroup()
    ensures GroupAt(Example, 0, |Example| - 1) && '[' !in Request
  {
  }
}
