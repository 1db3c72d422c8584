/** The chat-completion call of `bogo_llm`, as data: the request it sends and
    the part of the response it reads. The remote service itself is a
    parameter, `Endpoint`, that maps a request to a response or to a
    transport failure. */
module ModelClient {

  import opened Wrappers
  import opened PromptBuilder

  /** Process-start defaults, with the environment unset. */
  const DefaultModel: string := "local-model"
  const DefaultApiUrl: string := "http://localhost:1234/v1"
  const DefaultApiKey: string := "not-needed"

  /** The fixed sampling temperature. */
  const Temperature: real := 0.1

  datatype Message = Message(role: string, content: string)

  /** Everything the call sends: the client's base URL and key, and the
      completion's model, messages and temperature. */
  datatype ChatRequest = ChatRequest(
    baseUrl: string,
    apiKey: string,
    model: string,
    messages: seq<Message>,
    temperature: real)

  /** The response as far as it is read: each choice's message content, which
      may be absent. */
  datatype Choice = Choice(content: Option<string>)
  datatype ChatResponse = ChatResponse(choices: seq<Choice>)

  /** The service could not be reached, or refused the request. */
  datatype TransportError = TransportError(reason: string)

  /** Why the call yields no content: a transport failure, or a response
      with no choice at all (indexing `choices[0]` fails). Neither is caught
      by `bogo_llm`; both reach its caller. */
  datatype CallError = Transport(reason: string) | NoChoices

  type Endpoint = ChatRequest -> Result<ChatResponse, TransportError>

  /** The request for the given numbers, model and URL (by default the
      process-start defaults): the caller's model and URL, always the default
      key, one user message holding the prompt, and
      the fixed temperature. The message carries the numbers recoverably. */
  function BuildRequest(rendered: seq<string>,
                        modelName: string := DefaultModel, apiUrl: string := DefaultApiUrl): (r: ChatRequest)
    ensures r.model == modelName && r.baseUrl == apiUrl && r.apiKey == DefaultApiKey
    ensures |r.messages| == 1 && r.messages[0].role == "user"
    ensures r.temperature == 0.1
    ensures AllRendered(rendered) ==> ParsePrompt(r.messages[0].content) == Some(rendered)
  {
    PromptRoundTrip(rendered);
    ChatRequest(apiUrl, DefaultApiKey, modelName, [Message("user", BuildPrompt(rendered))], Temperature)
  }

  /** Sends the request once and reads `choices[0].message.content`. */
  function Complete(endpoint: Endpoint, request: ChatRequest): (r: Result<Option<string>, CallError>)
    ensures r.Success? <==> endpoint(request).Success? && |endpoint(request).value.choices| > 0
    ensures r.Success? ==> r.value == endpoint(request).value.choices[0].content
    ensures endpoint(request).Failure? ==> r == Failure(Transport(endpoint(request).error.reason))
  {
    match endpoint(request)
    case Failure(e) => Failure(Transport(e.reason))
    case Success(response) =>
      if |response.choices| == 0 then Failure(NoChoices)
      else Success(response.choices[0].content)
  }
}
