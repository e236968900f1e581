/**
 * `Arara\Arara`, the SDK client: it checks the arguments of `sendMessage`,
 * posts one request through its HTTP client and turns a failed request into
 * an exception of the hierarchy in `Exceptions`.
 *
 * The HTTP client is outside the model: the transport is the parameter
 * `post`, which maps the client's options and the request to what the call
 * produced.
 */
module AraraSdk {
  import opened Wrappers
  import opened Json
  import opened PhpStrings
  import opened ReceiverFormat
  import opened Exceptions
  import opened Configuration

  /** The options a Guzzle client is built with. */
  datatype ClientOptions = ClientOptions(baseUri: string, timeout: int, headers: map<string, string>)

  /** `$client->post($path, ['json' => [receiver, templateName, variables]])`. */
  datatype Request = Request(path: string, receiver: string, templateName: string, variables: Body)

  /** A response attached to a failed request; `body` is None when the body is empty, not valid JSON, or `null`. */
  datatype HttpResponse = HttpResponse(statusCode: int, body: Option<Response>)

  /** What one `post` call produces. */
  datatype TransportOutcome =
    | Replied(decoded: Body)                         // returned; its body decoded to this array
    | RequestFailed(response: Option<HttpResponse>)  // threw a RequestException, with or without a response

  /** One `sendMessage` call: the request it posted, if any, and what it returned or threw. */
  datatype Sent = Sent(posted: Option<Request>, result: Result<Body, ApiError>)

  const MessagesPath: string := "messages"
  const BearerPrefix: string := "Bearer "

  const ReceiverRequired: string := "O campo receiver \U{e9} obrigat\U{f3}rio."
  const ReceiverFormatInvalid: string :=
    "O receiver deve seguir o formato whatsapp:+<n\U{fa}mero> (ex: whatsapp:+5511999999999)."
  const TemplateNameRequired: string := "O campo templateName \U{e9} obrigat\U{f3}rio."

  /** The credential an `Authorization` header value carries, if it is a bearer header. */
  function BearerToken(header: string): (token: Option<string>)
    ensures token.Some? ==> header == BearerPrefix + token.value
  {
    if BearerPrefix <= header then Some(header[|BearerPrefix|..]) else None
  }

  /**
   * The options of the client the constructor builds when none is injected:
   * the versioned API root as base URI, the configured timeout, a bearer
   * header carrying the API key, and a JSON content type.
   */
  function DefaultClientOptions(config: Config): (o: ClientOptions)
    ensures o.baseUri == config.baseUrl + "/api/" + config.apiVersion + "/"
    ensures o.timeout == config.timeout
    ensures o.headers.Keys == {"Authorization", "Content-Type"}
    ensures BearerToken(o.headers["Authorization"]) == Some(config.apiKey)
    ensures o.headers["Content-Type"] == "application/json"
  {
    var authorization := BearerPrefix + config.apiKey;
    assert authorization[|BearerPrefix|..] == config.apiKey;
    ClientOptions(
      config.baseUrl + "/api/" + config.apiVersion + "/",
      config.timeout,
      map["Authorization" := authorization, "Content-Type" := "application/json"])
  }

  class Arara {
    const config: Config
    const client: ClientOptions

    /** Both readonly fields are set once: the injected client if given, else one built from `config`. */
    constructor(config: Config, http: Option<ClientOptions> := None)
      ensures this.config == config
      ensures client == http.GetOr(DefaultClientOptions(config))
    {
      this.config := config;
      this.client := http.GetOr(DefaultClientOptions(config));
    }

    /**
     * The three guards of `sendMessage`, in order, the first failure winning:
     * the trimmed receiver is non-empty, the untrimmed receiver matches the
     * format, the trimmed template name is non-empty.
     */
    static function Validate(receiver: string, templateName: string): (r: Option<ApiError>)
      ensures r.Some? ==> r.value.kind == Validation && r.value.statusCode == 422 && r.value.response == None
      ensures Trim(receiver) == "" ==>
                r == Some(NewValidationException(message := Some(ReceiverRequired)))
      ensures Trim(receiver) != "" && !Matches(receiver) ==>
                r == Some(NewValidationException(message := Some(ReceiverFormatInvalid)))
      ensures Trim(receiver) != "" && Matches(receiver) && Trim(templateName) == "" ==>
                r == Some(NewValidationException(message := Some(TemplateNameRequired)))
      ensures r.None? <==> Trim(receiver) != "" && Matches(receiver) && Trim(templateName) != ""
    {
      if Trim(receiver) == "" then
        Some(NewValidationException(message := Some(ReceiverRequired)))
      else if !Matches(receiver) then
        Some(NewValidationException(message := Some(ReceiverFormatInvalid)))
      else if Trim(templateName) == "" then
        Some(NewValidationException(message := Some(TemplateNameRequired)))
      else
        None
    }

    /**
     * `handleException`: the status is the response's, or 500 without one;
     * the body is the decoded response body, or null. A status some subclass
     * pins yields that subclass, any other the base class with that status.
     * No explicit message is passed, so the message comes from the body or
     * the status.
     */
    static function HandleException(response: Option<HttpResponse>): (e: ApiError)
      ensures e.statusCode == (if response.Some? then response.value.statusCode else 500)
      ensures e.response == (if response.Some? then response.value.body else None)
      ensures WellFormed(e)
      ensures e.kind == Generic <==> forall k :: PinnedStatus(k) != Some(e.statusCode)
      ensures e.message == MessageOf(e.response).GetOr(FallbackMessage(e.statusCode))
    {
      var statusCode := if response.Some? then response.value.statusCode else 500;
      var body := if response.Some? then response.value.body else None;
      match statusCode
      case 400 => NewBadRequestException(body)
      case 401 => NewAuthenticationException(body)
      case 404 => NewNotFoundException(body)
      case 422 => NewValidationException(body)
      case 500 => NewInternalServerException(body)
      case _ =>
        assert PinnedStatus(Generic) != Some(statusCode);
        NewAraraException(statusCode, body)
    }

    /**
     * `sendMessage`: a failing guard throws before anything is posted;
     * otherwise the inputs are posted unmodified to `messages` through this
     * instance's client, a reply is returned as decoded, and a failed request
     * is classified by `HandleException`.
     */
    function SendMessage(
      post: (ClientOptions, Request) -> TransportOutcome,
      receiver: string,
      templateName: string,
      variables: Body := map[]): (s: Sent)
      ensures s.posted.None? <==> Validate(receiver, templateName).Some?
      ensures s.posted.None? ==> s.result == Failure(Validate(receiver, templateName).value)
      ensures s.posted.Some? ==> s.posted.value == Request(MessagesPath, receiver, templateName, variables)
      ensures s.posted.Some? && post(client, s.posted.value).Replied? ==>
                s.result == Success(post(client, s.posted.value).decoded)
      ensures s.posted.Some? && post(client, s.posted.value).RequestFailed? ==>
                s.result == Failure(HandleException(post(client, s.posted.value).response))
    {
      match Validate(receiver, templateName)
      case Some(error) => Sent(None, Failure(error))
      case None =>
        var request := Request(MessagesPath, receiver, templateName, variables);
        match post(client, request)
        case Replied(decoded) => Sent(Some(request), Success(decoded))
        case RequestFailed(response) => Sent(Some(request), Failure(HandleException(response)))
    }
  }
}
