/**
 * The SDK's exception hierarchy: `AraraException` and its five final
 * subclasses, folded into one tagged value. `kind` names the class that was
 * instantiated; every kind is an `AraraException`.
 */
module Exceptions {
  import opened Wrappers
  import opened Json
  import opened PhpStrings

  datatype ErrorKind = Generic | BadRequest | Authentication | NotFound | Validation | InternalServer

  /** The public state of a thrown exception: its readonly fields and `getMessage()`. */
  datatype ApiError = ApiError(kind: ErrorKind, statusCode: int, response: Option<Response>, message: string)

  /** The status code each subclass passes to the base constructor; the base class itself takes any. */
  function PinnedStatus(kind: ErrorKind): Option<int> {
    match kind
    case Generic => None
    case BadRequest => Some(400)
    case Authentication => Some(401)
    case NotFound => Some(404)
    case Validation => Some(422)
    case InternalServer => Some(500)
  }

  /** A subclass instance always carries the status code its class pins. */
  predicate WellFormed(e: ApiError) {
    e.kind != Generic ==> PinnedStatus(e.kind) == Some(e.statusCode)
  }

  /** The last resort of the message rule: "HTTP {$statusCode}". */
  function FallbackMessage(statusCode: int): (m: string)
    ensures |m| > 5 && m[..5] == "HTTP "
  {
    "HTTP " + IntToDecimal(statusCode)
  }

  /** The fallback message tells the status code it was made from. */
  lemma FallbackIdentifiesStatus(a: int, b: int)
    requires FallbackMessage(a) == FallbackMessage(b)
    ensures a == b
  {
    assert FallbackMessage(a)[5..] == IntToDecimal(a);
    assert FallbackMessage(b)[5..] == IntToDecimal(b);
    IntToDecimalInjective(a, b);
  }

  /**
   * `new AraraException($statusCode, $response, $message)`: both fields are
   * stored as given, and the message is the explicit one, else the
   * response's "message", else "HTTP {$statusCode}".
   */
  function NewAraraException(statusCode: int, response: Option<Response> := None, message: Option<string> := None): (e: ApiError)
    ensures e.kind == Generic && e.statusCode == statusCode && e.response == response
    ensures message.Some? ==> e.message == message.value
    ensures message.None? && MessageOf(response).Some? ==> e.message == MessageOf(response).value
    ensures message.None? && MessageOf(response).None? ==> e.message == FallbackMessage(statusCode)
  {
    var m := match message
      case Some(m) => m
      case None => MessageOf(response).GetOr(FallbackMessage(statusCode));
    ApiError(Generic, statusCode, response, m)
  }

  /** `new ValidationException($response, $message)`: status 422, explicit message allowed. */
  function NewValidationException(response: Option<Response> := None, message: Option<string> := None): (e: ApiError)
    ensures e.kind == Validation && e.statusCode == 422 && e.response == response
    ensures e.(kind := Generic) == NewAraraException(422, response, message)
  {
    NewAraraException(422, response, message).(kind := Validation)
  }

  /** `new AuthenticationException($response)`: status 401, no explicit message. */
  function NewAuthenticationException(response: Option<Response> := None): (e: ApiError)
    ensures e.kind == Authentication && e.statusCode == 401 && e.response == response
    ensures e.(kind := Generic) == NewAraraException(401, response)
  {
    NewAraraException(401, response).(kind := Authentication)
  }

  /** `new InternalServerException($response)`: status 500, no explicit message. */
  function NewInternalServerException(response: Option<Response> := None): (e: ApiError)
    ensures e.kind == InternalServer && e.statusCode == 500 && e.response == response
    ensures e.(kind := Generic) == NewAraraException(500, response)
  {
    NewAraraException(500, response).(kind := InternalServer)
  }

  /** `new BadRequestException($response)`: status 400, no explicit message. */
  function NewBadRequestException(response: Option<Response> := None): (e: ApiError)
    ensures e.kind == BadRequest && e.statusCode == 400 && e.response == response
    ensures e.(kind := Generic) == NewAraraException(400, response)
  {
    NewAraraException(400, response).(kind := BadRequest)
  }

  /** `new NotFoundException($response)`: status 404, no explicit message. */
  function NewNotFoundException(response: Option<Response> := None): (e: ApiError)
    ensures e.kind == NotFound && e.statusCode == 404 && e.response == response
    ensures e.(kind := Generic) == NewAraraException(404, response)
  {
    NewAraraException(404, response).(kind := NotFound)
  }

  /**
   * The subclasses that take no explicit message report the response's
   * "message" or else "HTTP <their code>", and every constructor yields a
   * well-formed error.
   */
  lemma SubclassMessages(response: Option<Response>, message: Option<string>)
    ensures var e := NewAuthenticationException(response);
            WellFormed(e) && e.message == MessageOf(response).GetOr(FallbackMessage(401))
    ensures var e := NewInternalServerException(response);
            WellFormed(e) && e.message == MessageOf(response).GetOr(FallbackMessage(500))
    ensures var e := NewBadRequestException(response);
            WellFormed(e) && e.message == MessageOf(response).GetOr(FallbackMessage(400))
    ensures var e := NewNotFoundException(response);
            WellFormed(e) && e.message == MessageOf(response).GetOr(FallbackMessage(404))
    ensures var e := NewValidationException(response);
            WellFormed(e) && e.message == MessageOf(response).GetOr(FallbackMessage(422))
    ensures WellFormed(NewValidationException(response, message))
    ensures message.Some? ==> NewValidationException(response, message).message == message.value
  {
  }

  /** The test case of a base exception built from a response carrying a message. */
  lemma ResponseMessageExample()
    ensures var r := map["message" := JString("Bad request body")];
            var e := NewAraraException(400, Some(r));
            e.message == "Bad request body" && e.statusCode == 400 && e.response == Some(r)
  {
  }

  /** The test case of a base exception built from a status code alone. */
  lemma FallbackExample()
    ensures var e := NewAraraException(503);
            e.message == "HTTP 503" && e.statusCode == 503 && e.response == None
  {
    assert NatToDecimal(50) == "50";
    assert NatToDecimal(503) == "503";
  }

  /** `??` only skips null: an empty "message" in the response becomes an empty message. */
  lemma EmptyResponseMessageKept()
    ensures NewInternalServerException(Some(map["message" := JString("")])).message == ""
  {
  }
}
