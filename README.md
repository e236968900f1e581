# Arara PHP SDK — a Dafny model of its request validation and error classification

The Arara SDK sends templated WhatsApp messages through one HTTP endpoint.
This project models the logic around that one call:

- `Configuration`: the readonly `Config` record, its default constants, and
  how the constructor stores what it is given.
- `AraraSdk`: the `Arara` client. The constructor sets two readonly fields.
  When no HTTP client is injected, it builds one from the configuration:
  base URI `baseUrl + "/api/" + apiVersion + "/"`, the configured timeout,
  `Authorization: Bearer <apiKey>` and a JSON content type.
  `sendMessage` runs three guards in order, and the first failure wins.
  Below, "blank" means made only of characters `trim` strips, the empty
  string included.
  If all pass, it posts `{receiver, templateName, variables}` unmodified to
  `messages`. It returns the decoded reply, or classifies a failed request
  with `handleException`.
- `Exceptions`: `AraraException` and its five subclasses, as one tagged
  value `ApiError(kind, statusCode, response, message)`. Each subclass pins
  its status code. The message is the explicit one, else the response's
  `message` entry, else `"HTTP {statusCode}"`.
- `ReceiverFormat`: the PCRE pattern `/^whatsapp:\+\d{8,15}$/` as a greedy,
  backtracking matcher. A lemma characterises exactly the strings it accepts.
- `PhpStrings`: PHP's `trim` with its default character list
  (`" \t\n\r\0\x0B"`), as a forward and a backward scan, the ASCII digit class, and integer-to-decimal
  rendering.
- `Json`, `Wrappers`: decoded JSON values and bodies, `Option` and `Result`.
- `AraraProperties`: lemmas about `sendMessage`, the guards and the
  classification.

The HTTP transport is a parameter `post: (ClientOptions, Request) -> TransportOutcome`.
An outcome is either `Replied(decoded body)` or
`RequestFailed(optional response with status and decoded body)`.
The result of `SendMessage` records the request that was posted (`None`
when a guard failed and the transport was never reached) and the returned
body or thrown error.

Behaviour of the code that a reader might not expect, which the model follows:

- The format check runs on the untrimmed receiver. PCRE `$` without the `D`
  modifier also matches before one final newline. So `" whatsapp:+5511999999999"`
  is rejected, while `"whatsapp:+5511999999999\n"` passes and is posted with
  its newline (`AraraProperties.LeadingTrimCharRejected`,
  `AraraProperties.TrailingNewlineAccepted`).
- Local validation failures are `ValidationException`s, so they carry
  status 422, not a separate local status.
- `??` only skips null. A response whose `message` is `""` gives an exception
  with an empty message (`Exceptions.EmptyResponseMessageKept`).
- A failed request without a response gets status 500 and a null body. It
  becomes an `InternalServerException` with message `"HTTP 500"`.

## Model

| member | source | states |
|---|---|---|
| `Json.MessageOf` | src/Exceptions/AraraException.php:20 | `$response['message'] ?? …` yields a string exactly when the response is non-null and has a non-null `message` entry, and that string is the entry |
| `PhpStrings.TrimStart` | src/Arara.php:56 | the forward scan of `trim` skips only trim characters and stops at the first other character or at the end |
| `PhpStrings.TrimEnd` | src/Arara.php:56 | the backward scan of `trim` skips only trim characters, never passes the start index, and stops after the last other character |
| `PhpStrings.Trim` | src/Arara.php:56 | the result of `trim` is no longer than its input, and its first and last characters are not among `" \t\n\r\0\x0B"` |
| `PhpStrings.TrimIsSlice` | src/Arara.php:56 | `trim` returns the contiguous slice of its input between a leading and a trailing run of trim characters, so it removes only those characters, and only at the ends |
| `PhpStrings.TrimEmptyIff` | src/Arara.php:56 | `trim($s) === ''` exactly when every character of `$s` is one that `trim` strips |
| `PhpStrings.IntToDecimal` | src/Exceptions/AraraException.php:20 | the interpolated status code is non-empty: digits for a non-negative code, a minus sign and digits for a negative one |
| `PhpStrings.NatToDecimal` | src/Exceptions/AraraException.php:20 | the decimal rendering of a status code in `"HTTP {$statusCode}"` is non-empty, made only of ASCII digits, and has no leading zero |
| `PhpStrings.NatToDecimalRoundTrip` | src/Exceptions/AraraException.php:20 | reading back the decimal digits of a number gives the number |
| `PhpStrings.IntToDecimalInjective` | src/Exceptions/AraraException.php:20 | different status codes are rendered as different strings |
| `ReceiverFormat.MatchDigitsThenEnd` | src/Arara.php:60 | the greedy, backtracking `\d{8,15}$` tried at position i after n digits: it first takes one more digit while fewer than 15 are taken, and otherwise ends the repetition where `$` holds once 8 are taken; a success leaves 8 to 15 digits plus at most one final character |
| `ReceiverFormat.Matches` | src/Arara.php:60 | the subject starts with `whatsapp:+` and the backtracking `\d{8,15}$` succeeds from the position after it; an accepted subject is 18 to 26 characters long |
| `ReceiverFormat.MatchDigitsExactly` | src/Arara.php:60 | the backtracking `\d{8,15}$` succeeds exactly when the digits run to the content end (before one final newline) and their count is 8 to 15 |
| `ReceiverFormat.MatchesCharacterization` | src/Arara.php:60 | `preg_match` accepts exactly: the `whatsapp:+` prefix, then 8 to 15 ASCII digits up to the end or up to a single final newline |
| `ReceiverFormat.AcceptsPrefixedDigits` | src/Arara.php:60 | every `whatsapp:+` followed by 8 to 15 digits is accepted, with or without one trailing newline |
| `ReceiverFormat.AcceptedShape` | src/Arara.php:60 | every accepted receiver is the prefix, 8 to 15 digits, and at most one `"\n"` |
| `ReceiverFormat.RejectsWrongDigitCount` | src/Arara.php:60 | fewer than 8 or more than 15 digits after the prefix are rejected |
| `ReceiverFormat.RejectsLeadingTrimChar` | src/Arara.php:60 | a receiver starting with a character `trim` strips is rejected, because `^` anchors at the untrimmed start |
| `ReceiverFormat.RejectsSecondNewline` | src/Arara.php:60 | `$` tolerates only one trailing newline, not two |
| `Exceptions.FallbackMessage` | src/Exceptions/AraraException.php:20 | the fallback message starts with `"HTTP "` |
| `Exceptions.FallbackIdentifiesStatus` | src/Exceptions/AraraException.php:20 | two fallback messages are equal only for equal status codes |
| `Exceptions.NewAraraException` | src/Exceptions/AraraException.php:15-21 | statusCode and response are stored unchanged (response defaults to null); the message is the explicit one if given, else the response's `message`, else `"HTTP {statusCode}"` |
| `Exceptions.NewValidationException` | src/Exceptions/ValidationException.php:12-15 | status 422, the response passed through (default null), and otherwise exactly the base exception built with that status, response and optional explicit message |
| `Exceptions.NewAuthenticationException` | src/Exceptions/AuthenticationException.php:12-15 | status 401, the response passed through (default null), and otherwise exactly the base exception built with that status and no explicit message |
| `Exceptions.NewInternalServerException` | src/Exceptions/InternalServerException.php:12-15 | status 500, the response passed through (default null), and otherwise exactly the base exception built with that status and no explicit message |
| `Exceptions.NewBadRequestException` | src/Exceptions/BadRequestException.php:12-15 | status 400, the response passed through (default null), and otherwise exactly the base exception built with that status and no explicit message |
| `Exceptions.NewNotFoundException` | src/Exceptions/NotFoundException.php:12-15 | status 404, the response passed through (default null), and otherwise exactly the base exception built with that status and no explicit message |
| `Exceptions.SubclassMessages` | src/Exceptions/AraraException.php:15-21 | the base constructor's message rule, applied through each of the five subclass constructors: every instance is well formed (its status is the one its class pins, as the constructor rows cite); without an explicit message its message is the response's `message` or `"HTTP <its code>"`; a ValidationException's explicit message overrides the response (the other four constructors take none) |
| `Exceptions.ResponseMessageExample` | src/Exceptions/AraraException.php:15-20 | a base exception with status 400 and `{"message": "Bad request body"}` has that message, that status and that response |
| `Exceptions.FallbackExample` | src/Exceptions/AraraException.php:15-20 | a base exception with only status 503 has message `"HTTP 503"` and a null response |
| `Exceptions.EmptyResponseMessageKept` | src/Exceptions/AraraException.php:20 | an empty `message` in the response is kept as the message: `??` skips only null |
| `Configuration.NewConfig` | src/Config.php:18-25 | every argument, including the API key, is stored verbatim with no validation |
| `Configuration.DefaultsApply` | src/Config.php:12-24 | a key alone yields base URL `https://api.ararahq.com`, timeout 30, 3 retries, 100 ms retry delay and API version `v1` |
| `AraraSdk.BearerToken` | src/Arara.php:36 | a header value recognised as a bearer header is `"Bearer "` followed by the token returned |
| `AraraSdk.DefaultClientOptions` | src/Arara.php:32-39 | the default client's base URI is `baseUrl/api/apiVersion/`; its timeout is the configured one; its only headers are `Authorization`, whose bearer token is exactly the API key, and `Content-Type: application/json` |
| `AraraSdk.Arara.constructor` | src/Arara.php:29-40 | the configuration is stored, and the client is the injected one or else the default built from the configuration |
| `AraraSdk.Arara.Validate` | src/Arara.php:56-66 | a blank trimmed receiver fails with the receiver-required message; else a receiver not matching the format fails with the format message; else a blank trimmed template name fails with its message; each failure is a ValidationException with status 422 and no response; otherwise the guards pass |
| `AraraSdk.Arara.HandleException` | src/Arara.php:83-96 | the status is the response's or 500 without one, and the response is the decoded body or null; the error is well formed; it is the base kind exactly when no subclass pins that status; the message comes from the body or the status |
| `AraraSdk.Arara.SendMessage` | src/Arara.php:54-81 | nothing is posted exactly when a guard fails, and then the guard's error is thrown; otherwise the request is `messages` with the inputs unmodified through this client, a reply is returned verbatim, and a failed request is classified by `HandleException` |
| `AraraProperties.BlankReceiverRejected` | src/Arara.php:56-58 | a receiver made only of characters `trim` strips (including the empty one) fails with a 422 ValidationException, no body, and the receiver-required message |
| `AraraProperties.MalformedReceiverRejected` | src/Arara.php:60-62 | a non-blank receiver that does not match the format fails with the format message |
| `AraraProperties.LeadingTrimCharRejected` | src/Arara.php:56-62 | a receiver that has a character `trim` does not strip, but starts with one it does strip, fails with the format message, whatever the template name |
| `AraraProperties.TrailingNewlineAccepted` | src/Arara.php:56-66 | a well-formed number followed by a single newline, with a non-blank template name, passes every guard |
| `AraraProperties.PrefixlessReceiverRejected` | src/Arara.php:60-62 | a receiver whose first character is neither a character `trim` strips nor the `w` of the prefix fails with the format message |
| `AraraProperties.PrefixlessExamples` | src/Arara.php:60-62 | `5511999999999` and `+5511999999999` fail with the format message |
| `AraraProperties.ReceiverGuardsComeFirst` | src/Arara.php:56-66 | when a receiver guard fails, the outcome is a failure that does not depend on the template name |
| `AraraProperties.BlankTemplateNameRejected` | src/Arara.php:64-66 | a valid receiver with a blank template name fails with the templateName-required message |
| `AraraProperties.AcceptedArguments` | src/Arara.php:56-66 | the guards pass exactly when the receiver is `whatsapp:+`, 8 to 15 digits and at most one trailing newline, and the template name has a character `trim` does not strip |
| `AraraProperties.WellFormedArgumentsAccepted` | src/Arara.php:56-66 | `whatsapp:+` with 8 to 15 digits and a template name that does not start with a character `trim` strips pass every guard |
| `AraraProperties.ExampleArgumentsAccepted` | src/Arara.php:56-66 | `whatsapp:+5511999999999` with template `welcome` passes every guard |
| `AraraProperties.SendMessageErrorsWellFormed` | src/Arara.php:54-96 | every error `sendMessage` throws carries the status its class pins |
| `AraraProperties.ValidationFailureSkipsTransport` | src/Arara.php:56-69 | after a failed guard, the outcome is the same whatever the transport would do, and it is a Validation error |
| `AraraProperties.SuccessReturnsReply` | src/Arara.php:69-77 | sending to `whatsapp:+5511999999999` with template `welcome` posts exactly those inputs with empty variables and returns the transport's decoded reply unchanged |
| `AraraProperties.ClassificationExamples` | src/Arara.php:88-93 | status 400, 401, 404, 422 and 500 with body `{"message": m}` give BadRequest, Authentication, NotFound, Validation and InternalServer errors with that status, that body and message m |
| `AraraProperties.UnknownStatusExample` | src/Arara.php:94 | status 503 with body `{"message": m}` gives the base kind with status 503, that body and message m |
| `AraraProperties.NoResponseIsInternalServer` | src/Arara.php:85-93 | a failed request without a response gives an InternalServer error with status 500, no body and message `"HTTP 500"` |
| `AraraProperties.DefaultClientForDefaultConfig` | src/Arara.php:33-36 | with a default configuration the base URI is `https://api.ararahq.com/api/v1/` and the header is `"Bearer " + apiKey` |

## Left out

- The Guzzle client and the HTTP call itself. The transport is the parameter `post`, and the default client is described by its options (`ClientOptions`).
- Resolving the relative path `messages` against the base URI (RFC 3986 reference resolution). `Request` keeps the relative path.
- The timeout is stored in the client options only; its effect is part of the transport.
- JSON encoding and decoding. Bodies arrive decoded. Numbers are integers only, since floating point is not modelled.
- PHP TypeErrors in the exception constructor. When no explicit message is given, a response whose `message` entry is neither null nor a string makes the constructor throw a TypeError. With an explicit message, `??` never reads that entry, so PHP builds the exception (for example `new ValidationException(['message' => 5], 'x')`). The model cannot represent such an exception, because `ApiError.response` has the `Response` type, which excludes those bodies.
- A successful reply that does not decode to an array breaks the return type of `sendMessage` with a TypeError. `Replied` always carries a decoded object.
- Error bodies that decode to a scalar (`"oops"`, `42`, `true`). Passing them to the exception constructors' `?array` parameter throws a TypeError out of `sendMessage`, and nothing is classified. `HttpResponse.body` is None only for a body that is empty, not valid JSON, or the literal `null`.
- Error bodies that decode to a JSON list. PHP stores the list as the exception's response, and the message falls back to `"HTTP {statusCode}"`. `Body` holds objects only, so the model has no such response.
- Transport failures that are not a Guzzle `RequestException` (for example a connection failure, which Guzzle reports as `ConnectException`). They escape `sendMessage` unclassified, and the transport outcome has no case for them.
- `retryTimes` and `retryDelayMs` are stored and never used; nothing retries.
- Inheritance from `\Exception`: the exception code, the previous exception and the stack trace. Class membership is the `kind` tag.
- The Portuguese messages are fixed string constants; their wording carries no meaning in the model.
- PHP strings are bytes; the model uses characters. `trim` and `\d` act on ASCII characters only, so this does not change what is accepted.
