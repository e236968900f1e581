/** What `Arara::sendMessage` and its helpers promise, proved about the model. */
module AraraProperties {
  import opened Wrappers
  import opened Json
  import opened PhpStrings
  import opened ReceiverFormat
  import opened Exceptions
  import opened Configuration
  import opened AraraSdk

  /** A receiver made only of characters `trim` strips fails the first guard, with status 422 and no body. */
  lemma {:induction false} BlankReceiverRejected(receiver: string, templateName: string)
    requires AllTrimChars(receiver)
    ensures var r := Arara.Validate(receiver, templateName);
            && r.Some? && r.value.kind == Validation && r.value.statusCode == 422
            && r.value.response == None && r.value.message == ReceiverRequired
  {
    TrimEmptyIff(receiver);
  }

  /** A receiver that is not blank but does not match the format fails with the format message. */
  lemma {:induction false} MalformedReceiverRejected(receiver: string, templateName: string)
    requires !AllTrimChars(receiver) && !Matches(receiver)
    ensures var r := Arara.Validate(receiver, templateName);
            r.Some? && r.value.kind == Validation && r.value.message == ReceiverFormatInvalid
  {
    TrimEmptyIff(receiver);
  }

  /**
   * The format check sees the untrimmed receiver: a receiver that is not
   * made only of trim characters but starts with one (such as a well-formed
   * number behind a space) is rejected with the format message, whatever the template name.
   */
  lemma {:induction false} LeadingTrimCharRejected(c: char, rest: string, templateName: string)
    requires IsTrimChar(c) && !AllTrimChars(rest)
    ensures Arara.Validate([c] + rest, templateName) ==
              Some(NewValidationException(message := Some(ReceiverFormatInvalid)))
  {
    var receiver := [c] + rest;
    assert !AllTrimChars(receiver) by {
      var k :| 0 <= k < |rest| && !IsTrimChar(rest[k]);
      assert receiver[k + 1] == rest[k];
    }
    TrimEmptyIff(receiver);
    RejectsLeadingTrimChar(receiver);
  }

  /** A well-formed number followed by a single newline passes both receiver guards. */
  lemma {:induction false} TrailingNewlineAccepted(digits: string, templateName: string)
    requires MinDigits <= |digits| <= MaxDigits && AllDigits(digits)
    requires !AllTrimChars(templateName)
    ensures Arara.Validate(Prefix + digits + "\n", templateName) == None
  {
    var newline := Prefix + digits + "\n";
    assert !IsTrimChar(newline[0]);
    TrimEmptyIff(newline);
    TrimEmptyIff(templateName);
    AcceptsPrefixedDigits(digits, true);
  }

  /** A receiver starting with anything but a trim character or the "w" of the prefix fails with the format message. */
  lemma {:induction false} PrefixlessReceiverRejected(receiver: string, templateName: string)
    requires receiver != [] && receiver[0] != 'w' && !IsTrimChar(receiver[0])
    ensures Arara.Validate(receiver, templateName).value.message == ReceiverFormatInvalid
  {
    assert !(Prefix <= receiver) by { assert Prefix[0] == 'w'; }
    MalformedReceiverRejected(receiver, templateName);
  }

  /** The test receivers: digits without the prefix, and the prefix without "whatsapp:". */
  lemma {:induction false} PrefixlessExamples(templateName: string)
    ensures Arara.Validate("5511999999999", templateName).value.message == ReceiverFormatInvalid
    ensures Arara.Validate("+5511999999999", templateName).value.message == ReceiverFormatInvalid
  {
    PrefixlessReceiverRejected("5511999999999", templateName);
    PrefixlessReceiverRejected("+5511999999999", templateName);
  }

  /** The template name is looked at only once the receiver has passed: a bad receiver decides alone. */
  lemma ReceiverGuardsComeFirst(receiver: string, t1: string, t2: string)
    requires !(Trim(receiver) != "" && Matches(receiver))
    ensures Arara.Validate(receiver, t1) == Arara.Validate(receiver, t2)
    ensures Arara.Validate(receiver, t1).Some?
  {
  }

  /** A valid receiver with a blank template name fails the third guard. */
  lemma {:induction false} BlankTemplateNameRejected(receiver: string, templateName: string)
    requires Matches(receiver) && AllTrimChars(templateName)
    ensures Arara.Validate(receiver, templateName) ==
              Some(NewValidationException(message := Some(TemplateNameRequired)))
  {
    assert !IsTrimChar(receiver[0]) by { assert receiver[0] == Prefix[0]; }
    TrimEmptyIff(receiver);
    TrimEmptyIff(templateName);
  }

  /**
   * The accepted arguments, exactly: the receiver is "whatsapp:+", 8 to 15
   * digits and at most one trailing newline, and the template name holds a
   * character that `trim` does not strip. The blank-receiver guard only chooses
   * the message; it rejects nothing the format check would accept.
   */
  lemma {:induction false} AcceptedArguments(receiver: string, templateName: string)
    ensures Arara.Validate(receiver, templateName).None? <==>
              && Prefix <= receiver
              && |Prefix| + MinDigits <= ContentEnd(receiver) <= |Prefix| + MaxDigits
              && AllDigits(receiver[|Prefix|..ContentEnd(receiver)])
              && !AllTrimChars(templateName)
  {
    MatchesCharacterization(receiver);
    TrimEmptyIff(templateName);
    if Matches(receiver) {
      assert !IsTrimChar(receiver[0]) by { assert receiver[0] == Prefix[0]; }
      TrimEmptyIff(receiver);
    }
  }

  /** Every error a call can produce is well formed: a subclass always carries its own status. */
  lemma {:induction false} SendMessageErrorsWellFormed(
    a: Arara, post: (ClientOptions, Request) -> TransportOutcome,
    receiver: string, templateName: string, variables: Body)
    ensures var s := a.SendMessage(post, receiver, templateName, variables);
            s.result.Failure? ==> WellFormed(s.result.error)
  {
    var s := a.SendMessage(post, receiver, templateName, variables);
    if s.posted.Some? && post(a.client, s.posted.value).RequestFailed? {
      assert WellFormed(Arara.HandleException(post(a.client, s.posted.value).response));
    }
  }

  /** A failing guard stops the call before the transport: whatever the transport would do, the call is the same. */
  lemma ValidationFailureSkipsTransport(
    a: Arara, p1: (ClientOptions, Request) -> TransportOutcome, p2: (ClientOptions, Request) -> TransportOutcome,
    receiver: string, templateName: string, variables: Body)
    requires Arara.Validate(receiver, templateName).Some?
    ensures a.SendMessage(p1, receiver, templateName, variables) == a.SendMessage(p2, receiver, templateName, variables)
    ensures a.SendMessage(p1, receiver, templateName, variables).result.error.kind == Validation
  {
  }

  /** A prefixed run of 8 to 15 digits and a non-blank template name pass every guard. */
  lemma {:induction false} WellFormedArgumentsAccepted(digits: string, templateName: string)
    requires MinDigits <= |digits| <= MaxDigits && AllDigits(digits)
    requires templateName != [] && !IsTrimChar(templateName[0])
    ensures Arara.Validate(Prefix + digits, templateName) == None
  {
    AcceptsPrefixedDigits(digits, false);
    assert Prefix + digits + "" == Prefix + digits;
    TrimEmptyIff(templateName);
    TrimEmptyIff(Prefix + digits) by { assert !IsTrimChar((Prefix + digits)[0]); }
  }

  /** The receiver and template name of the test scenarios pass every guard. */
  lemma ExampleArgumentsAccepted()
    ensures Arara.Validate("whatsapp:+5511999999999", "welcome") == None
  {
    var digits := "5511999999999";
    assert Prefix + digits == "whatsapp:+5511999999999";
    WellFormedArgumentsAccepted(digits, "welcome");
  }

  /** The test scenario of a successful send: the decoded reply comes back verbatim. */
  lemma {:induction false} SuccessReturnsReply(a: Arara, post: (ClientOptions, Request) -> TransportOutcome, reply: Body)
    requires post(a.client, Request(MessagesPath, "whatsapp:+5511999999999", "welcome", map[])) == Replied(reply)
    ensures var s := a.SendMessage(post, "whatsapp:+5511999999999", "welcome");
            && s.posted == Some(Request(MessagesPath, "whatsapp:+5511999999999", "welcome", map[]))
            && s.result == Success(reply)
  {
    ExampleArgumentsAccepted();
  }

  /** The error-status test scenarios: each pinned status gives its subclass, with the body's message. */
  lemma ClassificationExamples(m: string)
    ensures var body := Some(map["message" := JString(m)]);
            && Arara.HandleException(Some(HttpResponse(400, body))) == ApiError(BadRequest, 400, body, m)
            && Arara.HandleException(Some(HttpResponse(401, body))) == ApiError(Authentication, 401, body, m)
            && Arara.HandleException(Some(HttpResponse(404, body))) == ApiError(NotFound, 404, body, m)
            && Arara.HandleException(Some(HttpResponse(422, body))) == ApiError(Validation, 422, body, m)
            && Arara.HandleException(Some(HttpResponse(500, body))) == ApiError(InternalServer, 500, body, m)
  {
  }

  /** The unknown-status test scenario: 503 gives the base kind with that status and the body's message. */
  lemma UnknownStatusExample(m: string)
    ensures var body := Some(map["message" := JString(m)]);
            Arara.HandleException(Some(HttpResponse(503, body))) == ApiError(Generic, 503, body, m)
  {
  }

  /** A failed request without a response is an InternalServer error "HTTP 500" with no body. */
  lemma NoResponseIsInternalServer()
    ensures Arara.HandleException(None) == ApiError(InternalServer, 500, None, "HTTP 500")
  {
    assert NatToDecimal(50) == "50";
    assert NatToDecimal(500) == "500";
  }

  /** The client built from a default configuration targets the v1 API root and carries the key. */
  lemma DefaultClientForDefaultConfig(apiKey: string)
    ensures var o := DefaultClientOptions(NewConfig(apiKey));
            && o.baseUri == "https://api.ararahq.com/api/v1/"
            && o.headers["Authorization"] == "Bearer " + apiKey
  {
    var o := DefaultClientOptions(NewConfig(apiKey));
    assert BearerToken(o.headers["Authorization"]) == Some(apiKey);
  }
}
