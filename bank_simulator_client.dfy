/**
 * service/BankSimulatorClient.java: one POST to the bank simulator, whose
 * outcome is mapped to a payment status. The HTTP exchange itself is an
 * input: `BankReply` says how `postForEntity` ended.
 */
module BankSimulatorClient {
  import opened Text
  import opened Enums
  import opened Model

  import opened HttpStatus

  /** How the call to the bank simulator ended. */
  datatype BankReply =
    | Returned(statusCode: int, body: Option<BankSimulatorResponse>)  // a response entity came back
    | ServerError(statusCode: int)                                     // HttpServerErrorException
    | ClientFailure                                                    // any other RestClientException

  /** The verdict is fail-closed: the only authorization is a 200 whose body says authorized. */
  predicate IsAuthorizingReply(reply: BankReply) {
    reply.Returned? && reply.statusCode == HTTP_OK && reply.body.Some? && reply.body.value.authorized
  }

  /**
   * `callBank`. The card number must be non-empty: the log line takes its
   * last character, and the exception that would otherwise be thrown is not
   * among those caught.
   */
  function CallBank(request: BankSimulatorRequest, reply: BankReply): (status: PaymentStatus)
    requires |request.cardNumber| > 0
    ensures status == Authorized || status == Declined
    ensures status == Authorized <==> IsAuthorizingReply(reply)
  {
    match reply
    case Returned(code, body) =>
      if code == HTTP_OK then
        if body.Some? then (if body.value.authorized then Authorized else Declined)
        else Declined  // null body: falls through to the "unexpected response" return
      else if code == HTTP_BAD_REQUEST then Declined
      else if code == HTTP_SERVICE_UNAVAILABLE then Declined
      else Declined
    case ServerError(code) =>
      if code == HTTP_SERVICE_UNAVAILABLE then Declined else Declined
    case ClientFailure => Declined
  }

  /** Each non-authorizing outcome explicitly yields DECLINED. */
  lemma FailureOutcomesDecline(request: BankSimulatorRequest, code: int, body: Option<BankSimulatorResponse>,
                               authorizationCode: Option<string>)
    requires |request.cardNumber| > 0
    ensures CallBank(request, Returned(HTTP_OK, Some(BankSimulatorResponse(false, authorizationCode)))) == Declined
    ensures CallBank(request, Returned(HTTP_OK, None)) == Declined
    ensures code != HTTP_OK ==> CallBank(request, Returned(code, body)) == Declined
    ensures CallBank(request, ServerError(code)) == Declined
    ensures CallBank(request, ClientFailure) == Declined
  {
  }
}
