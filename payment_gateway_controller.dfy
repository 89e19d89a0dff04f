/**
 * controller/PaymentGatewayController.java: the HTTP status chosen for each
 * service result. The 404 for an unknown id is the mapping of
 * exception/CommonExceptionHandler.java for EventProcessingException.
 */
module Controller {
  import opened Text
  import opened Enums
  import opened Model
  import opened Service
  import opened HttpStatus
  import Validation
  import BankSimulatorClient
  import RejectionMessages

  /** A response body with its HTTP status code. */
  datatype ResponseEntity<T> = ResponseEntity(body: T, statusCode: int)

  /** The body of an error reply (model/ErrorResponse.java is not part of this model). */
  datatype ErrorResponse = ErrorResponse(message: string)

  /** What GET /payment/{id} answers with. */
  datatype PaymentLookupBody = PaymentBody(payment: SuccessfulPaymentResponse) | ErrorBody(error: ErrorResponse)

  const PAYMENT_NOT_FOUND: string := "payment not found"

  /**
   * POST /payment: 200 for a stored payment, 400 for the reason "malformed
   * request", 422 for any other rejection. The response is the body as it is.
   * The INTERNAL_SERVER_ERROR branch cannot be taken: the service returns
   * only these two kinds of response.
   */
  function ProcessPaymentEntity(response: PostPaymentResponse): (entity: ResponseEntity<PostPaymentResponse>)
    ensures entity.body == response
    ensures entity.statusCode == HTTP_OK <==> response.Successful?
    ensures entity.statusCode == HTTP_BAD_REQUEST <==>
      response.RejectedPayment? && response.rejectionReason == RejectionMessages.MALFORMED_REQUEST
    ensures entity.statusCode == HTTP_UNPROCESSABLE_ENTITY <==>
      response.RejectedPayment? && response.rejectionReason != RejectionMessages.MALFORMED_REQUEST
  {
    match response
    case Successful(_) => ResponseEntity(response, HTTP_OK)
    case RejectedPayment(_, reason) =>
      ResponseEntity(response, if reason == "malformed request" then HTTP_BAD_REQUEST else HTTP_UNPROCESSABLE_ENTITY)
  }

  /** GET /payment/{id}: 200 with exactly the stored payment, 404 "payment not found" for an unknown id. */
  function GetPaymentEntity(result: Lookup): (entity: ResponseEntity<PaymentLookupBody>)
    ensures entity.statusCode == HTTP_OK <==> result.Found?
    ensures result.Found? ==> entity.body == PaymentBody(result.payment)
    ensures result.NotFound? ==> entity == ResponseEntity(ErrorBody(ErrorResponse(PAYMENT_NOT_FOUND)), HTTP_NOT_FOUND)
  {
    match result
    case Found(payment) => ResponseEntity(PaymentBody(payment), HTTP_OK)
    case NotFound(_) => ResponseEntity(ErrorBody(ErrorResponse("payment not found")), HTTP_NOT_FOUND)
  }

  /** The controller object, delegating to the service it is constructed with. */
  class PaymentGatewayController {
    const service: PaymentGatewayService

    constructor (service: PaymentGatewayService)
      ensures this.service == service
    {
      this.service := service;
    }

    /** `processPayment`: the service's result with its status code. */
    method ProcessPayment(request: PostPaymentRequest, now: Validation.YearMonth, paymentId: Uuid,
                          reply: BankSimulatorClient.BankReply)
      returns (entity: ResponseEntity<PostPaymentResponse>)
      requires service.Valid()
      requires Validate(request, now) == {} ==> AmountFitsInt(request)
      modifies service.repository
      ensures service.Valid()
      ensures entity.statusCode == HTTP_OK <==> Validate(request, now) == {}
      ensures entity.statusCode != HTTP_OK ==>
        && entity.body.RejectedPayment?
        && entity.body.status == Rejected
        && IsRejectionReason(Validate(request, now), entity.body.rejectionReason)
        && (entity.statusCode == HTTP_BAD_REQUEST <==> entity.body.rejectionReason == RejectionMessages.MALFORMED_REQUEST)
        && (entity.statusCode == HTTP_UNPROCESSABLE_ENTITY <==> entity.body.rejectionReason != RejectionMessages.MALFORMED_REQUEST)
        && service.repository.payments == old(service.repository.payments)
      ensures entity.statusCode == HTTP_OK ==>
        && entity.body.Successful?
        && var p := entity.body.payment;
           var card := request.cardNumber.value;
           && p.id == paymentId
           && p.status == BankSimulatorClient.CallBank(BankRequestOf(request, now), reply)
           && (p.status == Authorized <==> BankSimulatorClient.IsAuthorizingReply(reply))
           && |p.cardNumberLastFour| == 4 && card == card[..|card| - 4] + p.cardNumberLastFour
           && p.expiryMonth == request.expiryMonth.value
           && p.expiryYear == request.expiryYear.value
           && GetName(p.currency) == request.currency.value
           && p.amount == DecimalValue(request.amount.value)
           && service.repository.payments == old(service.repository.payments)[paymentId := p]
    {
      var response := service.ProcessPayment(request, now, paymentId, reply);
      entity := ProcessPaymentEntity(response);
    }

    /** `getPaymentById`, with the not-found exception mapped to 404. */
    method GetPaymentById(id: Uuid) returns (entity: ResponseEntity<PaymentLookupBody>)
      requires service.Valid()
      ensures entity.statusCode == HTTP_OK <==> id in service.repository.payments
      ensures id in service.repository.payments ==> entity.body == PaymentBody(service.repository.payments[id])
      ensures id !in service.repository.payments ==> entity.body == ErrorBody(ErrorResponse(PAYMENT_NOT_FOUND))
    {
      var result := service.GetPaymentById(id);
      entity := GetPaymentEntity(result);
    }
  }
}
