/**
 * service/PaymentGatewayService.java: validates a request, rejects it with
 * a reason string or sends it to the bank and stores the outcome, and looks
 * stored payments up by id.
 */
module Service {
  import opened Text
  import opened Enums
  import opened Validation
  import opened Model
  import opened BankSimulatorClient
  import opened Repository
  import RejectionMessages

  // ---- how `generateRejectionReason` classifies a violation message ----

  /** The presence test of the first loop. */
  predicate IsMissingFieldMessage(message: string) {
    Contains(message, "is required") || Contains(message, "must not be blank")
  }

  /** The fragments that mark an expiry month or year format error. */
  predicate IsExpiryFormatMessage(message: string) {
    Contains(message, "must be between 1-12") || Contains(message, "must be 2-digit")
  }

  /** The test of the second loop: an expiry format message on the month or year property. */
  predicate IsExpiryFieldFormatError(v: Violation) {
    (v.property == "expiryMonth" || v.property == "expiryYear") && IsExpiryFormatMessage(v.message)
  }

  /** The five format fragments of the third loop. */
  predicate IsFieldFormatMessage(message: string) {
    || IsExpiryFormatMessage(message)
    || Contains(message, "must be 14-19 digits")
    || Contains(message, "must be 3-4 digits")
    || Contains(message, "must be a positive integer")
  }

  predicate IsCurrencyMessage(message: string) {
    Contains(message, "Currency is not supported")
  }

  predicate HasMissingField(violations: set<Violation>) {
    exists v :: v in violations && IsMissingFieldMessage(v.message)
  }

  predicate HasExpiryFormatError(violations: set<Violation>) {
    exists v :: v in violations && IsExpiryFieldFormatError(v)
  }

  const EXPIRED_CARD_REASON: string := "Expired card"
  const CURRENCY_REASON: string := "Currency is not supported"

  /**
   * What one violation contributes to the reason set in the third loop,
   * given whether an expiry format error suppresses "Expired card".
   */
  function ReasonOf(v: Violation, suppressExpired: bool): (reason: Option<string>)
    ensures v.isExpiryDateConstraint ==> (reason.Some? <==> !suppressExpired)
    ensures reason.Some? ==>
      || reason.value == EXPIRED_CARD_REASON
      || reason.value == v.property + RejectionMessages.SUFFIX
      || reason.value == CURRENCY_REASON
    ensures !v.isExpiryDateConstraint ==>
      (reason.Some? <==> IsFieldFormatMessage(v.message) || IsCurrencyMessage(v.message))
    ensures v.isExpiryDateConstraint && !suppressExpired ==> reason == Some(EXPIRED_CARD_REASON)
    ensures !v.isExpiryDateConstraint && IsFieldFormatMessage(v.message) ==>
      reason == Some(v.property + RejectionMessages.SUFFIX)
    ensures !v.isExpiryDateConstraint && !IsFieldFormatMessage(v.message) && IsCurrencyMessage(v.message) ==>
      reason == Some(CURRENCY_REASON)
  {
    if v.isExpiryDateConstraint then
      if suppressExpired then None else Some(EXPIRED_CARD_REASON)
    else if IsFieldFormatMessage(v.message) then
      Some(v.property + RejectionMessages.SUFFIX)
    else if IsCurrencyMessage(v.message) then
      Some(CURRENCY_REASON)
    else
      None
  }

  /** The reason set the third loop builds over `violations`. */
  function Reasons(violations: set<Violation>, suppressExpired: bool): set<string> {
    set v | v in violations && ReasonOf(v, suppressExpired).Some? :: ReasonOf(v, suppressExpired).value
  }

  /** The reasons of a violation set, with "Expired card" suppressed by an expiry format error. */
  function RejectionReasons(violations: set<Violation>): set<string> {
    Reasons(violations, HasExpiryFormatError(violations))
  }

  /**
   * The strings `generateRejectionReason` may return: "malformed request"
   * when a presence violation exists, otherwise the reason set joined with
   * ", " in some iteration order.
   */
  ghost predicate IsRejectionReason(violations: set<Violation>, reason: string) {
    if HasMissingField(violations) then reason == RejectionMessages.MALFORMED_REQUEST
    else exists order :: IsEnumeration(order, RejectionReasons(violations)) && reason == Join(", ", order)
  }

  /** Reasons of one more violation. */
  lemma ReasonsOfInsert(done: set<Violation>, v: Violation, suppressExpired: bool)
    ensures Reasons(done + {v}, suppressExpired)
         == Reasons(done, suppressExpired)
            + (if ReasonOf(v, suppressExpired).Some? then {ReasonOf(v, suppressExpired).value} else {})
  {
  }

  /** Reasons of no violation. */
  lemma ReasonsOfEmpty(suppressExpired: bool)
    ensures Reasons({}, suppressExpired) == {}
  {
  }

  /**
   * `generateRejectionReason`: the first loop looks for a presence
   * violation, the second for an expiry format error, the third collects the
   * reasons into a set, which is then joined.
   */
  method GenerateRejectionReason(violations: set<Violation>) returns (reason: string)
    ensures HasMissingField(violations) ==> reason == RejectionMessages.MALFORMED_REQUEST
    ensures IsRejectionReason(violations, reason)
  {
    var hasMissingFields := false;
    var remaining := violations;
    while remaining != {}
      invariant remaining <= violations
      invariant forall v :: v in violations && v !in remaining ==> !IsMissingFieldMessage(v.message)
      decreases remaining
    {
      var v :| v in remaining;
      if IsMissingFieldMessage(v.message) {
        hasMissingFields := true;
        break;
      }
      remaining := remaining - {v};
    }
    if hasMissingFields {
      return RejectionMessages.MALFORMED_REQUEST;
    }
    assert !HasMissingField(violations);

    var reasons: set<string> := {};
    var hasExpiryFieldFormatErrors := false;
    remaining := violations;
    while remaining != {}
      invariant remaining <= violations
      invariant hasExpiryFieldFormatErrors ==> HasExpiryFormatError(violations)
      invariant !hasExpiryFieldFormatErrors ==>
        forall v :: v in violations && v !in remaining ==> !IsExpiryFieldFormatError(v)
      decreases remaining
    {
      var v :| v in remaining;
      if IsExpiryFieldFormatError(v) {
        hasExpiryFieldFormatErrors := true;
        break;
      }
      remaining := remaining - {v};
    }
    assert hasExpiryFieldFormatErrors == HasExpiryFormatError(violations);

    remaining := violations;
    ReasonsOfEmpty(hasExpiryFieldFormatErrors);
    while remaining != {}
      invariant remaining <= violations
      invariant reasons == Reasons(violations - remaining, hasExpiryFieldFormatErrors)
      decreases remaining
    {
      var v :| v in remaining;
      ReasonsOfInsert(violations - remaining, v, hasExpiryFieldFormatErrors);
      if v.isExpiryDateConstraint {
        if !hasExpiryFieldFormatErrors {
          reasons := reasons + {EXPIRED_CARD_REASON};
        }
      } else if IsFieldFormatMessage(v.message) {
        reasons := reasons + {v.property + RejectionMessages.SUFFIX};
      } else if IsCurrencyMessage(v.message) {
        reasons := reasons + {CURRENCY_REASON};
      }
      assert violations - (remaining - {v}) == (violations - remaining) + {v};
      remaining := remaining - {v};
    }
    assert violations - remaining == violations;
    ghost var order;
    reason, order := JoinSet(", ", reasons);
  }

  // ---- properties of the rejection reason ----

  /** `property + " is malformed/incorrect"` is never "Expired card" or the currency reason. */
  lemma FieldReasonIsDistinct(property: string)
    ensures property + RejectionMessages.SUFFIX != EXPIRED_CARD_REASON
    ensures property + RejectionMessages.SUFFIX != CURRENCY_REASON
  {
    var t := property + RejectionMessages.SUFFIX;
    assert |t| >= |RejectionMessages.SUFFIX|;
    assert t[|property|] == ' ';
    assert CURRENCY_REASON[2] == 'r';
  }

  /**
   * "Expired card" is a reason exactly when the expiry constraint is
   * violated and no month or year violation carries an expiry format message.
   */
  lemma ExpiredCardReasonIff(violations: set<Violation>)
    ensures EXPIRED_CARD_REASON in RejectionReasons(violations)
        <==> (exists v :: v in violations && v.isExpiryDateConstraint) && !HasExpiryFormatError(violations)
  {
    var s := HasExpiryFormatError(violations);
    if EXPIRED_CARD_REASON in RejectionReasons(violations) {
      var v :| v in violations && ReasonOf(v, s).Some? && ReasonOf(v, s).value == EXPIRED_CARD_REASON;
      FieldReasonIsDistinct(v.property);
    }
    if (exists v :: v in violations && v.isExpiryDateConstraint) && !s {
      var v :| v in violations && v.isExpiryDateConstraint;
      assert ReasonOf(v, s) == Some(EXPIRED_CARD_REASON);
    }
  }

  /**
   * Every reason comes from a violation: "Expired card" from the expiry
   * constraint, `property + " is malformed/incorrect"` from a format message on
   * that property, "Currency is not supported" from a currency message.
   */
  lemma ReasonsAreClassified(violations: set<Violation>, reason: string)
    requires reason in RejectionReasons(violations)
    ensures || (reason == EXPIRED_CARD_REASON
                && exists v :: v in violations && v.isExpiryDateConstraint)
            || (exists v :: v in violations && !v.isExpiryDateConstraint && IsFieldFormatMessage(v.message)
                  && reason == v.property + RejectionMessages.SUFFIX)
            || (reason == CURRENCY_REASON
                && exists v :: v in violations && !v.isExpiryDateConstraint && IsCurrencyMessage(v.message))
  {
    var s := HasExpiryFormatError(violations);
    var v :| v in violations && ReasonOf(v, s).Some? && ReasonOf(v, s).value == reason;
  }

  /**
   * Conversely, every format violation contributes its property's reason,
   * and every currency violation (without a format fragment) contributes the currency reason.
   */
  lemma ViolationsContributeReasons(violations: set<Violation>, v: Violation)
    requires v in violations && !v.isExpiryDateConstraint
    ensures IsFieldFormatMessage(v.message) ==> v.property + RejectionMessages.SUFFIX in RejectionReasons(violations)
    ensures !IsFieldFormatMessage(v.message) && IsCurrencyMessage(v.message) ==> CURRENCY_REASON in RejectionReasons(violations)
    ensures !IsFieldFormatMessage(v.message) && !IsCurrencyMessage(v.message) ==>
      ReasonOf(v, HasExpiryFormatError(violations)).None?
  {
    var s := HasExpiryFormatError(violations);
    if ReasonOf(v, s).Some? {
      assert ReasonOf(v, s).value in Reasons(violations, s);
    }
  }

  /** Without a presence violation, every reason occurs in the returned string. */
  lemma {:induction false} RejectionReasonMentionsEveryReason(violations: set<Violation>, reason: string, r: string)
    requires IsRejectionReason(violations, reason) && !HasMissingField(violations)
    requires r in RejectionReasons(violations)
    ensures Contains(reason, r)
  {
    var order :| IsEnumeration(order, RejectionReasons(violations)) && reason == Join(", ", order);
    var k :| 0 <= k < |order| && order[k] == r;
    JoinContainsItem(", ", order, k);
  }

  /** Without a presence violation, no reasons give "" and a single reason is returned as it is. */
  lemma RejectionReasonOfFewReasons(violations: set<Violation>, reason: string)
    requires IsRejectionReason(violations, reason) && !HasMissingField(violations)
    ensures RejectionReasons(violations) == {} ==> reason == ""
    ensures forall r :: RejectionReasons(violations) == {r} ==> reason == r
  {
    var order :| IsEnumeration(order, RejectionReasons(violations)) && reason == Join(", ", order);
    if RejectionReasons(violations) == {} {
      EnumerationOfEmpty(order);
    }
    forall r | RejectionReasons(violations) == {r}
      ensures reason == r
    {
      EnumerationOfSingleton(order, r);
    }
  }

  // ---- the service object ----

  /** `Integer.parseInt(amount)` succeeds: a digit string whose value fits a Java int. */
  predicate AmountFitsInt(request: PostPaymentRequest) {
    request.amount.Some? && AmountMatches(request.amount.value) && DecimalValue(request.amount.value) <= INT_MAX
  }

  /** The request sent to the bank for a request without violations. */
  function BankRequestOf(request: PostPaymentRequest, now: YearMonth): (bankRequest: BankSimulatorRequest)
    requires WellFormed(request, now) && AmountFitsInt(request)
    ensures bankRequest.cardNumber == request.cardNumber.value && bankRequest.cvv == request.cvv.value
    ensures |bankRequest.cardNumber| > 0
    ensures GetName(bankRequest.currency) == request.currency.value
    ensures bankRequest.amount == DecimalValue(request.amount.value)
    ensures bankRequest.expiryDate == GetExpiryDate(request)
  {
    BankSimulatorRequest(request.cardNumber.value, GetExpiryDate(request), ValueOf(request.currency.value).value,
                         DecimalValue(request.amount.value), request.cvv.value)
  }

  /** What `getPaymentById` produces: the payment, or the EventProcessingException it throws. */
  datatype Lookup = Found(payment: SuccessfulPaymentResponse) | NotFound(message: string)

  const INVALID_PAYMENT_ID: string := "Invalid payment ID"

  class PaymentGatewayService {
    const repository: PaymentsRepository

    /** Only processed payments are stored, so no stored record is REJECTED. */
    ghost predicate Valid()
      reads this, repository
    {
      && repository.Valid()
      && forall id :: id in repository.payments ==> repository.payments[id].status != Rejected
    }

    constructor (repository: PaymentsRepository)
      requires repository.Valid()
      requires forall id :: id in repository.payments ==> repository.payments[id].status != Rejected
      ensures this.repository == repository
      ensures Valid()
    {
      this.repository := repository;
    }

    /**
     * `processPayment`. The clock, the fresh id of `UUID.randomUUID()` and the
     * bank's reply are parameters. A request with violations is rejected and
     * nothing is stored; otherwise the bank's verdict is recorded under the
     * new id. The amount must fit an `int`, or `Integer.parseInt` throws.
     */
    method ProcessPayment(request: PostPaymentRequest, now: YearMonth, paymentId: Uuid, reply: BankReply)
      returns (response: PostPaymentResponse)
      requires Valid()
      requires Validate(request, now) == {} ==> AmountFitsInt(request)
      modifies repository
      ensures Valid()
      ensures Validate(request, now) != {} ==>
        && response.RejectedPayment?
        && response.status == Rejected
        && IsRejectionReason(Validate(request, now), response.rejectionReason)
        && repository.payments == old(repository.payments)
      ensures Validate(request, now) == {} ==>
        && WellFormed(request, now)
        && response.Successful?
        && var p := response.payment;
           var card := request.cardNumber.value;
           && p.id == paymentId
           && p.status == CallBank(BankRequestOf(request, now), reply)
           && (p.status == Authorized <==> IsAuthorizingReply(reply))
           && p.status != Rejected
           && |p.cardNumberLastFour| == 4 && card == card[..|card| - 4] + p.cardNumberLastFour
           && p.expiryMonth == request.expiryMonth.value
           && p.expiryYear == request.expiryYear.value
           && GetName(p.currency) == request.currency.value
           && p.amount == DecimalValue(request.amount.value)
           && repository.payments == old(repository.payments)[paymentId := p]
           && |repository.payments| == old(|repository.payments|) + (if paymentId in old(repository.payments) then 0 else 1)
    {
      var violations := Validate(request, now);
      if violations != {} {
        var rejectionReason := GenerateRejectionReason(violations);
        return RejectedPayment(Rejected, rejectionReason);
      }
      ValidateIsEmptyIffWellFormed(request, now);

      var bankRequest := BankRequestOf(request, now);
      var bankStatus := CallBank(bankRequest, reply);

      var cardNumber := request.cardNumber.value;
      var lastFour := cardNumber[|cardNumber| - 4..];

      var payment := SuccessfulPaymentResponse(
        paymentId,
        bankStatus,
        lastFour,
        request.expiryMonth.value,
        request.expiryYear.value,
        ValueOf(request.currency.value).value,
        DecimalValue(request.amount.value));

      repository.Add(payment);
      return Successful(payment);
    }

    /** `getPaymentById`: the stored record, or "Invalid payment ID" for an unknown id; nothing changes. */
    method GetPaymentById(id: Uuid) returns (result: Lookup)
      requires Valid()
      ensures result.Found? <==> id in repository.payments
      ensures result.Found? ==> result.payment == repository.payments[id] && result.payment.id == id
      ensures result.Found? ==> result.payment.status != Rejected
      ensures result.NotFound? ==> result.message == INVALID_PAYMENT_ID
    {
      var found := repository.Get(id);
      match found
      case Some(payment) => return Found(payment);
      case None => return NotFound(INVALID_PAYMENT_ID);
    }
  }
}
