/**
 * What the service does with the violations `Validate` actually produces:
 * the messages attached to the constraints are the RejectionMessages
 * constants, and none of them contains a fragment `generateRejectionReason`
 * looks for (its fragments are matched case-sensitively, and the constants
 * are the finished reasons, not the fragments). So the presence and format
 * branches never fire; only the class-level expiry constraint, recognised by
 * its annotation rather than its message, yields a reason.
 */
module EndToEnd {
  import opened Text
  import opened Validation
  import opened Model
  import opened Service
  import opened Controller
  import opened HttpStatus
  import RejectionMessages

  /** A message that no classification test of `generateRejectionReason` recognises. */
  predicate IsInert(message: string) {
    !IsMissingFieldMessage(message) && !IsFieldFormatMessage(message) && !IsCurrencyMessage(message)
  }

  /** Neither presence fragment occurs in a message lacking 'q' or lacking 'i', and lacking 'b' or 'k'. */
  lemma NoPresenceFragment(m: string)
    requires 'q' !in m || 'i' !in m
    requires 'b' !in m || 'k' !in m
    ensures !IsMissingFieldMessage(m)
  {
    if 'q' !in m {
      AbsentCharNotContained(m, "is required", 'q');
    } else {
      AbsentCharNotContained(m, "is required", 'i');
    }
    if 'b' !in m {
      AbsentCharNotContained(m, "must not be blank", 'b');
    } else {
      AbsentCharNotContained(m, "must not be blank", 'k');
    }
  }

  /** No "must be" format fragment occurs in a message lacking 'b'. */
  lemma NoFormatFragmentWithoutB(m: string)
    requires 'b' !in m
    ensures !IsFieldFormatMessage(m)
  {
    AbsentCharNotContained(m, "must be between 1-12", 'b');
    AbsentCharNotContained(m, "must be 2-digit", 'b');
    AbsentCharNotContained(m, "must be 14-19 digits", 'b');
    AbsentCharNotContained(m, "must be 3-4 digits", 'b');
    AbsentCharNotContained(m, "must be a positive integer", 'b');
  }

  /** No "must be" format fragment occurs in a message lacking '-' and 'g'. */
  lemma NoFormatFragmentWithoutDashAndG(m: string)
    requires '-' !in m && 'g' !in m
    ensures !IsFieldFormatMessage(m)
  {
    AbsentCharNotContained(m, "must be between 1-12", '-');
    AbsentCharNotContained(m, "must be 2-digit", '-');
    AbsentCharNotContained(m, "must be 14-19 digits", '-');
    AbsentCharNotContained(m, "must be 3-4 digits", '-');
    AbsentCharNotContained(m, "must be a positive integer", 'g');
  }

  /**
   * A message is inert when it lacks a character of every fragment: 'q' or
   * 'i' (of "is required"), 'b' (of the six "must ..." fragments) or else
   * '-', 'k' and 'g', and 'C' (of "Currency is not supported").
   */
  lemma InertWithoutMarkers(m: string)
    requires 'q' !in m || 'i' !in m
    requires 'b' !in m || ('-' !in m && 'k' !in m && 'g' !in m)
    requires 'C' !in m
    ensures IsInert(m)
  {
    NoPresenceFragment(m);
    if 'b' !in m {
      NoFormatFragmentWithoutB(m);
    } else {
      NoFormatFragmentWithoutDashAndG(m);
    }
    AbsentCharNotContained(m, "Currency is not supported", 'C');
  }

  // Which of those characters each constant lacks. The five format messages
  // are a field name followed by the shared suffix, so each piece is checked
  // on its own.

  lemma SuffixLacksMarkers()
    ensures 'q' !in RejectionMessages.SUFFIX && 'b' !in RejectionMessages.SUFFIX && 'C' !in RejectionMessages.SUFFIX
  {
  }

  lemma SuffixLacksFormatMarkers()
    ensures '-' !in RejectionMessages.SUFFIX && 'k' !in RejectionMessages.SUFFIX && 'g' !in RejectionMessages.SUFFIX
  {
  }

  /** A character absent from both halves is absent from their concatenation. */
  lemma AbsentFromConcat(a: string, b: string, c: char)
    requires c !in a && c !in b
    ensures c !in a + b
  {
  }

  /** A field name lacking 'q', 'b' and 'C' gives an inert format message. */
  lemma FormatMessageIsInert(field: string, message: string)
    requires message == field + RejectionMessages.SUFFIX
    requires 'q' !in field && 'b' !in field && 'C' !in field
    ensures IsInert(message)
  {
    SuffixLacksMarkers();
    AbsentFromConcat(field, RejectionMessages.SUFFIX, 'q');
    AbsentFromConcat(field, RejectionMessages.SUFFIX, 'b');
    AbsentFromConcat(field, RejectionMessages.SUFFIX, 'C');
    InertWithoutMarkers(message);
  }

  // Each of the following takes the constant as a parameter `m`, so the
  // fragment tests are never evaluated on the literal itself.

  /** "cardNumber" has a 'b', so its message is inert through '-', 'k' and 'g' instead. */
  lemma CardNumberMessageIsInert(m: string)
    requires m == RejectionMessages.CARD_NUMBER_MALFORMED
    ensures IsInert(m)
  {
    var field := "cardNumber";
    assert 'q' !in field && 'C' !in field && '-' !in field && 'k' !in field && 'g' !in field;
    RejectionMessages.CardNumberMessageNamesField();
    SuffixLacksMarkers();
    SuffixLacksFormatMarkers();
    AbsentFromConcat(field, RejectionMessages.SUFFIX, 'q');
    AbsentFromConcat(field, RejectionMessages.SUFFIX, 'C');
    AbsentFromConcat(field, RejectionMessages.SUFFIX, '-');
    AbsentFromConcat(field, RejectionMessages.SUFFIX, 'k');
    AbsentFromConcat(field, RejectionMessages.SUFFIX, 'g');
    InertWithoutMarkers(m);
  }

  lemma ExpiryMonthMessageIsInert(m: string)
    requires m == RejectionMessages.EXPIRY_MONTH_MALFORMED
    ensures IsInert(m)
  {
    RejectionMessages.ExpiryMonthMessageNamesField();
    FormatMessageIsInert("expiryMonth", m);
  }

  lemma ExpiryYearMessageIsInert(m: string)
    requires m == RejectionMessages.EXPIRY_YEAR_MALFORMED
    ensures IsInert(m)
  {
    RejectionMessages.ExpiryYearMessageNamesField();
    FormatMessageIsInert("expiryYear", m);
  }

  lemma AmountMessageIsInert(m: string)
    requires m == RejectionMessages.AMOUNT_MALFORMED
    ensures IsInert(m)
  {
    RejectionMessages.AmountMessageNamesField();
    FormatMessageIsInert("amount", m);
  }

  lemma CvvMessageIsInert(m: string)
    requires m == RejectionMessages.CVV_MALFORMED
    ensures IsInert(m)
  {
    RejectionMessages.CvvMessageNamesField();
    FormatMessageIsInert("cvv", m);
  }

  /** "malformed request" has a 'q' but no 'i'. */
  lemma MalformedRequestIsInert(m: string)
    requires m == RejectionMessages.MALFORMED_REQUEST
    ensures IsInert(m)
  {
    assert 'i' !in m && 'b' !in m && 'C' !in m;
    InertWithoutMarkers(m);
  }

  lemma CurrencyMessageIsInert(m: string)
    requires m == RejectionMessages.CURRENCY_NOT_SUPPORTED
    ensures IsInert(m)
  {
    assert 'q' !in m && 'b' !in m && 'C' !in m;
    InertWithoutMarkers(m);
  }

  lemma ExpiredCardMessageIsInert(m: string)
    requires m == RejectionMessages.EXPIRED_CARD
    ensures IsInert(m)
  {
    assert 'q' !in m && 'b' !in m && 'C' !in m;
    InertWithoutMarkers(m);
  }

  /** No constraint message is recognised by any classification test. */
  lemma ConstraintMessagesAreInert(message: string)
    requires IsConstraintMessage(message)
    ensures IsInert(message)
  {
    if message == RejectionMessages.MALFORMED_REQUEST {
      MalformedRequestIsInert(message);
    } else if message == RejectionMessages.CARD_NUMBER_MALFORMED {
      CardNumberMessageIsInert(message);
    } else if message == RejectionMessages.EXPIRY_MONTH_MALFORMED {
      ExpiryMonthMessageIsInert(message);
    } else if message == RejectionMessages.EXPIRY_YEAR_MALFORMED {
      ExpiryYearMessageIsInert(message);
    } else if message == RejectionMessages.CURRENCY_NOT_SUPPORTED {
      CurrencyMessageIsInert(message);
    } else if message == RejectionMessages.AMOUNT_MALFORMED {
      AmountMessageIsInert(message);
    } else if message == RejectionMessages.CVV_MALFORMED {
      CvvMessageIsInert(message);
    } else {
      ExpiredCardMessageIsInert(message);
    }
  }

  /** Every violation of every request carries an inert message. */
  lemma ValidationMessagesAreInert(request: PostPaymentRequest, now: YearMonth)
    ensures forall v :: v in Validate(request, now) ==> IsInert(v.message)
  {
    forall v | v in Validate(request, now)
      ensures IsInert(v.message)
    {
      ValidationMessages(request, now, v);
      ConstraintMessagesAreInert(v.message);
    }
  }

  /**
   * Over violations whose messages are all inert, only the expiry constraint
   * contributes, and nothing suppresses it.
   */
  lemma InertViolationsReasons(violations: set<Violation>)
    requires forall v :: v in violations ==> IsInert(v.message)
    ensures !HasMissingField(violations)
    ensures !HasExpiryFormatError(violations)
    ensures RejectionReasons(violations)
         == if exists v :: v in violations && v.isExpiryDateConstraint then {EXPIRED_CARD_REASON} else {}
  {
    forall r | r in RejectionReasons(violations)
      ensures r == EXPIRED_CARD_REASON
    {
      ReasonsAreClassified(violations, r);
    }
    ExpiredCardReasonIff(violations);
  }

  /**
   * For every request, as written: no presence violation is recognised, no
   * expiry format error is recognised, and the only possible reason is
   * "Expired card", present exactly when the expiry validator refuses.
   */
  lemma ValidationReasonsAsWritten(request: PostPaymentRequest, now: YearMonth)
    ensures !HasMissingField(Validate(request, now))
    ensures !HasExpiryFormatError(Validate(request, now))
    ensures RejectionReasons(Validate(request, now))
         == if ExpiryDateIsValid(request.expiryMonth, request.expiryYear, now) then {} else {EXPIRED_CARD_REASON}
  {
    ValidationMessagesAreInert(request, now);
    ExpiryViolationIffExpired(request, now);
    InertViolationsReasons(Validate(request, now));
  }

  /** Hence a rejected request's reason is "Expired card" or the empty string. */
  lemma RejectionReasonAsWritten(request: PostPaymentRequest, now: YearMonth, reason: string)
    requires IsRejectionReason(Validate(request, now), reason)
    ensures reason == if ExpiryDateIsValid(request.expiryMonth, request.expiryYear, now) then "" else EXPIRED_CARD_REASON
  {
    ValidationReasonsAsWritten(request, now);
    RejectionReasonOfFewReasons(Validate(request, now), reason);
  }

  /** ... so, as written, every rejection is answered with 422, never 400. */
  lemma RejectionIsAlwaysUnprocessable(request: PostPaymentRequest, now: YearMonth, reason: string)
    requires IsRejectionReason(Validate(request, now), reason)
    ensures ProcessPaymentEntity(RejectedPayment(Enums.Rejected, reason)).statusCode == HTTP_UNPROCESSABLE_ENTITY
  {
    RejectionReasonAsWritten(request, now, reason);
  }

  /**
   * A request that would be accepted with some card number `card` has, with
   * the card number missing, exactly the card number's presence violation.
   */
  lemma MissingCardNumberViolations(request: PostPaymentRequest, now: YearMonth, card: string)
    requires request.cardNumber.None?
    requires Validate(request.(cardNumber := Some(card)), now) == {}
    ensures Validate(request, now) == {Violation(RejectionMessages.MALFORMED_REQUEST, "cardNumber", false)}
  {
    var full := request.(cardNumber := Some(card));
    var rest := ExpiryMonthViolations(request.expiryMonth) + ExpiryYearViolations(request.expiryYear)
      + CurrencyViolations(request.currency) + AmountViolations(request.amount) + CvvViolations(request.cvv)
      + ExpiryDateViolations(request, now);
    assert ExpiryDateViolations(request, now) == ExpiryDateViolations(full, now);
    assert Validate(full, now) == CardNumberViolations(full.cardNumber) + rest;
    assert rest == {};
    MissingFieldYieldsOnlyPresenceViolation(request);
    assert Validate(request, now) == CardNumberViolations(request.cardNumber) + rest;
  }

  /**
   * ... and is therefore rejected with the empty reason and status 422,
   * where the presence rule would have it "malformed request" and 400.
   */
  lemma MissingCardNumberAsWritten(request: PostPaymentRequest, now: YearMonth, card: string, reason: string)
    requires request.cardNumber.None?
    requires Validate(request.(cardNumber := Some(card)), now) == {}
    requires IsRejectionReason(Validate(request, now), reason)
    ensures reason == ""
    ensures ProcessPaymentEntity(RejectedPayment(Enums.Rejected, reason)).statusCode == HTTP_UNPROCESSABLE_ENTITY
  {
    MissingCardNumberViolations(request, now, card);
    assert ExpiryDateIsValid(request.expiryMonth, request.expiryYear, now);
    RejectionReasonAsWritten(request, now, reason);
  }
}
