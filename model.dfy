/**
 * The data carriers of the gateway and the constraints declared on
 * model/PostPaymentRequest.java, written out as the function `Validate`
 * that Bean Validation evaluates reflectively.
 */
module Model {
  import opened Text
  import opened Enums
  import opened Validation
  import RejectionMessages

  /**
   * A card-payment request as deserialised: every field may be null. Month
   * and year are boxed `Integer`s, the other fields strings.
   */
  datatype PostPaymentRequest = PostPaymentRequest(
    cardNumber: Option<string>,
    expiryMonth: Option<Int32>,
    expiryYear: Option<Int32>,
    currency: Option<string>,
    amount: Option<string>,
    cvv: Option<string>)

  /**
   * One constraint violation: its interpolated message, its property path
   * (the field name, or "" for the class-level expiry constraint) and whether
   * its annotation is `@ValidExpiryDate`.
   */
  datatype Violation = Violation(message: string, property: string, isExpiryDateConstraint: bool)

  /** The opaque payment identifier (`java.util.UUID`: two 64-bit halves). */
  datatype Uuid = Uuid(mostSignificantBits: int, leastSignificantBits: int)

  /** The stored record of a processed payment. */
  datatype SuccessfulPaymentResponse = SuccessfulPaymentResponse(
    id: Uuid,
    status: PaymentStatus,
    cardNumberLastFour: string,
    expiryMonth: Int32,
    expiryYear: Int32,
    currency: Currency,
    amount: Int32)

  /** What `processPayment` returns: a stored payment or an unstored rejection. */
  datatype PostPaymentResponse =
    | Successful(payment: SuccessfulPaymentResponse)
    | RejectedPayment(status: PaymentStatus, rejectionReason: string)

  /** The body sent to the bank simulator. */
  datatype BankSimulatorRequest = BankSimulatorRequest(
    cardNumber: string,
    expiryDate: string,
    currency: Currency,
    amount: Int32,
    cvv: string)

  /** The body the bank simulator answers with. */
  datatype BankSimulatorResponse = BankSimulatorResponse(authorized: bool, authorizationCode: Option<string>)

  // ---- field patterns (`^\d{14,19}$`, `^\d+$`, `^\d{3,4}$`) ----

  predicate CardNumberMatches(s: string) {
    14 <= |s| <= 19 && AllDigits(s)
  }

  predicate AmountMatches(s: string) {
    |s| >= 1 && AllDigits(s)
  }

  predicate CvvMatches(s: string) {
    3 <= |s| <= 4 && AllDigits(s)
  }

  // ---- one function per annotated field ----

  /** A present value whose first character is printable is not blank. */
  lemma PrintableIsNotBlank(value: Option<string>)
    ensures value.Some? && |value.value| >= 1 && value.value[0] > ' ' ==> !IsBlank(value.value)
  {
  }

  /** `@NotBlank` fails on null or on a string of only chars up to U+0020. */
  function NotBlankViolations(value: Option<string>, property: string): set<Violation> {
    if value.None? || IsBlank(value.value) then {Violation(RejectionMessages.MALFORMED_REQUEST, property, false)}
    else {}
  }

  /** `@Pattern` passes on null and fails on a present value that does not match. */
  function PatternViolations(value: Option<string>, matches: bool, message: string, property: string): set<Violation> {
    if value.Some? && !matches then {Violation(message, property, false)} else {}
  }

  /** `@NotNull` plus `@Min(low)` and `@Max(high)`, which pass on null. */
  function RangeViolations(value: Option<Int32>, low: int, high: int, message: string, property: string): set<Violation> {
    match value
    case None => {Violation(RejectionMessages.MALFORMED_REQUEST, property, false)}
    case Some(v) => if v < low || v > high then {Violation(message, property, false)} else {}
  }

  /** `cardNumber`: `@NotBlank` and `@Pattern(^\d{14,19}$)`; no violation exactly for 14..19 digits. */
  function CardNumberViolations(cardNumber: Option<string>): (violations: set<Violation>)
    ensures forall v :: v in violations ==> v.property == "cardNumber" && !v.isExpiryDateConstraint
    ensures violations == {} <==> cardNumber.Some? && CardNumberMatches(cardNumber.value)
  {
    PrintableIsNotBlank(cardNumber);
    NotBlankViolations(cardNumber, "cardNumber")
      + PatternViolations(cardNumber, cardNumber.Some? && CardNumberMatches(cardNumber.value),
                          RejectionMessages.CARD_NUMBER_MALFORMED, "cardNumber")
  }

  /** `expiryMonth`: `@NotNull`, `@Min(1)` and `@Max(12)`. */
  function ExpiryMonthViolations(expiryMonth: Option<Int32>): (violations: set<Violation>)
    ensures forall v :: v in violations ==> v.property == "expiryMonth" && !v.isExpiryDateConstraint
    ensures violations == {} <==> expiryMonth.Some? && 1 <= expiryMonth.value <= 12
  {
    RangeViolations(expiryMonth, 1, 12, RejectionMessages.EXPIRY_MONTH_MALFORMED, "expiryMonth")
  }

  /** `expiryYear`: `@NotNull`, `@Min(1)` and `@Max(99)`. */
  function ExpiryYearViolations(expiryYear: Option<Int32>): (violations: set<Violation>)
    ensures forall v :: v in violations ==> v.property == "expiryYear" && !v.isExpiryDateConstraint
    ensures violations == {} <==> expiryYear.Some? && 1 <= expiryYear.value <= 99
  {
    RangeViolations(expiryYear, 1, 99, RejectionMessages.EXPIRY_YEAR_MALFORMED, "expiryYear")
  }

  /** `@NotBlank` plus `@ValidCurrency` (whose message is CURRENCY_NOT_SUPPORTED). */
  function CurrencyViolations(currency: Option<string>): (violations: set<Violation>)
    ensures forall v :: v in violations ==> v.property == "currency" && !v.isExpiryDateConstraint
    ensures violations == {} <==> currency.Some? && currency.value in {"USD", "GBP", "EUR"}
  {
    PrintableIsNotBlank(currency);
    NotBlankViolations(currency, "currency")
      + (if CurrencyIsValid(currency) then {}
         else {Violation(RejectionMessages.CURRENCY_NOT_SUPPORTED, "currency", false)})
  }

  /** `amount`: `@NotBlank` and `@Pattern(^\d+$)`; no violation exactly for a digit string. */
  function AmountViolations(amount: Option<string>): (violations: set<Violation>)
    ensures forall v :: v in violations ==> v.property == "amount" && !v.isExpiryDateConstraint
    ensures violations == {} <==> amount.Some? && AmountMatches(amount.value)
  {
    PrintableIsNotBlank(amount);
    NotBlankViolations(amount, "amount")
      + PatternViolations(amount, amount.Some? && AmountMatches(amount.value),
                          RejectionMessages.AMOUNT_MALFORMED, "amount")
  }

  /** `cvv`: `@NotBlank` and `@Pattern(^\d{3,4}$)`; no violation exactly for 3 or 4 digits. */
  function CvvViolations(cvv: Option<string>): (violations: set<Violation>)
    ensures forall v :: v in violations ==> v.property == "cvv" && !v.isExpiryDateConstraint
    ensures violations == {} <==> cvv.Some? && CvvMatches(cvv.value)
  {
    PrintableIsNotBlank(cvv);
    NotBlankViolations(cvv, "cvv")
      + PatternViolations(cvv, cvv.Some? && CvvMatches(cvv.value), RejectionMessages.CVV_MALFORMED, "cvv")
  }

  /** The class-level `@ValidExpiryDate` (message EXPIRED_CARD, empty property path). */
  function ExpiryDateViolations(request: PostPaymentRequest, now: YearMonth): (violations: set<Violation>)
    ensures forall v :: v in violations ==> v.property == "" && v.isExpiryDateConstraint
    ensures violations == {} <==> ExpiryDateIsValid(request.expiryMonth, request.expiryYear, now)
  {
    if ExpiryDateIsValid(request.expiryMonth, request.expiryYear, now) then {}
    else {Violation(RejectionMessages.EXPIRED_CARD, "", true)}
  }

  /** `validator.validate(request)`: every violated constraint of the request. */
  function Validate(request: PostPaymentRequest, now: YearMonth): (violations: set<Violation>)
    ensures forall v :: v in violations ==> (v.property == "" <==> v.isExpiryDateConstraint)
    ensures forall v :: v in violations ==>
      v.property in {"cardNumber", "expiryMonth", "expiryYear", "currency", "amount", "cvv", ""}
  {
    CardNumberViolations(request.cardNumber)
      + ExpiryMonthViolations(request.expiryMonth)
      + ExpiryYearViolations(request.expiryYear)
      + CurrencyViolations(request.currency)
      + AmountViolations(request.amount)
      + CvvViolations(request.cvv)
      + ExpiryDateViolations(request, now)
  }

  /** The messages a violation of this request can carry: the RejectionMessages constants. */
  predicate IsConstraintMessage(message: string) {
    || message == RejectionMessages.MALFORMED_REQUEST
    || message == RejectionMessages.CARD_NUMBER_MALFORMED
    || message == RejectionMessages.EXPIRY_MONTH_MALFORMED
    || message == RejectionMessages.EXPIRY_YEAR_MALFORMED
    || message == RejectionMessages.CURRENCY_NOT_SUPPORTED
    || message == RejectionMessages.AMOUNT_MALFORMED
    || message == RejectionMessages.CVV_MALFORMED
    || message == RejectionMessages.EXPIRED_CARD
  }

  /** A field-level violation set: constant messages, none of them the expiry constraint. */
  ghost predicate FieldLevel(violations: set<Violation>) {
    forall v :: v in violations ==> IsConstraintMessage(v.message) && !v.isExpiryDateConstraint
  }

  lemma CardAndExpiryConstraintsAreFieldLevel(request: PostPaymentRequest)
    ensures FieldLevel(CardNumberViolations(request.cardNumber))
    ensures FieldLevel(ExpiryMonthViolations(request.expiryMonth))
    ensures FieldLevel(ExpiryYearViolations(request.expiryYear))
  {
  }

  lemma OtherConstraintsAreFieldLevel(request: PostPaymentRequest)
    ensures FieldLevel(CurrencyViolations(request.currency))
    ensures FieldLevel(AmountViolations(request.amount))
    ensures FieldLevel(CvvViolations(request.cvv))
  {
  }

  /** The six field constraints carry constant messages and are not the expiry constraint. */
  lemma FieldConstraintsAreFieldLevel(request: PostPaymentRequest)
    ensures FieldLevel(CardNumberViolations(request.cardNumber))
    ensures FieldLevel(ExpiryMonthViolations(request.expiryMonth))
    ensures FieldLevel(ExpiryYearViolations(request.expiryYear))
    ensures FieldLevel(CurrencyViolations(request.currency))
    ensures FieldLevel(AmountViolations(request.amount))
    ensures FieldLevel(CvvViolations(request.cvv))
  {
    CardAndExpiryConstraintsAreFieldLevel(request);
    OtherConstraintsAreFieldLevel(request);
  }

  /** Every violation carries one of the eight constants; only the class-level one is the expiry constraint. */
  lemma ValidationMessages(request: PostPaymentRequest, now: YearMonth, v: Violation)
    requires v in Validate(request, now)
    ensures IsConstraintMessage(v.message)
    ensures v.isExpiryDateConstraint ==> v == Violation(RejectionMessages.EXPIRED_CARD, "", true)
  {
    FieldConstraintsAreFieldLevel(request);
  }

  /** The expiry constraint is violated exactly when the expiry validator refuses the request. */
  lemma ExpiryViolationIffExpired(request: PostPaymentRequest, now: YearMonth)
    ensures (exists v :: v in Validate(request, now) && v.isExpiryDateConstraint)
        <==> !ExpiryDateIsValid(request.expiryMonth, request.expiryYear, now)
  {
    FieldConstraintsAreFieldLevel(request);
    if !ExpiryDateIsValid(request.expiryMonth, request.expiryYear, now) {
      assert Violation(RejectionMessages.EXPIRED_CARD, "", true) in Validate(request, now);
    }
  }

  /** A request with no violations has every field present and well formed. */
  predicate WellFormed(request: PostPaymentRequest, now: YearMonth) {
    && request.cardNumber.Some? && CardNumberMatches(request.cardNumber.value)
    && request.expiryMonth.Some? && 1 <= request.expiryMonth.value <= 12
    && request.expiryYear.Some? && 1 <= request.expiryYear.value <= 99
    && request.currency.Some? && ValueOf(request.currency.value).Some?
    && request.amount.Some? && AmountMatches(request.amount.value)
    && request.cvv.Some? && CvvMatches(request.cvv.value)
    && IsAfter(YearMonth(2000 + request.expiryYear.value, request.expiryMonth.value), now)
  }

  /** No violations exactly when every field is present and well formed and the card is unexpired. */
  lemma ValidateIsEmptyIffWellFormed(request: PostPaymentRequest, now: YearMonth)
    ensures Validate(request, now) == {} <==> WellFormed(request, now)
  {
    if WellFormed(request, now) {
      assert !IsBlank(request.cardNumber.value) by { assert request.cardNumber.value[0] > ' '; }
      assert !IsBlank(request.amount.value) by { assert request.amount.value[0] > ' '; }
      assert !IsBlank(request.cvv.value) by { assert request.cvv.value[0] > ' '; }
      assert !IsBlank(request.currency.value) by { assert request.currency.value[0] > ' '; }
    }
  }

  /** A null field yields exactly its presence violation among that field's constraints. */
  lemma MissingFieldYieldsOnlyPresenceViolation(request: PostPaymentRequest)
    ensures request.cardNumber.None? ==>
      CardNumberViolations(request.cardNumber) == {Violation(RejectionMessages.MALFORMED_REQUEST, "cardNumber", false)}
    ensures request.expiryMonth.None? ==>
      ExpiryMonthViolations(request.expiryMonth) == {Violation(RejectionMessages.MALFORMED_REQUEST, "expiryMonth", false)}
    ensures request.expiryYear.None? ==>
      ExpiryYearViolations(request.expiryYear) == {Violation(RejectionMessages.MALFORMED_REQUEST, "expiryYear", false)}
    ensures request.currency.None? ==>
      CurrencyViolations(request.currency) == {Violation(RejectionMessages.MALFORMED_REQUEST, "currency", false)}
    ensures request.amount.None? ==>
      AmountViolations(request.amount) == {Violation(RejectionMessages.MALFORMED_REQUEST, "amount", false)}
    ensures request.cvv.None? ==>
      CvvViolations(request.cvv) == {Violation(RejectionMessages.MALFORMED_REQUEST, "cvv", false)}
  {
  }

  /**
   * A string field with `@NotBlank` and one format constraint: the presence
   * violation exactly when the value is null or blank, the format violation
   * exactly when a present value does not match, and nothing else.
   */
  lemma StringFieldConstraint(value: Option<string>, matches: bool, message: string, property: string)
    requires message != RejectionMessages.MALFORMED_REQUEST
    ensures var vs := NotBlankViolations(value, property) + PatternViolations(value, matches, message, property);
      && (Violation(RejectionMessages.MALFORMED_REQUEST, property, false) in vs <==> value.None? || IsBlank(value.value))
      && (Violation(message, property, false) in vs <==> value.Some? && !matches)
      && (forall v :: v in vs ==>
            v == Violation(RejectionMessages.MALFORMED_REQUEST, property, false) || v == Violation(message, property, false))
  {
  }

  /**
   * An `Integer` field with `@NotNull`, `@Min(low)` and `@Max(high)`: no
   * violation exactly when present and in range; otherwise exactly one, the
   * presence violation for null and the range violation for a present value.
   */
  lemma RangeFieldConstraint(value: Option<Int32>, low: int, high: int, message: string, property: string)
    requires message != RejectionMessages.MALFORMED_REQUEST
    ensures var vs := RangeViolations(value, low, high, message, property);
      && (vs == {} <==> value.Some? && low <= value.value <= high)
      && (value.None? ==> vs == {Violation(RejectionMessages.MALFORMED_REQUEST, property, false)})
      && (value.Some? && !(low <= value.value <= high) ==> vs == {Violation(message, property, false)})
  {
  }

  /** Months 0 and 13 and years 0 and 2026 are out of range; year 0 is refused, as `@Min(1)` says. */
  lemma ExpiryRangeExamples()
    ensures ExpiryMonthViolations(Some(0)) == {Violation(RejectionMessages.EXPIRY_MONTH_MALFORMED, "expiryMonth", false)}
    ensures ExpiryMonthViolations(Some(13)) == {Violation(RejectionMessages.EXPIRY_MONTH_MALFORMED, "expiryMonth", false)}
    ensures ExpiryYearViolations(Some(0)) == {Violation(RejectionMessages.EXPIRY_YEAR_MALFORMED, "expiryYear", false)}
    ensures ExpiryYearViolations(Some(2026)) == {Violation(RejectionMessages.EXPIRY_YEAR_MALFORMED, "expiryYear", false)}
    ensures ExpiryMonthViolations(Some(12)) == {} && ExpiryYearViolations(Some(99)) == {}
  {
  }

  /**
   * The currency: the presence violation exactly when null or blank, the
   * unsupported-currency violation exactly when present and not a constant
   * name. A blank but non-null currency such as "" has both.
   */
  lemma CurrencyConstraint(currency: Option<string>)
    ensures Violation(RejectionMessages.MALFORMED_REQUEST, "currency", false) in CurrencyViolations(currency)
        <==> currency.None? || IsBlank(currency.value)
    ensures Violation(RejectionMessages.CURRENCY_NOT_SUPPORTED, "currency", false) in CurrencyViolations(currency)
        <==> currency.Some? && ValueOf(currency.value).None?
    ensures CurrencyViolations(Some("")) == {Violation(RejectionMessages.MALFORMED_REQUEST, "currency", false),
                                             Violation(RejectionMessages.CURRENCY_NOT_SUPPORTED, "currency", false)}
  {
  }

  /** Card-number pattern: 14..19 ASCII digits; 13 and 20 digits and a letter fail. */
  lemma CardNumberPatternExamples()
    ensures CardNumberMatches("4111111111111111")
    ensures !CardNumberMatches("4111111111111")
    ensures !CardNumberMatches("41111111111111111111")
    ensures !CardNumberMatches("411111111111111a")
  {
    assert "411111111111111a"[15] == 'a';
  }

  /** Amount pattern: digits only, at least one; a decimal point fails. */
  lemma AmountAndCvvPatternExamples()
    ensures AmountMatches("1000") && !AmountMatches("100.50") && !AmountMatches("")
    ensures CvvMatches("123") && CvvMatches("1234")
    ensures !CvvMatches("12") && !CvvMatches("12345") && !CvvMatches("12a")
  {
    assert "100.50"[3] == '.';
    assert "12a"[2] == 'a';
  }

  /** `getExpiryDate`: `String.format("%02d/%02d", expiryMonth, expiryYear)`. */
  function GetExpiryDate(request: PostPaymentRequest): string {
    FormatTwoDigits(OptionInt(request.expiryMonth)) + "/" + FormatTwoDigits(OptionInt(request.expiryYear))
  }

  function OptionInt(o: Option<Int32>): Option<int> {
    match o
    case None => None
    case Some(v) => Some(v)
  }

  /** For month 1..12 and year 0..99 the date is "MM/YY" and reads back as (month, year). */
  lemma ExpiryDateRoundTrip(request: PostPaymentRequest)
    requires request.expiryMonth.Some? && 1 <= request.expiryMonth.value <= 12
    requires request.expiryYear.Some? && 0 <= request.expiryYear.value <= 99
    ensures var d := GetExpiryDate(request);
      && |d| == 5 && d[2] == '/'
      && AllDigits(d[..2]) && AllDigits(d[3..])
      && DecimalValue(d[..2]) == request.expiryMonth.value
      && DecimalValue(d[3..]) == request.expiryYear.value
  {
    var m := FormatTwoDigits(Some(request.expiryMonth.value as int));
    var y := FormatTwoDigits(Some(request.expiryYear.value as int));
    TwoDigitsRoundTrip(request.expiryMonth.value);
    TwoDigitsRoundTrip(request.expiryYear.value);
    var d := GetExpiryDate(request);
    assert d == m + "/" + y;
    assert d[..2] == m;
    assert d[3..] == y;
  }
}
