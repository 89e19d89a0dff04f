# Payment gateway core, modelled in Dafny

This project models the payment-processing core of a small card-payment
gateway. A merchant submits a card payment. The gateway:

- validates the request against per-field constraints and a cross-field
  expiry check;
- if that fails, collapses the violations into one rejection reason and
  answers 400 or 422 without storing anything;
- otherwise sends the payment to an acquiring-bank simulator, maps the
  bank's reply fail-closed to AUTHORIZED or DECLINED, stores the record under
  a fresh id and answers 200.

Stored payments can be fetched by id, and an unknown id gives 404.

One module per component:

| file | module | models |
|---|---|---|
| `text.dfy` | `Text` | the Java string operations the core relies on: `contains`, `\d`, blankness, `String.join` over a set, `%02d` |
| `enums.dfy` | `Enums` | the `Currency` enum and the payment status |
| `rejection_messages.dfy` | `RejectionMessages` | the eight message constants |
| `validation.dfy` | `Validation` | the `@ValidExpiryDate` and `@ValidCurrency` validators |
| `model.dfy` | `Model` | the data carriers, the request's constraints written out as `Validate`, and `getExpiryDate` |
| `bank_simulator_client.dfy` | `BankSimulatorClient` | the mapping from bank reply to status |
| `payments_repository.dfy` | `Repository` | the in-memory store, a class over a `map` |
| `payment_gateway_service.dfy` | `Service` | `processPayment`, `generateRejectionReason` (three loops over the violation set) and `getPaymentById`, as methods of a service class |
| `payment_gateway_controller.dfy` | `Controller` | the HTTP status choice |
| `end_to_end.dfy` | `EndToEnd` | what the as-written aggregation does with the violations the constraints actually produce |

`Validate(request, now)` stands for Bean Validation's reflective
`validator.validate`. It unions one violation set per annotated field with
the class-level expiry constraint. A violation is a triple: its interpolated
message, its property path ("" for the class-level constraint), and whether
its annotation is `@ValidExpiryDate`.

Bean Validation semantics are written out:

- `@NotBlank` fails on null or on a string of characters up to U+0020.
- `@Pattern`, `@Min` and `@Max` pass on null.
- `\d` is ASCII `0`-`9`.
- `YearMonth.of` accepts years -999,999,999..999,999,999 and months 1..12.
  A failure there is caught as "invalid".

Iteration over the violation `HashSet` and over the reason `HashSet` is
nondeterministic (`:|`). So the rejection reason is specified up to the
order of its parts: `Service.IsRejectionReason` says it is `", "`-joined
over *some* enumeration of the reason set.

## Code and tests

`generateRejectionReason` (`PaymentGatewayService.java:93-146`) classifies
violation messages by looking for these fragments, case-sensitively:

- "is required" and "must not be blank" (presence)
- "must be between 1-12" and "must be 2-digit" (expiry format)
- "must be 14-19 digits", "must be 3-4 digits" and "must be a positive integer" (other formats)
- "Currency is not supported" (currency)

The constraints in `PostPaymentRequest.java:19-46` carry the finished
messages of `RejectionMessages.java:5-12` instead, and none of those
contains any of the fragments. The model follows the code as written and
proves what follows from it:

- `EndToEnd.ValidationReasonsAsWritten`: for every request, no presence and
  no format violation is recognised. The reason set is `{"Expired card"}`
  when the expiry validator refuses, and empty otherwise.
- `EndToEnd.RejectionReasonAsWritten`: every rejection reason is
  "Expired card" or the empty string.
- `EndToEnd.RejectionIsAlwaysUnprocessable`: every rejection is answered
  with 422, never 400.
- `EndToEnd.MissingCardNumberAsWritten`: a request that lacks only its card
  number is rejected with reason "" and status 422.

The repository's controller test expects something else for such requests:
"malformed request" and 400 (`PaymentGatewayControllerTest.java:223-240`),
"cardNumber is malformed/incorrect" (`:157-175`) and "Currency is not
supported" (`:91-109`). The controller's own API description says the same
for the 400 answer: "Malformed request - missing required fields"
(`PaymentGatewayController.java:39`). The model follows the code, under
which no missing field reaches that answer.
The aggregation logic itself is modelled faithfully and verified on its own
terms: `Service.GenerateRejectionReason` and the `Service` lemmas hold for
any violation set, including sets whose messages would contain the fragments.

## Model

| member | source | states |
|---|---|---|
| Text.Contains | src/main/java/com/checkout/payment/gateway/service/PaymentGatewayService.java:99 | `String.contains`: the fragment is a prefix of `s` or is contained in its tail; `Text.ContainsIffOccurs` relates it to the index-based reading |
| Text.IsBlank | src/main/java/com/checkout/payment/gateway/model/PostPaymentRequest.java:20 | what `@NotBlank` refuses besides null: every character is at most U+0020 (`String.trim` removes all of them) |
| Text.DecimalValue | src/main/java/com/checkout/payment/gateway/service/PaymentGatewayService.java:65 | `Integer.parseInt` on a digit string, most significant digit first |
| Text.FormatTwoDigits | src/main/java/com/checkout/payment/gateway/model/PostPaymentRequest.java:98 | `%02d` with a boxed argument: "null" for null, a leading zero for 0..9, `String.valueOf` otherwise |
| Text.ContainsIffOccurs | src/main/java/com/checkout/payment/gateway/service/PaymentGatewayService.java:99 | `String.contains`: the recursive `Contains` holds exactly when the fragment starts at some index of the string |
| Text.DecimalRoundTrip | src/main/java/com/checkout/payment/gateway/service/PaymentGatewayService.java:65 | `DecimalValue`, the model of `Integer.parseInt` on a digit string, reads `Integer.toString(n)` back as n |
| Text.TwoDigitsRoundTrip | src/main/java/com/checkout/payment/gateway/model/PostPaymentRequest.java:98 | `FormatTwoDigits`, the model of `%02d`, gives two digits that read back as n for 0..99 |
| Text.JoinSet | src/main/java/com/checkout/payment/gateway/service/PaymentGatewayService.java:145 | `String.join` over a set: the result joins some enumeration (every element exactly once) of the set, so every element occurs in it, and the empty set gives "" |
| Enums.GetName | src/main/java/com/checkout/payment/gateway/enums/Currency.java:12-19 | each constant's name is its identifier |
| Enums.ValueOf | src/main/java/com/checkout/payment/gateway/enums/Currency.java:5-8 | `valueOf` succeeds exactly on "USD", "GBP" and "EUR", and returns the constant with that name |
| Enums.CurrencyCodes | src/main/java/com/checkout/payment/gateway/enums/Currency.java:6-8 | the three codes are pairwise distinct, each three upper-case letters |
| Enums.ValueOfRoundTrip | src/main/java/com/checkout/payment/gateway/enums/Currency.java:6-19 | `valueOf(c.getName()) == c`, and `valueOf(s).getName() == s` whenever `valueOf(s)` succeeds |
| RejectionMessages.AllDistinct | src/main/java/com/checkout/payment/gateway/util/RejectionMessages.java:5-12 | the eight constants are pairwise distinct |
| RejectionMessages.CardNumberMessageNamesField | src/main/java/com/checkout/payment/gateway/util/RejectionMessages.java:6 | CARD_NUMBER_MALFORMED is "cardNumber" followed by " is malformed/incorrect" |
| RejectionMessages.ExpiryMonthMessageNamesField | src/main/java/com/checkout/payment/gateway/util/RejectionMessages.java:7 | the same for "expiryMonth" |
| RejectionMessages.ExpiryYearMessageNamesField | src/main/java/com/checkout/payment/gateway/util/RejectionMessages.java:8 | the same for "expiryYear" |
| RejectionMessages.AmountMessageNamesField | src/main/java/com/checkout/payment/gateway/util/RejectionMessages.java:10 | the same for "amount" |
| RejectionMessages.CvvMessageNamesField | src/main/java/com/checkout/payment/gateway/util/RejectionMessages.java:11 | the same for "cvv" |
| Validation.FullYear | src/main/java/com/checkout/payment/gateway/validation/ExpiryDateValidator.java:22 | a year below 100 becomes 2000 + year; others are kept |
| Validation.ExpiryDateIsValid | src/main/java/com/checkout/payment/gateway/validation/ExpiryDateValidator.java:15-30 | valid when month or year is null; invalid for a month outside 1..12 and for a normalised year outside `YearMonth`'s range; otherwise valid iff (normalised year, month) is strictly after the current month: 2000 + year for 0..99 and for negative years, the year as given from 100 on |
| Validation.ExpiryValidatorTestCases | src/test/java/com/checkout/payment/gateway/validation/ExpiryDateValidatorTest.java:19-134 | with December 2025 as the current month: null month or year, 1/2026, 1/30 and 1/2030 pass; 11/2025, 12/2025, month 13 and year -1 (read as 1999) fail |
| Validation.UnbuildableYearIsRefused | src/main/java/com/checkout/payment/gateway/validation/ExpiryDateValidator.java:23-29 | an expiry whose normalised year is past `Year.MAX_VALUE` is refused, for every month and every current month |
| Validation.CurrentMonthIsExpired | src/main/java/com/checkout/payment/gateway/validation/ExpiryDateValidator.java:26 | an expiry equal to the current month is invalid: in four-digit form for every current year from 100 up to `Year.MAX_VALUE`, and in two-digit form for current years 2000..2099 |
| Validation.ExpiryValidityIsMonotone | src/main/java/com/checkout/payment/gateway/validation/ExpiryDateValidator.java:22-26 | for a fixed current month, a valid expiry stays valid when moved to any later buildable month |
| Validation.CurrencyIsValid | src/main/java/com/checkout/payment/gateway/validation/CurrencyValidator.java:13-24 | valid iff null or exactly one of the three codes; valid and present implies `valueOf` succeeds |
| Validation.CurrencyMatchIsExact | src/main/java/com/checkout/payment/gateway/validation/CurrencyValidator.java:18-23 | "", "INVALID", "usd" and "USD " are refused; the three codes and null are accepted |
| Model.CardNumberViolations | src/main/java/com/checkout/payment/gateway/model/PostPaymentRequest.java:19-22 | every violation is on "cardNumber" and field-level; none exactly when present with 14..19 digits |
| Model.ExpiryMonthViolations | src/main/java/com/checkout/payment/gateway/model/PostPaymentRequest.java:24-28 | every violation is on "expiryMonth" and field-level; none exactly when present and within 1..12 |
| Model.ExpiryYearViolations | src/main/java/com/checkout/payment/gateway/model/PostPaymentRequest.java:30-34 | every violation is on "expiryYear" and field-level; none exactly when present and within 1..99 |
| Model.CurrencyViolations | src/main/java/com/checkout/payment/gateway/model/PostPaymentRequest.java:36-38 | every violation is on "currency" and field-level; none exactly when present and one of the three codes |
| Model.AmountViolations | src/main/java/com/checkout/payment/gateway/model/PostPaymentRequest.java:40-42 | every violation is on "amount" and field-level; none exactly when present and a non-empty digit string |
| Model.CvvViolations | src/main/java/com/checkout/payment/gateway/model/PostPaymentRequest.java:44-46 | every violation is on "cvv" and field-level; none exactly when present with 3 or 4 digits |
| Model.ExpiryDateViolations | src/main/java/com/checkout/payment/gateway/model/PostPaymentRequest.java:15 | the class-level violation has the empty property path; none exactly when the expiry validator accepts |
| Model.Validate | src/main/java/com/checkout/payment/gateway/model/PostPaymentRequest.java:15-46 | the union of the field and class-level violations; a violation's property path is one of the six field names or "", and "" exactly for the expiry constraint |
| Model.StringFieldConstraint | src/main/java/com/checkout/payment/gateway/model/PostPaymentRequest.java:19-22 | for a `@NotBlank` + `@Pattern` field: presence violation iff null or blank, format violation iff present and not matching, nothing else |
| Model.RangeFieldConstraint | src/main/java/com/checkout/payment/gateway/model/PostPaymentRequest.java:24-34 | for a `@NotNull` + `@Min` + `@Max` field: no violation iff present and in range; exactly the presence violation for null; exactly the range violation for a present value out of range |
| Model.ExpiryRangeExamples | src/main/java/com/checkout/payment/gateway/model/PostPaymentRequest.java:25-33 | months 0 and 13 and years 0 and 2026 get the field's format message; 12 and 99 pass |
| Model.CurrencyConstraint | src/main/java/com/checkout/payment/gateway/model/PostPaymentRequest.java:36-38 | presence violation iff null or blank; unsupported-currency violation iff present and not a code; "" gets both |
| Model.CardNumberPatternExamples | src/main/java/com/checkout/payment/gateway/model/PostPaymentRequest.java:21 | 16 digits match; 13 digits, 20 digits and a trailing letter do not |
| Model.AmountAndCvvPatternExamples | src/main/java/com/checkout/payment/gateway/model/PostPaymentRequest.java:41-45 | "100.50" and "" are not amounts; the CVV takes 3 or 4 digits only |
| Model.FieldConstraintsAreFieldLevel | src/main/java/com/checkout/payment/gateway/model/PostPaymentRequest.java:19-46 | every field constraint's violation carries one of the constants and is not the expiry constraint |
| Model.ValidationMessages | src/main/java/com/checkout/payment/gateway/model/PostPaymentRequest.java:15-46 | every violation carries one of the eight constants; the only expiry-constraint violation is ("expired card", "") |
| Model.ExpiryViolationIffExpired | src/main/java/com/checkout/payment/gateway/model/PostPaymentRequest.java:15 | there is an expiry-constraint violation iff the expiry validator refuses the request |
| Model.ValidateIsEmptyIffWellFormed | src/main/java/com/checkout/payment/gateway/model/PostPaymentRequest.java:15-46 | no violations iff every field is present and well formed and the card is unexpired |
| Model.MissingFieldYieldsOnlyPresenceViolation | src/main/java/com/checkout/payment/gateway/model/PostPaymentRequest.java:19-46 | a null field gets exactly its presence violation from its own constraints |
| Model.GetExpiryDate | src/main/java/com/checkout/payment/gateway/model/PostPaymentRequest.java:96-99 | `String.format("%02d/%02d", month, year)` with boxed arguments: each part two-digit padded, "null" for null; its reading back is `Model.ExpiryDateRoundTrip` |
| Model.ExpiryDateRoundTrip | src/main/java/com/checkout/payment/gateway/model/PostPaymentRequest.java:96-99 | for month 1..12 and year 0..99, `getExpiryDate` is five characters "MM/YY" whose digit pairs parse back to month and year |
| BankSimulatorClient.CallBank | src/main/java/com/checkout/payment/gateway/service/BankSimulatorClient.java:27-65 | the status is AUTHORIZED or DECLINED, and AUTHORIZED iff the reply is a 200 with a body saying authorized |
| BankSimulatorClient.FailureOutcomesDecline | src/main/java/com/checkout/payment/gateway/service/BankSimulatorClient.java:37-64 | a 200 saying not authorized, a 200 without body, any other status, any server error and any client failure each give DECLINED |
| Repository.PaymentsRepository.constructor | src/main/java/com/checkout/payment/gateway/repository/PaymentsRepository.java:12 | the store starts empty |
| Repository.PaymentsRepository.Add | src/main/java/com/checkout/payment/gateway/repository/PaymentsRepository.java:14-16 | the record is stored under its id, all other entries are unchanged, and the size grows by one exactly when the id was new |
| Repository.PaymentsRepository.Get | src/main/java/com/checkout/payment/gateway/repository/PaymentsRepository.java:18-20 | present iff the id is stored, and then the stored record; read-only |
| Repository.PaymentsRepository.Size | src/main/java/com/checkout/payment/gateway/repository/PaymentsRepository.java:22-24 | the number of distinct stored ids; read-only |
| Service.IsMissingFieldMessage | src/main/java/com/checkout/payment/gateway/service/PaymentGatewayService.java:97-103 | the first loop's presence test: the message contains "is required" or "must not be blank" |
| Service.IsExpiryFormatMessage | src/main/java/com/checkout/payment/gateway/service/PaymentGatewayService.java:120 | the message contains "must be between 1-12" or "must be 2-digit" |
| Service.IsExpiryFieldFormatError | src/main/java/com/checkout/payment/gateway/service/PaymentGatewayService.java:115-124 | the second loop's test: property "expiryMonth" or "expiryYear" and an expiry format message |
| Service.IsFieldFormatMessage | src/main/java/com/checkout/payment/gateway/service/PaymentGatewayService.java:136-138 | the third loop's format test: one of the five format fragments |
| Service.IsCurrencyMessage | src/main/java/com/checkout/payment/gateway/service/PaymentGatewayService.java:140 | the message contains "Currency is not supported", matched case-sensitively |
| Service.IsRejectionReason | src/main/java/com/checkout/payment/gateway/service/PaymentGatewayService.java:93-146 | the declarative specification of the returned string: "malformed request" when a presence message exists, otherwise `Join(", ", order)` for some enumeration `order` of the reason set |
| Service.ReasonOf | src/main/java/com/checkout/payment/gateway/service/PaymentGatewayService.java:127-143 | the expiry constraint contributes iff not suppressed; any other violation contributes iff its message has a format or currency fragment; the unsuppressed expiry constraint gives "Expired card", a format message gives property + " is malformed/incorrect", and a currency message without a format fragment gives "Currency is not supported" |
| Service.GenerateRejectionReason | src/main/java/com/checkout/payment/gateway/service/PaymentGatewayService.java:93-146 | "malformed request" when a presence fragment occurs; otherwise the reasons joined with ", " in some order, "Expired card" suppressed by an expiry format error on month or year |
| Service.FieldReasonIsDistinct | src/main/java/com/checkout/payment/gateway/service/PaymentGatewayService.java:134-142 | a field reason is never "Expired card" or the currency reason |
| Service.ExpiredCardReasonIff | src/main/java/com/checkout/payment/gateway/service/PaymentGatewayService.java:115-135 | "Expired card" is a reason iff the expiry constraint is violated and no month or year violation carries an expiry format fragment |
| Service.ReasonsAreClassified | src/main/java/com/checkout/payment/gateway/service/PaymentGatewayService.java:127-143 | every reason comes from a violation of the matching kind |
| Service.ViolationsContributeReasons | src/main/java/com/checkout/payment/gateway/service/PaymentGatewayService.java:136-142 | every format violation contributes its property's reason, every currency violation the currency reason, any other field violation nothing |
| Service.RejectionReasonMentionsEveryReason | src/main/java/com/checkout/payment/gateway/service/PaymentGatewayService.java:145 | without a presence violation, every reason occurs in the returned string |
| Service.RejectionReasonOfFewReasons | src/main/java/com/checkout/payment/gateway/service/PaymentGatewayService.java:145 | no reasons give ""; a single reason is returned as it is |
| Service.BankRequestOf | src/main/java/com/checkout/payment/gateway/service/PaymentGatewayService.java:61-67 | the bank request carries the card number, "MM/YY" expiry, the currency constant of that name, the parsed amount and the CVV |
| Service.PaymentGatewayService.constructor | src/main/java/com/checkout/payment/gateway/service/PaymentGatewayService.java:28-32 | the service keeps the given repository, whose records are not REJECTED |
| Service.PaymentGatewayService.ProcessPayment | src/main/java/com/checkout/payment/gateway/service/PaymentGatewayService.java:42-91 | with violations: REJECTED with an admissible reason, store unchanged; without: a record under the given id with the bank verdict (never REJECTED), the card's last four digits, month, year, currency and amount copied, and exactly that entry added; no stored record is ever REJECTED |
| Service.PaymentGatewayService.GetPaymentById | src/main/java/com/checkout/payment/gateway/service/PaymentGatewayService.java:34-40 | the stored record for a stored id, "Invalid payment ID" otherwise; read-only |
| Controller.ProcessPaymentEntity | src/main/java/com/checkout/payment/gateway/controller/PaymentGatewayController.java:44-57 | 200 iff stored, 400 iff rejected with "malformed request", 422 iff rejected otherwise; the body is the service's response |
| Controller.GetPaymentEntity | src/main/java/com/checkout/payment/gateway/exception/CommonExceptionHandler.java:19-24 | 200 with exactly the stored payment, or 404 "payment not found" |
| Controller.PaymentGatewayController.constructor | src/main/java/com/checkout/payment/gateway/controller/PaymentGatewayController.java:30-32 | the controller keeps the given service |
| Controller.PaymentGatewayController.ProcessPayment | src/main/java/com/checkout/payment/gateway/controller/PaymentGatewayController.java:44-57 | 200 iff the request has no violations, and then the body is the new record (given id, bank verdict, last four digits, copied fields) stored as the only change; otherwise a REJECTED body whose reason is one the service can give, 400 iff that reason is "malformed request", 422 iff it is not, and the store unchanged |
| Controller.PaymentGatewayController.GetPaymentById | src/main/java/com/checkout/payment/gateway/controller/PaymentGatewayController.java:67-70 | 200 with the stored record iff the id is stored, else the not-found body |
| EndToEnd.ConstraintMessagesAreInert | src/main/java/com/checkout/payment/gateway/util/RejectionMessages.java:5-12 | none of the eight constants contains any fragment that the aggregation looks for |
| EndToEnd.ValidationMessagesAreInert | src/main/java/com/checkout/payment/gateway/model/PostPaymentRequest.java:19-46 | every violation of every request carries such an inert message |
| EndToEnd.InertViolationsReasons | src/main/java/com/checkout/payment/gateway/service/PaymentGatewayService.java:97-145 | over inert messages: no presence and no expiry format error is recognised; the reasons are {"Expired card"} iff the expiry constraint is violated, else {} |
| EndToEnd.ValidationReasonsAsWritten | src/main/java/com/checkout/payment/gateway/service/PaymentGatewayService.java:93-146 | for every request, the reasons are {"Expired card"} if the validator refuses the expiry, else {} |
| EndToEnd.RejectionReasonAsWritten | src/main/java/com/checkout/payment/gateway/service/PaymentGatewayService.java:46-52 | a rejected request's reason is "Expired card" or "" |
| EndToEnd.RejectionIsAlwaysUnprocessable | src/main/java/com/checkout/payment/gateway/controller/PaymentGatewayController.java:49-53 | every rejection is answered with 422 |
| EndToEnd.MissingCardNumberViolations | src/main/java/com/checkout/payment/gateway/model/PostPaymentRequest.java:19-22 | a request valid with some card number has, without one, exactly the card number's presence violation |
| EndToEnd.MissingCardNumberAsWritten | src/main/java/com/checkout/payment/gateway/service/PaymentGatewayService.java:97-108 | such a request is rejected with reason "" and status 422 |

## Left out

- The HTTP exchange with the bank simulator (`RestTemplate.postForEntity`) is an input. `BankReply` says whether it returned a status and body, threw a server error, or failed otherwise.
- `UUID.randomUUID()` becomes the `paymentId` parameter. Its freshness is not assumed: an id already stored would be overwritten, and `ProcessPayment` states the size change in both cases.
- `YearMonth.now()` becomes the `now` parameter.
- Reflective Bean Validation, Spring wiring, request mapping and the OpenAPI annotations are replaced by the explicit `Validate` function and plain parameters. JSON field naming (`card_number`, …) and deserialisation are left out too.
- Logging is left out.
- `ValidCurrency.java` and `ValidExpiryDate.java` matter only for their default messages, which are the CURRENCY_NOT_SUPPORTED and EXPIRED_CARD constants.
- `CommonExceptionHandler` is modelled only for the not-found mapping. Its handlers for invalid arguments and for an id that is not a UUID are left out with the rest of the HTTP layer.
- The 500 branch of the POST handler is not modelled. `PostPaymentResponse` has exactly the two variants that the service returns, so the branch cannot be taken.
- The store is a plain `HashMap` with no locking and is modelled sequentially, so concurrency is left out.
- `Enums.PaymentStatus` has the three constants the service uses, and `ErrorResponse` is a datatype with its message. The unused `GetPaymentResponse` is left out. The data carriers are datatypes with no logic of their own.
- Service.PaymentGatewayService.ProcessPayment and Controller.PaymentGatewayController.ProcessPayment: require that the amount of a request without violations fits a Java `int`. The source's `Integer.parseInt` would throw for a larger digit string, and that exception is left out.
- Service.PaymentGatewayService.constructor: requires a repository with no REJECTED record, the invariant the service keeps. The application wires in a fresh, empty repository, which meets this.
- BankSimulatorClient.CallBank: requires a non-empty card number, because the source's log line takes its last character and the exception that would raise for an empty one is not caught. Every request the service sends has 14-19 digits.
- `toString` of the request is left out.
