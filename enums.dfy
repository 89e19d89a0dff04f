/**
 * The two enumerations of the gateway: the supported currencies
 * (enums/Currency.java) and the outcome of a payment.
 */
module Enums {
  import opened Text

  /** The three constants of the `Currency` enum, in declaration order. */
  datatype Currency = USD | GBP | EUR

  /** The Java identifier of a constant: what `Enum.name()` returns and `Enum.valueOf` matches. */
  function ConstantName(c: Currency): string {
    match c
    case USD => "USD"
    case GBP => "GBP"
    case EUR => "EUR"
  }

  /** The `name` field each constant is constructed with, returned by `getName`. */
  function GetName(c: Currency): (name: string)
    ensures name == ConstantName(c)
  {
    match c
    case USD => "USD"
    case GBP => "GBP"
    case EUR => "EUR"
  }

  /**
   * `Currency.valueOf(s)`: the constant whose identifier is exactly `s`;
   * `None` stands for the IllegalArgumentException thrown for any other string.
   */
  function ValueOf(s: string): (r: Option<Currency>)
    ensures r.Some? <==> s in {"USD", "GBP", "EUR"}
    ensures r.Some? ==> ConstantName(r.value) == s
  {
    if s == ConstantName(USD) then Some(USD)
    else if s == ConstantName(GBP) then Some(GBP)
    else if s == ConstantName(EUR) then Some(EUR)
    else None
  }

  predicate IsUpperLetter(c: char) {
    'A' <= c <= 'Z'
  }

  /** The codes are pairwise distinct and each is three upper-case letters. */
  lemma CurrencyCodes()
    ensures forall c, d :: c != d ==> GetName(c) != GetName(d)
    ensures forall c :: |GetName(c)| == 3 && forall i :: 0 <= i < 3 ==> IsUpperLetter(GetName(c)[i])
  {
  }

  /** `valueOf(c.getName()) == c`, and `valueOf(s).getName() == s` when `valueOf` succeeds. */
  lemma ValueOfRoundTrip(c: Currency, s: string)
    ensures ValueOf(GetName(c)) == Some(c)
    ensures ValueOf(s).Some? ==> GetName(ValueOf(s).value) == s
  {
  }

  /**
   * The status carried by a payment response. Its Java declaration is not
   * part of this model; the constants are those the service uses.
   */
  datatype PaymentStatus = Authorized | Declined | Rejected
}
