/**
 * The two custom constraint validators: validation/ExpiryDateValidator.java
 * (class-level, on the request's month and year) and
 * validation/CurrencyValidator.java (on the currency field).
 */
module Validation {
  import opened Text
  import opened Enums

  /** Java int: the range of a boxed `Integer` field. */
  const INT_MIN: int := -0x8000_0000
  const INT_MAX: int := 0x7fff_ffff
  type Int32 = x: int | INT_MIN <= x <= INT_MAX

  /** `java.time.YearMonth` (only its value; `now` is supplied by the caller). */
  datatype YearMonth = YearMonth(year: int, month: int)

  /** The year range `YearMonth.of` accepts (`Year.MIN_VALUE`..`Year.MAX_VALUE`). */
  const MIN_YEAR: int := -999_999_999
  const MAX_YEAR: int := 999_999_999

  /** `YearMonth.of(year, month)` returns instead of throwing a DateTimeException. */
  predicate YearMonthOfSucceeds(year: int, month: int) {
    MIN_YEAR <= year <= MAX_YEAR && 1 <= month <= 12
  }

  /** `a.isAfter(b)`: a is a strictly later month than b. */
  predicate IsAfter(a: YearMonth, b: YearMonth) {
    a.year > b.year || (a.year == b.year && a.month > b.month)
  }

  /** A year below 100 is read as 2000 + year; any other year is kept as given. */
  function FullYear(year: Int32): (full: int)
    ensures year < 100 ==> full == 2000 + year
    ensures year >= 100 ==> full == year
  {
    if year < 100 then year + 2000 else year
  }

  /**
   * `ExpiryDateValidator.isValid`, with `YearMonth.now()` as the parameter
   * `now`: true when either field is absent; otherwise true exactly when the
   * normalised expiry can be built and is strictly after `now`. A failure to
   * build it (month outside 1..12, year out of range) is caught as false.
   */
  function ExpiryDateIsValid(month: Option<Int32>, year: Option<Int32>, now: YearMonth): (valid: bool)
    ensures month.None? || year.None? ==> valid
    ensures month.Some? && year.Some? && !(1 <= month.value <= 12) ==> !valid
    ensures month.Some? && year.Some? && !(MIN_YEAR <= FullYear(year.value) <= MAX_YEAR) ==> !valid
    ensures month.Some? && year.Some? && 1 <= month.value <= 12 && MIN_YEAR <= FullYear(year.value) <= MAX_YEAR ==>
      (valid <==> IsAfter(YearMonth(FullYear(year.value), month.value), now))
    ensures month.Some? && year.Some? && 1 <= month.value <= 12 && 0 <= year.value <= 99 ==>
      (valid <==> IsAfter(YearMonth(2000 + year.value, month.value), now))
    ensures month.Some? && year.Some? && 1 <= month.value <= 12 && 100 <= year.value <= MAX_YEAR ==>
      (valid <==> IsAfter(YearMonth(year.value, month.value), now))
    ensures month.Some? && year.Some? && 1 <= month.value <= 12 && MIN_YEAR - 2000 <= year.value < 0 ==>
      (valid <==> IsAfter(YearMonth(2000 + year.value, month.value), now))
  {
    if month.None? || year.None? then true
    else
      var fullYear := FullYear(year.value);
      if YearMonthOfSucceeds(fullYear, month.value) then
        IsAfter(YearMonth(fullYear, month.value), now)
      else
        false
  }

  /** An expiry in the current month has expired. */
  lemma CurrentMonthIsExpired(now: YearMonth)
    requires 1 <= now.month <= 12 && 100 <= now.year <= MAX_YEAR
    ensures 2000 <= now.year <= 2099 ==> !ExpiryDateIsValid(Some(now.month), Some(now.year - 2000), now)
    ensures !ExpiryDateIsValid(Some(now.month), Some(now.year), now)
  {
  }

  /**
   * The validator's own test inputs, with the current month December 2025
   * that the tests assume: 1/2026 and the two-digit 1/30 and the four-digit
   * 1/2030 pass; 11/2025, 12/2025 and month 13 fail; year -1 is read as 1999
   * and fails as expired; a null month or year passes.
   */
  lemma ExpiryValidatorTestCases()
    ensures var now := YearMonth(2025, 12);
      && ExpiryDateIsValid(None, Some(2026), now)
      && ExpiryDateIsValid(Some(12), None, now)
      && ExpiryDateIsValid(Some(1), Some(2026), now)
      && !ExpiryDateIsValid(Some(11), Some(2025), now)
      && !ExpiryDateIsValid(Some(12), Some(2025), now)
      && !ExpiryDateIsValid(Some(13), Some(2026), now)
      && FullYear(-1) == 1999 && !ExpiryDateIsValid(Some(12), Some(-1), now)
      && ExpiryDateIsValid(Some(1), Some(30), now)
      && ExpiryDateIsValid(Some(1), Some(2030), now)
  {
  }

  /** A normalised year past `Year.MAX_VALUE` cannot be built and is refused, whatever the month. */
  lemma UnbuildableYearIsRefused(now: YearMonth, m: Int32, y: Int32)
    requires FullYear(y) > MAX_YEAR
    ensures !ExpiryDateIsValid(Some(m), Some(y), now)
  {
  }

  /** For a fixed `now`, a valid expiry stays valid when moved to any later buildable month. */
  lemma ExpiryValidityIsMonotone(now: YearMonth, m: Int32, y: Int32, m': Int32, y': Int32)
    requires ExpiryDateIsValid(Some(m), Some(y), now)
    requires 1 <= m' <= 12 && MIN_YEAR <= FullYear(y') <= MAX_YEAR
    requires !IsAfter(YearMonth(FullYear(y), m), YearMonth(FullYear(y'), m'))
    ensures ExpiryDateIsValid(Some(m'), Some(y'), now)
  {
  }

  /**
   * `CurrencyValidator.isValid`: an absent currency is left to the presence
   * constraint; a present one is valid exactly when `Currency.valueOf` accepts it.
   */
  function CurrencyIsValid(currency: Option<string>): (valid: bool)
    ensures valid <==> currency.None? || currency.value in {"USD", "GBP", "EUR"}
    ensures valid && currency.Some? ==> ValueOf(currency.value).Some?
  {
    match currency
    case None => true
    case Some(s) => ValueOf(s).Some?
  }

  /** The match is exact and case-sensitive: "", "INVALID" and lower-case codes are refused. */
  lemma CurrencyMatchIsExact()
    ensures !CurrencyIsValid(Some("")) && !CurrencyIsValid(Some("INVALID"))
    ensures !CurrencyIsValid(Some("usd")) && !CurrencyIsValid(Some("USD "))
    ensures CurrencyIsValid(Some("USD")) && CurrencyIsValid(Some("GBP")) && CurrencyIsValid(Some("EUR"))
    ensures CurrencyIsValid(None)
  {
  }
}
