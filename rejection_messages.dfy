/** The eight message constants of util/RejectionMessages.java. */
module RejectionMessages {

  const MALFORMED_REQUEST: string := "malformed request"
  const CARD_NUMBER_MALFORMED: string := "cardNumber is malformed/incorrect"
  const EXPIRY_MONTH_MALFORMED: string := "expiryMonth is malformed/incorrect"
  const EXPIRY_YEAR_MALFORMED: string := "expiryYear is malformed/incorrect"
  const CURRENCY_NOT_SUPPORTED: string := "currency is not supported"
  const AMOUNT_MALFORMED: string := "amount is malformed/incorrect"
  const CVV_MALFORMED: string := "cvv is malformed/incorrect"
  const EXPIRED_CARD: string := "expired card"

  /** The suffix shared by the five field-format messages. */
  const SUFFIX: string := " is malformed/incorrect"

  /** The constants in declaration order. */
  function All(): seq<string> {
    [ MALFORMED_REQUEST, CARD_NUMBER_MALFORMED, EXPIRY_MONTH_MALFORMED, EXPIRY_YEAR_MALFORMED,
      CURRENCY_NOT_SUPPORTED, AMOUNT_MALFORMED, CVV_MALFORMED, EXPIRED_CARD ]
  }

  /** The eight constants are pairwise distinct. */
  lemma AllDistinct()
    ensures |All()| == 8
    ensures forall i, j :: 0 <= i < j < |All()| ==> All()[i] != All()[j]
  {
  }

  // Each field-format message is its field's name followed by SUFFIX.
  // (One lemma per message keeps each literal comparison a proof of its own.)

  lemma CardNumberMessageNamesField()
    ensures CARD_NUMBER_MALFORMED == "cardNumber" + SUFFIX
  {
  }

  lemma ExpiryMonthMessageNamesField()
    ensures EXPIRY_MONTH_MALFORMED == "expiryMonth" + SUFFIX
  {
  }

  lemma ExpiryYearMessageNamesField()
    ensures EXPIRY_YEAR_MALFORMED == "expiryYear" + SUFFIX
  {
  }

  lemma AmountMessageNamesField()
    ensures AMOUNT_MALFORMED == "amount" + SUFFIX
  {
  }

  lemma CvvMessageNamesField()
    ensures CVV_MALFORMED == "cvv" + SUFFIX
  {
  }
}
