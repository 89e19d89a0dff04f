/**
 * repository/PaymentsRepository.java: an in-memory store of processed
 * payments, a `HashMap` from id to record that `add` updates in place.
 */
module Repository {
  import opened Text
  import opened Model

  class PaymentsRepository {
    var payments: map<Uuid, SuccessfulPaymentResponse>

    /** Every record is stored under its own id, since `add` keys by `payment.getId()`. */
    ghost predicate Valid()
      reads this
    {
      forall id :: id in payments ==> payments[id].id == id
    }

    /** The store starts empty. */
    constructor ()
      ensures Valid()
      ensures payments == map[]
    {
      payments := map[];
    }

    /** `payments.put(payment.getId(), payment)`: insert, or overwrite the entry with the same id. */
    method Add(payment: SuccessfulPaymentResponse)
      requires Valid()
      modifies this
      ensures Valid()
      ensures payments == old(payments)[payment.id := payment]
      ensures payment.id in payments && payments[payment.id] == payment
      ensures forall id :: id != payment.id ==> (id in payments <==> id in old(payments))
      ensures forall id :: id != payment.id && id in payments ==> payments[id] == old(payments)[id]
      ensures |payments| == if payment.id in old(payments) then old(|payments|) else old(|payments|) + 1
    {
      payments := payments[payment.id := payment];
    }

    /** `Optional.ofNullable(payments.get(id))`: the record stored under `id`, if any. */
    method Get(id: Uuid) returns (found: Option<SuccessfulPaymentResponse>)
      ensures found.Some? <==> id in payments
      ensures found.Some? ==> found.value == payments[id]
    {
      found := if id in payments then Some(payments[id]) else None;
    }

    /** `payments.size()`: the number of distinct ids stored. */
    method Size() returns (n: nat)
      ensures n == |payments.Keys|
    {
      n := |payments|;
    }
  }
}
