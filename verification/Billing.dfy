/**
 * Tariff choice and ledger rows of the billing service
 * (backend/services/billing-service/internal/service).
 */
module Billing {
  import opened Meter
  import opened Options

  /** What the tariffs table answers: absent repository, failed or empty query, or the active row's price. */
  datatype TariffSource = NoRepository | QueryFails | ActiveRow(price: real)

  datatype Bill = Bill(sessionId: int, energyWh: int, price: real, amount: real)

  /** ActiveTariff: the active row's price whatever its sign, else a positive default, else an error. */
  function ActivePrice(source: TariffSource, defaultPrice: real): (r: Option<real>) {
    match source
    case ActiveRow(price) => Some(price)
    case _ => if defaultPrice <= 0.0 then None else Some(defaultPrice)
  }

  /** CalculateAndCreateTransaction up to the insert: None when it returns an error. */
  function MakeBill(sessionId: int, energyWh: int, source: TariffSource, defaultPrice: real): (r: Option<Bill>) {
    if sessionId == 0 then None
    else
      match ActivePrice(source, defaultPrice)
      case None => None
      case Some(p) =>
        var price := if p <= 0.0 then 1.0 else p;
        Some(Bill(sessionId, energyWh, price, energyWh as real / 1000.0 * price))
  }

  /** A ledger row is sound: positive price, amount = kWh times price, non-negative for non-negative energy. */
  ghost predicate Sound(b: Bill) {
    && b.price > 0.0
    && b.amount == b.energyWh as real / 1000.0 * b.price
    && (b.energyWh >= 0 ==> b.amount >= 0.0)
  }

  /** There is a price to charge: a row is active, or the default is positive. */
  predicate Usable(source: TariffSource, defaultPrice: real) { source.ActiveRow? || defaultPrice > 0.0 }

  /**
   * The tariff in force: a positive active price is charged as it is, a zero or negative one counts as 1, and the default
   * is charged only when no row could be had.
   */
  ghost predicate Charges(b: Bill, source: TariffSource, defaultPrice: real) {
    && (source.ActiveRow? && source.price > 0.0 ==> b.price == source.price)
    && (source.ActiveRow? && source.price <= 0.0 ==> b.price == 1.0)
    && (!source.ActiveRow? ==> b.price == defaultPrice)
    && b.amount == b.energyWh as real / 1000.0 * b.price
  }

  /** Billing refuses exactly session 0 and the absence of a usable tariff; otherwise the row charges the tariff in force. */
  lemma MakeBillSound(sessionId: int, energyWh: int, source: TariffSource, defaultPrice: real)
    ensures var r := MakeBill(sessionId, energyWh, source, defaultPrice);
            && (r.Some? <==> sessionId != 0 && Usable(source, defaultPrice))
            && (r.Some? ==>
                  && r.value.sessionId == sessionId && r.value.energyWh == energyWh
                  && Charges(r.value, source, defaultPrice) && Sound(r.value))
  {
    var r := MakeBill(sessionId, energyWh, source, defaultPrice);
    if r.Some? && energyWh >= 0 {
      var kwh := energyWh as real / 1000.0;
      assert kwh >= 0.0 && r.value.price > 0.0;
      assert kwh * r.value.price >= 0.0;
    }
  }
}
