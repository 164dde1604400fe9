/**
  Handover legs of one day, as stored and as read
  (dayFulfillmentOf in src/booking-availability/availability-resolution.util.ts).
 */
module Fulfillment {
  import opened Wrappers

  /** A stored field may be missing, an explicit null, or a boolean; the three differ to a query. */
  datatype Leg = Absent | Null | Given(value: bool) {
    function Or(fallback: bool): bool { if Given? then value else fallback }
  }

  datatype StoredFulfillment = StoredFulfillment(
    pickupAndDelivery: Leg, providerPickup: Leg, providerDelivery: Leg,
    customerDropoff: Leg, customerPickup: Leg)

  datatype DayFulfillment = DayFulfillment(
    providerPickup: bool, providerDelivery: bool, customerDropoff: bool, customerPickup: bool)

  /** Both provider legs inherit the legacy field of a document written before they were split. */
  function DayFulfillmentOf(f: Option<StoredFulfillment>): DayFulfillment {
    match f
    case None => DayFulfillment(true, true, true, true)
    case Some(s) =>
      var legacy := s.pickupAndDelivery.Or(true);
      DayFulfillment(s.providerPickup.Or(legacy), s.providerDelivery.Or(legacy),
                     s.customerDropoff.Or(true), s.customerPickup.Or(true))
  }
}
