/**
  The booking gate inside a booking transaction (assertDayBookable within createOrder,
  src/booking-availability/booking-availability.service.ts): the count the gate reads off the order rows of
  its snapshot is the one the transaction tests, so what holds of every interleaving of transactions holds
  of the gate.
 */
module BookingGate {
  import opened Wrappers
  import opened Entitlement
  import opened BookingDay
  import opened Calendar
  import Booked = BookingRun

  function BookingOf(o: Booked.Order): Booking { Booking(o.slot.branchId, o.slot.date, Booked.Holds(o.status)) }

  /** The order rows as a query returns them: each once, in whatever order. */
  ghost predicate Lists(ids: seq<nat>, orders: Booked.Orders) {
    && (forall i, j :: 0 <= i < j < |ids| ==> ids[i] != ids[j])
    && (forall id :: id in ids <==> id in orders)
  }

  function BookingsOf(orders: Booked.Orders, ids: seq<nat>): seq<Booking>
    requires forall id :: id in ids ==> id in orders
  {
    seq(|ids|, i requires 0 <= i < |ids| => BookingOf(orders[ids[i]]))
  }

  function HeldAmong(orders: Booked.Orders, ids: seq<nat>, slot: Booked.Slot): set<nat> {
    set id | id in ids && id in orders && orders[id].slot == slot && Booked.Holds(orders[id].status)
  }

  lemma {:induction false} CountIsHeldAmong(orders: Booked.Orders, ids: seq<nat>, branchId: string, date: int)
    requires forall i, j :: 0 <= i < j < |ids| ==> ids[i] != ids[j]
    requires forall id :: id in ids ==> id in orders
    ensures Count(BookingsOf(orders, ids), branchId, date) == |HeldAmong(orders, ids, Booked.Slot(branchId, date))|
  {
    var slot := Booked.Slot(branchId, date);
    if ids == [] {
      assert HeldAmong(orders, ids, slot) == {};
    } else {
      CountIsHeldAmong(orders, ids[1..], branchId, date);
      assert BookingsOf(orders, ids)[1..] == BookingsOf(orders, ids[1..]);
      assert ids[0] !in ids[1..];
      assert ids == [ids[0]] + ids[1..];
      var o := orders[ids[0]];
      if o.slot == slot && Booked.Holds(o.status) {
        assert HeldAmong(orders, ids, slot) == {ids[0]} + HeldAmong(orders, ids[1..], slot);
      } else {
        assert HeldAmong(orders, ids, slot) == HeldAmong(orders, ids[1..], slot);
      }
    }
  }

  /** The gate's count over the rows is the number of orders holding the slot. */
  lemma CountIsHeld(orders: Booked.Orders, ids: seq<nat>, branchId: string, date: int)
    requires Lists(ids, orders)
    ensures Count(BookingsOf(orders, ids), branchId, date) == Booked.Held(orders, Booked.Slot(branchId, date))
  {
    CountIsHeldAmong(orders, ids, branchId, date);
    assert HeldAmong(orders, ids, Booked.Slot(branchId, date)) == Booked.HeldIds(orders, Booked.Slot(branchId, date));
  }

  /**
    On a transaction's snapshot the gate refuses for capacity only what the transaction's own test drops,
    and what the gate books the transaction reserves; the test keeps the transaction exactly when the day
    the gate resolved has room.
   */
  lemma GateIsCheck(
    db: Booked.Db, t: nat, ids: seq<nat>, store: Store, config: Config, e: EffectiveEntitlement,
    handover: Handover, now: int, detectConflicts: bool)
    requires t in db.txns && !db.txns[t].reserved && Lists(ids, db.txns[t].orders)
    requires store.bookings == BookingsOf(db.txns[t].orders, ids)
    requires db.txns[t].limit
             == GateDay(store, db.txns[t].slot.branchId, config, e, db.txns[t].slot.date, now).dailyBookingLimit
    ensures var x := db.txns[t];
      var day := GateDay(store, x.slot.branchId, config, e, x.slot.date, now);
      var after := Booked.Next(db, Booked.Check(t), detectConflicts);
      && day.bookedCount == Booked.Held(x.orders, x.slot)
      && (t in after.txns <==> day.remaining.None? || day.remaining.value > 0)
      && (Gate(day, handover).Booked? ==> t in after.txns && after.txns[t].reserved)
      && (Gate(day, handover) == Refused(DayFullyBooked) ==> t !in after.txns)
  {
    hide EffectiveDayOf, NoticeReason, PastCutoffTime, Booked.HeldIds, Find, Count, BlackoutsFrom;
    var x := db.txns[t];
    CountIsHeld(x.orders, ids, x.slot.branchId, x.slot.date);
    NoticeIsNotCapacity();
  }

  /** Closing time and notice never speak of capacity. */
  lemma NoticeIsNotCapacity()
    ensures forall windows, offset, minutes, lead :: NoticeReason(windows, offset, minutes, lead) != Some(DayFullyBooked)
  {
  }
}
