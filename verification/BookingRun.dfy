/**
  Concurrent bookings as snapshot transactions (createOrder around assertDayBookable,
  src/booking-availability/booking-availability.service.ts and src/online-orders/online-orders.service.ts),
  interleaved with the order status transitions of src/online-orders/schemas/order-status.enum.ts.

  A transaction reads the day count from its snapshot, tests it against the limit, increments the
  (branch, date) counter and inserts its order. It commits only if nobody else committed to that
  counter after the snapshot was taken.
 */
module BookingRun {
  import opened Wrappers

  datatype OrderStatus =
    | Draft | PricingValidated | PendingProviderAcceptance
    | ProviderChangeProposed | AcceptedByProvider | RejectedByProvider | Cancelled
    | AwaitingPickupAssignment | PickupAssigned | PickupEnRoute | PickupArrived | PickupWeighed
    | PickedUpFromCustomer | PickupAttemptFailed | AwaitingPickupReschedule
    | ReceivedByProvider
    | LaundryInProgress | LaundryQualityHold | LaundryReady
    | AwaitingReturnSelection
    | AwaitingReturnAssignment | ReturnAssigned | ReturnEnRoute | ReturnArrived | DeliveredToCustomer
    | DeliveryAttempted | ReturnedToProvider | AwaitingRedeliverySelection | RedeliveryScheduled
    | AwaitingCustomerPickup | CustomerPickupVerified
    | Completed | Refunded | Disputed | AbandonedUnsettled

  function AllowedNext(from: OrderStatus): set<OrderStatus> {
    match from
    case Draft => {PricingValidated, Cancelled}
    case PricingValidated => {PendingProviderAcceptance, Cancelled}
    case PendingProviderAcceptance => {AcceptedByProvider, ProviderChangeProposed, RejectedByProvider, Cancelled}
    case ProviderChangeProposed => {AcceptedByProvider, Cancelled}
    case AcceptedByProvider => {AwaitingPickupAssignment, ReceivedByProvider, Cancelled}
    case RejectedByProvider => {}
    case Cancelled => {}
    case AwaitingPickupAssignment => {PickupAssigned}
    case PickupAssigned => {PickupEnRoute}
    case PickupEnRoute => {PickupArrived}
    case PickupArrived => {PickupWeighed, PickupAttemptFailed}
    case PickupWeighed => {PickupWeighed, PickedUpFromCustomer}
    case PickedUpFromCustomer => {LaundryInProgress}
    case PickupAttemptFailed => {PickupAssigned, AwaitingPickupReschedule}
    case AwaitingPickupReschedule => {PickupAssigned, Cancelled}
    case ReceivedByProvider => {LaundryInProgress}
    case LaundryInProgress => {LaundryQualityHold, LaundryReady}
    case LaundryQualityHold => {LaundryInProgress}
    case LaundryReady => {AwaitingReturnSelection, AwaitingReturnAssignment, AwaitingCustomerPickup}
    case AwaitingReturnSelection => {AwaitingReturnAssignment, AwaitingCustomerPickup}
    case AwaitingReturnAssignment => {ReturnAssigned}
    case ReturnAssigned => {ReturnEnRoute}
    case ReturnEnRoute => {ReturnArrived}
    case ReturnArrived => {DeliveredToCustomer, DeliveryAttempted}
    case DeliveredToCustomer => {Completed}
    case DeliveryAttempted => {ReturnedToProvider}
    case ReturnedToProvider => {AwaitingRedeliverySelection}
    case AwaitingRedeliverySelection => {RedeliveryScheduled, AbandonedUnsettled}
    case RedeliveryScheduled => {ReturnAssigned}
    case AwaitingCustomerPickup => {CustomerPickupVerified, AbandonedUnsettled}
    case CustomerPickupVerified => {Completed}
    case Completed => {Disputed}
    case Refunded => {}
    case Disputed => {}
    case AbandonedUnsettled => {AwaitingRedeliverySelection, AwaitingCustomerPickup}
  }

  const SLOT_RELEASING: set<OrderStatus> := {RejectedByProvider, Cancelled, Refunded}

  predicate Holds(s: OrderStatus) { s !in SLOT_RELEASING }

  datatype Slot = Slot(branchId: string, date: int)

  datatype Order = Order(slot: Slot, status: OrderStatus)

  type Orders = map<nat, Order>
  type Counters = map<Slot, nat>

  datatype Txn = Txn(slot: Slot, limit: Option<int>, orders: Orders, counters: Counters, reserved: bool)

  datatype Db = Db(orders: Orders, counters: Counters, txns: map<nat, Txn>)

  datatype Event =
    | Begin(txn: nat, slot: Slot, limit: Option<int>)
    | Check(txn: nat)
    | Commit(txn: nat, orderId: nat)
    | Abort(txn: nat)
    | Move(orderId: nat, to: OrderStatus)

  function HeldIds(orders: Orders, slot: Slot): set<nat> {
    set id | id in orders && orders[id].slot == slot && Holds(orders[id].status)
  }

  /** countByDate for one date: orders there whose status does not release the slot. */
  function Held(orders: Orders, slot: Slot): nat { |HeldIds(orders, slot)| }

  function PlacedIds(orders: Orders, slot: Slot): set<nat> {
    set id | id in orders && orders[id].slot == slot
  }

  function CounterAt(counters: Counters, slot: Slot): nat { if slot in counters then counters[slot] else 0 }

  function Drop(db: Db, t: nat): Db { db.(txns := db.txns - {t}) }

  function Next(db: Db, e: Event, detectConflicts: bool): Db {
    match e
    case Begin(t, slot, limit) =>
      if t in db.txns then db
      else db.(txns := db.txns[t := Txn(slot, limit, db.orders, db.counters, false)])
    case Check(t) =>
      if t !in db.txns || db.txns[t].reserved then db
      else
        var x := db.txns[t];
        if x.limit.Some? && Held(x.orders, x.slot) >= x.limit.value then Drop(db, t)
        else db.(txns := db.txns[t := x.(reserved := true)])
    case Commit(t, orderId) =>
      if t !in db.txns || !db.txns[t].reserved then db
      else
        var x := db.txns[t];
        var conflict := CounterAt(db.counters, x.slot) != CounterAt(x.counters, x.slot);
        if orderId in db.orders || (detectConflicts && conflict) then Drop(db, t)
        else Db(db.orders[orderId := Order(x.slot, PendingProviderAcceptance)],
                db.counters[x.slot := CounterAt(db.counters, x.slot) + 1],
                db.txns - {t})
    case Abort(t) => Drop(db, t)
    case Move(orderId, to) =>
      if orderId in db.orders && to in AllowedNext(db.orders[orderId].status)
      then db.(orders := db.orders[orderId := db.orders[orderId].(status := to)])
      else db
  }

  const EMPTY := Db(map[], map[], map[])

  function Run(db: Db, events: seq<Event>, detectConflicts: bool): Db
    decreases |events|
  {
    if events == [] then db else Run(Next(db, events[0], detectConflicts), events[1..], detectConflicts)
  }

  // ----- Counting lemmas -----

  /** A released order never takes its slot back. */
  lemma ReleasedStaysReleased(from: OrderStatus, to: OrderStatus)
    requires to in AllowedNext(from) && Holds(to)
    ensures Holds(from)
  {
  }

  lemma HeldAfterInsert(orders: Orders, id: nat, o: Order, slot: Slot)
    requires id !in orders && Holds(o.status)
    ensures Held(orders[id := o], slot) == Held(orders, slot) + if o.slot == slot then 1 else 0
    ensures |PlacedIds(orders[id := o], slot)| == |PlacedIds(orders, slot)| + if o.slot == slot then 1 else 0
  {
    var after := orders[id := o];
    if o.slot == slot {
      assert HeldIds(after, slot) == HeldIds(orders, slot) + {id};
      assert PlacedIds(after, slot) == PlacedIds(orders, slot) + {id};
    } else {
      assert HeldIds(after, slot) == HeldIds(orders, slot);
      assert PlacedIds(after, slot) == PlacedIds(orders, slot);
    }
  }

  lemma SubsetSize<T>(a: set<T>, b: set<T>)
    requires a <= b
    ensures |a| <= |b|
  {
    assert b == a + (b - a);
  }

  lemma HeldAfterMove(orders: Orders, id: nat, to: OrderStatus, slot: Slot)
    requires id in orders && to in AllowedNext(orders[id].status)
    ensures Held(orders[id := orders[id].(status := to)], slot) <= Held(orders, slot)
    ensures PlacedIds(orders[id := orders[id].(status := to)], slot) == PlacedIds(orders, slot)
  {
    var after := orders[id := orders[id].(status := to)];
    if Holds(to) { ReleasedStaysReleased(orders[id].status, to); }
    assert HeldIds(after, slot) <= HeldIds(orders, slot);
    SubsetSize(HeldIds(after, slot), HeldIds(orders, slot));
    assert PlacedIds(after, slot) == PlacedIds(orders, slot);
  }

  // ----- The invariant for one slot -----

  /** While the counter still reads what the snapshot read, the snapshot's day count is still an upper bound. */
  predicate SnapshotSound(db: Db, x: Txn) {
    && CounterAt(x.counters, x.slot) <= CounterAt(db.counters, x.slot)
    && (CounterAt(x.counters, x.slot) == CounterAt(db.counters, x.slot) ==>
          Held(db.orders, x.slot) <= Held(x.orders, x.slot))
  }

  ghost predicate SnapshotsSound(db: Db) {
    forall t :: t in db.txns ==> SnapshotSound(db, db.txns[t])
  }

  predicate Admitted(x: Txn) {
    x.reserved && x.limit.Some? ==> Held(x.orders, x.slot) < x.limit.value
  }

  ghost predicate AllAdmitted(db: Db) {
    forall t :: t in db.txns ==> Admitted(db.txns[t])
  }

  ghost predicate CountersExact(db: Db) {
    forall slot :: CounterAt(db.counters, slot) == |PlacedIds(db.orders, slot)|
  }

  ghost predicate Inv(db: Db) { SnapshotsSound(db) && AllAdmitted(db) && CountersExact(db) }

  ghost predicate LimitsAtMost(db: Db, slot: Slot, most: nat) {
    forall t :: t in db.txns && db.txns[t].slot == slot ==>
      db.txns[t].limit.Some? && db.txns[t].limit.value <= most
  }

  predicate EventLimitAtMost(e: Event, slot: Slot, most: nat) {
    e.Begin? && e.slot == slot ==> e.limit.Some? && e.limit.value <= most
  }

  lemma CommitKeepsInv(db: Db, t: nat, orderId: nat)
    requires Inv(db)
    requires t in db.txns && db.txns[t].reserved && orderId !in db.orders
    requires CounterAt(db.counters, db.txns[t].slot) == CounterAt(db.txns[t].counters, db.txns[t].slot)
    ensures Inv(Next(db, Commit(t, orderId), true))
  {
    var x := db.txns[t];
    var o := Order(x.slot, PendingProviderAcceptance);
    var after := Next(db, Commit(t, orderId), true);
    forall slot ensures CounterAt(after.counters, slot) == |PlacedIds(after.orders, slot)| {
      HeldAfterInsert(db.orders, orderId, o, slot);
    }
    forall u | u in after.txns ensures SnapshotSound(after, after.txns[u]) && Admitted(after.txns[u]) {
      assert SnapshotSound(db, db.txns[u]) && Admitted(db.txns[u]);
      HeldAfterInsert(db.orders, orderId, o, db.txns[u].slot);
    }
  }

  lemma MoveKeepsInv(db: Db, orderId: nat, to: OrderStatus)
    requires Inv(db)
    requires orderId in db.orders && to in AllowedNext(db.orders[orderId].status)
    ensures Inv(Next(db, Move(orderId, to), true))
  {
    var after := Next(db, Move(orderId, to), true);
    forall slot ensures CounterAt(after.counters, slot) == |PlacedIds(after.orders, slot)| {
      HeldAfterMove(db.orders, orderId, to, slot);
    }
    forall u | u in after.txns ensures SnapshotSound(after, after.txns[u]) && Admitted(after.txns[u]) {
      assert SnapshotSound(db, db.txns[u]) && Admitted(db.txns[u]);
      HeldAfterMove(db.orders, orderId, to, db.txns[u].slot);
    }
  }

  /** Steps that only open, mark or drop a transaction leave the committed data alone. */
  lemma QuietStepKeepsInv(db: Db, e: Event)
    requires Inv(db)
    requires Next(db, e, true).orders == db.orders && Next(db, e, true).counters == db.counters
    ensures Inv(Next(db, e, true))
  {
    hide AllowedNext, HeldIds, PlacedIds;
    var after := Next(db, e, true);
    assert CountersExact(after) by {
      forall slot ensures CounterAt(after.counters, slot) == |PlacedIds(after.orders, slot)| {
        assert CounterAt(db.counters, slot) == |PlacedIds(db.orders, slot)|;
      }
    }
    forall u | u in after.txns ensures SnapshotSound(after, after.txns[u]) && Admitted(after.txns[u]) {
      if u in db.txns { assert SnapshotSound(db, db.txns[u]) && Admitted(db.txns[u]); }
    }
  }

  lemma NextKeepsInv(db: Db, e: Event)
    requires Inv(db)
    ensures Inv(Next(db, e, true))
  {
    hide Inv, AllowedNext;
    if Next(db, e, true).orders == db.orders && Next(db, e, true).counters == db.counters {
      QuietStepKeepsInv(db, e);
    } else if e.Commit? {
      CommitKeepsInv(db, e.txn, e.orderId);
    } else {
      MoveKeepsInv(db, e.orderId, e.to);
    }
  }

  /** The stale count a committing transaction tested was no stale count at all. */
  lemma CommitIsAdmittedByTheTruth(db: Db, t: nat, orderId: nat)
    requires Inv(db)
    requires t in db.txns && db.txns[t].limit.Some?
    requires Next(db, Commit(t, orderId), true).orders != db.orders
    ensures Held(db.orders, db.txns[t].slot) < db.txns[t].limit.value
    ensures Held(Next(db, Commit(t, orderId), true).orders, db.txns[t].slot) == Held(db.orders, db.txns[t].slot) + 1
  {
    var x := db.txns[t];
    assert SnapshotSound(db, x) && Admitted(x);
    HeldAfterInsert(db.orders, orderId, Order(x.slot, PendingProviderAcceptance), x.slot);
  }

  lemma NextKeepsLimit(db: Db, e: Event, slot: Slot, most: nat)
    requires Inv(db) && LimitsAtMost(db, slot, most) && Held(db.orders, slot) <= most
    requires EventLimitAtMost(e, slot, most)
    ensures LimitsAtMost(Next(db, e, true), slot, most)
    ensures Held(Next(db, e, true).orders, slot) <= most
  {
    hide Inv, AllowedNext, HeldIds;
    if Next(db, e, true).orders != db.orders {
      if e.Commit? {
        var x := db.txns[e.txn];
        HeldAfterInsert(db.orders, e.orderId, Order(x.slot, PendingProviderAcceptance), slot);
        if x.slot == slot { CommitIsAdmittedByTheTruth(db, e.txn, e.orderId); }
      } else {
        HeldAfterMove(db.orders, e.orderId, e.to, slot);
      }
    }
  }

  lemma {:induction false} RunKeeps(db: Db, events: seq<Event>, slot: Slot, most: nat)
    requires Inv(db) && LimitsAtMost(db, slot, most) && Held(db.orders, slot) <= most
    requires forall e :: e in events ==> EventLimitAtMost(e, slot, most)
    ensures Inv(Run(db, events, true)) && Held(Run(db, events, true).orders, slot) <= most
    decreases |events|
  {
    if events != [] {
      NextKeepsInv(db, events[0]);
      NextKeepsLimit(db, events[0], slot, most);
      RunKeeps(Next(db, events[0], true), events[1..], slot, most);
    }
  }

  /**
    No overbooking in any interleaving: if no booking of a date was tested against more than `most`
    places, at most that many committed orders hold it, whatever else ran in between. The counter is
    exactly the number of orders ever committed there, hence an upper bound on those still holding.
   */
  lemma NeverOverbooked(events: seq<Event>, slot: Slot, most: nat)
    requires forall e :: e in events ==> EventLimitAtMost(e, slot, most)
    ensures var db := Run(EMPTY, events, true);
      && Held(db.orders, slot) <= most
      && CounterAt(db.counters, slot) == |PlacedIds(db.orders, slot)|
      && Held(db.orders, slot) <= CounterAt(db.counters, slot)
  {
    assert HeldIds(EMPTY.orders, slot) == {};
    assert forall s :: PlacedIds(EMPTY.orders, s) == {};
    RunKeeps(EMPTY, events, slot, most);
    var db := Run(EMPTY, events, true);
    SubsetSize(HeldIds(db.orders, slot), PlacedIds(db.orders, slot));
  }

  /** The counter is what makes it safe: without the conflict it forces, two bookings take one place. */
  lemma WithoutTheCounterTwoTakeOnePlace(slot: Slot) returns (events: seq<Event>)
    ensures forall e :: e in events ==> EventLimitAtMost(e, slot, 1)
    ensures Held(Run(EMPTY, events, false).orders, slot) == 2
    ensures Held(Run(EMPTY, events, true).orders, slot) == 1
  {
    hide AllowedNext;
    events := [Begin(0, slot, Some(1)), Begin(1, slot, Some(1)), Check(0), Check(1), Commit(0, 0), Commit(1, 1)];
    assert HeldIds(map[], slot) == {};
    var x := Txn(slot, Some(1), map[], map[], true);
    var ready := Db(map[], map[], map[0 := x, 1 := x]);
    forall detect: bool ensures Run(EMPTY, events, detect) == Run(ready, events[4..], detect) {
      var d1 := Next(EMPTY, events[0], detect);
      var d2 := Next(d1, events[1], detect);
      var d3 := Next(d2, events[2], detect);
      assert Next(d3, events[3], detect) == ready;
      RunStep(EMPTY, events, detect);
      RunStep(d1, events[1..], detect);
      RunStep(d2, events[2..], detect);
      RunStep(d3, events[3..], detect);
    }
    RaceForOnePlace(slot, ready, events[4..], false);
    RaceForOnePlace(slot, ready, events[4..], true);
  }

  lemma RaceForOnePlace(slot: Slot, ready: Db, events: seq<Event>, detect: bool)
    requires events == [Commit(0, 0), Commit(1, 1)]
    requires var x := Txn(slot, Some(1), map[], map[], true); ready == Db(map[], map[], map[0 := x, 1 := x])
    ensures Held(Run(ready, events, detect).orders, slot) == if detect then 1 else 2
  {
    hide AllowedNext;
    var x := Txn(slot, Some(1), map[], map[], true);
    var o := Order(slot, PendingProviderAcceptance);
    var d5 := Next(ready, events[0], detect);
    assert d5 == Db(map[0 := o], map[slot := 1], map[1 := x]);
    RunStep(ready, events, detect);
    RunStep(d5, events[1..], detect);
    var orders := Next(d5, events[1], detect).orders;
    assert orders == if detect then map[0 := o] else map[0 := o, 1 := o];
    assert HeldIds(orders, slot) == if detect then {0} else {0, 1};
  }

  lemma RunStep(db: Db, events: seq<Event>, detectConflicts: bool)
    requires events != []
    ensures Run(db, events, detectConflicts)
            == Run(Next(db, events[0], detectConflicts), events[1..], detectConflicts)
  {
  }
}
