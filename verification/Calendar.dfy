/**
  The availability calendar and the booking-time gate
  (src/booking-availability/booking-availability.service.ts): what is previewed is what is enforced.
 */
module Calendar {
  import opened Wrappers
  import opened PhTime
  import opened Entitlement
  import opened BookingDay
  import Sorting

  /** An order as the day counts see it; `holds` is "status is not a slot-releasing one". */
  datatype Booking = Booking(branchId: string, date: int, holds: bool)

  datatype Store = Store(overrides: seq<Override>, blackouts: seq<Blackout>, bookings: seq<Booking>)

  /** The unique index on (branchId, date). */
  ghost predicate UniqueOverrides(overrides: seq<Override>) {
    forall i, j :: 0 <= i < j < |overrides| && overrides[i].branchId == overrides[j].branchId ==>
      overrides[i].date != overrides[j].date
  }

  function Count(bookings: seq<Booking>, branchId: string, date: int): nat {
    if bookings == [] then 0
    else
      var b := bookings[0];
      (if b.branchId == branchId && b.date == date && b.holds then 1 else 0) + Count(bookings[1..], branchId, date)
  }

  /** One grouped aggregation over many dates: a date without orders has no row. */
  function CountByDate(bookings: seq<Booking>, branchId: string, dates: seq<int>): map<int, nat> {
    map d | d in dates && Count(bookings, branchId, d) > 0 :: Count(bookings, branchId, d)
  }

  function BookedOn(counts: map<int, nat>, date: int): nat { if date in counts then counts[date] else 0 }

  function InSpan(branchId: string, dates: seq<int>): Override -> bool {
    (o: Override) => o.branchId == branchId && o.date in dates
  }

  function OnDate(branchId: string, date: int): Override -> bool {
    (o: Override) => o.branchId == branchId && o.date == date
  }

  function EndingFrom(branchId: string, from: int): Blackout -> bool {
    (b: Blackout) => b.branchId == branchId && b.endDate >= from
  }

  function OverridesIn(store: Store, branchId: string, dates: seq<int>): seq<Override> {
    Sorting.Filter(store.overrides, InSpan(branchId, dates))
  }

  function BlackoutsFrom(store: Store, branchId: string, from: int): seq<Blackout> {
    Sorting.Filter(store.blackouts, EndingFrom(branchId, from))
  }

  /** new Map(rows.map(o => [o.date, o])): a later row replaces an earlier one. */
  function ByDate(overrides: seq<Override>): map<int, Override> {
    if overrides == [] then map[]
    else ByDate(overrides[..|overrides| - 1])[overrides[|overrides| - 1].date := overrides[|overrides| - 1]]
  }

  function Lookup<K, V>(m: map<K, V>, k: K): Option<V> { if k in m then Some(m[k]) else None }

  function Span(days: Option<int>, advance: int): (n: int)
    ensures n >= 1
  {
    Max(1, Min(Min(days.GetOr(advance + 1), advance + 1), 90))
  }

  function Dates(start: int, n: int): seq<int>
    requires n >= 0
  {
    seq(n, i => start + i)
  }

  /** One entitlement, one blackout query and one grouped count serve the whole span. */
  function CalendarOf(
    store: Store, branchId: string, config: Config, entitlementOn: int -> EffectiveEntitlement,
    start: int, days: Option<int>, now: int): (r: seq<BookingDay>)
    ensures |r| == Span(days, entitlementOn(start).advanceBookingDays)
  {
    var e := entitlementOn(start);
    var dates := Dates(start, Span(days, e.advanceBookingDays));
    var overrides := ByDate(OverridesIn(store, branchId, dates));
    var blackouts := BlackoutsFrom(store, branchId, dates[0]);
    var counts := CountByDate(store.bookings, branchId, dates);
    seq(|dates|, i requires 0 <= i < |dates| =>
      ResolveDay(config, e, dates[i], Lookup(overrides, dates[i]), blackouts, BookedOn(counts, dates[i]), now))
  }

  function DayAvailability(
    store: Store, branchId: string, config: Config, entitlementOn: int -> EffectiveEntitlement,
    date: int, now: int): BookingDay
  {
    CalendarOf(store, branchId, config, entitlementOn, date, Some(1), now)[0]
  }

  // ----- The gate -----

  datatype Handover = Pickup | Dropoff | SelfPickup

  datatype Verdict = Booked(date: int) | Refused(reason: Reason) | HandoverNotOffered

  /** The gate reads each date on its own: one override lookup, its own blackout query, its own count. */
  function GateDay(
    store: Store, branchId: string, config: Config, e: EffectiveEntitlement, date: int, now: int): BookingDay
  {
    ResolveDay(
      config, e, date,
      Find(store.overrides, OnDate(branchId, date)),
      BlackoutsFrom(store, branchId, date),
      BookedOn(CountByDate(store.bookings, branchId, [date]), date), now)
  }

  function Gate(day: BookingDay, handover: Handover): Verdict {
    if day.unavailableReason.Some? then Refused(day.unavailableReason.value)
    else if !Offered(day, handover) then HandoverNotOffered
    else if day.remaining.Some? && day.remaining.value <= 0 then Refused(DayFullyBooked)
    else Booked(day.date)
  }

  predicate Offered(day: BookingDay, handover: Handover) {
    match handover
    case Pickup => day.fulfillment.providerPickup
    case Dropoff => day.fulfillment.customerDropoff
    case SelfPickup => day.fulfillment.customerPickup
  }

  /** assertDayBookable: decide, and only then touch the (branch, date) counter. */
  class SlotCounters {
    var counters: map<(string, int), nat>

    method AssertDayBookable(
      store: Store, branchId: string, config: Config, e: EffectiveEntitlement, date: int,
      handover: Handover, now: int) returns (verdict: Verdict)
      modifies this
      ensures verdict == Gate(GateDay(store, branchId, config, e, date, now), handover)
      ensures counters == if verdict.Booked?
                          then old(counters)[(branchId, date) := Lookup(old(counters), (branchId, date)).GetOr(0) + 1]
                          else old(counters)
    {
      hide GateDay;
      var day := GateDay(store, branchId, config, e, date, now);
      GateDayDate(store, branchId, config, e, date, now);
      if day.unavailableReason.Some? {
        return Refused(day.unavailableReason.value);
      }
      if !Offered(day, handover) {
        return HandoverNotOffered;
      }
      if day.remaining.Some? && day.remaining.value <= 0 {
        return Refused(DayFullyBooked);
      }
      var key := (branchId, date);
      counters := counters[key := (if key in counters then counters[key] else 0) + 1];
      return Booked(date);
    }
  }

  lemma GateDayDate(
    store: Store, branchId: string, config: Config, e: EffectiveEntitlement, date: int, now: int)
    ensures GateDay(store, branchId, config, e, date, now).date == date
  {
    hide DayUnavailableReason, EffectiveDayOf, DayKeyOf, CountByDate, BlackoutsFrom;
  }

  // ----- Preview equals enforcement -----

  /** Narrowing a query to a superset of what is looked for does not change what is found first. */
  lemma {:induction false} FindThroughFilter<T(!new)>(s: seq<T>, keep: T -> bool, p: T -> bool)
    requires forall x :: x in s && p(x) ==> keep(x)
    ensures Find(Sorting.Filter(s, keep), p) == Find(s, p)
  {
    if s != [] {
      FindThroughFilter(s[1..], keep, p);
      if keep(s[0]) {
        assert Sorting.Filter(s, keep) == [s[0]] + Sorting.Filter(s[1..], keep);
      }
    }
  }

  lemma {:induction false} FindWeaker<T(!new)>(s: seq<T>, p: T -> bool, q: T -> bool)
    requires forall x :: x in s ==> p(x) == q(x)
    ensures Find(s, p) == Find(s, q)
  {
    if s != [] { FindWeaker(s[1..], p, q); }
  }

  /** Under the unique index the last row for a date is also the first one. */
  lemma {:induction false} ByDateFinds(overrides: seq<Override>, branchId: string, date: int)
    requires forall o :: o in overrides ==> o.branchId == branchId
    requires UniqueOverrides(overrides)
    ensures Lookup(ByDate(overrides), date) == Find(overrides, OnDate(branchId, date))
  {
    if overrides != [] {
      var init, last := overrides[..|overrides| - 1], overrides[|overrides| - 1];
      ByDateFinds(init, branchId, date);
      assert overrides == init + [last];
      FindAppend(init, last, OnDate(branchId, date));
      if last.date == date {
        forall o | o in init ensures o.date != date {
          var i :| 0 <= i < |init| && init[i] == o;
          assert overrides[i].branchId == overrides[|overrides| - 1].branchId;
        }
        FindNothing(init, OnDate(branchId, date));
      }
    }
  }

  lemma {:induction false} FindAppend<T>(s: seq<T>, x: T, p: T -> bool)
    ensures Find(s + [x], p) == if Find(s, p).Some? then Find(s, p) else if p(x) then Some(x) else None
  {
    if s != [] {
      assert (s + [x])[1..] == s[1..] + [x];
      FindAppend(s[1..], x, p);
    }
  }

  lemma {:induction false} FindNothing<T>(s: seq<T>, p: T -> bool)
    requires forall x :: x in s ==> !p(x)
    ensures Find(s, p).None?
  {
    if s != [] { FindNothing(s[1..], p); }
  }

  lemma {:induction false} FilterKeepsDistinctDates(s: seq<Override>, branchId: string, dates: seq<int>)
    requires UniqueOverrides(s)
    ensures UniqueOverrides(Sorting.Filter(s, InSpan(branchId, dates)))
  {
    if s != [] {
      FilterKeepsDistinctDates(s[1..], branchId, dates);
      var tail := Sorting.Filter(s[1..], InSpan(branchId, dates));
      if InSpan(branchId, dates)(s[0]) {
        forall o | o in tail && o.branchId == s[0].branchId ensures o.date != s[0].date {
          assert o in s[1..];
          var j :| 0 <= j < |s[1..]| && s[1..][j] == o;
          assert s[1 + j] == o;
        }
        assert Sorting.Filter(s, InSpan(branchId, dates)) == [s[0]] + tail;
      } else {
        assert Sorting.Filter(s, InSpan(branchId, dates)) == tail;
      }
    }
  }

  /** The shared query results, read at one date, are that date's own query results. */
  lemma SharedReadsAgree(store: Store, branchId: string, dates: seq<int>, first: int, date: int)
    requires UniqueOverrides(store.overrides)
    requires date in dates && first <= date
    ensures Lookup(ByDate(OverridesIn(store, branchId, dates)), date)
            == Find(store.overrides, OnDate(branchId, date))
    ensures Find(BlackoutsFrom(store, branchId, first), (b: Blackout) => b.startDate <= date <= b.endDate)
            == Find(BlackoutsFrom(store, branchId, date), (b: Blackout) => b.startDate <= date <= b.endDate)
    ensures BookedOn(CountByDate(store.bookings, branchId, dates), date) == Count(store.bookings, branchId, date)
  {
    FilterKeepsDistinctDates(store.overrides, branchId, dates);
    ByDateFinds(OverridesIn(store, branchId, dates), branchId, date);
    FindThroughFilter(store.overrides, InSpan(branchId, dates), OnDate(branchId, date));

    var covers := (b: Blackout) => b.startDate <= date <= b.endDate;
    var mine := (b: Blackout) => b.branchId == branchId && b.startDate <= date <= b.endDate;
    FindWeaker(BlackoutsFrom(store, branchId, first), covers, mine);
    FindWeaker(BlackoutsFrom(store, branchId, date), covers, mine);
    FindThroughFilter(store.blackouts, EndingFrom(branchId, first), mine);
    FindThroughFilter(store.blackouts, EndingFrom(branchId, date), mine);
  }

  lemma ResolveDaySameBlackout(
    config: Config, e: EffectiveEntitlement, date: int, override: Option<Override>,
    a: seq<Blackout>, b: seq<Blackout>, booked: int, now: int)
    requires Find(a, (x: Blackout) => x.startDate <= date <= x.endDate)
             == Find(b, (x: Blackout) => x.startDate <= date <= x.endDate)
    ensures ResolveDay(config, e, date, override, a, booked, now)
            == ResolveDay(config, e, date, override, b, booked, now)
  {
  }

  /**
    Every day of a multi-day calendar is the day the gate itself resolves, as long as the entitlement
    of the first date is also that date's.
   */
  lemma CalendarDayIsGateDay(
    store: Store, branchId: string, config: Config, entitlementOn: int -> EffectiveEntitlement,
    start: int, days: Option<int>, now: int, i: nat)
    requires UniqueOverrides(store.overrides)
    requires i < |CalendarOf(store, branchId, config, entitlementOn, start, days, now)|
    requires entitlementOn(start + i) == entitlementOn(start)
    ensures CalendarOf(store, branchId, config, entitlementOn, start, days, now)[i]
            == GateDay(store, branchId, config, entitlementOn(start + i), start + i, now)
  {
    hide ResolveDay;
    var date := start + i;
    var dates := Dates(start, Span(days, entitlementOn(start).advanceBookingDays));
    assert dates[i] == date && dates[0] == start;
    SharedReadsAgree(store, branchId, dates, start, date);
    SharedReadsAgree(store, branchId, [date], date, date);
    ResolveDaySameBlackout(
      config, entitlementOn(start), date, Lookup(ByDate(OverridesIn(store, branchId, dates)), date),
      BlackoutsFrom(store, branchId, start), BlackoutsFrom(store, branchId, date),
      Count(store.bookings, branchId, date), now);
  }

  lemma CalendarDayIsDayAvailability(
    store: Store, branchId: string, config: Config, entitlementOn: int -> EffectiveEntitlement,
    start: int, days: Option<int>, now: int, i: nat)
    requires UniqueOverrides(store.overrides)
    requires i < |CalendarOf(store, branchId, config, entitlementOn, start, days, now)|
    requires entitlementOn(start + i) == entitlementOn(start)
    ensures CalendarOf(store, branchId, config, entitlementOn, start, days, now)[i]
            == DayAvailability(store, branchId, config, entitlementOn, start + i, now)
  {
    hide GateDay, CalendarOf, Span;
    CalendarDayIsGateDay(store, branchId, config, entitlementOn, start, days, now, i);
    CalendarDayIsGateDay(store, branchId, config, entitlementOn, start + i, Some(1), now, 0);
  }

  /**
    A date shows as bookable exactly when the gate, in the same state, refuses it on no day or capacity
    ground; and then the gate books it exactly when the day offers the requested handover.
   */
  lemma PreviewEqualsEnforcement(
    store: Store, branchId: string, config: Config, entitlementOn: int -> EffectiveEntitlement,
    date: int, now: int, handover: Handover)
    requires UniqueOverrides(store.overrides)
    ensures var shown := DayAvailability(store, branchId, config, entitlementOn, date, now);
      var verdict := Gate(GateDay(store, branchId, config, entitlementOn(date), date, now), handover);
      && (shown.isBookable <==> !verdict.Refused?)
      && (verdict == Booked(date) <==> shown.isBookable && Offered(shown, handover))
  {
    CalendarDayIsGateDay(store, branchId, config, entitlementOn, date, Some(1), now, 0);
    var day := GateDay(store, branchId, config, entitlementOn(date), date, now);
    ResolvedDayConsistent(
      config, entitlementOn(date), date,
      Find(store.overrides, OnDate(branchId, date)),
      BlackoutsFrom(store, branchId, date),
      BookedOn(CountByDate(store.bookings, branchId, [date]), date), now);
  }

  lemma ResolvedDayConsistent(
    config: Config, e: EffectiveEntitlement, date: int, override: Option<Override>,
    blackouts: seq<Blackout>, booked: int, now: int)
    ensures var day := ResolveDay(config, e, date, override, blackouts, booked, now);
      day.date == date
      && (day.isBookable <==> day.unavailableReason.None?)
      && (day.isBookable && day.remaining.Some? ==> day.remaining.value > 0)
  {
    hide EffectiveDayOf, DayKeyOf, NoticeReason, PastCutoffTime;
  }
}
