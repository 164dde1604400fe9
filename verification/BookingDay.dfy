/**
  Resolving one calendar date into a bookable or unbookable day
  (src/booking-availability/availability-resolution.util.ts and booking-availability.service.ts).
 */
module BookingDay {
  import opened Wrappers
  import opened PhTime
  import opened Windows
  import opened Fulfillment
  import opened Entitlement

  const DEFAULT_WINDOW_OPEN := "08:00"
  const DEFAULT_WINDOW_CLOSE := "20:00"

  datatype DayConfig = DayConfig(
    isAcceptingBookings: Option<bool>, windows: seq<Window>,
    dailyBookingLimit: Option<int>, fulfillment: Option<StoredFulfillment>)

  datatype Config = Config(
    acceptScheduledBookings: bool, bookingsPaused: bool,
    weekly: map<DayKey, DayConfig>, dailyBookingLimit: Option<int>)

  datatype Override = Override(
    branchId: string, date: int, isClosed: bool, windows: seq<Window>,
    dailyBookingLimit: Option<int>, fulfillment: Option<StoredFulfillment>, caption: Option<string>)

  datatype Blackout = Blackout(branchId: string, startDate: int, endDate: int, reason: Option<string>)

  /** Unlimited is the source's internal Infinity. */
  datatype Limit = Unlimited | Capped(n: int)

  datatype EffectiveDay = EffectiveDay(
    isAcceptingBookings: bool, windows: seq<Window>, dailyBookingLimit: Limit,
    fulfillment: DayFulfillment, isSpecialDate: bool, caption: Option<string>)

  datatype Reason =
    | BookingsDisabled | BookingsPaused | ClosedThisDay | BlackedOut | DayFullyBooked
    | PastCutoff | InsufficientNotice | BeyondAdvanceWindow | InThePast

  function CapBy(requested: Option<int>, entitled: Option<int>): Limit {
    match (requested, entitled)
    case (None, None) => Unlimited
    case (Some(r), None) => Capped(r)
    case (None, Some(e)) => Capped(e)
    case (Some(r), Some(e)) => Capped(Min(r, e))
  }

  function OrElse<T>(a: Option<T>, b: Option<T>): Option<T> { if a.Some? then a else b }

  function DayOf(config: Config, key: DayKey): DayConfig {
    if key in config.weekly then config.weekly[key] else DayConfig(None, [], None, None)
  }

  function EffectiveDayOf(
    config: Config, key: DayKey, entitlement: EffectiveEntitlement, override: Option<Override>): EffectiveDay
  {
    var day := DayOf(config, key);
    var weekday := if day.windows != [] then day.windows
                   else [Window(DEFAULT_WINDOW_OPEN, DEFAULT_WINDOW_CLOSE)];
    var windows := if override.Some? && override.value.windows != [] then override.value.windows else weekday;
    EffectiveDay(
      if override.Some? && override.value.isClosed then false else day.isAcceptingBookings.GetOr(true),
      Normalize(windows),
      CapBy(
        OrElse(if override.Some? then override.value.dailyBookingLimit else None,
               OrElse(day.dailyBookingLimit, config.dailyBookingLimit)),
        entitlement.dailyCapacity),
      DayFulfillmentOf(OrElse(if override.Some? then override.value.fulfillment else None, day.fulfillment)),
      override.Some?,
      if override.Some? then override.value.caption else None)
  }

  // ----- The day gate -----

  predicate Full(booked: int, limit: Limit) { limit.Capped? && booked >= limit.n }

  /** Closing time and notice, measured in minutes from now. */
  function NoticeReason(windows: seq<Window>, offset: int, nowMinutes: int, leadTime: int): Option<Reason> {
    if windows == [] then None
    else
      match (ParseHHMM(windows[0].start), ParseHHMM(windows[|windows| - 1].end))
      case (Some(open), Some(close)) =>
        var untilOpen := offset * MINUTES_PER_DAY + open - nowMinutes;
        var untilClose := offset * MINUTES_PER_DAY + close - nowMinutes;
        if untilClose <= 0 then Some(InThePast)
        else if Max(untilOpen, leadTime) > untilClose then Some(InsufficientNotice)
        else None
      case _ => None
  }

  function DayUnavailableReason(
    config: Config, e: EffectiveEntitlement, offset: int, nowMinutes: int,
    day: EffectiveDay, blackedOut: bool, booked: int): Option<Reason>
  {
    if !e.bookingsEnabled || !config.acceptScheduledBookings then Some(BookingsDisabled)
    else if config.bookingsPaused then Some(BookingsPaused)
    else if offset < 0 then Some(InThePast)
    else if offset > e.advanceBookingDays then Some(BeyondAdvanceWindow)
    else if blackedOut then Some(BlackedOut)
    else if !day.isAcceptingBookings then Some(ClosedThisDay)
    else if offset == 0 && (!e.sameDayBookingEnabled || PastCutoffTime(e, nowMinutes)) then Some(PastCutoff)
    else if Full(booked, day.dailyBookingLimit) then Some(DayFullyBooked)
    else NoticeReason(day.windows, offset, nowMinutes, e.leadTimeMinutes)
  }

  predicate PastCutoffTime(e: EffectiveEntitlement, nowMinutes: int) {
    var cutoff := ParseHHMM(e.sameDayCutoffTime);
    cutoff.Some? && nowMinutes >= cutoff.value
  }

  datatype BookingDay = BookingDay(
    date: int, dayOfWeek: DayKey, isBookable: bool, unavailableReason: Option<Reason>,
    windows: seq<Window>, dailyBookingLimit: Option<int>, bookedCount: int, remaining: Option<int>,
    isSpecialDate: bool, caption: Option<string>, fulfillment: DayFulfillment)

  function AsLimit(l: Limit): Option<int> { if l.Capped? then Some(l.n) else None }

  function Remaining(limit: Limit, booked: int): Limit {
    if limit.Capped? then Capped(Max(0, limit.n - booked)) else Unlimited
  }

  function Find<T>(s: seq<T>, p: T -> bool): Option<T> {
    if s == [] then None else if p(s[0]) then Some(s[0]) else Find(s[1..], p)
  }

  function ResolveDay(
    config: Config, e: EffectiveEntitlement, date: int, override: Option<Override>,
    blackouts: seq<Blackout>, booked: int, now: int): BookingDay
  {
    var day := EffectiveDayOf(config, DayKeyOf(date), e, override);
    var blackout := Find(blackouts, (b: Blackout) => b.startDate <= date <= b.endDate);
    var reason := DayUnavailableReason(
      config, e, date - PhDay(now), PhMinutesOfDay(now), day, blackout.Some?, booked);
    var remaining := Remaining(day.dailyBookingLimit, booked);
    BookingDay(
      date, DayKeyOf(date), reason.None? && (remaining.Unlimited? || remaining.n > 0), reason,
      day.windows, AsLimit(day.dailyBookingLimit), booked, AsLimit(remaining),
      day.isSpecialDate || blackout.Some?,
      OrElse(day.caption, if blackout.Some? then blackout.value.reason else None), day.fulfillment)
  }

  // ----- The notice gate is exact -----

  /** The closing instant of a window counts: a collection may land on it. */
  ghost predicate OffersEndIncluded(windows: seq<Window>, m: int) {
    exists w :: w in windows && SpanOf(w).Some? && SpanOf(w).value.start <= m <= SpanOf(w).value.end
  }

  lemma {:induction false} SpanBounds(spans: seq<Span>)
    requires Separated(spans) && spans != []
    ensures forall w :: w in spans ==> spans[0].start <= w.start && w.end <= spans[|spans| - 1].end
    ensures spans[0].start < spans[|spans| - 1].end
  {
    if |spans| > 1 {
      SpanBounds(spans[1..]);
      assert spans == [spans[0]] + spans[1..];
    }
  }

  lemma {:induction false} FormatAllMembers(spans: seq<Span>)
    requires Separated(spans)
    ensures |FormatAll(spans)| == |spans|
    ensures forall i :: 0 <= i < |spans| ==> FormatAll(spans)[i] == FormatSpan(spans[i])
    ensures forall i :: 0 <= i < |spans| ==> WellFormed(spans[i])
  {
    if spans != [] { FormatAllMembers(spans[1..]); }
  }

  /** What the first and last bound of a normalized list say about all of it. */
  lemma NormalizedBounds(windows: seq<Window>)
    requires Canonical(windows) && windows != []
    ensures var open, close := ParseHHMM(windows[0].start), ParseHHMM(windows[|windows| - 1].end);
      && open.Some? && close.Some? && open.value < close.value
      && OffersEndIncluded(windows, close.value)
      && (forall m :: OffersEndIncluded(windows, m) ==> open.value <= m <= close.value)
  {
    hide ParseHHMM, FormatHHMM;
    var spans: seq<Span> :| Separated(spans) && windows == FormatAll(spans);
    FormatAllMembers(spans);
    SpanBounds(spans);
    var last := |spans| - 1;
    SpanOfFormat(spans[0]);
    SpanOfFormat(spans[last]);
    assert windows[last] in windows;
    forall m | OffersEndIncluded(windows, m) ensures spans[0].start <= m <= spans[last].end {
      var w :| w in windows && SpanOf(w).Some? && SpanOf(w).value.start <= m <= SpanOf(w).value.end;
      var i :| 0 <= i < |windows| && windows[i] == w;
      SpanOfFormat(spans[i]);
      assert spans[i] in spans;
    }
  }

  /**
    The notice check passes exactly when the day has not closed and some minute in its windows, ends
    included, is at least the required notice away.
   */
  lemma NoticeGateExact(windows: seq<Window>, offset: int, nowMinutes: int, leadTime: int)
    requires Canonical(windows) && windows != []
    ensures NoticeReason(windows, offset, nowMinutes, leadTime).None? <==>
      exists m :: OffersEndIncluded(windows, m)
                  && offset * MINUTES_PER_DAY + m > nowMinutes
                  && offset * MINUTES_PER_DAY + m >= nowMinutes + leadTime
  {
    NormalizedBounds(windows);
    var close := ParseHHMM(windows[|windows| - 1].end).value;
    if NoticeReason(windows, offset, nowMinutes, leadTime).None? {
      assert OffersEndIncluded(windows, close);
    }
  }

  // ----- Time is convex -----

  /** Everything about a date that does not depend on the clock. */
  predicate OpenAtAll(
    config: Config, e: EffectiveEntitlement, date: int, override: Option<Override>,
    blackouts: seq<Blackout>, booked: int)
  {
    var day := EffectiveDayOf(config, DayKeyOf(date), e, override);
    && e.bookingsEnabled && config.acceptScheduledBookings && !config.bookingsPaused
    && Find(blackouts, (b: Blackout) => b.startDate <= date <= b.endDate).None?
    && day.isAcceptingBookings
    && !Full(booked, day.dailyBookingLimit)
  }

  /** Manila-local millisecond at which the date enters the advance window. */
  function OpensAt(e: EffectiveEntitlement, date: int): int { (date - e.advanceBookingDays) * MS_PER_DAY }

  /** Manila-local millisecond from which same-day rules refuse the date. */
  function SameDayEnd(e: EffectiveEntitlement, date: int): int {
    if !e.sameDayBookingEnabled then date * MS_PER_DAY
    else
      match ParseHHMM(e.sameDayCutoffTime)
      case Some(cutoff) => date * MS_PER_DAY + cutoff * MS_PER_MINUTE
      case None => (date + 1) * MS_PER_DAY
  }

  /** Manila-local millisecond from which closing time and notice refuse the date. */
  function NoticeEnd(windows: seq<Window>, e: EffectiveEntitlement, date: int): int {
    if windows == [] then (date + 1) * MS_PER_DAY
    else
      match ParseHHMM(windows[|windows| - 1].end)
      case Some(close) =>
        (date * MINUTES_PER_DAY + close - Max(e.leadTimeMinutes, 1) + 1) * MS_PER_MINUTE
      case None => (date + 1) * MS_PER_DAY
  }

  lemma LocalClock(now: int)
    ensures var local := now + PH_OFFSET_MS;
      && PhDay(now) * MS_PER_DAY <= local < (PhDay(now) + 1) * MS_PER_DAY
      && (PhDay(now) * MINUTES_PER_DAY + PhMinutesOfDay(now)) * MS_PER_MINUTE <= local
      && local < (PhDay(now) * MINUTES_PER_DAY + PhMinutesOfDay(now) + 1) * MS_PER_MINUTE
  {
    var local := now + PH_OFFSET_MS;
    assert local == PhDay(now) * MS_PER_DAY + local % MS_PER_DAY;
    var inDay := local % MS_PER_DAY;
    assert inDay == inDay / MS_PER_MINUTE * MS_PER_MINUTE + inDay % MS_PER_MINUTE;
  }

  /**
    With configuration, entitlement and counts held fixed, the instants at which a date can be booked
    are one half-open interval, and these are its ends. In particular a date never becomes bookable,
    stops being so, and becomes bookable again.
   */
  lemma BookableExactlyInInterval(
    config: Config, e: EffectiveEntitlement, date: int, override: Option<Override>,
    blackouts: seq<Blackout>, booked: int, now: int)
    ensures var windows := EffectiveDayOf(config, DayKeyOf(date), e, override).windows;
      ResolveDay(config, e, date, override, blackouts, booked, now).isBookable
      <==> OpenAtAll(config, e, date, override, blackouts, booked)
           && OpensAt(e, date) <= now + PH_OFFSET_MS
           && now + PH_OFFSET_MS < Min(SameDayEnd(e, date), NoticeEnd(windows, e, date))
           && now + PH_OFFSET_MS < (date + 1) * MS_PER_DAY
  {
    hide Normalize, Find, DayFulfillmentOf, ParseHHMM, PhDay, PhMinutesOfDay, DayKeyOf, CapBy;
    var day := EffectiveDayOf(config, DayKeyOf(date), e, override);
    LocalClock(now);
    NormalizedDay(config, DayKeyOf(date), e, override);
    if date >= PhDay(now) {
      NoticeInterval(day.windows, e, date, now);
      CutoffInterval(e, date, now);
    }
  }

  lemma NormalizedDay(config: Config, key: DayKey, e: EffectiveEntitlement, override: Option<Override>)
    ensures Canonical(EffectiveDayOf(config, key, e, override).windows)
  {
    hide Normalize, DayFulfillmentOf, CapBy;
    var day := DayOf(config, key);
    NormalizeExact(if override.Some? && override.value.windows != [] then override.value.windows
                   else if day.windows != [] then day.windows
                   else [Window(DEFAULT_WINDOW_OPEN, DEFAULT_WINDOW_CLOSE)]);
  }

  lemma CutoffInterval(e: EffectiveEntitlement, date: int, now: int)
    requires date >= PhDay(now)
    ensures date == PhDay(now) && (!e.sameDayBookingEnabled || PastCutoffTime(e, PhMinutesOfDay(now)))
            <==> now + PH_OFFSET_MS >= SameDayEnd(e, date)
  {
    LocalClock(now);
  }

  lemma NoticeInterval(windows: seq<Window>, e: EffectiveEntitlement, date: int, now: int)
    requires Canonical(windows)
    requires date >= PhDay(now)
    ensures NoticeReason(windows, date - PhDay(now), PhMinutesOfDay(now), e.leadTimeMinutes).None?
            <==> now + PH_OFFSET_MS < NoticeEnd(windows, e, date)
  {
    hide ParseHHMM, PhDay, PhMinutesOfDay;
    LocalClock(now);
    if windows != [] { NormalizedBounds(windows); }
  }
}
