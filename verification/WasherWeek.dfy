/**
  A washer's own hours projected onto the weekly schedule, and the plain-language summary of a week
  (weeklyFromOperatingHours and summarize in src/booking-availability/availability-resolution.util.ts).
 */
module WasherWeek {
  import opened Wrappers
  import opened PhTime
  import opened Windows
  import opened Fulfillment
  import opened Entitlement
  import opened BookingDay

  /** A time slot is a window under other field names. */
  datatype OperatingDay = OperatingDay(isOpen: bool, is24Hours: bool, timeSlots: seq<Window>)

  const ALL_DAY := [Window("00:00", "23:59")]

  function HoursOf(day: Option<OperatingDay>): seq<Window> {
    if day.None? then [] else if day.value.is24Hours then ALL_DAY else day.value.timeSlots
  }

  function Lookup<V>(m: map<DayKey, V>, k: DayKey): Option<V> { if k in m then Some(m[k]) else None }

  function ProjectDay(day: Option<OperatingDay>, stored: Option<DayConfig>, bound: Option<UniversalDay>): DayConfig {
    var own := if day.Some? && day.value.is24Hours then ALL_DAY else Normalize(HoursOf(day));
    var windows :=
      if bound.None? then own
      else if !bound.value.isOpen then []
      else if bound.value.windows != [] then Intersect(own, bound.value.windows)
      else own;
    var isOpen := day.Some? && day.value.isOpen && (bound.None? || bound.value.isOpen);
    var f := DayFulfillmentOf(if stored.Some? then stored.value.fulfillment else None);
    DayConfig(
      Some(isOpen && windows != []), windows, None,
      Some(StoredFulfillment(Absent, Given(f.providerPickup), Given(f.providerDelivery),
                             Given(f.customerDropoff), Given(f.customerPickup))))
  }

  method WeeklyFromOperatingHours(
    hours: map<DayKey, OperatingDay>, storedWeekly: map<DayKey, DayConfig>, universal: map<DayKey, UniversalDay>)
    returns (out: map<DayKey, DayConfig>)
    ensures forall k :: k in out && out[k] == ProjectDay(Lookup(hours, k), Lookup(storedWeekly, k), Lookup(universal, k))
  {
    out := map[];
    for n := 0 to |DAY_KEYS|
      invariant forall i :: 0 <= i < n ==> DAY_KEYS[i] in out
      invariant forall k :: k in out ==>
        out[k] == ProjectDay(Lookup(hours, k), Lookup(storedWeekly, k), Lookup(universal, k))
    {
      var key := DAY_KEYS[n];
      var day, stored, bound := Lookup(hours, key), Lookup(storedWeekly, key), Lookup(universal, key);
      var windows: seq<Window>;
      if day.Some? && day.value.is24Hours {
        windows := ALL_DAY;
      } else {
        windows := NormalizeWindows(if day.Some? then day.value.timeSlots else []);
      }
      var isOpen := day.Some? && day.value.isOpen;
      if bound.Some? {
        if !bound.value.isOpen {
          isOpen := false;
          windows := [];
        } else if bound.value.windows != [] {
          windows := IntersectWindows(windows, bound.value.windows);
          if windows == [] { isOpen := false; }
        }
      }
      var f := DayFulfillmentOf(if stored.Some? then stored.value.fulfillment else None);
      out := out[key := DayConfig(
        Some(isOpen && windows != []), windows, None,
        Some(StoredFulfillment(Absent, Given(f.providerPickup), Given(f.providerDelivery),
                               Given(f.customerDropoff), Given(f.customerPickup))))];
    }
    forall k: DayKey ensures k in out { DayKeysComplete(k); }
  }

  lemma DayKeysComplete(k: DayKey)
    ensures exists i :: 0 <= i < |DAY_KEYS| && DAY_KEYS[i] == k
  {
    var i := match k case Sunday => 0 case Monday => 1 case Tuesday => 2 case Wednesday => 3
             case Thursday => 4 case Friday => 5 case Saturday => 6;
    assert DAY_KEYS[i] == k;
  }

  /** The minutes a washer may really be booked at: her own, inside the platform's bound when it has windows. */
  ghost predicate MayOffer(day: Option<OperatingDay>, bound: Option<UniversalDay>, m: int) {
    && Offers(HoursOf(day), m)
    && (bound.Some? ==> bound.value.isOpen && (bound.value.windows != [] ==> Offers(bound.value.windows, m)))
  }

  lemma CanonicalNonEmpty(windows: seq<Window>)
    requires Canonical(windows)
    ensures windows != [] <==> exists m :: Offers(windows, m)
  {
    if windows != [] {
      var spans: seq<Span> :| Separated(spans) && windows == FormatAll(spans);
      CoversBy(spans[0], spans, spans[0].start);
      FormatAllOffers(spans, spans[0].start);
    }
  }

  lemma AllDayCanonical()
    ensures Canonical(ALL_DAY)
  {
    var spans := [Span(0, 1439)];
    assert FormatAll(spans) == ALL_DAY by {
      assert FormatHHMM(0) == "00:00";
      assert FormatHHMM(1439) == "23:59";
    }
    assert Separated(spans);
  }

  lemma ProjectedMinutes(day: Option<OperatingDay>, stored: Option<DayConfig>, bound: Option<UniversalDay>)
    ensures var p := ProjectDay(day, stored, bound);
      Canonical(p.windows) && forall m :: Offers(p.windows, m) <==> MayOffer(day, bound, m)
  {
    hide Normalize, Intersect, DayFulfillmentOf;
    var own := if day.Some? && day.value.is24Hours then ALL_DAY else Normalize(HoursOf(day));
    NormalizeExact(HoursOf(day));
    AllDayCanonical();
    assert Canonical(own) && SameMinutes(own, HoursOf(day));
    if bound.Some? {
      IntersectExact(own, bound.value.windows);
      if !bound.value.isOpen {
        assert Canonical([]) by { assert FormatAll([]) == [] && Separated([]); }
      }
    }
    var p := ProjectDay(day, stored, bound);
    forall m ensures Offers(p.windows, m) <==> MayOffer(day, bound, m) {
      assert Offers(own, m) <==> Offers(HoursOf(day), m);
    }
  }

  /** The projected day takes bookings exactly when she is open and some minute survives the clamp. */
  lemma ProjectedDayAccepts(day: Option<OperatingDay>, stored: Option<DayConfig>, bound: Option<UniversalDay>)
    ensures ProjectDay(day, stored, bound).isAcceptingBookings == Some(true)
            <==> day.Some? && day.value.isOpen && exists m :: MayOffer(day, bound, m)
  {
    ProjectedMinutes(day, stored, bound);
    CanonicalNonEmpty(ProjectDay(day, stored, bound).windows);
    var p := ProjectDay(day, stored, bound);
    if exists m :: MayOffer(day, bound, m) {
      var m :| MayOffer(day, bound, m);
      assert Offers(p.windows, m);
    }
    if p.windows != [] {
      var m :| Offers(p.windows, m);
      assert MayOffer(day, bound, m);
    }
  }

  /**
    Composed with the day resolution and no override, a projected day that accepts bookings offers
    exactly the permitted minutes; the fallback window for an empty day is never reached.
   */
  lemma WasherDayOffersOnlyPermitted(
    config: Config, key: DayKey, e: EffectiveEntitlement,
    day: Option<OperatingDay>, stored: Option<DayConfig>, bound: Option<UniversalDay>)
    requires key in config.weekly && config.weekly[key] == ProjectDay(day, stored, bound)
    requires EffectiveDayOf(config, key, e, None).isAcceptingBookings
    ensures forall m :: Offers(EffectiveDayOf(config, key, e, None).windows, m) <==> MayOffer(day, bound, m)
    ensures EffectiveDayOf(config, key, e, None).fulfillment
            == DayFulfillmentOf(if stored.Some? then stored.value.fulfillment else None)
  {
    hide Normalize, Intersect;
    ProjectedMinutes(day, stored, bound);
    var p := ProjectDay(day, stored, bound);
    assert p.windows != [];
    NormalizeExact(p.windows);
    assert EffectiveDayOf(config, key, e, None).windows == Normalize(p.windows);
    forall m ensures Offers(Normalize(p.windows), m) <==> MayOffer(day, bound, m) {
      assert Offers(Normalize(p.windows), m) <==> Offers(p.windows, m);
    }
  }

  /** The minutes one date offers, as the universal week would have them: none she may not offer. */
  ghost predicate InsideUniversal(windows: seq<Window>, day: Option<OperatingDay>, bound: Option<UniversalDay>) {
    forall m :: Offers(windows, m) ==> MayOffer(day, bound, m)
  }

  /**
    On an accepting projected day, whatever override the date carries, the minutes offered stay inside the
    universal week and her own hours exactly when the override brings no windows of its own or only such
    as lie inside already: an override with windows replaces hers outright.
   */
  lemma OverrideStaysInsideExactly(
    config: Config, key: DayKey, e: EffectiveEntitlement, o: Option<Override>,
    day: Option<OperatingDay>, stored: Option<DayConfig>, bound: Option<UniversalDay>)
    requires key in config.weekly && config.weekly[key] == ProjectDay(day, stored, bound)
    requires EffectiveDayOf(config, key, e, None).isAcceptingBookings
    ensures InsideUniversal(EffectiveDayOf(config, key, e, o).windows, day, bound)
            <==> o.None? || o.value.windows == [] || InsideUniversal(o.value.windows, day, bound)
  {
    hide Normalize, MayOffer, DayFulfillmentOf;
    WasherDayOffersOnlyPermitted(config, key, e, day, stored, bound);
    if o.Some? && o.value.windows != [] {
      NormalizeExact(o.value.windows);
      assert SameMinutes(Normalize(o.value.windows), o.value.windows);
      assert EffectiveDayOf(config, key, e, o).windows == Normalize(o.value.windows);
      forall m ensures Offers(Normalize(o.value.windows), m) <==> Offers(o.value.windows, m) {}
    } else {
      assert EffectiveDayOf(config, key, e, o).windows == EffectiveDayOf(config, key, e, None).windows;
    }
  }

  /** An override that opens one minute of a date. */
  function Reopening(branchId: string, date: int, m: int): Override
    requires 0 <= m < 1439
  {
    Override(branchId, date, false, [Window(FormatHHMM(m), FormatHHMM(m + 1))], None, None, None)
  }

  /** Every minute the universal week forbids can be offered again by an override of the date. */
  lemma OverrideEscapesUniversalWeek(
    config: Config, key: DayKey, e: EffectiveEntitlement, branchId: string, date: int, m: int,
    day: Option<OperatingDay>, bound: Option<UniversalDay>)
    requires 0 <= m < 1439 && !MayOffer(day, bound, m)
    ensures var windows := EffectiveDayOf(config, key, e, Some(Reopening(branchId, date, m))).windows;
      Offers(windows, m) && !InsideUniversal(windows, day, bound)
  {
    hide Normalize, MayOffer, DayFulfillmentOf, FormatHHMM, ParseHHMM;
    var o := Reopening(branchId, date, m);
    NormalizeExact(o.windows);
    SpanOfFormat(Span(m, m + 1));
    assert o.windows[0] in o.windows;
    assert Offers(o.windows, m);
    assert SameMinutes(Normalize(o.windows), o.windows);
  }

  /** For instance: a platform open from six to ten at night, and a date reopened at eleven. */
  lemma ElevenAtNightEscapes(config: Config, key: DayKey, e: EffectiveEntitlement)
    ensures var bound := Some(UniversalDay(true, [Window("06:00", "22:00")]));
      var day := Some(OperatingDay(true, true, []));
      var windows := EffectiveDayOf(config, key, e, Some(Reopening("b", 0, 23 * 60))).windows;
      Offers(windows, 23 * 60) && !MayOffer(day, bound, 23 * 60)
  {
    hide Normalize, DayFulfillmentOf;
    var bound := Some(UniversalDay(true, [Window("06:00", "22:00")]));
    assert ParseHHMM("06:00") == Some(360) && ParseHHMM("22:00") == Some(1320);
    assert !Offers(bound.value.windows, 23 * 60);
    OverrideEscapesUniversalWeek(config, key, e, "b", 0, 23 * 60, Some(OperatingDay(true, true, [])), bound);
  }

  // ----- Capacity, twice computed -----

  /** The daily figure of the summary, which does not go through the day resolution. */
  function SummaryDaily(config: Config, e: EffectiveEntitlement): Option<int> {
    if e.dailyCapacity.None? then config.dailyBookingLimit
    else Some(Min(config.dailyBookingLimit.GetOr(e.dailyCapacity.value), e.dailyCapacity.value))
  }

  /** No request on any level exceeds the entitlement, and on a projected day the two computations agree. */
  lemma DailyLimitCappedAndSummarized(
    config: Config, key: DayKey, e: EffectiveEntitlement, override: Option<Override>)
    ensures var limit := EffectiveDayOf(config, key, e, override).dailyBookingLimit;
      && (e.dailyCapacity.Some? ==> limit.Capped? && limit.n <= e.dailyCapacity.value)
      && (override.None? && DayOf(config, key).dailyBookingLimit.None? ==> AsLimit(limit) == SummaryDaily(config, e))
  {
    hide Normalize, DayFulfillmentOf;
  }

  // ----- Collapsing the week into runs -----

  datatype Run = Run(from: nat, to: nat, text: string)

  /** Runs tile the days in order, each says what its days say, and none could be longer. */
  ghost predicate Collapses(runs: seq<Run>, texts: seq<string>, upTo: nat)
    requires upTo <= |texts|
  {
    && (runs == [] <==> upTo == 0)
    && (runs != [] ==> runs[0].from == 0 && runs[|runs| - 1].to + 1 == upTo)
    && (forall k :: 0 <= k < |runs| ==> runs[k].from <= runs[k].to < upTo)
    && (forall k :: 0 <= k < |runs| - 1 ==> runs[k + 1].from == runs[k].to + 1 && runs[k].text != runs[k + 1].text)
    && (forall k, i :: 0 <= k < |runs| && runs[k].from <= i <= runs[k].to ==> texts[i] == runs[k].text)
  }

  method CollapseRuns(texts: seq<string>) returns (runs: seq<Run>)
    ensures Collapses(runs, texts, |texts|)
  {
    runs := [];
    var runStart := 0;
    for i := 1 to |texts| + 1
      invariant |texts| == 0 ==> runStart == 0
      invariant |texts| > 0 ==> runStart <= i - 1
      invariant |texts| > 0 && i <= |texts| ==> runStart < |texts|
      invariant i == |texts| + 1 ==> runStart == |texts|
      invariant runStart <= |texts| && Collapses(runs, texts, runStart)
      invariant forall k :: runStart <= k < i && k < |texts| ==> texts[k] == texts[runStart]
      invariant runs != [] && runStart < |texts| ==> texts[runStart] != runs[|runs| - 1].text
    {
      if i < |texts| && texts[i] == texts[runStart] {
        continue;
      }
      runs := runs + [Run(runStart, i - 1, texts[runStart])];
      runStart := i;
    }
  }
}
