/**
  Splitting the legacy pickup-and-delivery flag into two legs
  (src/migrations/split-fulfillment-legs.migration.ts), against what the booking engine reads.
 */
module LegMigration {
  import opened Wrappers
  import opened PhTime
  import opened Fulfillment
  import opened Entitlement
  import opened BookingDay

  const WEEKDAYS: seq<DayKey> := [Monday, Tuesday, Wednesday, Thursday, Friday, Saturday, Sunday]

  datatype ConfigDoc = ConfigDoc(id: string, config: Config)

  datatype OverrideDoc = OverrideDoc(id: string, override: Override)

  /** The field exists, be it as an explicit null. */
  predicate HasLegacy(f: Option<StoredFulfillment>) { f.Some? && f.value.pickupAndDelivery != Absent }

  predicate ConfigMatches(d: ConfigDoc) {
    exists k :: k in d.config.weekly && HasLegacy(d.config.weekly[k].fulfillment)
  }

  predicate OverrideMatches(d: OverrideDoc) { HasLegacy(d.override.fulfillment) }

  datatype Legs = Legs(providerPickup: bool, providerDelivery: bool)

  function SplitOf(s: StoredFulfillment): Legs {
    var legacy := s.pickupAndDelivery.Or(true);
    Legs(s.providerPickup.Or(legacy), s.providerDelivery.Or(legacy))
  }

  /** One $set of both legs and $unset of the legacy field. */
  function Patched(f: Option<StoredFulfillment>, legs: Legs): Option<StoredFulfillment> {
    if f.None? then f
    else Some(f.value.(pickupAndDelivery := Absent, providerPickup := Given(legs.providerPickup),
                       providerDelivery := Given(legs.providerDelivery)))
  }

  function Split(f: Option<StoredFulfillment>): Option<StoredFulfillment> {
    if HasLegacy(f) then Patched(f, SplitOf(f.value)) else f
  }

  function SplitConfig(c: Config): Config {
    c.(weekly := map k | k in c.weekly :: c.weekly[k].(fulfillment := Split(c.weekly[k].fulfillment)))
  }

  function SplitConfigDoc(d: ConfigDoc): ConfigDoc { d.(config := SplitConfig(d.config)) }

  function SplitOverride(o: Override): Override { o.(fulfillment := Split(o.fulfillment)) }

  function SplitOverrideDoc(d: OverrideDoc): OverrideDoc { d.(override := SplitOverride(d.override)) }

  function CountMatching<T>(docs: seq<T>, matches: T -> bool, n: nat): nat
    requires n <= |docs|
  {
    if n == 0 then 0 else CountMatching(docs, matches, n - 1) + if matches(docs[n - 1]) then 1 else 0
  }

  // ----- What the service reads: documents as the schema loads them -----

  /** Loading fills a missing leg with the schema default; an explicit null stays. */
  function Filled(leg: Leg): Leg { if leg == Absent then Given(true) else leg }

  /** The retired field is no path of the schema, so no reader of a loaded document sees it. */
  function LoadFulfillment(s: StoredFulfillment): StoredFulfillment {
    StoredFulfillment(Absent, Filled(s.providerPickup), Filled(s.providerDelivery),
                      Filled(s.customerDropoff), Filled(s.customerPickup))
  }

  function Load(f: Option<StoredFulfillment>): Option<StoredFulfillment> {
    if f.None? then None else Some(LoadFulfillment(f.value))
  }

  function LoadConfig(c: Config): Config {
    c.(weekly := map k | k in c.weekly :: c.weekly[k].(fulfillment := Load(c.weekly[k].fulfillment)))
  }

  function LoadOverride(o: Option<Override>): Option<Override> {
    if o.None? then None else Some(o.value.(fulfillment := Load(o.value.fulfillment)))
  }

  /** The day the booking engine resolves from what is stored. */
  function LoadedDay(c: Config, key: DayKey, e: EffectiveEntitlement, o: Option<Override>): EffectiveDay {
    EffectiveDayOf(LoadConfig(c), key, e, LoadOverride(o))
  }

  /** A legacy refusal with a leg left open: read as offered until migrated, refused from then on. */
  predicate Flips(f: Option<StoredFulfillment>) {
    f.Some? && f.value.pickupAndDelivery == Given(false)
    && !(f.value.providerPickup.Given? && f.value.providerDelivery.Given?)
  }

  predicate FlipsSomeDay(c: Config) { exists k :: k in c.weekly && Flips(c.weekly[k].fulfillment) }

  /** For every weekday, entitlement and override, the service resolves the same day from both. */
  ghost predicate SameLoadedDays(a: Config, b: Config) {
    forall key, e, o :: LoadedDay(a, key, e, o) == LoadedDay(b, key, e, o)
  }

  const ConfigFilter := (d: ConfigDoc) => ConfigMatches(d)
  const OverrideFilter := (d: OverrideDoc) => OverrideMatches(d)

  datatype MigrationResult = MigrationResult(
    configsMatched: nat, configsUpdated: nat, overridesMatched: nat, overridesUpdated: nat, affectedIds: set<string>)

  class Migration {
    var configs: seq<ConfigDoc>
    var overrides: seq<OverrideDoc>

    /** The patch for one config, built weekday by weekday. */
    method BuildPatch(d: ConfigDoc) returns (patch: map<DayKey, Legs>)
      ensures forall k :: k in patch <==> k in d.config.weekly && HasLegacy(d.config.weekly[k].fulfillment)
      ensures forall k :: k in patch ==>
        d.config.weekly[k].fulfillment.Some? && patch[k] == SplitOf(d.config.weekly[k].fulfillment.value)
    {
      patch := map[];
      for n := 0 to |WEEKDAYS|
        invariant forall k :: k in patch <==>
          k in WEEKDAYS[..n] && k in d.config.weekly && HasLegacy(d.config.weekly[k].fulfillment)
        invariant forall k :: k in patch ==> patch[k] == SplitOf(d.config.weekly[k].fulfillment.value)
      {
        var key := WEEKDAYS[n];
        assert WEEKDAYS[..n + 1] == WEEKDAYS[..n] + [key];
        if key in d.config.weekly && HasLegacy(d.config.weekly[key].fulfillment) {
          patch := patch[key := SplitOf(d.config.weekly[key].fulfillment.value)];
        }
      }
      forall k: DayKey ensures k in WEEKDAYS[..|WEEKDAYS|] { WeekdaysComplete(k); }
    }

    method MigrateConfigs(apply: bool) returns (matched: nat, updated: nat, affected: set<string>)
      modifies this`configs
      ensures |configs| == |old(configs)|
      ensures forall i :: 0 <= i < |configs| ==> configs[i] == if apply then SplitConfigDoc(old(configs)[i]) else old(configs)[i]
      ensures matched == CountMatching(old(configs), ConfigFilter, |old(configs)|)
      ensures updated == if apply then matched else 0
      ensures affected == set d | d in old(configs) && ConfigMatches(d) :: d.id
      ensures forall i :: 0 <= i < |configs| ==>
        (SameLoadedDays(old(configs)[i].config, configs[i].config) <==> !(apply && FlipsSomeDay(old(configs)[i].config)))
    {
      hide SameLoadedDays, FlipsSomeDay, SplitConfigDoc, ApplyPatch, ConfigMatches;
      matched, updated, affected := 0, 0, {};
      var before := configs;
      forall d: ConfigDoc
        ensures SameLoadedDays(d.config, d.config)
        ensures SameLoadedDays(d.config, SplitConfigDoc(d).config) <==> !FlipsSomeDay(d.config)
      {
        SplitDocKeepsLoadedDaysExactly(d);
      }
      for i := 0 to |before|
        invariant |configs| == |before|
        invariant forall k :: i <= k < |before| ==> configs[k] == before[k]
        invariant forall k :: 0 <= k < i ==> configs[k] == if apply then SplitConfigDoc(before[k]) else before[k]
        // At every point of the run, the configs read differently are the flipping ones migrated so far.
        invariant forall k :: 0 <= k < |before| ==>
          (SameLoadedDays(before[k].config, configs[k].config) <==> !(apply && k < i && FlipsSomeDay(before[k].config)))
        invariant matched == CountMatching(before, ConfigFilter, i)
        invariant updated == if apply then matched else 0
        invariant affected == set d | d in before[..i] && ConfigMatches(d) :: d.id
      {
        var d := before[i];
        assert before[..i + 1] == before[..i] + [d];
        if ConfigMatches(d) {
          matched := matched + 1;
          affected := affected + {d.id};
          var patch := BuildPatch(d);
          if apply {
            PatchIsSplit(d, patch);
            configs := configs[i := ApplyPatch(d, patch)];
            updated := updated + 1;
          }
        } else {
          UnmatchedIsUnchanged(d);
        }
      }
      assert before[..|before|] == before;
    }

    method MigrateOverrides(apply: bool) returns (matched: nat, updated: nat, affected: set<string>)
      modifies this`overrides
      ensures |overrides| == |old(overrides)|
      ensures forall i :: 0 <= i < |overrides| ==>
        overrides[i] == if apply then SplitOverrideDoc(old(overrides)[i]) else old(overrides)[i]
      ensures matched == CountMatching(old(overrides), OverrideFilter, |old(overrides)|)
      ensures updated == if apply then matched else 0
      ensures affected == set d | d in old(overrides) && OverrideMatches(d) :: d.id
    {
      matched, updated, affected := 0, 0, {};
      var before := overrides;
      for i := 0 to |before|
        invariant |overrides| == |before|
        invariant forall k :: i <= k < |before| ==> overrides[k] == before[k]
        invariant forall k :: 0 <= k < i ==> overrides[k] == if apply then SplitOverrideDoc(before[k]) else before[k]
        invariant matched == CountMatching(before, OverrideFilter, i)
        invariant updated == if apply then matched else 0
        invariant affected == set d | d in before[..i] && OverrideMatches(d) :: d.id
      {
        var d := before[i];
        assert before[..i + 1] == before[..i] + [d];
        if OverrideMatches(d) {
          matched := matched + 1;
          affected := affected + {d.id};
          var legs := SplitOf(d.override.fulfillment.value);
          if apply {
            overrides := overrides[i := d.(override := d.override.(fulfillment := Patched(d.override.fulfillment, legs)))];
            updated := updated + 1;
          }
        }
      }
      assert before[..|before|] == before;
    }

    method Migrate(apply: bool) returns (r: MigrationResult)
      modifies this
      ensures |configs| == |old(configs)| && |overrides| == |old(overrides)|
      ensures forall i :: 0 <= i < |configs| ==> configs[i] == if apply then SplitConfigDoc(old(configs)[i]) else old(configs)[i]
      ensures forall i :: 0 <= i < |overrides| ==>
        overrides[i] == if apply then SplitOverrideDoc(old(overrides)[i]) else old(overrides)[i]
      ensures r.configsMatched == CountMatching(old(configs), ConfigFilter, |old(configs)|)
      ensures r.overridesMatched == CountMatching(old(overrides), OverrideFilter, |old(overrides)|)
      ensures r.configsUpdated == (if apply then r.configsMatched else 0)
      ensures r.overridesUpdated == (if apply then r.overridesMatched else 0)
      ensures r.affectedIds == (set d | d in old(configs) && ConfigMatches(d) :: d.id)
                               + (set d | d in old(overrides) && OverrideMatches(d) :: d.id)
    {
      var cm, cu, ca := MigrateConfigs(apply);
      var om, ou, oa := MigrateOverrides(apply);
      r := MigrationResult(cm, cu, om, ou, ca + oa);
    }
  }

  /** updateOne with the patch's $set and $unset. */
  function ApplyPatch(d: ConfigDoc, patch: map<DayKey, Legs>): ConfigDoc {
    d.(config := d.config.(weekly := map k | k in d.config.weekly ::
      if k in patch then d.config.weekly[k].(fulfillment := Patched(d.config.weekly[k].fulfillment, patch[k]))
      else d.config.weekly[k]))
  }

  lemma PatchIsSplit(d: ConfigDoc, patch: map<DayKey, Legs>)
    requires forall k :: k in patch <==> k in d.config.weekly && HasLegacy(d.config.weekly[k].fulfillment)
    requires forall k :: k in patch ==>
      d.config.weekly[k].fulfillment.Some? && patch[k] == SplitOf(d.config.weekly[k].fulfillment.value)
    ensures ApplyPatch(d, patch) == SplitConfigDoc(d)
  {
    assert ApplyPatch(d, patch).config.weekly == SplitConfig(d.config).weekly;
  }

  lemma SplitDocKeepsLoadedDaysExactly(d: ConfigDoc)
    ensures SameLoadedDays(d.config, d.config)
    ensures SameLoadedDays(d.config, SplitConfigDoc(d).config) <==> !FlipsSomeDay(d.config)
  {
    hide LoadedDay, FlipsSomeDay;
    SplitKeepsLoadedDaysExactly(d.config);
  }

  lemma WeekdaysComplete(k: DayKey)
    ensures k in WEEKDAYS
  {
    var i := match k case Monday => 0 case Tuesday => 1 case Wednesday => 2 case Thursday => 3
             case Friday => 4 case Saturday => 5 case Sunday => 6;
    assert WEEKDAYS[i] == k;
  }

  // ----- Meaning -----

  /** Of a raw document the shim reads the same before and after. */
  lemma SplitKeepsMeaning(f: Option<StoredFulfillment>)
    ensures DayFulfillmentOf(Split(f)) == DayFulfillmentOf(f)
    ensures Split(f).Some? <==> f.Some?
    ensures !HasLegacy(Split(f))
    ensures Split(Split(f)) == Split(f)
  {
  }

  lemma SplitKeepsDay(c: Config, key: DayKey, e: EffectiveEntitlement, o: Option<Override>)
    ensures EffectiveDayOf(SplitConfig(c), key, e, o) == EffectiveDayOf(c, key, e, o)
  {
    hide DayFulfillmentOf, Split;
    SplitKeepsMeaning(DayOf(c, key).fulfillment);
    assert DayOf(SplitConfig(c), key) == DayOf(c, key).(fulfillment := Split(DayOf(c, key).fulfillment)) by {
      if key !in c.weekly { SplitOfNone(); }
    }
  }

  lemma SplitOfNone()
    ensures Split(None) == None
  {
  }

  /**
    Part-way through the run a config and an override may each be migrated or not. Whichever are, a day
    resolved from the raw documents, which is what the shim was written for, is the one it was before.
   */
  lemma AnyMixOfRawDocuments(
    c: Config, c': Config, key: DayKey, e: EffectiveEntitlement, o: Option<Override>, o': Option<Override>)
    requires c' == c || c' == SplitConfig(c)
    requires o' == o || (o.Some? && o' == Some(SplitOverride(o.value)))
    ensures EffectiveDayOf(c', key, e, o') == EffectiveDayOf(c, key, e, o)
  {
    hide DayFulfillmentOf, Split;
    SplitKeepsDay(c, key, e, o');
    if o.Some? { SplitKeepsMeaning(o.value.fulfillment); }
  }

  // ----- Meaning of loaded documents -----

  /** Loaded, a document never shows the retired field: the shim has nothing to fall back on. */
  lemma ShimNeverFires(s: StoredFulfillment, legacy: Leg)
    ensures DayFulfillmentOf(Load(Some(s.(pickupAndDelivery := legacy)))) == DayFulfillmentOf(Load(Some(s)))
  {
  }

  /** Only once migrated does the service read what the raw document said all along. */
  lemma MigratedReadsAsStored(f: Option<StoredFulfillment>)
    requires HasLegacy(f)
    ensures DayFulfillmentOf(Load(Split(f))) == DayFulfillmentOf(f)
  {
  }

  /** The legs a customer sees change exactly for a flipping day, and then by being withdrawn. */
  lemma LoadedLegsKeptExactly(f: Option<StoredFulfillment>)
    ensures DayFulfillmentOf(Load(Split(f))) == DayFulfillmentOf(Load(f)) <==> !Flips(f)
    ensures var before, after := DayFulfillmentOf(Load(f)), DayFulfillmentOf(Load(Split(f)));
      && (after.providerPickup ==> before.providerPickup)
      && (after.providerDelivery ==> before.providerDelivery)
      && after.customerDropoff == before.customerDropoff && after.customerPickup == before.customerPickup
  {
  }

  /** The one stored block that decides a date's legs: the override's if it has one, else the weekday's. */
  function Deciding(c: Config, key: DayKey, o: Option<Override>): Option<StoredFulfillment> {
    OrElse(if o.Some? then o.value.fulfillment else None, DayOf(c, key).fulfillment)
  }

  lemma LoadedDayLegs(c: Config, key: DayKey, e: EffectiveEntitlement, o: Option<Override>)
    ensures LoadedDay(c, key, e, o).fulfillment == DayFulfillmentOf(Load(Deciding(c, key, o)))
  {
    hide DayFulfillmentOf, CapBy, LoadFulfillment;
  }

  /** Configs whose days differ in the stored legs only, and overrides likewise. */
  ghost predicate DifferInLegs(c: Config, c': Config, key: DayKey, o: Option<Override>, o': Option<Override>) {
    && c'.dailyBookingLimit == c.dailyBookingLimit
    && DayOf(c', key) == DayOf(c, key).(fulfillment := DayOf(c', key).fulfillment)
    && (o.Some? <==> o'.Some?)
    && (o.Some? ==> o'.value == o.value.(fulfillment := o'.value.fulfillment))
  }

  lemma DifferInLegsSameRest(
    c: Config, c': Config, key: DayKey, e: EffectiveEntitlement, o: Option<Override>, o': Option<Override>)
    requires DifferInLegs(c, c', key, o, o')
    ensures EffectiveDayOf(c', key, e, o').(fulfillment := EffectiveDayOf(c, key, e, o).fulfillment)
            == EffectiveDayOf(c, key, e, o)
  {
    hide DayFulfillmentOf, CapBy, DayOf;
  }

  lemma LoadDiffersInLegs(c: Config, key: DayKey, o: Option<Override>)
    ensures DifferInLegs(c, LoadConfig(c), key, o, LoadOverride(o))
  {
    hide LoadFulfillment;
  }

  lemma MixDiffersInLegs(c: Config, c': Config, key: DayKey, o: Option<Override>, o': Option<Override>)
    requires c' == c || c' == SplitConfig(c)
    requires o' == o || (o.Some? && o' == Some(SplitOverride(o.value)))
    ensures DifferInLegs(c, c', key, o, o')
    ensures Deciding(c', key, o') == Deciding(c, key, o) || Deciding(c', key, o') == Split(Deciding(c, key, o))
  {
    hide SplitOf, Patched, HasLegacy;
    if o.Some? { SplitKeepsMeaning(o.value.fulfillment); }
    assert DayOf(SplitConfig(c), key) == DayOf(c, key).(fulfillment := Split(DayOf(c, key).fulfillment)) by {
      if key !in c.weekly { SplitOfNone(); }
    }
  }

  /** Nothing but the legs can differ between two migration states of a config and an override. */
  lemma OnlyLegsDiffer(
    c: Config, c': Config, key: DayKey, e: EffectiveEntitlement, o: Option<Override>, o': Option<Override>)
    requires DifferInLegs(c, c', key, o, o')
    ensures LoadedDay(c', key, e, o').(fulfillment := LoadedDay(c, key, e, o).fulfillment) == LoadedDay(c, key, e, o)
  {
    hide EffectiveDayOf, LoadConfig, LoadOverride, DayOf;
    LoadDiffersInLegs(c, key, o);
    LoadDiffersInLegs(c', key, o');
    DifferInLegsSameRest(LoadConfig(c), LoadConfig(c'), key, e, LoadOverride(o), LoadOverride(o'));
  }

  /**
    At any point of the run, whichever documents are migrated, a date resolves as before exactly when the
    block that decides its legs is not yet migrated or does not flip.
   */
  lemma AnyMixMeansTheSameExactly(
    c: Config, c': Config, key: DayKey, e: EffectiveEntitlement, o: Option<Override>, o': Option<Override>)
    requires c' == c || c' == SplitConfig(c)
    requires o' == o || (o.Some? && o' == Some(SplitOverride(o.value)))
    ensures LoadedDay(c', key, e, o') == LoadedDay(c, key, e, o)
            <==> Deciding(c', key, o') == Deciding(c, key, o) || !Flips(Deciding(c, key, o))
  {
    hide LoadedDay, Deciding, DifferInLegs, DayFulfillmentOf, Load, Split, Flips, SplitConfig, SplitOverride;
    MixDiffersInLegs(c, c', key, o, o');
    OnlyLegsDiffer(c, c', key, e, o, o');
    LoadedDayLegs(c, key, e, o);
    LoadedDayLegs(c', key, e, o');
    LoadedLegsKeptExactly(Deciding(c, key, o));
  }

  /** A migrated config means the same to the service exactly when none of its days flips. */
  lemma SplitKeepsLoadedDaysExactly(c: Config)
    ensures SameLoadedDays(c, SplitConfig(c)) <==> !FlipsSomeDay(c)
  {
    hide LoadedDay, Split, Flips;
    forall key, e, o ensures !FlipsSomeDay(c) ==> LoadedDay(c, key, e, o) == LoadedDay(SplitConfig(c), key, e, o) {
      AnyMixMeansTheSameExactly(c, SplitConfig(c), key, e, o, o);
      if Deciding(SplitConfig(c), key, o) != Deciding(c, key, o) { assert key in c.weekly; }
    }
    if k :| k in c.weekly && Flips(c.weekly[k].fulfillment) {
      AnyMixMeansTheSameExactly(c, SplitConfig(c), k, AnyEntitlement(), None, None);
      FlippingIsSplit(c.weekly[k].fulfillment);
    }
  }

  lemma FlippingIsSplit(f: Option<StoredFulfillment>)
    requires Flips(f)
    ensures Split(f) != f
  {
  }

  function AnyEntitlement(): EffectiveEntitlement {
    EffectiveEntitlement(None, 0, 0, true, "17:00", true, None, [], false, [])
  }

  /** A provider who had refused both legs is offered with both until the migration turns them off. */
  lemma LegacyRefusalIsOfferedUntilMigrated() returns (f: StoredFulfillment)
    ensures f.pickupAndDelivery == Given(false) && f.customerDropoff == Given(true)
    ensures DayFulfillmentOf(Some(f)) == DayFulfillment(false, false, true, true)
    ensures DayFulfillmentOf(Load(Some(f))) == DayFulfillment(true, true, true, true)
    ensures DayFulfillmentOf(Load(Split(Some(f)))) == DayFulfillment(false, false, true, true)
  {
    f := StoredFulfillment(Given(false), Absent, Absent, Given(true), Absent);
  }

  lemma UnmatchedIsUnchanged(d: ConfigDoc)
    requires !ConfigMatches(d)
    ensures SplitConfigDoc(d) == d
  {
    assert forall k :: k in d.config.weekly ==> Split(d.config.weekly[k].fulfillment) == d.config.weekly[k].fulfillment;
    assert SplitConfig(d.config).weekly == d.config.weekly;
  }

  /** No document keeps the legacy field, so a second run matches nothing and changes nothing. */
  lemma SecondRunFindsNothing(d: ConfigDoc, o: OverrideDoc)
    ensures !ConfigMatches(SplitConfigDoc(d)) && !OverrideMatches(SplitOverrideDoc(o))
    ensures SplitConfigDoc(SplitConfigDoc(d)) == SplitConfigDoc(d)
    ensures SplitOverrideDoc(SplitOverrideDoc(o)) == SplitOverrideDoc(o)
  {
    forall k | k in d.config.weekly ensures !HasLegacy(SplitConfig(d.config).weekly[k].fulfillment) {
      SplitKeepsMeaning(d.config.weekly[k].fulfillment);
    }
    assert !ConfigMatches(SplitConfigDoc(d));
    UnmatchedIsUnchanged(SplitConfigDoc(d));
    SplitKeepsMeaning(o.override.fulfillment);
  }

  /** A document is changed exactly when it matched: nothing is rewritten for nothing. */
  lemma ChangedExactlyWhenMatched(d: ConfigDoc)
    ensures SplitConfigDoc(d) != d <==> ConfigMatches(d)
  {
    if ConfigMatches(d) {
      var k :| k in d.config.weekly && HasLegacy(d.config.weekly[k].fulfillment);
      assert SplitConfig(d.config).weekly[k].fulfillment != d.config.weekly[k].fulfillment;
    } else {
      UnmatchedIsUnchanged(d);
    }
  }
}
