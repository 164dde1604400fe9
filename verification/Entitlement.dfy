/**
  The effective entitlement (src/booking-policy/entitlement.util.ts): policy defaults, then the
  milestone earned, then live campaigns, then the safety ceiling.

  A null number is kept as None. Where the source compares or adds a null it reads as 0 (Num).
 */
module Entitlement {
  import opened Wrappers
  import opened Windows
  import opened PhTime
  import Sorting

  datatype ProviderType = Merchant | Washer

  datatype ProviderStats = ProviderStats(
    completedOrders: int, rating: Option<real>, cancellationRatePercent: Option<real>,
    isVerified: bool, inGoodStanding: bool)

  const NEW_PROVIDER_STATS := ProviderStats(0, None, None, false, true)

  datatype Eligibility = Eligibility(
    minCompletedOrders: Option<int>, minRating: Option<real>, maxCancellationRatePercent: Option<real>,
    requireVerified: bool, requireGoodStanding: bool)

  datatype Milestone = Milestone(
    key: string, name: string, rank: int, isDefault: bool, isActive: bool,
    eligibility: Eligibility, dailyCapacity: int, advanceBookingDays: int)

  datatype Modifier = Replace(value: real) | Multiply(value: real) | IncreaseBy(value: real)

  datatype Targeting = Everyone | OfProviderType(providerType: ProviderType) | OfMilestones(keys: seq<string>)

  datatype Campaign = Campaign(
    id: string, name: string, startDate: int, endDate: int, isEnabled: bool, targeting: Targeting,
    dailyCapacity: Option<Modifier>, advanceBookingDays: Option<Modifier>)

  datatype PolicyDefaults = PolicyDefaults(
    dailyCapacity: Option<int>, advanceBookingDays: Option<int>, leadTimeMinutes: Option<int>,
    sameDayBookingEnabled: bool, sameDayCutoffTime: string)

  datatype SafetyLimits = SafetyLimits(
    dailyCapacity: Option<int>, advanceBookingDays: Option<int>, maxLegFeeCentavos: Option<int>,
    maxServiceRadiusKm: Option<real>)

  datatype UniversalDay = UniversalDay(isOpen: bool, windows: seq<Window>)

  datatype PolicyContent = PolicyContent(
    enabled: bool, defaults: PolicyDefaults, universalDays: map<DayKey, UniversalDay>, safetyLimits: SafetyLimits)

  const SEED_DEFAULTS := PolicyDefaults(Some(3), Some(14), Some(120), true, "17:00")
  const SEED_SAFETY := SafetyLimits(Some(100), Some(60), Some(20_000), Some(15.0))

  datatype Stage = PlatformDefault | MilestoneStep(name: string) | CampaignStep(name: string) | SafetyLimit

  datatype Step = Step(stage: Stage, dailyCapacity: Option<int>, advanceBookingDays: Option<int>)

  datatype EffectiveEntitlement = EffectiveEntitlement(
    dailyCapacity: Option<int>, advanceBookingDays: int, leadTimeMinutes: int,
    sameDayBookingEnabled: bool, sameDayCutoffTime: string, bookingsEnabled: bool,
    milestoneKey: Option<string>, appliedCampaignIds: seq<string>, cappedBySafetyLimit: bool, steps: seq<Step>)

  function Num(o: Option<int>): int { o.GetOr(0) }

  // ----- Milestones -----

  predicate Satisfies(m: Milestone, stats: ProviderStats) {
    var e := m.eligibility;
    && (e.minCompletedOrders.Some? ==> stats.completedOrders >= e.minCompletedOrders.value)
    && (e.minRating.Some? ==> stats.rating.Some? && stats.rating.value >= e.minRating.value)
    && (e.maxCancellationRatePercent.Some? && stats.cancellationRatePercent.Some? ==>
          stats.cancellationRatePercent.value <= e.maxCancellationRatePercent.value)
    && (e.requireVerified ==> stats.isVerified)
    && (e.requireGoodStanding ==> stats.inGoodStanding)
  }

  predicate Earns(m: Milestone, stats: ProviderStats) {
    m.isActive && !m.isDefault && Satisfies(m, stats)
  }

  function First<T>(s: seq<T>): Option<T> { if s == [] then None else Some(s[0]) }

  const ByRank := (m: Milestone) => m.rank
  const ByRankDescending := (m: Milestone) => -m.rank

  function ActiveOf(milestones: seq<Milestone>): seq<Milestone> {
    Sorting.Filter(milestones, (m: Milestone) => m.isActive)
  }

  function EarnedOf(milestones: seq<Milestone>, stats: ProviderStats): seq<Milestone> {
    Sorting.Filter(ActiveOf(milestones), (m: Milestone) => !m.isDefault && Satisfies(m, stats))
  }

  function DefaultsOf(milestones: seq<Milestone>): seq<Milestone> {
    Sorting.Filter(ActiveOf(milestones), (m: Milestone) => m.isDefault)
  }

  function ResolveMilestone(milestones: seq<Milestone>, stats: ProviderStats): Option<Milestone> {
    var earned := EarnedOf(milestones, stats);
    var defaults := DefaultsOf(milestones);
    if earned != [] then First(Sorting.Sort(earned, ByRankDescending))
    else if defaults != [] then Some(defaults[0])
    else First(Sorting.Sort(ActiveOf(milestones), ByRank))
  }

  function NextMilestone(milestones: seq<Milestone>, current: Option<Milestone>): Option<Milestone> {
    var currentRank := if current.Some? then current.value.rank else -1;
    First(Sorting.Sort(
      Sorting.Filter(milestones, (m: Milestone) => m.isActive && !m.isDefault && m.rank > currentRank),
      ByRank))
  }

  /** The first element of a sorted list is a least one of the list sorted. */
  lemma FirstOfSort<T>(s: seq<T>, key: T -> int)
    ensures s == [] <==> Sorting.Sort(s, key) == []
    ensures s != [] ==> var r := Sorting.Sort(s, key)[0]; r in s && forall x :: x in s ==> key(r) <= key(x)
  {
    if s != [] {
      Sorting.SortMembers(s, key);
      Sorting.SortSorted(s, key);
      var r := Sorting.Sort(s, key);
      forall x | x in s ensures key(r[0]) <= key(x) {
        assert x in r;
        var i :| 0 <= i < |r| && r[i] == x;
        if i > 0 { assert key(r[0]) <= key(r[i]); }
      }
    }
  }

  /** Highest earned rank wins; with nothing earned the default, else the lowest active rank, is the floor. */
  ghost predicate IsResolution(r: Option<Milestone>, milestones: seq<Milestone>, stats: ProviderStats) {
    if exists m :: m in milestones && Earns(m, stats) then
      && r.Some? && r.value in milestones && Earns(r.value, stats)
      && forall m :: m in milestones && Earns(m, stats) ==> m.rank <= r.value.rank
    else if exists m :: m in milestones && m.isActive then
      && r.Some? && r.value in milestones && r.value.isActive
      && (r.value.isDefault
          || forall m :: m in milestones && m.isActive ==> !m.isDefault && r.value.rank <= m.rank)
    else r.None?
  }

  lemma ResolveMilestoneExact(milestones: seq<Milestone>, stats: ProviderStats)
    ensures IsResolution(ResolveMilestone(milestones, stats), milestones, stats)
  {
    var active, earned, defaults := ActiveOf(milestones), EarnedOf(milestones, stats), DefaultsOf(milestones);
    assert forall m :: m in earned <==> m in milestones && Earns(m, stats);
    assert forall m :: m in active <==> m in milestones && m.isActive;
    if earned != [] {
      FirstOfSort(earned, ByRankDescending);
      var r := Sorting.Sort(earned, ByRankDescending)[0];
      assert r in earned;
      forall m | m in milestones && Earns(m, stats) ensures m.rank <= r.rank {
        assert m in earned && ByRankDescending(r) <= ByRankDescending(m);
      }
    } else {
      assert forall m :: m in milestones ==> m !in earned;
      if defaults != [] {
        assert defaults[0] in defaults;
      } else if active != [] {
        FirstOfSort(active, ByRank);
        var r := Sorting.Sort(active, ByRank)[0];
        assert r in active;
        forall m | m in milestones && m.isActive ensures !m.isDefault && r.rank <= m.rank {
          assert m in active && m !in defaults && ByRank(r) <= ByRank(m);
        }
      }
    }
  }

  /** A missing rating is the worst rating; an unmeasured cancellation rate is the best one. */
  predicate AtLeastAsGood(better: ProviderStats, worse: ProviderStats) {
    && better.completedOrders >= worse.completedOrders
    && (worse.rating.Some? ==> better.rating.Some? && better.rating.value >= worse.rating.value)
    && (better.cancellationRatePercent.Some? ==>
          worse.cancellationRatePercent.Some?
          && better.cancellationRatePercent.value <= worse.cancellationRatePercent.value)
    && (worse.isVerified ==> better.isVerified)
    && (worse.inGoodStanding ==> better.inGoodStanding)
  }

  /**
    The ranks that decide a demotion: with the worse statistics nothing is earned, so the first active
    default is the floor; with the better ones something is, and every tier earned ranks below it.
   */
  ghost predicate Demotes(milestones: seq<Milestone>, worse: ProviderStats, better: ProviderStats) {
    && (forall m :: m in milestones ==> !Earns(m, worse))
    && (exists m :: m in milestones && Earns(m, better))
    && DefaultsOf(milestones) != []
    && forall m :: m in milestones && Earns(m, better) ==> m.rank < DefaultsOf(milestones)[0].rank
  }

  lemma NothingEarned(milestones: seq<Milestone>, stats: ProviderStats)
    requires forall m :: m in milestones ==> !Earns(m, stats)
    ensures EarnedOf(milestones, stats) == []
  {
    FirstIsMember(EarnedOf(milestones, stats));
  }

  lemma FirstIsMember<T>(s: seq<T>)
    ensures s != [] ==> s[0] in s
  {
  }

  /** With nothing earned, the first active default is resolved, and no other one plays a part. */
  lemma NothingEarnedResolvesDefault(milestones: seq<Milestone>, stats: ProviderStats)
    requires forall m :: m in milestones ==> !Earns(m, stats)
    requires DefaultsOf(milestones) != []
    ensures ResolveMilestone(milestones, stats) == Some(DefaultsOf(milestones)[0])
  {
    NothingEarned(milestones, stats);
  }

  /** Doing better lowers the resolved rank exactly when Demotes says, and never loses a milestone altogether. */
  lemma DemotionExactly(milestones: seq<Milestone>, worse: ProviderStats, better: ProviderStats)
    requires AtLeastAsGood(better, worse)
    ensures var before, after := ResolveMilestone(milestones, worse), ResolveMilestone(milestones, better);
      && (before.Some? <==> after.Some?)
      && (before.Some? && after.value.rank < before.value.rank <==> Demotes(milestones, worse, better))
  {
    hide ResolveMilestone, DefaultsOf;
    ResolveMilestoneExact(milestones, worse);
    ResolveMilestoneExact(milestones, better);
    BetterEarnsMore(milestones, worse, better);
    if exists m :: m in milestones && Earns(m, worse) {
    } else if exists m :: m in milestones && Earns(m, better) {
      if DefaultsOf(milestones) != [] {
        NothingEarnedResolvesDefault(milestones, worse);
      } else {
        NoDefaults(milestones);
      }
    } else {
      SameFloor(milestones, worse, better);
    }
  }

  lemma BetterEarnsMore(milestones: seq<Milestone>, worse: ProviderStats, better: ProviderStats)
    requires AtLeastAsGood(better, worse)
    ensures forall m :: m in milestones && Earns(m, worse) ==> Earns(m, better)
  {
  }

  lemma NoDefaults(milestones: seq<Milestone>)
    requires DefaultsOf(milestones) == []
    ensures forall m :: m in milestones && m.isActive ==> !m.isDefault
  {
    forall m | m in milestones && m.isActive ensures !m.isDefault {
      assert m in ActiveOf(milestones);
      assert m.isDefault ==> m in DefaultsOf(milestones);
    }
  }

  lemma SameFloor(milestones: seq<Milestone>, a: ProviderStats, b: ProviderStats)
    requires forall m :: m in milestones ==> !Earns(m, a) && !Earns(m, b)
    ensures ResolveMilestone(milestones, a) == ResolveMilestone(milestones, b)
  {
    NothingEarned(milestones, a);
    NothingEarned(milestones, b);
  }

  /** Doing better never demotes where no tier a provider can earn ranks below the default in use. */
  lemma BetterStatsNeverLowerRank(milestones: seq<Milestone>, worse: ProviderStats, better: ProviderStats)
    requires AtLeastAsGood(better, worse)
    requires DefaultsOf(milestones) != [] ==>
      forall m :: m in milestones && m.isActive && !m.isDefault ==> DefaultsOf(milestones)[0].rank <= m.rank
    ensures ResolveMilestone(milestones, worse).Some? <==> ResolveMilestone(milestones, better).Some?
    ensures ResolveMilestone(milestones, worse).Some? ==>
      ResolveMilestone(milestones, worse).value.rank <= ResolveMilestone(milestones, better).value.rank
  {
    hide ResolveMilestone, DefaultsOf, Satisfies;
    DemotionExactly(milestones, worse, better);
  }

  /** It happens: earning a tier ranked below the default demotes. */
  lemma DefaultAboveATierDemotes() returns (milestones: seq<Milestone>, worse: ProviderStats, better: ProviderStats)
    ensures AtLeastAsGood(better, worse)
    ensures ResolveMilestone(milestones, worse).Some? && ResolveMilestone(milestones, better).Some?
    ensures ResolveMilestone(milestones, worse).value.rank > ResolveMilestone(milestones, better).value.rank
  {
    hide ResolveMilestone;
    var open := Eligibility(None, None, None, false, false);
    var floor := Milestone("floor", "Floor", 5, true, true, open, 3, 14);
    var tier := Milestone("tier", "Tier", 1, false, true, open.(minCompletedOrders := Some(10)), 8, 14);
    milestones := [floor, tier];
    worse := NEW_PROVIDER_STATS;
    better := NEW_PROVIDER_STATS.(completedOrders := 10);
    assert forall m :: m in milestones <==> m == floor || m == tier;
    assert Earns(tier, better) && !Earns(tier, worse) && !Earns(floor, better) && !Earns(floor, worse);
    ResolveMilestoneExact(milestones, worse);
    ResolveMilestoneExact(milestones, better);
  }

  /** Meeting the tier the progress panel points at lifts a provider to at least that tier. */
  lemma NextMilestoneIsNext(milestones: seq<Milestone>, current: Option<Milestone>, later: ProviderStats)
    ensures var next := NextMilestone(milestones, current);
      var rank := if current.Some? then current.value.rank else -1;
      && (next.None? <==> forall m :: m in milestones && m.isActive && !m.isDefault ==> m.rank <= rank)
      && (next.Some? ==>
            && next.value.rank > rank
            && (forall m :: m in milestones && m.isActive && !m.isDefault && m.rank > rank ==>
                  next.value.rank <= m.rank)
            && (Satisfies(next.value, later) ==>
                  ResolveMilestone(milestones, later).Some?
                  && ResolveMilestone(milestones, later).value.rank >= next.value.rank))
  {
    var rank := if current.Some? then current.value.rank else -1;
    var above := Sorting.Filter(milestones, (m: Milestone) => m.isActive && !m.isDefault && m.rank > rank);
    FirstOfSort(above, ByRank);
    ResolveMilestoneExact(milestones, later);
    if above != [] {
      assert above[0] in above;
      var next := NextMilestone(milestones, current).value;
      assert next in milestones;
      if Satisfies(next, later) { assert Earns(next, later); }
    }
  }

  // ----- The pipeline -----

  predicate IsCampaignLive(c: Campaign, date: int) { c.isEnabled && c.startDate <= date <= c.endDate }

  predicate CampaignApplies(c: Campaign, providerType: ProviderType, milestoneKey: Option<string>) {
    match c.targeting
    case Everyone => true
    case OfProviderType(t) => t == providerType
    case OfMilestones(keys) => milestoneKey.Some? && milestoneKey.value in keys
  }

  function ApplyModifier(base: Option<int>, modifier: Option<Modifier>): Option<int> {
    match modifier
    case None => base
    case Some(Replace(v)) => Some(v.Floor)
    case Some(Multiply(v)) => Some((Num(base) as real * v).Floor)
    case Some(IncreaseBy(v)) => Some(Num(base) + v.Floor)
  }

  datatype Tally = Tally(daily: Option<int>, advance: Option<int>, steps: seq<Step>)

  function ApplyCampaign(t: Tally, c: Campaign): Tally {
    var daily := if t.daily.Some? then ApplyModifier(t.daily, c.dailyCapacity) else t.daily;
    var advance := ApplyModifier(t.advance, c.advanceBookingDays);
    Tally(daily, advance, t.steps + [Step(CampaignStep(c.name), daily, advance)])
  }

  function ApplyCampaigns(t: Tally, live: seq<Campaign>): Tally {
    if live == [] then t else ApplyCampaign(ApplyCampaigns(t, live[..|live| - 1]), live[|live| - 1])
  }

  /** The default step and, for a washer with one, the milestone step that replaces its numbers. */
  function Opening(defaults: PolicyDefaults, milestone: Option<Milestone>, capacityApplies: bool): Tally {
    var daily := if capacityApplies then defaults.dailyCapacity else None;
    var t := Tally(daily, defaults.advanceBookingDays,
                   [Step(PlatformDefault, daily, defaults.advanceBookingDays)]);
    match milestone
    case None => t
    case Some(m) =>
      Tally(Some(m.dailyCapacity), Some(m.advanceBookingDays),
            t.steps + [Step(MilestoneStep(m.name), Some(m.dailyCapacity), Some(m.advanceBookingDays))])
  }

  datatype Request = Request(
    policy: Option<PolicyContent>, milestones: seq<Milestone>, campaigns: seq<Campaign>,
    stats: ProviderStats, providerType: ProviderType, date: int)
  {
    function Defaults(): PolicyDefaults { if policy.Some? then policy.value.defaults else SEED_DEFAULTS }

    function Safety(): SafetyLimits { if policy.Some? then policy.value.safetyLimits else SEED_SAFETY }

    function Earned(): Option<Milestone> {
      if providerType == Washer then ResolveMilestone(milestones, stats) else None
    }

    function EarnedKey(): Option<string> { if Earned().Some? then Some(Earned().value.key) else None }

    function Live(): seq<Campaign> {
      Sorting.Filter(
        Sorting.Filter(campaigns, (c: Campaign) => IsCampaignLive(c, date)),
        (c: Campaign) => CampaignApplies(c, providerType, EarnedKey()))
    }

    /** The numbers before the safety ceiling. */
    function Uncapped(): Tally {
      ApplyCampaigns(Opening(Defaults(), Earned(), providerType == Washer), Live())
    }
  }

  function ResolveEntitlement(q: Request): EffectiveEntitlement {
    var t := q.Uncapped();
    var daily := if t.daily.Some? then Some(Min(t.daily.value, Num(q.Safety().dailyCapacity))) else None;
    var advance := Min(Num(t.advance), Num(q.Safety().advanceBookingDays));
    var capped := t.daily != daily || t.advance != Some(advance);
    EffectiveEntitlement(
      daily, advance, Num(q.Defaults().leadTimeMinutes), q.Defaults().sameDayBookingEnabled,
      q.Defaults().sameDayCutoffTime, if q.policy.Some? then q.policy.value.enabled else true,
      q.EarnedKey(), CampaignIds(q.Live()), capped,
      t.steps + if capped then [Step(SafetyLimit, daily, Some(advance))] else [])
  }

  function CampaignIds(live: seq<Campaign>): seq<string> {
    seq(|live|, i requires 0 <= i < |live| => live[i].id)
  }

  /** The calculation as the source runs it: one loop carrying the two numbers and the trace. */
  method ComputeEntitlement(q: Request) returns (r: EffectiveEntitlement)
    ensures r == ResolveEntitlement(q)
  {
    var opening := Opening(q.Defaults(), q.Earned(), q.providerType == Washer);
    var daily, advance, steps := opening.daily, opening.advance, opening.steps;
    var live := q.Live();
    for k := 0 to |live|
      invariant Tally(daily, advance, steps) == ApplyCampaigns(opening, live[..k])
    {
      assert live[..k + 1][..k] == live[..k];
      if daily.Some? {
        daily := ApplyModifier(daily, live[k].dailyCapacity);
      }
      advance := ApplyModifier(advance, live[k].advanceBookingDays);
      steps := steps + [Step(CampaignStep(live[k].name), daily, advance)];
    }
    assert live[..|live|] == live;
    var beforeDaily, beforeAdvance := daily, advance;
    if daily.Some? {
      daily := Some(Min(daily.value, Num(q.Safety().dailyCapacity)));
    }
    advance := Some(Min(Num(advance), Num(q.Safety().advanceBookingDays)));
    var capped := beforeDaily != daily || beforeAdvance != advance;
    if capped {
      steps := steps + [Step(SafetyLimit, daily, advance)];
    }
    r := EffectiveEntitlement(
      daily, advance.value, Num(q.Defaults().leadTimeMinutes), q.Defaults().sameDayBookingEnabled,
      q.Defaults().sameDayCutoffTime, if q.policy.Some? then q.policy.value.enabled else true,
      q.EarnedKey(), CampaignIds(live), capped, steps);
  }

  /** Campaigns neither grant a capacity to the uncapped nor remove one, and the trace never falls behind. */
  lemma {:induction false} CampaignsKeep(t: Tally, live: seq<Campaign>)
    requires t.steps != []
    requires t.steps[|t.steps| - 1].dailyCapacity == t.daily
    requires t.steps[|t.steps| - 1].advanceBookingDays == t.advance
    ensures var r := ApplyCampaigns(t, live);
      && (r.daily.None? <==> t.daily.None?)
      && |r.steps| == |t.steps| + |live|
      && r.steps[|r.steps| - 1].dailyCapacity == r.daily
      && r.steps[|r.steps| - 1].advanceBookingDays == r.advance
  {
    if live != [] {
      CampaignsKeep(t, live[..|live| - 1]);
    }
  }

  /** Nothing a milestone or campaign does escapes the ceiling, and the last traced step is the answer. */
  lemma EntitlementBoundedAndTraced(q: Request)
    ensures var r := ResolveEntitlement(q);
      && r.advanceBookingDays <= Num(q.Safety().advanceBookingDays)
      && (r.dailyCapacity.Some? ==> r.dailyCapacity.value <= Num(q.Safety().dailyCapacity))
      && r.steps != []
      && r.steps[|r.steps| - 1].dailyCapacity == r.dailyCapacity
      && r.steps[|r.steps| - 1].advanceBookingDays == Some(r.advanceBookingDays)
  {
    CampaignsKeep(Opening(q.Defaults(), q.Earned(), q.providerType == Washer), q.Live());
  }

  /**
    A null capacity means "no platform cap" and is meant for laundromats only. A washer also gets it
    exactly when the published default is an explicit null and she resolves no milestone.
   */
  lemma CapacityIsNullExactly(q: Request)
    ensures ResolveEntitlement(q).dailyCapacity.None?
            <==> q.providerType != Washer || (q.Defaults().dailyCapacity.None? && q.Earned().None?)
  {
    CampaignsKeep(Opening(q.Defaults(), q.Earned(), q.providerType == Washer), q.Live());
  }

  /** The numeric half of assertPolicyCoherent. */
  predicate CeilingsRespected(d: PolicyDefaults, s: SafetyLimits) {
    && Num(d.dailyCapacity) <= Num(s.dailyCapacity)
    && Num(d.advanceBookingDays) <= Num(s.advanceBookingDays)
  }

  /** With no milestone and no campaign in force a coherent policy is capped only by a null advance window. */
  lemma CoherentPolicyAloneIsNotCapped(q: Request)
    requires CeilingsRespected(q.Defaults(), q.Safety())
    requires q.Earned().None? && q.Live() == []
    ensures ResolveEntitlement(q).cappedBySafetyLimit <==> q.Defaults().advanceBookingDays.None?
    ensures ResolveEntitlement(q).advanceBookingDays == Num(q.Defaults().advanceBookingDays)
    ensures q.providerType == Washer ==> ResolveEntitlement(q).dailyCapacity == q.Defaults().dailyCapacity
  {
    assert q.Uncapped() == Opening(q.Defaults(), None, q.providerType == Washer);
  }

  // ----- The simulator -----

  function FindKey(milestones: seq<Milestone>, key: string): Option<Milestone> {
    if milestones == [] then None
    else if milestones[0].key == key then Some(milestones[0])
    else FindKey(milestones[1..], key)
  }

  /** No key, or an empty one, asks about a new provider; so does a key no milestone has. */
  function SimulatedTarget(milestones: seq<Milestone>, key: Option<string>): Option<Milestone> {
    if key.None? || key.value == "" then None else FindKey(milestones, key.value)
  }

  /** The synthetic provider standing exactly on a chosen milestone. */
  function SimulatedStats(target: Option<Milestone>): ProviderStats {
    match target
    case None => NEW_PROVIDER_STATS
    case Some(m) =>
      ProviderStats(Num(m.eligibility.minCompletedOrders), Some(m.eligibility.minRating.GetOr(5.0)), Some(0.0), true, true)
  }

  /** Whatever the milestone, its synthetic provider meets it unless its cancellation limit is below zero. */
  lemma SimulatedStatsMeetExactly(m: Milestone)
    ensures Satisfies(m, SimulatedStats(Some(m)))
            <==> m.eligibility.maxCancellationRatePercent.None?
                 || m.eligibility.maxCancellationRatePercent.value >= 0.0
  {
  }

  lemma {:induction false} FindKeyMember(milestones: seq<Milestone>, key: string)
    ensures FindKey(milestones, key).Some? ==> FindKey(milestones, key).value in milestones
  {
    if milestones != [] { FindKeyMember(milestones[1..], key); }
  }

  /**
    What the simulator shows for any key. An active tier whose cancellation limit is not negative is shown
    as itself or a higher one; a tier below zero, an inactive one or the default is earned by nobody, so
    the milestone shown is never that one unless it is the floor.
   */
  lemma SimulationMeetsItsMilestone(milestones: seq<Milestone>, key: Option<string>)
    requires SimulatedTarget(milestones, key).Some?
    ensures var m := SimulatedTarget(milestones, key).value;
      var stats := SimulatedStats(Some(m));
      var shown := ResolveMilestone(milestones, stats);
      && (Earns(m, stats) <==>
            m.isActive && !m.isDefault
            && (m.eligibility.maxCancellationRatePercent.None? || m.eligibility.maxCancellationRatePercent.value >= 0.0))
      && (Earns(m, stats) ==> shown.Some? && Earns(shown.value, stats) && shown.value.rank >= m.rank)
      && (!Earns(m, stats) && shown == Some(m) ==> m.isActive && forall t :: t in milestones ==> !Earns(t, stats))
  {
    hide ResolveMilestone;
    FindKeyMember(milestones, key.value);
    var m := SimulatedTarget(milestones, key).value;
    SimulatedStatsMeetExactly(m);
    ResolveMilestoneExact(milestones, SimulatedStats(Some(m)));
  }
}
