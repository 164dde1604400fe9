/**
  Publishing the booking policy (src/booking-policy/booking-policy.service.ts): merge, check, archive the
  live version, create the new one, roll back on failure - by any number of publishers and readers at
  once, over a unique index that admits one LIVE row.
 */
module PolicyPublish {
  import opened Wrappers
  import opened PhTime
  import opened Windows
  import opened Entitlement

  // ----- Merging a partial input -----

  /** A GraphQL field left out, or sent; a nullable number may be sent as an explicit null. */
  datatype Given<T> = Omitted | Sent(value: T) {
    function Over(stored: T): T { if Sent? then value else stored }

    function Then(later: Given<T>): Given<T> { if later.Sent? then later else this }
  }

  datatype DefaultsInput = DefaultsInput(
    dailyCapacity: Given<Option<int>>, advanceBookingDays: Given<Option<int>>, leadTimeMinutes: Given<Option<int>>,
    sameDayBookingEnabled: Given<bool>, sameDayCutoffTime: Given<string>)

  datatype SafetyInput = SafetyInput(
    dailyCapacity: Given<Option<int>>, advanceBookingDays: Given<Option<int>>, maxLegFeeCentavos: Given<Option<int>>,
    maxServiceRadiusKm: Given<Option<real>>)

  type Week = map<DayKey, UniversalDay>

  datatype Input = Input(enabled: Given<bool>, defaults: DefaultsInput, universalDays: Given<Week>, safetyLimits: SafetyInput)

  function MergeDefaults(d: PolicyDefaults, x: DefaultsInput): PolicyDefaults {
    PolicyDefaults(
      x.dailyCapacity.Over(d.dailyCapacity), x.advanceBookingDays.Over(d.advanceBookingDays),
      x.leadTimeMinutes.Over(d.leadTimeMinutes), x.sameDayBookingEnabled.Over(d.sameDayBookingEnabled),
      x.sameDayCutoffTime.Over(d.sameDayCutoffTime))
  }

  function MergeSafety(s: SafetyLimits, x: SafetyInput): SafetyLimits {
    SafetyLimits(
      x.dailyCapacity.Over(s.dailyCapacity), x.advanceBookingDays.Over(s.advanceBookingDays),
      x.maxLegFeeCentavos.Over(s.maxLegFeeCentavos), x.maxServiceRadiusKm.Over(s.maxServiceRadiusKm))
  }

  function Merge(c: PolicyContent, x: Input): PolicyContent {
    PolicyContent(x.enabled.Over(c.enabled), MergeDefaults(c.defaults, x.defaults),
                  x.universalDays.Over(c.universalDays), MergeSafety(c.safetyLimits, x.safetyLimits))
  }

  /** Two inputs sent one after the other, as one. */
  function Compose(a: Input, b: Input): Input {
    Input(
      a.enabled.Then(b.enabled),
      DefaultsInput(
        a.defaults.dailyCapacity.Then(b.defaults.dailyCapacity),
        a.defaults.advanceBookingDays.Then(b.defaults.advanceBookingDays),
        a.defaults.leadTimeMinutes.Then(b.defaults.leadTimeMinutes),
        a.defaults.sameDayBookingEnabled.Then(b.defaults.sameDayBookingEnabled),
        a.defaults.sameDayCutoffTime.Then(b.defaults.sameDayCutoffTime)),
      a.universalDays.Then(b.universalDays),
      SafetyInput(
        a.safetyLimits.dailyCapacity.Then(b.safetyLimits.dailyCapacity),
        a.safetyLimits.advanceBookingDays.Then(b.safetyLimits.advanceBookingDays),
        a.safetyLimits.maxLegFeeCentavos.Then(b.safetyLimits.maxLegFeeCentavos),
        a.safetyLimits.maxServiceRadiusKm.Then(b.safetyLimits.maxServiceRadiusKm)))
  }

  /** Saving one section at a time loses nothing: successive partial publishes add up to one. */
  lemma PartialPublishesCompose(c: PolicyContent, a: Input, b: Input)
    ensures Merge(Merge(c, a), b) == Merge(c, Compose(a, b))
  {
  }

  // ----- Coherence -----

  /** The source's `parse(end) <= parse(start)` refusal: NaN compares false, so a malformed time is let through. */
  predicate WindowRefused(w: Window) {
    ParseHHMM(w.start).Some? && ParseHHMM(w.end).Some? && ParseHHMM(w.end).value <= ParseHHMM(w.start).value
  }

  predicate DayCoherent(day: UniversalDay) {
    day.isOpen ==> day.windows != [] && forall w :: w in day.windows ==> !WindowRefused(w)
  }

  predicate Coherent(c: PolicyContent) {
    && CeilingsRespected(c.defaults, c.safetyLimits)
    && ParseHHMM(c.defaults.sameDayCutoffTime).Some?
    && forall key :: key in c.universalDays ==> DayCoherent(c.universalDays[key])
  }

  datatype PolicyError =
    | CapacityAboveCeiling | AdvanceAboveCeiling | BadCutoff | OpenWithoutWindow(key: DayKey) | ClosesBeforeOpening(key: DayKey)

  const WEEK_ORDER: seq<DayKey> := [Monday, Tuesday, Wednesday, Thursday, Friday, Saturday, Sunday]

  method AssertPolicyCoherent(c: PolicyContent) returns (error: Option<PolicyError>)
    ensures error.None? <==> Coherent(c)
  {
    if Num(c.defaults.dailyCapacity) > Num(c.safetyLimits.dailyCapacity) { return Some(CapacityAboveCeiling); }
    if Num(c.defaults.advanceBookingDays) > Num(c.safetyLimits.advanceBookingDays) { return Some(AdvanceAboveCeiling); }
    if ParseHHMM(c.defaults.sameDayCutoffTime).None? { return Some(BadCutoff); }
    for i := 0 to |WEEK_ORDER|
      invariant forall k :: 0 <= k < i && WEEK_ORDER[k] in c.universalDays ==> DayCoherent(c.universalDays[WEEK_ORDER[k]])
    {
      var key := WEEK_ORDER[i];
      if key in c.universalDays && c.universalDays[key].isOpen {
        var day := c.universalDays[key];
        if day.windows == [] { return Some(OpenWithoutWindow(key)); }
        for j := 0 to |day.windows|
          invariant forall k :: 0 <= k < j ==> !WindowRefused(day.windows[k])
        {
          if WindowRefused(day.windows[j]) { return Some(ClosesBeforeOpening(key)); }
        }
      }
    }
    forall key | key in c.universalDays ensures DayCoherent(c.universalDays[key]) { WeekOrderComplete(key); }
    return None;
  }

  lemma WeekOrderComplete(key: DayKey)
    ensures exists i :: 0 <= i < |WEEK_ORDER| && WEEK_ORDER[i] == key
  {
    var i := match key case Monday => 0 case Tuesday => 1 case Wednesday => 2 case Thursday => 3
             case Friday => 4 case Saturday => 5 case Sunday => 6;
    assert WEEK_ORDER[i] == key;
  }

  /** An open day of a coherent policy has a bookable minute exactly when one of its windows is well formed. */
  lemma OpenDayHasMinutesExactly(c: PolicyContent, key: DayKey)
    requires Coherent(c) && key in c.universalDays && c.universalDays[key].isOpen
    ensures var windows := c.universalDays[key].windows;
      (exists m :: Offers(windows, m))
      <==> exists w :: w in windows && ParseHHMM(w.start).Some? && ParseHHMM(w.end).Some?
  {
    hide ParseHHMM;
    var windows := c.universalDays[key].windows;
    assert DayCoherent(c.universalDays[key]);
    if w :| w in windows && ParseHHMM(w.start).Some? && ParseHHMM(w.end).Some? {
      assert !WindowRefused(w);
      assert Offers(windows, ParseHHMM(w.start).value);
    }
  }

  // ----- The protocol -----

  datatype PolicyDoc = PolicyDoc(version: int, live: bool, content: PolicyContent)

  /** publish carries its input; a plain current() carries none. */
  datatype Phase =
    | Looking(input: Option<Input>)
    | Seeding(input: Option<Input>)
    | Holding(id: nat, version: int, content: PolicyContent, input: Option<Input>)
    | Archived(id: nat, version: int, content: PolicyContent)
    | RollingBack(id: nat)

  datatype World = World(policies: seq<PolicyDoc>, agents: map<nat, Phase>)

  datatype Event =
    | Start(agent: nat, input: Option<Input>)
    | FindLive(agent: nat)
    | CreateSeed(agent: nat, healthy: bool)
    | Archive(agent: nat)
    | CreateNew(agent: nat, healthy: bool)
    | RollBack(agent: nat)

  const SEED_DAY := UniversalDay(true, [Window("06:00", "22:00")])

  const SEED := PolicyContent(
    true, SEED_DEFAULTS,
    map[Monday := SEED_DAY, Tuesday := SEED_DAY, Wednesday := SEED_DAY, Thursday := SEED_DAY,
        Friday := SEED_DAY, Saturday := SEED_DAY, Sunday := SEED_DAY],
    SEED_SAFETY)

  predicate IsLive(w: World, i: int) { 0 <= i < |w.policies| && w.policies[i].live }

  ghost predicate NoLive(w: World) { forall i :: !IsLive(w, i) }

  function FirstLive(policies: seq<PolicyDoc>, from: nat): (r: Option<nat>)
    requires from <= |policies|
    ensures r.Some? ==> from <= r.value < |policies| && policies[r.value].live
    ensures r.None? ==> forall i :: from <= i < |policies| ==> !policies[i].live
    decreases |policies| - from
  {
    if from == |policies| then None
    else if policies[from].live then Some(from)
    else FirstLive(policies, from + 1)
  }

  function Done(w: World, agent: nat): World { w.(agents := w.agents - {agent}) }

  function Holds(w: World, id: nat, input: Option<Input>): Phase
    requires id < |w.policies|
  {
    Holding(id, w.policies[id].version, w.policies[id].content, input)
  }

  function Next(w: World, e: Event): World {
    match e
    case Start(a, input) => if a in w.agents then w else w.(agents := w.agents[a := Looking(input)])
    case FindLive(a) =>
      if a !in w.agents || !w.agents[a].Looking? then w
      else
        var input, live := w.agents[a].input, FirstLive(w.policies, 0);
        if live.None? then w.(agents := w.agents[a := Seeding(input)])
        else if input.None? then Done(w, a)
        else w.(agents := w.agents[a := Holds(w, live.value, input)])
    case CreateSeed(a, healthy) =>
      if a !in w.agents || !w.agents[a].Seeding? then w
      else if !healthy || FirstLive(w.policies, 0).Some? then Done(w, a)
      else
        var input := w.agents[a].input;
        var v := w.(policies := w.policies + [PolicyDoc(1, true, SEED)]);
        if input.None? then Done(v, a) else v.(agents := v.agents[a := Holds(v, |w.policies|, input)])
    case Archive(a) =>
      if a !in w.agents || !w.agents[a].Holding? || w.agents[a].input.None? then w
      else
        var h := w.agents[a];
        var merged := Merge(h.content, h.input.value);
        if !Coherent(merged) || h.id >= |w.policies| then Done(w, a)
        else World(w.policies[h.id := w.policies[h.id].(live := false)], w.agents[a := Archived(h.id, h.version, merged)])
    case CreateNew(a, healthy) =>
      if a !in w.agents || !w.agents[a].Archived? then w
      else
        var h := w.agents[a];
        if !healthy || FirstLive(w.policies, 0).Some? then w.(agents := w.agents[a := RollingBack(h.id)])
        else Done(w.(policies := w.policies + [PolicyDoc(h.version + 1, true, h.content)]), a)
    case RollBack(a) =>
      if a !in w.agents || !w.agents[a].RollingBack? then w
      else
        var id := w.agents[a].id;
        if FirstLive(w.policies, 0).Some? || id >= |w.policies| then Done(w, a)
        else Done(w.(policies := w.policies[id := w.policies[id].(live := true)]), a)
  }

  function Run(w: World, events: seq<Event>): World
    decreases |events|
  {
    if events == [] then w else Run(Next(w, events[0]), events[1..])
  }

  ghost predicate AtMostOneLive(w: World) { forall i, j :: IsLive(w, i) && IsLive(w, j) ==> i == j }

  /** Some publisher has archived and not yet created or rolled back. */
  ghost predicate Between(w: World) {
    exists a :: a in w.agents && (w.agents[a].Archived? || w.agents[a].RollingBack?)
  }

  predicate PhaseSound(w: World, p: Phase) {
    match p
    case Holding(id, _, content, _) => id < |w.policies| && Coherent(content)
    case Archived(id, _, content) => id < |w.policies| && Coherent(content)
    case RollingBack(id) => id < |w.policies|
    case _ => true
  }

  ghost predicate Inv(w: World) {
    && AtMostOneLive(w)
    && (w.policies != [] && NoLive(w) ==> Between(w))
    && (forall i :: 0 <= i < |w.policies| ==> Coherent(w.policies[i].content))
    && (forall a :: a in w.agents ==> PhaseSound(w, w.agents[a]))
  }

  lemma SeedCoherent()
    ensures Coherent(SEED)
  {
    assert ParseHHMM("06:00") == Some(360) && ParseHHMM("22:00") == Some(1320) && ParseHHMM("17:00") == Some(1020);
    assert !WindowRefused(Window("06:00", "22:00"));
    assert DayCoherent(SEED_DAY);
  }

  lemma LiveKept(w: World, e: Event)
    requires Inv(w)
    ensures AtMostOneLive(Next(w, e))
    ensures Next(w, e).policies != [] && NoLive(Next(w, e)) ==> Between(Next(w, e))
  {
    hide Coherent, Merge, SEED;
    var v := Next(w, e);
    var live := FirstLive(w.policies, 0);
    assert live.None? ==> NoLive(w) by {
      if live.None? { forall i ensures !IsLive(w, i) {} }
    }
    match e
    case Start(a, input) => BetweenKept(w, v, a);
    case FindLive(a) =>
      BetweenKept(w, v, a);
    case CreateSeed(a, healthy) =>
      if |v.policies| > |w.policies| { assert IsLive(v, |w.policies|); } else { BetweenKept(w, v, a); }
    case Archive(a) =>
      if a in v.agents && v.agents[a].Archived? {
        assert Between(v);
        forall i, j | IsLive(v, i) && IsLive(v, j) ensures i == j { assert IsLive(w, i) && IsLive(w, j); }
      } else {
        BetweenKept(w, v, a);
      }
    case CreateNew(a, healthy) =>
      if |v.policies| > |w.policies| { assert IsLive(v, |w.policies|); }
      else {
        SamePoliciesSameLive(w, v);
        if a in v.agents && v.agents[a].RollingBack? { assert Between(v); } else { BetweenKept(w, v, a); }
      }
    case RollBack(a) =>
      if live.Some? { SamePoliciesSameLive(w, v); assert IsLive(v, live.value); }
      else if a in w.agents && w.agents[a].RollingBack? { assert IsLive(v, w.agents[a].id); }
      else { BetweenKept(w, v, a); }
  }

  lemma SamePoliciesSameLive(w: World, v: World)
    requires AtMostOneLive(w) && w.policies == v.policies
    ensures AtMostOneLive(v)
  {
    forall i, j | IsLive(v, i) && IsLive(v, j) ensures i == j { assert IsLive(w, i) && IsLive(w, j); }
  }

  /** An agent outside the window between archive and create changes nothing about who is in it. */
  lemma BetweenKept(w: World, v: World, agent: nat)
    requires Inv(w) && w.policies == v.policies
    requires forall a :: a in w.agents && a != agent ==> a in v.agents && v.agents[a] == w.agents[a]
    requires agent in w.agents && (w.agents[agent].Archived? || w.agents[agent].RollingBack?) ==>
      agent in v.agents && v.agents[agent] == w.agents[agent]
    ensures AtMostOneLive(v)
    ensures v.policies != [] && NoLive(v) ==> Between(v)
  {
    forall i, j | IsLive(v, i) && IsLive(v, j) ensures i == j { assert IsLive(w, i) && IsLive(w, j); }
    if v.policies != [] && NoLive(v) {
      forall i ensures !IsLive(w, i) { assert !IsLive(v, i); }
      var a :| a in w.agents && (w.agents[a].Archived? || w.agents[a].RollingBack?);
      assert a in v.agents && v.agents[a] == w.agents[a];
    }
  }

  lemma ContentKept(w: World, e: Event)
    requires Inv(w)
    ensures var v := Next(w, e);
      && (forall i :: 0 <= i < |v.policies| ==> Coherent(v.policies[i].content))
      && (forall a :: a in v.agents ==> PhaseSound(v, v.agents[a]))
  {
    hide Coherent, Merge, AtMostOneLive, NoLive, Between;
    SeedCoherent();
    var v := Next(w, e);
    assert |w.policies| <= |v.policies|;
    forall a | a in v.agents ensures PhaseSound(v, v.agents[a]) {
      if a in w.agents { assert PhaseSound(w, w.agents[a]); }
    }
  }

  lemma NextKeepsInv(w: World, e: Event)
    requires Inv(w)
    ensures Inv(Next(w, e)) && |Next(w, e).policies| >= |w.policies|
  {
    hide Coherent, AtMostOneLive, NoLive, Between, PhaseSound, Merge, SEED;
    LiveKept(w, e);
    ContentKept(w, e);
  }

  lemma {:induction false} RunKeepsInv(w: World, events: seq<Event>)
    requires Inv(w)
    ensures Inv(Run(w, events)) && |Run(w, events).policies| >= |w.policies|
    decreases |events|
  {
    hide Inv, Next;
    if events != [] {
      NextKeepsInv(w, events[0]);
      RunKeepsInv(Next(w, events[0]), events[1..]);
    }
  }

  const EMPTY := World([], map[])

  /**
    For any interleaving of publishers and readers, creates failing as they like: never two LIVE
    policies, none only while some publisher is between archive and create or rollback - so exactly one
    whenever nobody is at work - and everything ever stored is coherent.
   */
  lemma PublishProtocol(events: seq<Event>)
    ensures var w := Run(EMPTY, events);
      && AtMostOneLive(w)
      && (w.policies != [] && NoLive(w) ==> Between(w))
      && (w.policies != [] && w.agents == map[] ==> exists i :: IsLive(w, i) && forall j :: IsLive(w, j) ==> j == i)
      && (forall i :: 0 <= i < |w.policies| ==> Coherent(w.policies[i].content))
  {
    RunKeepsInv(EMPTY, events);
    var w := Run(EMPTY, events);
    if w.policies != [] && w.agents == map[] {
      assert !Between(w);
      var i :| IsLive(w, i);
      forall j | IsLive(w, j) ensures j == i {}
    }
  }

  /** A publisher that meets no other stores its merge, with every omitted field as it was in the live version. */
  lemma UndisturbedPublishStoresMerge(w: World, a: nat, input: Input, id: nat)
    requires AtMostOneLive(w) && IsLive(w, id) && a !in w.agents && Coherent(Merge(w.policies[id].content, input))
    ensures var v := Run(w, [Start(a, Some(input)), FindLive(a), Archive(a), CreateNew(a, true)]);
      && v.agents == w.agents
      && v.policies == w.policies[id := w.policies[id].(live := false)]
                       + [PolicyDoc(w.policies[id].version + 1, true, Merge(w.policies[id].content, input))]
  {
    hide Coherent, Merge;
    var events := [Start(a, Some(input)), FindLive(a), Archive(a), CreateNew(a, true)];
    var live := FirstLive(w.policies, 0);
    assert IsLive(w, live.value) && live == Some(id);
    var w1 := Next(w, events[0]);
    var w2 := Next(w1, events[1]);
    var w3 := Next(w2, events[2]);
    assert w3.policies == w.policies[id := w.policies[id].(live := false)];
    forall i | 0 <= i < |w3.policies| ensures !w3.policies[i].live {
      assert IsLive(w, i) ==> i == id;
    }
    var w4 := Next(w3, events[3]);
    assert w4.agents == w.agents;
    RunStep(w, events);
    RunStep(w1, events[1..]);
    RunStep(w2, events[2..]);
    RunStep(w3, events[3..]);
  }

  lemma RunStep(w: World, events: seq<Event>)
    requires events != []
    ensures Run(w, events) == Run(Next(w, events[0]), events[1..])
  {
  }

  // ----- When a publish survives -----

  /** None of these events is the publisher's own. */
  predicate ByOthers(events: seq<Event>, a: nat) { forall e :: e in events ==> e.agent != a }

  lemma {:induction false} OthersLeavePhase(w: World, events: seq<Event>, a: nat)
    requires ByOthers(events, a)
    ensures a in Run(w, events).agents <==> a in w.agents
    ensures a in w.agents ==> Run(w, events).agents[a] == w.agents[a]
    decreases |events|
  {
    hide Coherent, Merge, SEED;
    if events != [] {
      assert events[0].agent != a;
      assert a in Next(w, events[0]).agents <==> a in w.agents;
      assert a in w.agents ==> Next(w, events[0]).agents[a] == w.agents[a];
      OthersLeavePhase(Next(w, events[0]), events[1..], a);
    }
  }

  /** The publisher is about to archive the version it read, and its merge is coherent. */
  predicate ReadyToArchive(w: World, a: nat) {
    && a in w.agents && w.agents[a].Holding? && w.agents[a].input.Some?
    && w.agents[a].id < |w.policies|
    && Coherent(Merge(w.agents[a].content, w.agents[a].input.value))
  }

  function MergedBy(w: World, a: nat): PolicyDoc
    requires ReadyToArchive(w, a)
  {
    PolicyDoc(w.agents[a].version + 1, true, Merge(w.agents[a].content, w.agents[a].input.value))
  }

  /**
    Whatever the others do between a publisher's archive and its create, a healthy create stores the merge
    as the live version exactly when they leave nothing live. Otherwise it stores nothing and must roll
    back, and the rollback restores the old version exactly when nothing is live by then.
   */
  lemma PublishSurvivesExactly(w: World, a: nat, mid: seq<Event>, later: seq<Event>)
    requires Inv(w) && ReadyToArchive(w, a) && ByOthers(mid, a) && ByOthers(later, a)
    ensures var v := Run(Next(w, Archive(a)), mid); var u := Next(v, CreateNew(a, true));
      && Inv(v) && |w.policies| <= |v.policies|
      && (NoLive(v) ==>
            u.policies == v.policies + [MergedBy(w, a)] && IsLive(u, |v.policies|) && a !in u.agents)
      && (!NoLive(v) ==>
            && u.policies == v.policies && a in u.agents && u.agents[a] == RollingBack(w.agents[a].id)
            && var x := Run(u, later); var y := Next(x, RollBack(a));
               && a !in y.agents && |w.policies| <= |x.policies|
               && y.policies == if NoLive(x) then x.policies[w.agents[a].id := x.policies[w.agents[a].id].(live := true)]
                                else x.policies)
  {
    hide Coherent, Merge, SEED, Run, Inv;
    var id := w.agents[a].id;
    var w1 := Next(w, Archive(a));
    var v := Run(w1, mid);
    NextKeepsInv(w, Archive(a));
    RunKeepsInv(w1, mid);
    OthersLeavePhase(w1, mid, a);
    LiveFound(v);
    var u := Next(v, CreateNew(a, true));
    if !NoLive(v) {
      NextKeepsInv(v, CreateNew(a, true));
      RunKeepsInv(u, later);
      OthersLeavePhase(u, later, a);
      LiveFound(Run(u, later));
    }
  }

  lemma LiveFound(w: World)
    ensures NoLive(w) <==> FirstLive(w.policies, 0).None?
  {
    var live := FirstLive(w.policies, 0);
    if live.Some? {
      assert IsLive(w, live.value);
    } else {
      forall i ensures !IsLive(w, i) {}
    }
  }

  /** At the archive everybody else is at most about to look, and the version archived is the live one. */
  ghost predicate AloneAtArchive(w: World, a: nat) {
    && ReadyToArchive(w, a) && IsLive(w, w.agents[a].id)
    && forall b :: b in w.agents && b != a ==> w.agents[b].Looking?
  }

  /** Somewhere in the window a reader that found nothing live creates the seed. */
  predicate SeedsInside(w: World, events: seq<Event>)
    decreases |events|
  {
    events != [] &&
    var e := events[0];
    || (e.CreateSeed? && e.healthy && e.agent in w.agents && w.agents[e.agent].Seeding?)
    || SeedsInside(Next(w, e), events[1..])
  }

  /** In the window nothing is live, and besides the publisher everybody looks or is about to seed. */
  ghost predicate WindowOpen(w: World, a: nat) {
    && NoLive(w) && a in w.agents && w.agents[a].Archived?
    && forall b :: b in w.agents && b != a ==> w.agents[b].Looking? || w.agents[b].Seeding?
  }

  lemma ArchiveOpensWindow(w: World, a: nat)
    requires Inv(w) && AloneAtArchive(w, a)
    ensures WindowOpen(Next(w, Archive(a)), a)
  {
    hide Coherent, Merge;
    var v := Next(w, Archive(a));
    forall i ensures !IsLive(v, i) {
      assert IsLive(w, i) ==> i == w.agents[a].id;
    }
  }

  /** Somebody else's step that does not seed leaves the window open; one that seeds leaves the seed live. */
  lemma WindowStep(w: World, e: Event, a: nat)
    requires WindowOpen(w, a) && e.agent != a
    ensures var v := Next(w, e);
      if e.CreateSeed? && e.healthy && e.agent in w.agents && w.agents[e.agent].Seeding? then
        IsLive(v, |w.policies|)
      else WindowOpen(v, a)
  {
    hide Coherent, Merge, SEED;
    LiveFound(w);
    var v := Next(w, e);
    if v.policies == w.policies {
      forall i ensures !IsLive(v, i) { assert !IsLive(w, i); }
    }
  }

  /** While nobody archives it, a live version stays live. */
  lemma {:induction false} LiveStays(w: World, events: seq<Event>, id: nat)
    requires IsLive(w, id) && forall e :: e in events ==> !e.Archive?
    ensures IsLive(Run(w, events), id)
    decreases |events|
  {
    hide Coherent, Merge, SEED, FirstLive;
    if events != [] {
      assert !events[0].Archive?;
      assert IsLive(Next(w, events[0]), id);
      LiveStays(Next(w, events[0]), events[1..], id);
    }
  }

  lemma {:induction false} WindowEndsLiveExactly(w: World, mid: seq<Event>, a: nat)
    requires WindowOpen(w, a) && ByOthers(mid, a) && forall e :: e in mid ==> !e.Archive?
    ensures NoLive(Run(w, mid)) <==> !SeedsInside(w, mid)
    decreases |mid|
  {
    hide Coherent, Merge, SEED, Next;
    if mid != [] {
      var e := mid[0];
      WindowStep(w, e, a);
      if e.CreateSeed? && e.healthy && e.agent in w.agents && w.agents[e.agent].Seeding? {
        LiveStays(Next(w, e), mid[1..], |w.policies|);
        assert IsLive(Run(w, mid), |w.policies|);
      } else {
        WindowEndsLiveExactly(Next(w, e), mid[1..], a);
      }
    }
  }

  /**
    A publisher alone at its archive, with no second archive in the window: the publish is lost exactly
    when a reader creates the seed inside the window.
   */
  lemma LostExactlyWhenSeeded(w: World, a: nat, mid: seq<Event>)
    requires Inv(w) && AloneAtArchive(w, a) && ByOthers(mid, a) && forall e :: e in mid ==> !e.Archive?
    ensures var w1 := Next(w, Archive(a)); var v := Run(w1, mid); var u := Next(v, CreateNew(a, true));
      && (SeedsInside(w1, mid) ==> u.policies == v.policies)
      && (!SeedsInside(w1, mid) ==>
            u.policies == v.policies + [MergedBy(w, a)] && IsLive(u, |v.policies|) && AtMostOneLive(u))
  {
    hide Coherent, Merge, SEED, Run, Inv, SeedsInside;
    ArchiveOpensWindow(w, a);
    WindowEndsLiveExactly(Next(w, Archive(a)), mid, a);
    PublishSurvivesExactly(w, a, mid, []);
    NextKeepsInv(w, Archive(a));
    RunKeepsInv(Next(w, Archive(a)), mid);
    var v := Run(Next(w, Archive(a)), mid);
    NextKeepsInv(v, CreateNew(a, true));
    InvAtMostOne(Next(v, CreateNew(a, true)));
  }

  lemma InvAtMostOne(w: World)
    requires Inv(w)
    ensures AtMostOneLive(w)
  {
  }

  /** In particular it survives when nobody so much as looks for the live version in the window. */
  lemma SurvivesUnlookedAt(w: World, a: nat, mid: seq<Event>)
    requires Inv(w) && AloneAtArchive(w, a) && ByOthers(mid, a) && forall e :: e in mid ==> !e.FindLive?
    ensures var v := Run(Next(w, Archive(a)), mid); var u := Next(v, CreateNew(a, true));
      u.policies == v.policies + [MergedBy(w, a)] && IsLive(u, |v.policies|)
  {
    hide Coherent, Merge, SEED, Run, Inv, Next;
    ArchiveOpensWindow(w, a);
    NobodySeeds(w, a);
    LookersOnly(Next(w, Archive(a)), mid, a);
    PublishSurvivesExactly(w, a, mid, []);
  }

  ghost predicate OthersOnlyLook(w: World, a: nat) {
    forall b :: b in w.agents && b != a ==> w.agents[b].Looking?
  }

  lemma NobodySeeds(w: World, a: nat)
    requires AloneAtArchive(w, a)
    ensures OthersOnlyLook(Next(w, Archive(a)), a)
  {
    hide Coherent, Merge;
  }

  lemma {:induction false} LookersOnly(w: World, mid: seq<Event>, a: nat)
    requires NoLive(w) && OthersOnlyLook(w, a) && ByOthers(mid, a) && forall e :: e in mid ==> !e.FindLive?
    ensures NoLive(Run(w, mid))
    decreases |mid|
  {
    hide Coherent, Merge, SEED, FirstLive;
    if mid != [] {
      assert mid[0].agent != a && !mid[0].FindLive?;
      var v := Next(w, mid[0]);
      assert v.policies == w.policies;
      forall i ensures !IsLive(v, i) { assert !IsLive(w, i); }
      LookersOnly(v, mid[1..], a);
    }
  }

  // ----- A publish lost, from an empty store -----

  lemma {:induction false} RunConcat(w: World, first: seq<Event>, second: seq<Event>)
    ensures Run(w, first + second) == Run(Run(w, first), second)
    decreases |first|
  {
    hide Next;
    if first == [] {
      assert first + second == second;
    } else {
      assert (first + second)[1..] == first[1..] + second;
      RunConcat(Next(w, first[0]), first[1..], second);
    }
  }

  /** A publisher, and a reader looking inside its window. */
  function Reseeding(input: Input): seq<Event> {
    [Start(0, Some(input)), FindLive(0), Archive(0), Start(1, None), FindLive(1), CreateSeed(1, true),
     CreateNew(0, true), RollBack(0)]
  }

  /**
    What the protocol does not promise: from any store at rest, a reader that looks inside the window
    seeds a fresh version 1, and the publisher's create and rollback then both fail. Whatever was live,
    the seed is live now.
   */
  lemma ReaderInTheWindowReseeds(w: World, id: nat, input: Input)
    requires AtMostOneLive(w) && IsLive(w, id) && w.agents == map[] && Coherent(Merge(w.policies[id].content, input))
    ensures Run(w, Reseeding(input))
            == World(w.policies[id := w.policies[id].(live := false)] + [PolicyDoc(1, true, SEED)], map[])
  {
    hide Coherent, Merge, SEED;
    var archived := w.policies[id := w.policies[id].(live := false)];
    var w5 := World(archived, map[0 := Archived(id, w.policies[id].version, Merge(w.policies[id].content, input)),
                                  1 := Seeding(None)]);
    ReseedOpening(w, w5, id, input, Reseeding(input));
    forall i | 0 <= i < |archived| ensures !archived[i].live { assert IsLive(w, i) ==> i == id; }
    ReseedEnding(w5, archived, id, Reseeding(input)[5..]);
  }

  lemma ReseedOpening(w: World, w5: World, id: nat, input: Input, events: seq<Event>)
    requires AtMostOneLive(w) && IsLive(w, id) && w.agents == map[] && Coherent(Merge(w.policies[id].content, input))
    requires events == Reseeding(input)
    requires w5 == World(
      w.policies[id := w.policies[id].(live := false)],
      map[0 := Archived(id, w.policies[id].version, Merge(w.policies[id].content, input)), 1 := Seeding(None)])
    ensures Run(w, events) == Run(w5, events[5..])
  {
    hide Coherent, Merge, Run, SEED;
    var live := FirstLive(w.policies, 0);
    assert IsLive(w, live.value) && live == Some(id);
    var w1 := Next(w, events[0]);
    var w2 := Next(w1, events[1]);
    var w3 := Next(w2, events[2]);
    assert w3.policies == w5.policies && w3.agents == map[0 := w5.agents[0]];
    forall i | 0 <= i < |w3.policies| ensures !w3.policies[i].live { assert IsLive(w, i) ==> i == id; }
    var w4 := Next(w3, events[3]);
    assert Next(w4, events[4]) == w5;
    RunStep(w, events);
    RunStep(w1, events[1..]);
    RunStep(w2, events[2..]);
    RunStep(w3, events[3..]);
    RunStep(w4, events[4..]);
  }

  lemma ReseedEnding(w5: World, archived: seq<PolicyDoc>, id: nat, events: seq<Event>)
    requires events == [CreateSeed(1, true), CreateNew(0, true), RollBack(0)]
    requires id < |archived| && forall i :: 0 <= i < |archived| ==> !archived[i].live
    requires w5.policies == archived && w5.agents.Keys == {0, 1} && w5.agents[1] == Seeding(None)
    requires w5.agents[0].Archived? && w5.agents[0].id == id
    ensures Run(w5, events) == World(archived + [PolicyDoc(1, true, SEED)], map[])
  {
    hide SEED, Run;
    var seeded := archived + [PolicyDoc(1, true, SEED)];
    var w6 := Next(w5, events[0]);
    assert w6 == World(seeded, map[0 := w5.agents[0]]);
    assert seeded[|archived|].live;
    var w7 := Next(w6, events[1]);
    assert w7 == World(seeded, map[0 := RollingBack(id)]);
    var w8 := Next(w7, events[2]);
    assert w8 == World(seeded, map[]);
    RunStep(w5, events);
    RunStep(w6, events[1..]);
    RunStep(w7, events[2..]);
    RunNothing(w8, events[3..]);
  }

  lemma RunNothing(w: World, events: seq<Event>)
    requires events == []
    ensures Run(w, events) == w
  {
  }

  /**
    From an empty store: the seed, then a first publish that goes through, then a second one lost to a
    reader. The rules published first are gone with it.
   */
  lemma PublishedRulesLost(first: Input, second: Input) returns (published: seq<Event>)
    requires Coherent(Merge(SEED, first)) && Coherent(Merge(Merge(SEED, first), second))
    ensures Run(EMPTY, published)
            == World([PolicyDoc(1, false, SEED), PolicyDoc(2, true, Merge(SEED, first))], map[])
    ensures Run(EMPTY, published + Reseeding(second))
            == World([PolicyDoc(1, false, SEED), PolicyDoc(2, false, Merge(SEED, first)), PolicyDoc(1, true, SEED)], map[])
  {
    hide Coherent, Merge, SEED, Run;
    var seeding := [Start(0, None), FindLive(0), CreateSeed(0, true)];
    var publishing := [Start(0, Some(first)), FindLive(0), Archive(0), CreateNew(0, true)];
    published := seeding + publishing;
    var w := World([PolicyDoc(1, true, SEED)], map[]);
    assert Run(EMPTY, seeding) == w by {
      var w1 := Next(EMPTY, seeding[0]);
      var w2 := Next(w1, seeding[1]);
      assert w2 == World([], map[0 := Seeding(None)]);
      assert Next(w2, seeding[2]) == w;
      RunStep(EMPTY, seeding);
      RunStep(w1, seeding[1..]);
      RunStep(w2, seeding[2..]);
      RunNothing(w, seeding[3..]);
    }
    RunConcat(EMPTY, seeding, publishing);
    assert IsLive(w, 0);
    UndisturbedPublishStoresMerge(w, 0, first, 0);
    var v := World([PolicyDoc(1, false, SEED), PolicyDoc(2, true, Merge(SEED, first))], map[]);
    assert Run(w, publishing) == v;
    RunConcat(EMPTY, published, Reseeding(second));
    assert IsLive(v, 1);
    ReaderInTheWindowReseeds(v, 1, second);
  }
}
