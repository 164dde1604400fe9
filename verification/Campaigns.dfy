/**
  Which campaign an account sees, and how often (src/campaigns/campaigns.service.ts and
  src/campaigns/campaign-frequency.util.ts). The frequency rule is a unique index on
  (campaign, account, period), plus a floor check for campaigns shown at every app open.
 */
module Campaigns {
  import opened Wrappers
  import opened PhTime
  import Sorting

  const FLOOR_MS := 30 * 60_000
  const RETENTION_MS := 180 * 86_400_000

  datatype Frequency = OnceEver | Daily | Weekly | EveryLogin | EveryAppOpen

  datatype Period = Lifetime | OfDay(day: int) | OfWeek(week: int) | OfLogin(session: string) | OfBucket(bucket: int)

  predicate IsSpace(c: char) { c == ' ' || c == '\t' || c == '\n' || c == '\r' }

  function TrimStart(s: string): string { if s != "" && IsSpace(s[0]) then TrimStart(s[1..]) else s }

  function TrimEnd(s: string): string { if s != "" && IsSpace(s[|s| - 1]) then TrimEnd(s[..|s| - 1]) else s }

  function Bucket(now: int): int { now / FLOOR_MS }

  /** None is the thrown MissingSessionIdError. */
  function PeriodFor(f: Frequency, now: int, session: Option<string>): Option<Period> {
    match f
    case OnceEver => Some(Lifetime)
    case Daily => Some(OfDay(PhDay(now)))
    case Weekly => Some(OfWeek(PhWeek(now)))
    case EveryLogin =>
      var trimmed := TrimEnd(TrimStart(session.GetOr("")));
      if trimmed == "" then None else Some(OfLogin(trimmed))
    case EveryAppOpen => Some(OfBucket(Bucket(now)))
  }

  function ExpiryFor(f: Frequency, now: int): Option<int> {
    if f == OnceEver then None else Some(now + RETENTION_MS)
  }

  datatype Campaign = Campaign(
    id: string, frequency: Frequency, priority: int, createdAt: int,
    active: bool, roles: set<string>, startsAt: int, endsAt: Option<int>)

  datatype Key = Key(campaignId: string, uid: string, period: Period)

  datatype Impression = Impression(shownAt: int, expiresAt: Option<int>)

  type Impressions = map<Key, Impression>

  predicate IsEligible(c: Campaign, role: string, now: int) {
    c.active && role in c.roles && c.startsAt <= now && (c.endsAt.None? || now < c.endsAt.value)
  }

  /** Highest priority first, newest first within a priority: two stable sorts, the weaker key first. */
  function Eligible(campaigns: seq<Campaign>, role: string, now: int): seq<Campaign> {
    Sorting.Sort(
      Sorting.Sort(Sorting.Filter(campaigns, (c: Campaign) => IsEligible(c, role, now)), (c: Campaign) => -c.createdAt),
      (c: Campaign) => -c.priority)
  }

  predicate ShownWithinFloor(imps: Impressions, campaignId: string, uid: string, now: int) {
    exists k :: k in imps && k.campaignId == campaignId && k.uid == uid && imps[k].shownAt >= now - FLOOR_MS
  }

  /** The key under which a showing would be recorded now, when the campaign is due. */
  function Due(imps: Impressions, c: Campaign, uid: string, now: int, session: Option<string>): Option<Key> {
    var period := PeriodFor(c.frequency, now, session);
    if period.None? then None
    else if c.frequency == EveryAppOpen && ShownWithinFloor(imps, c.id, uid, now) then None
    else
      var key := Key(c.id, uid, period.value);
      if key in imps then None else Some(key)
  }

  datatype Shown = Shown(campaign: Campaign, key: Key)

  /** The first campaign in line that is due. */
  function FirstDue(imps: Impressions, line: seq<Campaign>, uid: string, now: int, session: Option<string>): Option<Shown> {
    if line == [] then None
    else
      var key := Due(imps, line[0], uid, now, session);
      if key.Some? then Some(Shown(line[0], key.value)) else FirstDue(imps, line[1..], uid, now, session)
  }

  function Recorded(imps: Impressions, shown: Option<Shown>, now: int): Impressions {
    if shown.None? then imps
    else imps[shown.value.key := Impression(now, ExpiryFor(shown.value.campaign.frequency, now))]
  }

  predicate Blank(session: Option<string>) { TrimEnd(TrimStart(session.GetOr(""))) == "" }

  predicate ShownTo(imps: Impressions, k: Key, campaignId: string, uid: string) {
    k in imps && k.campaignId == campaignId && k.uid == uid
  }

  class CampaignsService {
    var impressions: Impressions

    /**
      Shows at most once per period and, for a campaign of every app open, only when the floor has passed
      since each earlier showing; what is refused leaves no trace, and asking again at once is refused.
     */
    method TryRecordImpression(c: Campaign, uid: string, now: int, session: Option<string>) returns (shown: bool)
      modifies this
      ensures shown <==>
        && (c.frequency == EveryLogin ==> !Blank(session))
        && (c.frequency == EveryAppOpen ==> forall k :: ShownTo(old(impressions), k, c.id, uid) ==>
              old(impressions)[k].shownAt + FLOOR_MS < now)
        && (forall k :: ShownTo(old(impressions), k, c.id, uid) ==> PeriodFor(c.frequency, now, session) != Some(k.period))
      ensures !shown ==> impressions == old(impressions)
      ensures shown ==>
        && |impressions| == |old(impressions)| + 1
        && exists key :: key !in old(impressions) && ShownTo(impressions, key, c.id, uid)
             && impressions == old(impressions)[key := impressions[key]]
             && impressions[key].shownAt == now
             && PeriodFor(c.frequency, now, session) == Some(key.period)
             && (impressions[key].expiresAt.None? <==> c.frequency == OnceEver)
             && (impressions[key].expiresAt.Some? ==> impressions[key].expiresAt.value == now + RETENTION_MS)
      ensures shown == Due(old(impressions), c, uid, now, session).Some?
      ensures Due(impressions, c, uid, now, session).None?
    {
      var period := PeriodFor(c.frequency, now, session);
      if period.None? { return false; }
      if c.frequency == EveryAppOpen {
        if ShownWithinFloor(impressions, c.id, uid, now) { return false; }
      }
      var key := Key(c.id, uid, period.value);
      if key in impressions { assert ShownTo(impressions, key, c.id, uid); return false; }
      impressions := impressions[key := Impression(now, ExpiryFor(c.frequency, now))];
      return true;
    }

    /** Tries the eligible campaigns in turn and stops at the first whose showing it could claim. */
    method NextFor(campaigns: seq<Campaign>, uid: string, role: string, now: int, session: Option<string>)
      returns (r: Option<Campaign>)
      modifies this
      ensures var shown := FirstDue(old(impressions), Eligible(campaigns, role, now), uid, now, session);
        && r == (if shown.Some? then Some(shown.value.campaign) else None)
        && impressions == Recorded(old(impressions), shown, now)
      ensures |impressions| == |old(impressions)| + if r.Some? then 1 else 0
    {
      var line := Eligible(campaigns, role, now);
      for i := 0 to |line|
        invariant impressions == old(impressions)
        invariant FirstDue(impressions, line, uid, now, session) == FirstDue(impressions, line[i..], uid, now, session)
      {
        ghost var before := impressions;
        assert line[i..][0] == line[i] && line[i..][1..] == line[i + 1..];
        var claimed := TryRecordImpression(line[i], uid, now, session);
        if claimed {
          FirstDueIsDue(before, line, uid, now, session);
          return Some(line[i]);
        }
      }
      return None;
    }
  }

  /** What is shown was due and unrecorded, and everything ahead of it in line was not due. */
  lemma {:induction false} FirstDueIsDue(
    imps: Impressions, line: seq<Campaign>, uid: string, now: int, session: Option<string>)
    ensures var r := FirstDue(imps, line, uid, now, session);
      if r.Some? then
        && Due(imps, r.value.campaign, uid, now, session) == Some(r.value.key) && r.value.key !in imps
        && exists i :: 0 <= i < |line| && line[i] == r.value.campaign
             && forall j :: 0 <= j < i ==> Due(imps, line[j], uid, now, session).None?
      else forall j :: 0 <= j < |line| ==> Due(imps, line[j], uid, now, session).None?
  {
    if line != [] && Due(imps, line[0], uid, now, session).None? {
      FirstDueIsDue(imps, line[1..], uid, now, session);
      var r := FirstDue(imps, line[1..], uid, now, session);
      if r.Some? {
        var i :| 0 <= i < |line[1..]| && line[1..][i] == r.value.campaign
          && forall j :: 0 <= j < i ==> Due(imps, line[1..][j], uid, now, session).None?;
        assert line[i + 1] == r.value.campaign;
        forall j | 0 <= j < i + 1 ensures Due(imps, line[j], uid, now, session).None? {
          if j > 0 { assert line[j] == line[1..][j - 1]; }
        }
      } else {
        forall j | 0 <= j < |line| ensures Due(imps, line[j], uid, now, session).None? {
          if j > 0 { assert line[j] == line[1..][j - 1]; }
        }
      }
    }
  }

  // ----- Sequential runs -----

  datatype Showing = Showing(key: Key, at: int)

  /** `history` lists every showing ever made, also those whose row has been swept. */
  datatype World = World(impressions: Impressions, history: seq<Showing>, clock: int)

  datatype Event =
    | Tick(elapsed: nat)
    | Ask(campaigns: seq<Campaign>, uid: string, role: string, session: Option<string>)
    | Reap(key: Key)

  predicate Expired(imps: Impressions, key: Key, clock: int) {
    key in imps && imps[key].expiresAt.Some? && imps[key].expiresAt.value <= clock
  }

  function Next(w: World, e: Event): World {
    match e
    case Tick(elapsed) => w.(clock := w.clock + elapsed)
    case Ask(campaigns, uid, role, session) =>
      var shown := FirstDue(w.impressions, Eligible(campaigns, role, w.clock), uid, w.clock, session);
      w.(impressions := Recorded(w.impressions, shown, w.clock),
         history := if shown.Some? then w.history + [Showing(shown.value.key, w.clock)] else w.history)
    case Reap(key) =>
      if Expired(w.impressions, key, w.clock) then w.(impressions := w.impressions - {key}) else w
  }

  function Run(w: World, events: seq<Event>): World
    decreases |events|
  {
    if events == [] then w else Run(Next(w, events[0]), events[1..])
  }

  /** Campaigns keep the frequency they were created with. */
  predicate FrequencyFixed(e: Event, frequencies: map<string, Frequency>) {
    e.Ask? ==> forall c :: c in e.campaigns ==> c.id in frequencies && c.frequency == frequencies[c.id]
  }

  predicate Periodic(k: Key, frequencies: map<string, Frequency>) {
    k.campaignId in frequencies && frequencies[k.campaignId] != OnceEver
  }

  /** A showing's row is still there unless its retention has run out; a once-ever row always is. */
  predicate RowRemains(w: World, x: Showing, frequencies: map<string, Frequency>) {
    x.at <= w.clock
    && (!Periodic(x.key, frequencies) || w.clock < x.at + RETENTION_MS ==>
          x.key in w.impressions
          && w.impressions[x.key] == Impression(x.at, if Periodic(x.key, frequencies) then Some(x.at + RETENTION_MS) else None))
  }

  /** Two showings of one campaign to one account, the later one second. */
  predicate SpacedOut(a: Showing, b: Showing, frequencies: map<string, Frequency>) {
    a.key.campaignId == b.key.campaignId && a.key.uid == b.key.uid ==>
      && a.at <= b.at
      && (a.key.period == b.key.period ==> Periodic(a.key, frequencies) && a.at + RETENTION_MS <= b.at)
      && (a.key.campaignId in frequencies && frequencies[a.key.campaignId] == EveryAppOpen ==> a.at + FLOOR_MS < b.at)
  }

  ghost predicate PeriodTrue(x: Showing, frequencies: map<string, Frequency>) {
    && x.key.campaignId in frequencies
    && exists session :: PeriodFor(frequencies[x.key.campaignId], x.at, session) == Some(x.key.period)
  }

  ghost predicate Inv(w: World, frequencies: map<string, Frequency>) {
    && (forall i :: 0 <= i < |w.history| ==> RowRemains(w, w.history[i], frequencies))
    && (forall i :: 0 <= i < |w.history| ==> PeriodTrue(w.history[i], frequencies))
    && (forall i, j :: 0 <= i < j < |w.history| ==> SpacedOut(w.history[i], w.history[j], frequencies))
  }

  lemma EligibleMembers(campaigns: seq<Campaign>, role: string, now: int)
    ensures forall c :: c in Eligible(campaigns, role, now) <==> c in campaigns && IsEligible(c, role, now)
  {
    var byDate := (c: Campaign) => -c.createdAt;
    var eligible := Sorting.Filter(campaigns, (c: Campaign) => IsEligible(c, role, now));
    Sorting.SortMembers(eligible, (c: Campaign) => -c.createdAt);
    Sorting.SortMembers(Sorting.Sort(eligible, (c: Campaign) => -c.createdAt), (c: Campaign) => -c.priority);
  }

  lemma AskKeepsInv(w: World, e: Event, frequencies: map<string, Frequency>)
    requires Inv(w, frequencies) && e.Ask? && FrequencyFixed(e, frequencies)
    ensures Inv(Next(w, e), frequencies)
  {
    hide Eligible, PeriodFor, FirstDue;
    var line := Eligible(e.campaigns, e.role, w.clock);
    FirstDueIsDue(w.impressions, line, e.uid, w.clock, e.session);
    EligibleMembers(e.campaigns, e.role, w.clock);
    var shown := FirstDue(w.impressions, line, e.uid, w.clock, e.session);
    if shown.Some? {
      var v := Next(w, e);
      var c, key := shown.value.campaign, shown.value.key;
      assert c in line;
      var x := Showing(key, w.clock);
      assert PeriodTrue(x, frequencies);
      forall i | 0 <= i < |w.history|
        ensures RowRemains(v, w.history[i], frequencies) && SpacedOut(w.history[i], x, frequencies)
      {
        assert RowRemains(w, w.history[i], frequencies);
      }
    }
  }

  lemma {:induction false} RunKeepsInv(w: World, events: seq<Event>, frequencies: map<string, Frequency>)
    requires Inv(w, frequencies)
    requires forall e :: e in events ==> FrequencyFixed(e, frequencies)
    ensures Inv(Run(w, events), frequencies)
    decreases |events|
  {
    if events != [] {
      if events[0].Ask? {
        AskKeepsInv(w, events[0], frequencies);
      } else {
        assert forall i :: 0 <= i < |w.history| ==> RowRemains(w, w.history[i], frequencies);
        assert Inv(Next(w, events[0]), frequencies);
      }
      RunKeepsInv(Next(w, events[0]), events[1..], frequencies);
    }
  }

  const EMPTY := World(map[], [], 0)

  /**
    The showing limits of every sequential run, sweeps included. Any two showings of one campaign to one
    account: never for ONCE_EVER; for EVERY_APP_OPEN strictly more than the floor apart, and so in
    different buckets; under one period key only after the retention has passed, so for DAILY and WEEKLY
    never within one Manila day or week.
   */
  lemma ShowingLimits(events: seq<Event>, frequencies: map<string, Frequency>, i: nat, j: nat)
    requires forall e :: e in events ==> FrequencyFixed(e, frequencies)
    requires var w := Run(EMPTY, events);
      && i < j < |w.history|
      && w.history[i].key.campaignId == w.history[j].key.campaignId && w.history[i].key.uid == w.history[j].key.uid
    ensures var w := Run(EMPTY, events);
      var a, b := w.history[i], w.history[j];
      a.key.campaignId in frequencies &&
      match frequencies[a.key.campaignId]
      case OnceEver => false
      case EveryAppOpen => a.at + FLOOR_MS < b.at && Bucket(a.at) != Bucket(b.at)
      case Daily => PhDay(a.at) != PhDay(b.at)
      case Weekly => PhWeek(a.at) != PhWeek(b.at)
      case EveryLogin => a.key.period == b.key.period ==> a.at + RETENTION_MS <= b.at
  {
    hide Run;
    RunKeepsInv(EMPTY, events, frequencies);
    var w := Run(EMPTY, events);
    assert SpacedOut(w.history[i], w.history[j], frequencies);
    assert PeriodTrue(w.history[i], frequencies) && PeriodTrue(w.history[j], frequencies);
  }
}
