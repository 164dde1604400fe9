/**
  Concurrent requests for an EVERY_APP_OPEN campaign (tryRecordImpression in
  src/campaigns/campaigns.service.ts): each reads its clock, later checks the floor, later inserts.
 */
module CampaignRace {
  import opened Wrappers
  import opened Campaigns

  datatype Request = Request(campaignId: string, uid: string, now: int, checked: bool)

  /** A showing, and when its row was inserted, which may be long after the clock reading it carries. */
  datatype Landing = Landing(key: Key, at: int, landedAt: int)

  datatype Race = Race(impressions: Impressions, history: seq<Landing>, clock: int, requests: map<nat, Request>)

  datatype Step =
    | Pass(elapsed: nat)
    | Begin(request: nat, campaignId: string, uid: string)
    | CheckFloor(request: nat)
    | Insert(request: nat)
    | Sweep(key: Key)

  function KeyFor(r: Request): Key { Key(r.campaignId, r.uid, OfBucket(Bucket(r.now))) }

  /** The request took so long that a row of its own bucket may have been swept meanwhile. */
  predicate Late(x: Landing) { x.landedAt - x.at > RETENTION_MS - FLOOR_MS }

  function Next(w: Race, e: Step): Race {
    match e
    case Pass(elapsed) => w.(clock := w.clock + elapsed)
    case Begin(id, campaignId, uid) =>
      if id in w.requests then w else w.(requests := w.requests[id := Request(campaignId, uid, w.clock, false)])
    case CheckFloor(id) =>
      if id !in w.requests then w
      else
        var r := w.requests[id];
        if ShownWithinFloor(w.impressions, r.campaignId, r.uid, r.now) then w.(requests := w.requests - {id})
        else w.(requests := w.requests[id := r.(checked := true)])
    case Insert(id) =>
      if id !in w.requests || !w.requests[id].checked then w
      else
        var r := w.requests[id];
        var done := w.(requests := w.requests - {id});
        if KeyFor(r) in w.impressions then done
        else done.(impressions := w.impressions[KeyFor(r) := Impression(r.now, ExpiryFor(EveryAppOpen, r.now))],
                   history := w.history + [Landing(KeyFor(r), r.now, w.clock)])
    case Sweep(key) =>
      if Expired(w.impressions, key, w.clock) then w.(impressions := w.impressions - {key}) else w
  }

  function Run(w: Race, events: seq<Step>): Race
    decreases |events|
  {
    if events == [] then w else Run(Next(w, events[0]), events[1..])
  }

  predicate RowRemains(w: Race, x: Landing) {
    && x.key.period == OfBucket(Bucket(x.at))
    && (w.clock < x.at + RETENTION_MS ==>
          x.key in w.impressions && w.impressions[x.key] == Impression(x.at, Some(x.at + RETENTION_MS)))
  }

  ghost predicate Inv(w: Race) {
    && (forall i :: 0 <= i < |w.history| ==> RowRemains(w, w.history[i]))
    && (forall i, j :: 0 <= i < j < |w.history| ==> w.history[i].key != w.history[j].key || Late(w.history[j]))
  }

  lemma SameBucketIsClose(a: int, b: int)
    requires Bucket(a) == Bucket(b)
    ensures a < b + FLOOR_MS
  {
  }

  lemma NextKeepsInv(w: Race, e: Step)
    requires Inv(w)
    ensures Inv(Next(w, e))
  {
    assert forall i :: 0 <= i < |w.history| ==> RowRemains(w, w.history[i]);
    if e.Insert? && e.request in w.requests && |Next(w, e).history| > |w.history| {
      var r := w.requests[e.request];
      forall i | 0 <= i < |w.history| && w.history[i].key == KeyFor(r) ensures w.clock - r.now > RETENTION_MS - FLOOR_MS {
        // The insert did not collide with the earlier row, so that row has been swept.
        SameBucketIsClose(w.history[i].at, r.now);
      }
    }
  }

  lemma {:induction false} RunKeepsInv(w: Race, events: seq<Step>)
    requires Inv(w)
    ensures Inv(Run(w, events))
    decreases |events|
  {
    if events != [] {
      NextKeepsInv(w, events[0]);
      RunKeepsInv(Next(w, events[0]), events[1..]);
    }
  }

  const EMPTY := Race(map[], [], 0, map[])

  predicate Inside(x: Landing, campaignId: string, uid: string, from: int) {
    x.key.campaignId == campaignId && x.key.uid == uid && from <= x.at < from + FLOOR_MS
  }

  /**
    In any interleaving a half-open span of the floor's length holds at most two showings to an account,
    unless a request was under way for longer than the retention less the floor.
   */
  lemma AtMostTwoPerSpan(events: seq<Step>, campaignId: string, uid: string, from: int, i: nat, j: nat, k: nat)
    requires i < j < k < |Run(EMPTY, events).history|
    ensures var h := Run(EMPTY, events).history;
      Inside(h[i], campaignId, uid, from) && Inside(h[j], campaignId, uid, from) && Inside(h[k], campaignId, uid, from) ==>
        Late(h[j]) || Late(h[k])
  {
    hide Run;
    RunKeepsInv(EMPTY, events);
    var w := Run(EMPTY, events);
    var h := w.history;
    assert RowRemains(w, h[i]) && RowRemains(w, h[j]) && RowRemains(w, h[k]);
    if Inside(h[i], campaignId, uid, from) && Inside(h[j], campaignId, uid, from) && Inside(h[k], campaignId, uid, from) {
      SpanTouchesTwoBuckets(from, h[i].at, h[j].at, h[k].at);
    }
  }

  lemma SpanTouchesTwoBuckets(from: int, a: int, b: int, c: int)
    requires from <= a < from + FLOOR_MS && from <= b < from + FLOOR_MS && from <= c < from + FLOOR_MS
    ensures Bucket(a) == Bucket(b) || Bucket(a) == Bucket(c) || Bucket(b) == Bucket(c)
  {
    var base := Bucket(from);
    assert base <= Bucket(a) <= base + 1 && base <= Bucket(b) <= base + 1 && base <= Bucket(c) <= base + 1;
  }

  /** Two is attained, a millisecond apart: both floor checks run before either insert, across a bucket boundary. */
  lemma TwoShowingsAMillisecondApart(campaignId: string, uid: string) returns (events: seq<Step>)
    ensures var h := Run(EMPTY, events).history;
      && |h| == 2 && h[0].key.uid == h[1].key.uid && h[0].key.campaignId == h[1].key.campaignId
      && h[1].at == h[0].at + 1
  {
    var opening := [Pass(FLOOR_MS - 1), Begin(0, campaignId, uid), Pass(1), Begin(1, campaignId, uid)];
    var a, b := Request(campaignId, uid, FLOOR_MS - 1, true), Request(campaignId, uid, FLOOR_MS, true);
    var w4 := Race(map[], [], FLOOR_MS, map[0 := a.(checked := false), 1 := b.(checked := false)]);
    var w6 := Race(map[], [], FLOOR_MS, map[0 := a, 1 := b]);
    events := opening + ([CheckFloor(0), CheckFloor(1)] + [Insert(0), Insert(1)]);
    RunConcat(EMPTY, opening, [CheckFloor(0), CheckFloor(1)] + [Insert(0), Insert(1)]);
    RunConcat(w4, [CheckFloor(0), CheckFloor(1)], [Insert(0), Insert(1)]);
    assert Run(EMPTY, opening) == w4 by {
      var w1 := Next(EMPTY, opening[0]);
      var w2 := Next(w1, opening[1]);
      var w3 := Next(w2, opening[2]);
      assert Next(w3, opening[3]) == w4;
      RunStep(EMPTY, opening);
      RunStep(w1, opening[1..]);
      RunStep(w2, opening[2..]);
      RunStep(w3, opening[3..]);
    }
    assert Run(w4, [CheckFloor(0), CheckFloor(1)]) == w6;
    InsertsBoth(w6, a, b);
  }

  /**
    A request that outlives the retention is what breaks the bound: three requests pass the floor check at
    one moment, and each inserts after the row before it has been swept.
   */
  lemma LateRequestsExceedTwo(campaignId: string, uid: string) returns (events: seq<Step>)
    ensures var h := Run(EMPTY, events).history;
      |h| == 3 && (forall i :: 0 <= i < 3 ==> Inside(h[i], campaignId, uid, 0)) && !Late(h[0]) && Late(h[1]) && Late(h[2])
  {
    var r := Request(campaignId, uid, 0, true);
    var key := KeyFor(r);
    var opening := [Begin(0, campaignId, uid), Begin(1, campaignId, uid), Begin(2, campaignId, uid),
                    CheckFloor(0), CheckFloor(1), CheckFloor(2)];
    var ending := [Insert(0), Pass(RETENTION_MS), Sweep(key), Insert(1), Sweep(key), Insert(2)];
    events := opening + ending;
    var w6 := Race(map[], [], 0, map[0 := r, 1 := r, 2 := r]);
    AllPassTheFloor(opening, r);
    RunConcat(EMPTY, opening, ending);
    LateInserts(w6, r, key, ending);
  }

  lemma AllPassTheFloor(opening: seq<Step>, r: Request)
    requires r.now == 0 && r.checked
    requires opening == [Begin(0, r.campaignId, r.uid), Begin(1, r.campaignId, r.uid), Begin(2, r.campaignId, r.uid),
                         CheckFloor(0), CheckFloor(1), CheckFloor(2)]
    ensures Run(EMPTY, opening) == Race(map[], [], 0, map[0 := r, 1 := r, 2 := r])
  {
    var unchecked := r.(checked := false);
    var w1 := Next(EMPTY, opening[0]);
    var w2 := Next(w1, opening[1]);
    var w3 := Next(w2, opening[2]);
    assert w3 == Race(map[], [], 0, map[0 := unchecked, 1 := unchecked, 2 := unchecked]);
    var w4 := Next(w3, opening[3]);
    var w5 := Next(w4, opening[4]);
    assert Next(w5, opening[5]) == Race(map[], [], 0, map[0 := r, 1 := r, 2 := r]);
    RunStep(EMPTY, opening);
    RunStep(w1, opening[1..]);
    RunStep(w2, opening[2..]);
    RunStep(w3, opening[3..]);
    RunStep(w4, opening[4..]);
    RunStep(w5, opening[5..]);
  }

  lemma LateInserts(w: Race, r: Request, key: Key, ending: seq<Step>)
    requires r.now == 0 && r.checked && key == KeyFor(r)
    requires w == Race(map[], [], 0, map[0 := r, 1 := r, 2 := r])
    requires ending == [Insert(0), Pass(RETENTION_MS), Sweep(key), Insert(1), Sweep(key), Insert(2)]
    ensures Run(w, ending).history == [Landing(key, 0, 0), Landing(key, 0, RETENTION_MS), Landing(key, 0, RETENTION_MS)]
  {
    var row := Impression(0, Some(RETENTION_MS));
    var w1 := Next(w, ending[0]);
    assert w1 == Race(map[key := row], [Landing(key, 0, 0)], 0, map[1 := r, 2 := r]);
    var w2 := Next(w1, ending[1]);
    var w3 := Next(w2, ending[2]);
    assert w3 == Race(map[], [Landing(key, 0, 0)], RETENTION_MS, map[1 := r, 2 := r]);
    var w4 := Next(w3, ending[3]);
    assert w4 == Race(map[key := row], [Landing(key, 0, 0), Landing(key, 0, RETENTION_MS)], RETENTION_MS, map[2 := r]);
    var w5 := Next(w4, ending[4]);
    assert w5 == w4.(impressions := map[]);
    var w6 := Next(w5, ending[5]);
    RunStep(w, ending);
    RunStep(w1, ending[1..]);
    RunStep(w2, ending[2..]);
    RunStep(w3, ending[3..]);
    RunStep(w4, ending[4..]);
    RunStep(w5, ending[5..]);
  }

  lemma RunStep(w: Race, steps: seq<Step>)
    requires steps != []
    ensures Run(w, steps) == Run(Next(w, steps[0]), steps[1..])
  {
  }

  lemma InsertsBoth(w: Race, a: Request, b: Request)
    requires w == Race(map[], [], FLOOR_MS, map[0 := a, 1 := b]) && a.checked && b.checked
    requires a.now == FLOOR_MS - 1 && b.now == FLOOR_MS
    ensures Run(w, [Insert(0), Insert(1)]).history == [Landing(KeyFor(a), a.now, FLOOR_MS), Landing(KeyFor(b), b.now, FLOOR_MS)]
  {
    assert Bucket(a.now) == 0 && Bucket(b.now) == 1;
    var v := Next(w, Insert(0));
    assert v.history == [Landing(KeyFor(a), a.now, FLOOR_MS)] && v.requests == map[1 := b];
    assert Next(v, Insert(1)).history == v.history + [Landing(KeyFor(b), b.now, FLOOR_MS)];
    assert Run(v, [Insert(1)]) == Next(v, Insert(1));
    assert [Insert(0), Insert(1)][1..] == [Insert(1)];
  }

  lemma {:induction false} RunConcat(w: Race, first: seq<Step>, second: seq<Step>)
    ensures Run(w, first + second) == Run(Run(w, first), second)
    decreases |first|
  {
    if first == [] {
      assert first + second == second;
    } else {
      assert (first + second)[1..] == first[1..] + second;
      RunConcat(Next(w, first[0]), first[1..], second);
    }
  }
}
