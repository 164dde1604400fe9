/**
  The notification feed (src/notifications/notifications-feed.service.ts): direct rows carry their own
  read stamp, branch rows are read through per-reader records, and one watermark per account covers
  everything older.

  Row ids are handed out in order and never reused. Times are milliseconds of one non-decreasing clock.
 */
module NotificationFeed {
  import opened Wrappers

  const UNREAD_COUNT_CAP := 99
  const RETENTION_MS := 90 * 24 * 60 * 60 * 1000

  datatype Audience = User | Branch

  datatype Row = Row(
    audience: Audience, uid: Option<string>, branchId: Option<string>, requiredPermission: Option<string>,
    sourceEventId: Option<string>, readAt: Option<int>, createdAt: int, expiresAt: int)

  datatype ReadRecord = ReadRecord(createdAt: int, expiresAt: int)

  type ReadKey = (string, nat)

  datatype Feed = Feed(rows: map<nat, Row>, records: map<ReadKey, ReadRecord>, cursors: map<string, int>, nextId: nat)

  datatype Scope = Scope(uid: string, branchIds: seq<string>, granted: set<string>)

  datatype Input = Input(
    audience: Audience, uid: Option<string>, branchId: Option<string>, requiredPermission: Option<string>,
    sourceEventId: Option<string>)

  // ----- Reading -----

  predicate Visible(row: Row, scope: Scope, now: int) {
    && row.expiresAt > now
    && match row.audience
       case User => row.uid == Some(scope.uid)
       case Branch =>
         && row.branchId.Some? && row.branchId.value in scope.branchIds
         && (row.requiredPermission.None? || row.requiredPermission.value in scope.granted)
  }

  predicate UnderWatermark(feed: Feed, uid: string, row: Row) {
    uid in feed.cursors && row.createdAt <= feed.cursors[uid]
  }

  /** What resolveReadState says of one row. */
  predicate IsRead(feed: Feed, uid: string, id: nat, row: Row) {
    match row.audience
    case User => row.readAt.Some? || UnderWatermark(feed, uid, row)
    case Branch => UnderWatermark(feed, uid, row) || (uid, id) in feed.records
  }

  /** The rows the badge aggregation lets through: its match stage, then the lookup that must come back empty. */
  function CountedIds(feed: Feed, scope: Scope, now: int): set<nat> {
    set id | id in feed.rows
             && Visible(feed.rows[id], scope, now)
             && (feed.rows[id].audience == Branch || feed.rows[id].readAt.None?)
             && (scope.uid in feed.cursors ==> feed.rows[id].createdAt > feed.cursors[scope.uid])
             && (scope.uid, id) !in feed.records
  }

  function UnreadCount(feed: Feed, scope: Scope, now: int): nat {
    Min(Min(|CountedIds(feed, scope, now)|, UNREAD_COUNT_CAP + 1), UNREAD_COUNT_CAP)
  }

  /** The rows the feed shows this account as unread. */
  function UnreadIds(feed: Feed, scope: Scope, now: int): set<nat> {
    set id | id in feed.rows
             && Visible(feed.rows[id], scope, now)
             && !IsRead(feed, scope.uid, id, feed.rows[id])
  }

  // ----- Writes, one stored change each -----

  predicate Reported(feed: Feed, event: Option<string>) {
    event.Some? && exists id :: id in feed.rows && feed.rows[id].sourceEventId == event
  }

  function Persist(feed: Feed, input: Input, now: int): Feed {
    if Reported(feed, input.sourceEventId) then feed
    else
      var row := Row(input.audience, input.uid, input.branchId, input.requiredPermission,
                     input.sourceEventId, None, now, now + RETENTION_MS);
      feed.(rows := feed.rows[feed.nextId := row], nextId := feed.nextId + 1)
  }

  /** The write of markNotificationRead, made from the row it looked up earlier. */
  function MarkOne(feed: Feed, uid: string, id: nat, found: Row, now: int): Feed {
    match found.audience
    case User =>
      if id in feed.rows && feed.rows[id].readAt.None?
      then feed.(rows := feed.rows[id := feed.rows[id].(readAt := Some(now))])
      else feed
    case Branch =>
      if (uid, id) in feed.records then feed
      else feed.(records := feed.records[(uid, id) := ReadRecord(now, found.expiresAt)])
  }

  function WriteCursor(feed: Feed, uid: string, now: int): Feed {
    feed.(cursors := feed.cursors[uid := now])
  }

  function Stamped(row: Row, uid: string, now: int): Row {
    if row.audience == User && row.uid == Some(uid) && row.readAt.None? && row.createdAt <= now
    then row.(readAt := Some(now)) else row
  }

  function StampDirect(feed: Feed, uid: string, now: int): Feed {
    feed.(rows := map id | id in feed.rows :: Stamped(feed.rows[id], uid, now))
  }

  function DeleteReads(feed: Feed, uid: string, now: int): Feed {
    feed.(records := map k | k in feed.records && !(k.0 == uid && feed.records[k].createdAt <= now) :: feed.records[k])
  }

  /** Whom the caller meant to reach. */
  predicate Addressed(input: Input, scope: Scope) {
    match input.audience
    case User => input.uid == Some(scope.uid)
    case Branch =>
      && input.branchId.Some? && input.branchId.value in scope.branchIds
      && (input.requiredPermission.None? || input.requiredPermission.value in scope.granted)
  }

  /** Ids are not handed out twice, and no event is reported by two rows. */
  ghost predicate WellKept(feed: Feed) {
    && (forall id :: id in feed.rows ==> id < feed.nextId)
    && (forall key :: key in feed.records ==> key.1 < feed.nextId)
    && forall i, j | i in feed.rows && j in feed.rows ::
         feed.rows[i].sourceEventId.Some? && feed.rows[i].sourceEventId == feed.rows[j].sourceEventId ==> i == j
  }

  /** A row as new: for whoever sees it, unread in the feed and in the badge unless the watermark is already past it. */
  ghost predicate ArrivesUnread(feed: Feed, id: nat, now: int) {
    && id in feed.rows
    && forall scope :: Visible(feed.rows[id], scope, now) ==>
         && (id in UnreadIds(feed, scope, now) <==> !UnderWatermark(feed, scope.uid, feed.rows[id]))
         && (id in CountedIds(feed, scope, now) <==> !UnderWatermark(feed, scope.uid, feed.rows[id]))
  }

  /** The service over its stored collections, each method run without interruption. */
  class NotificationsFeedService {
    var rows: map<nat, Row>
    var records: map<ReadKey, ReadRecord>
    var cursors: map<string, int>
    var nextId: nat

    function State(): Feed
      reads this
    {
      Feed(rows, records, cursors, nextId)
    }

    ghost predicate Valid()
      reads this
    {
      WellKept(State())
    }

    constructor ()
      ensures Valid() && rows == map[] && records == map[] && cursors == map[]
    {
      rows, records, cursors, nextId := map[], map[], map[], 0;
    }

    /** One event, one row: a repeat is dropped, anything else arrives unread for its audience and for nobody else. */
    method PersistRow(input: Input, now: int) returns (id: Option<nat>)
      requires Valid()
      modifies this
      ensures Valid()
      ensures id.None? <==> Reported(old(State()), input.sourceEventId)
      ensures id.None? ==> State() == old(State())
      ensures id.Some? ==>
        && id.value !in old(rows) && id.value in rows && rows - {id.value} == old(rows)
        && records == old(records) && cursors == old(cursors)
        && rows[id.value].sourceEventId == input.sourceEventId
        && rows[id.value].createdAt == now && rows[id.value].expiresAt == now + RETENTION_MS
        && ArrivesUnread(State(), id.value, now)
        && forall scope :: Visible(rows[id.value], scope, now) <==> Addressed(input, scope)
    {
      if input.sourceEventId.Some? && exists i :: i in rows && rows[i].sourceEventId == input.sourceEventId {
        return None;
      }
      rows := rows[nextId := Row(input.audience, input.uid, input.branchId, input.requiredPermission,
                                 input.sourceEventId, None, now, now + RETENTION_MS)];
      id := Some(nextId);
      nextId := nextId + 1;
    }

    /** Fills the page's read map row by row. */
    method ResolveReadState(uid: string, page: seq<nat>) returns (state: map<nat, bool>)
      requires Valid()
      requires forall id :: id in page ==> id in rows
      ensures state.Keys == set id | id in page
      ensures forall id :: id in page ==> state[id] == IsRead(State(), uid, id, rows[id])
    {
      state := map[];
      for i := 0 to |page|
        invariant state.Keys == set id | id in page[..i]
        invariant forall id :: id in page[..i] ==> state[id] == IsRead(State(), uid, id, rows[id])
      {
        var id := page[i];
        assert page[..i + 1] == page[..i] + [id];
        var row := rows[id];
        var underWatermark := uid in cursors && row.createdAt <= cursors[uid];
        state := state[id := if row.audience == User then row.readAt.Some? || underWatermark
                             else underWatermark || (uid, id) in records];
      }
      assert page[..|page|] == page;
    }

    method MarkNotificationRead(scope: Scope, id: nat, now: int) returns (done: bool)
      requires Valid()
      modifies this
      ensures Valid()
      ensures done <==> id in old(rows) && Visible(old(rows)[id], scope, now)
      ensures State() == if done then MarkOne(old(State()), scope.uid, id, old(rows)[id], now) else old(State())
      ensures done ==> id in rows && IsRead(State(), scope.uid, id, rows[id])
    {
      if id !in rows || !Visible(rows[id], scope, now) {
        return false;
      }
      var row := rows[id];
      if row.audience == User {
        if row.readAt.None? {
          rows := rows[id := row.(readAt := Some(now))];
        }
      } else if (scope.uid, id) !in records {
        records := records[(scope.uid, id) := ReadRecord(now, row.expiresAt)];
      }
      return true;
    }

    method MarkAllNotificationsRead(uid: string, now: int)
      requires Valid()
      modifies this
      ensures Valid()
      ensures State() == DeleteReads(
        StampDirect(WriteCursor(old(State()), uid, now), uid, now), uid, now)
      ensures forall id :: id in rows && rows[id].createdAt <= now ==> IsRead(State(), uid, id, rows[id])
    {
      cursors := cursors[uid := now];
      rows := map id | id in rows :: Stamped(rows[id], uid, now);
      records := map k | k in records && !(k.0 == uid && records[k].createdAt <= now) :: records[k];
    }
  }

  // ----- The machine: operations interleave between their stored changes -----

  datatype Op =
    | Marking(uid: string, id: nat, found: Row)
    | MarkingAll(uid: string, now: int, cursorWritten: bool)

  datatype World = World(feed: Feed, clock: int, ops: map<nat, Op>)

  datatype Event =
    | Tick(elapsed: nat)
    | PersistRow(input: Input)
    | FindRow(op: nat, scope: Scope, id: nat)
    | WriteMark(op: nat)
    | BeginAll(op: nat, uid: string)
    | WriteCursorOf(op: nat)
    | StampOf(op: nat)
    | DeleteReadsOf(op: nat)
    | ReapRow(id: nat)
    | ReapRead(key: ReadKey)

  predicate AllUnderWay(w: World, op: nat) { op in w.ops && w.ops[op].MarkingAll? }

  function Next(w: World, e: Event): World {
    match e
    case Tick(elapsed) => w.(clock := w.clock + elapsed)
    case PersistRow(input) => w.(feed := Persist(w.feed, input, w.clock))
    case FindRow(op, scope, id) =>
      if op !in w.ops && id in w.feed.rows && Visible(w.feed.rows[id], scope, w.clock)
      then w.(ops := w.ops[op := Marking(scope.uid, id, w.feed.rows[id])]) else w
    case WriteMark(op) =>
      if op in w.ops && w.ops[op].Marking?
      then w.(feed := MarkOne(w.feed, w.ops[op].uid, w.ops[op].id, w.ops[op].found, w.clock), ops := w.ops - {op})
      else w
    case BeginAll(op, uid) =>
      if op !in w.ops then w.(ops := w.ops[op := MarkingAll(uid, w.clock, false)]) else w
    case WriteCursorOf(op) =>
      if AllUnderWay(w, op) && !w.ops[op].cursorWritten
      then w.(feed := WriteCursor(w.feed, w.ops[op].uid, w.ops[op].now),
              ops := w.ops[op := w.ops[op].(cursorWritten := true)])
      else w
    case StampOf(op) =>
      if AllUnderWay(w, op) && w.ops[op].cursorWritten
      then w.(feed := StampDirect(w.feed, w.ops[op].uid, w.ops[op].now)) else w
    case DeleteReadsOf(op) =>
      if AllUnderWay(w, op) && w.ops[op].cursorWritten
      then w.(feed := DeleteReads(w.feed, w.ops[op].uid, w.ops[op].now)) else w
    case ReapRow(id) =>
      if id in w.feed.rows && w.feed.rows[id].expiresAt <= w.clock
      then w.(feed := w.feed.(rows := w.feed.rows - {id})) else w
    case ReapRead(key) =>
      if key in w.feed.records && w.feed.records[key].expiresAt <= w.clock
      then w.(feed := w.feed.(records := w.feed.records - {key})) else w
  }

  function Run(w: World, events: seq<Event>): World
    decreases |events|
  {
    if events == [] then w else Run(Next(w, events[0]), events[1..])
  }

  const EMPTY := World(Feed(map[], map[], map[], 0), 0, map[])

  // ----- Invariants -----

  predicate SameRow(a: Row, b: Row) { a.(readAt := None) == b.(readAt := None) }

  /** A read record belongs to a branch row, was made after it and expires with it. */
  predicate ReadFits(w: World, key: ReadKey) {
    key in w.feed.records ==>
      var r := w.feed.records[key];
      && key.1 < w.feed.nextId && r.createdAt <= w.clock
      && (key.1 in w.feed.rows ==>
            var row := w.feed.rows[key.1];
            row.audience == Branch && row.createdAt <= r.createdAt && row.expiresAt == r.expiresAt)
  }

  predicate RowFits(w: World, id: nat) {
    id in w.feed.rows ==> id < w.feed.nextId && w.feed.rows[id].createdAt <= w.clock
  }

  predicate OpFits(w: World, op: nat) {
    op in w.ops ==>
      match w.ops[op]
      case Marking(_, id, found) =>
        && id < w.feed.nextId && found.createdAt <= w.clock
        && (id in w.feed.rows ==> SameRow(w.feed.rows[id], found))
      case MarkingAll(_, now, _) => now <= w.clock
  }

  predicate CursorFits(w: World, uid: string) {
    uid in w.feed.cursors ==> w.feed.cursors[uid] <= w.clock
  }

  ghost predicate Inv(w: World) {
    && (forall key :: ReadFits(w, key))
    && (forall id :: RowFits(w, id))
    && (forall op :: OpFits(w, op))
    && (forall uid :: CursorFits(w, uid))
  }

  lemma NextKeepsReadFits(w: World, e: Event, key: ReadKey)
    requires Inv(w)
    ensures ReadFits(Next(w, e), key)
  {
    hide Visible, Reported, OpFits, CursorFits;
    assert ReadFits(w, key) && RowFits(w, key.1);
    if e.WriteMark? && e.op in w.ops && w.ops[e.op].Marking? { MarkingFits(w, e.op); }
  }

  /** What a marking operation under way may rely on. */
  lemma MarkingFits(w: World, op: nat)
    requires Inv(w) && op in w.ops && w.ops[op].Marking?
    ensures var m := w.ops[op];
      m.id < w.feed.nextId && m.found.createdAt <= w.clock && (m.id in w.feed.rows ==> SameRow(w.feed.rows[m.id], m.found))
  {
    assert OpFits(w, op);
  }

  lemma NextKeepsRowFits(w: World, e: Event, id: nat)
    requires Inv(w)
    ensures RowFits(Next(w, e), id)
  {
    hide Visible, Reported, ReadFits, OpFits, CursorFits;
    assert RowFits(w, id);
  }

  lemma NextKeepsOpFits(w: World, e: Event, op: nat)
    requires Inv(w)
    ensures OpFits(Next(w, e), op)
  {
    hide Visible, Reported, ReadFits, CursorFits;
    assert OpFits(w, op);
    if e.FindRow? { assert RowFits(w, e.id); }
  }

  lemma NextKeepsCursorFits(w: World, e: Event, uid: string)
    requires Inv(w)
    ensures CursorFits(Next(w, e), uid)
  {
    hide Visible, Reported, ReadFits, RowFits;
    assert CursorFits(w, uid);
    if e.WriteCursorOf? { assert OpFits(w, e.op); }
  }

  lemma NextKeepsInv(w: World, e: Event)
    requires Inv(w)
    ensures Inv(Next(w, e))
  {
    hide Next, ReadFits, RowFits, OpFits, CursorFits;
    forall key ensures ReadFits(Next(w, e), key) { NextKeepsReadFits(w, e, key); }
    forall id ensures RowFits(Next(w, e), id) { NextKeepsRowFits(w, e, id); }
    forall op ensures OpFits(Next(w, e), op) { NextKeepsOpFits(w, e, op); }
    forall uid ensures CursorFits(Next(w, e), uid) { NextKeepsCursorFits(w, e, uid); }
  }

  lemma {:induction false} RunKeepsInv(w: World, events: seq<Event>)
    requires Inv(w)
    ensures Inv(Run(w, events))
    decreases |events|
  {
    if events != [] {
      NextKeepsInv(w, events[0]);
      RunKeepsInv(Next(w, events[0]), events[1..]);
    }
  }

  // ----- The badge refines the feed -----

  /** What the badge counts is unread; it misses exactly the unread direct rows that carry a read record. */
  lemma BadgeMisses(feed: Feed, scope: Scope, now: int)
    ensures CountedIds(feed, scope, now) <= UnreadIds(feed, scope, now)
    ensures UnreadIds(feed, scope, now) - CountedIds(feed, scope, now)
            == set id | id in UnreadIds(feed, scope, now) && feed.rows[id].audience == User
                        && (scope.uid, id) in feed.records
  {
  }

  /** In every reachable state the badge is the number of visible unread rows, capped. */
  lemma BadgeRefinesFeed(events: seq<Event>, scope: Scope)
    ensures var w := Run(EMPTY, events);
      UnreadCount(w.feed, scope, w.clock) == Min(|UnreadIds(w.feed, scope, w.clock)|, UNREAD_COUNT_CAP)
  {
    RunKeepsInv(EMPTY, events);
    var w := Run(EMPTY, events);
    BadgeMisses(w.feed, scope, w.clock);
    forall id | id in UnreadIds(w.feed, scope, w.clock) ensures id in CountedIds(w.feed, scope, w.clock) {
      assert ReadFits(w, (scope.uid, id));
    }
    assert CountedIds(w.feed, scope, w.clock) == UnreadIds(w.feed, scope, w.clock);
  }

  // ----- Read is permanent -----

  /** A cursor write that does not move this account's watermark backwards. */
  predicate CursorAdvances(w: World, e: Event) {
    e.WriteCursorOf? && AllUnderWay(w, e.op) && !w.ops[e.op].cursorWritten && w.ops[e.op].uid in w.feed.cursors ==>
      w.feed.cursors[w.ops[e.op].uid] <= w.ops[e.op].now
  }

  predicate WrittenCovers(w: World, op: nat) {
    op in w.ops && w.ops[op].MarkingAll? && w.ops[op].cursorWritten ==>
      w.ops[op].uid in w.feed.cursors && w.ops[op].now <= w.feed.cursors[w.ops[op].uid]
  }

  ghost predicate CursorsCover(w: World) { forall op :: WrittenCovers(w, op) }

  lemma NextKeepsCover(w: World, e: Event)
    requires CursorsCover(w) && CursorAdvances(w, e)
    ensures CursorsCover(Next(w, e))
  {
    forall op ensures WrittenCovers(Next(w, e), op) { assert WrittenCovers(w, op); }
  }

  /**
    One step, whichever it is - including each single write of mark-all, its deletion of the records
    the watermark supersedes, and the expiry sweeps - leaves every read, unexpired row read.
   */
  lemma StepKeepsRead(w: World, e: Event, uid: string, id: nat)
    requires Inv(w) && CursorsCover(w) && CursorAdvances(w, e)
    requires id in w.feed.rows && id in Next(w, e).feed.rows
    requires Next(w, e).feed.rows[id].expiresAt > Next(w, e).clock
    requires IsRead(w.feed, uid, id, w.feed.rows[id])
    ensures IsRead(Next(w, e).feed, uid, id, Next(w, e).feed.rows[id])
  {
    assert ReadFits(w, (uid, id)) && RowFits(w, id);
    if e.DeleteReadsOf? { assert WrittenCovers(w, e.op); }
    if e.PersistRow? { assert id != w.feed.nextId; }
  }

  ghost predicate CursorsAdvance(w: World, events: seq<Event>)
    decreases |events|
  {
    events != [] ==> CursorAdvances(w, events[0]) && CursorsAdvance(Next(w, events[0]), events[1..])
  }

  lemma StepKeepsIdentity(w: World, e: Event, id: nat)
    requires Inv(w) && id < w.feed.nextId
    ensures id < Next(w, e).feed.nextId
    ensures id in Next(w, e).feed.rows ==> id in w.feed.rows && SameRow(w.feed.rows[id], Next(w, e).feed.rows[id])
    ensures w.clock <= Next(w, e).clock
  {
  }

  lemma {:induction false} RunKeepsIdentity(w: World, events: seq<Event>, id: nat)
    requires Inv(w) && id < w.feed.nextId
    ensures id in Run(w, events).feed.rows ==>
      id in w.feed.rows && w.feed.rows[id].expiresAt == Run(w, events).feed.rows[id].expiresAt
    ensures w.clock <= Run(w, events).clock
    decreases |events|
  {
    if events != [] {
      StepKeepsIdentity(w, events[0], id);
      NextKeepsInv(w, events[0]);
      RunKeepsIdentity(Next(w, events[0]), events[1..], id);
    }
  }

  /** Over a whole run in which no watermark moves backwards, what was read stays read while it is visible. */
  lemma {:induction false} ReadIsPermanent(w: World, events: seq<Event>, uid: string, id: nat)
    requires Inv(w) && CursorsCover(w) && CursorsAdvance(w, events)
    requires id in w.feed.rows && IsRead(w.feed, uid, id, w.feed.rows[id])
    requires var v := Run(w, events); id in v.feed.rows && v.feed.rows[id].expiresAt > v.clock
    ensures var v := Run(w, events); IsRead(v.feed, uid, id, v.feed.rows[id])
    decreases |events|
  {
    if events != [] {
      var x := Next(w, events[0]);
      assert RowFits(w, id);
      NextKeepsInv(w, events[0]);
      NextKeepsCover(w, events[0]);
      StepKeepsIdentity(w, events[0], id);
      RunKeepsIdentity(x, events[1..], id);
      StepKeepsRead(w, events[0], uid, id);
      ReadIsPermanent(x, events[1..], uid, id);
    }
  }

  /** Mark-alls that do not overlap are such runs: each one's time is read after every watermark in store. */
  lemma UninterruptedMarkAllAdvances(w: World, op: nat, uid: string)
    requires Inv(w) && op !in w.ops
    ensures CursorsAdvance(w, [BeginAll(op, uid), WriteCursorOf(op), StampOf(op), DeleteReadsOf(op)])
  {
    var events := [BeginAll(op, uid), WriteCursorOf(op), StampOf(op), DeleteReadsOf(op)];
    assert CursorFits(w, uid);
    var w1 := Next(w, events[0]);
    var w2 := Next(w1, events[1]);
    assert CursorsAdvance(w2, events[2..]) by {
      assert events[2..][1..] == [DeleteReadsOf(op)];
      assert CursorsAdvance(Next(Next(w2, events[2]), events[3]), []);
      assert events[2..][1..][1..] == [];
    }
    assert events[1..][1..] == events[2..];
  }

  /**
    The watermark write itself is safe for every feed exactly when it does not move the watermark
    backwards; the source writes unconditionally.
   */
  lemma CursorWriteSafeExactly(uid: string, stored: Option<int>, now: int)
    ensures (forall feed: Feed, id: nat ::
               CursorIs(feed, uid, stored) && id in feed.rows && IsRead(feed, uid, id, feed.rows[id]) ==>
                 IsRead(WriteCursor(feed, uid, now), uid, id, feed.rows[id]))
            <==> (stored.Some? ==> stored.value <= now)
  {
    if stored.Some? && now < stored.value {
      var row := Row(Branch, None, Some("b"), None, None, None, stored.value, stored.value + RETENTION_MS);
      var feed := Feed(map[0 := row], map[], map[uid := stored.value], 1);
      assert CursorIs(feed, uid, stored) && IsRead(feed, uid, 0, feed.rows[0]);
      assert !IsRead(WriteCursor(feed, uid, now), uid, 0, feed.rows[0]);
    }
  }

  predicate CursorIs(feed: Feed, uid: string, stored: Option<int>) {
    if stored.Some? then uid in feed.cursors && feed.cursors[uid] == stored.value else uid !in feed.cursors
  }

  /** Two overlapping mark-alls really do it: the earlier clock reading, written last, brings a row back to unread. */
  lemma OverlappingMarkAllsUnread(uid: string) returns (before: seq<Event>, last: Event)
    ensures var w := Run(EMPTY, before);
      && 0 in w.feed.rows && 0 in Next(w, last).feed.rows
      && w.feed.rows[0].expiresAt > Next(w, last).clock
      && IsRead(w.feed, uid, 0, w.feed.rows[0])
      && !IsRead(Next(w, last).feed, uid, 0, Next(w, last).feed.rows[0])
  {
    var input := Input(Branch, None, Some("b"), None, None);
    before := [BeginAll(0, uid), Tick(5), PersistRow(input), BeginAll(1, uid), WriteCursorOf(1)];
    last := WriteCursorOf(0);
    var row := Row(Branch, None, Some("b"), None, None, None, 5, 5 + RETENTION_MS);
    var w3 := World(Feed(map[0 := row], map[], map[], 1), 5, map[0 := MarkingAll(uid, 0, false)]);
    var w5 := World(Feed(map[0 := row], map[], map[uid := 5], 1), 5,
                    map[0 := MarkingAll(uid, 0, false), 1 := MarkingAll(uid, 5, true)]);
    assert Run(EMPTY, before) == w5 by {
      var w1 := Next(EMPTY, before[0]);
      var w2 := Next(w1, before[1]);
      assert Next(w2, before[2]) == w3;
      var w4 := Next(w3, before[3]);
      assert Next(w4, before[4]) == w5;
      RunStep(EMPTY, before);
      RunStep(w1, before[1..]);
      RunStep(w2, before[2..]);
      RunStep(w3, before[3..]);
      RunStep(w4, before[4..]);
    }
  }

  lemma RunStep(w: World, events: seq<Event>)
    requires events != []
    ensures Run(w, events) == Run(Next(w, events[0]), events[1..])
  {
  }
}
