/**
  The device cache when reads and writes interleave (src/devices/devices.service.ts).

  A gate request looks the row up and stores its answer later. An owner or sign-in action looks up what it
  will touch, writes later, and drops later still the cached answers of the devices it had looked up: a
  row edit goes by id and a sibling update re-runs its filter, so either may meet rows that have changed.
 */
module DeviceRace {
  import opened Wrappers
  import opened Devices
  import DeviceRun

  /** One stored change to a row already looked up. Rewrite is update, and may carry a new token. */
  datatype Edit =
    | Open
    | CloseOff
    | Rewrite(newToken: Option<string>, newBranch: Option<string>)
    | TakeSession(pushToken: string)

  function Edited(d: Device, e: Edit): Device {
    match e
    case Open => Opened(d)
    case CloseOff => d.(status := Some(Blocked), isActive := false)
    case Rewrite(token, branchId) =>
      d.(token := token.GetOr(d.token), branchId := if branchId.Some? then branchId else d.branchId)
    case TakeSession(push) => d.(activeSession := Some(true), pushToken := if push != "" then push else d.pushToken)
  }

  datatype Action =
    | Add(d: Device)
    | EditRow(id: nat, edit: Edit)
    | Delete(id: nat)
    | SupersedeAll(merchant: string, staff: string, token: string)
    | Fill

  predicate Present(rows: Rows, id: nat) { id < |rows| && rows[id].Some? }

  /** The lookup before the write: a registration finds its key free, a supersession finds somebody. */
  predicate CanStart(rows: Rows, a: Action) {
    match a
    case Add(d) => FindFrom(rows, KeyOf(d), 0).None?
    case EditRow(id, _) => Present(rows, id)
    case Delete(id) => Present(rows, id)
    case SupersedeAll(merchant, staff, token) => SiblingKeys(rows, merchant, staff, token) != {}
    case Fill => true
  }

  /** The cached answers the action will drop, fixed by that lookup. */
  function Found(rows: Rows, a: Action): set<Key>
    requires CanStart(rows, a)
  {
    match a
    case Add(d) => {KeyOf(d)}
    case EditRow(id, _) => {KeyOf(rows[id].value)}
    case Delete(id) => {KeyOf(rows[id].value)}
    case SupersedeAll(merchant, staff, token) => SiblingKeys(rows, merchant, staff, token)
    case Fill => {}
  }

  /** The write, on the rows as they are by then. The unique index may refuse it; a removed row is left alone. */
  function Written(rows: Rows, a: Action): Option<Rows> {
    match a
    case Add(d) => if FindFrom(rows, KeyOf(d), 0).Some? then None else Some(rows + [Some(d)])
    case EditRow(id, edit) =>
      if !Present(rows, id) then Some(rows)
      else
        var d, changed := rows[id].value, Edited(rows[id].value, edit);
        if KeyOf(changed) != KeyOf(d) && FindFrom(rows, KeyOf(changed), 0).Some? then None
        else Some(rows[id := Some(changed)])
    case Delete(id) => if Present(rows, id) then Some(rows[id := None]) else Some(rows)
    case SupersedeAll(merchant, staff, token) =>
      Some(seq(|rows|, i requires 0 <= i < |rows| => SupersededRow(rows[i], merchant, staff, token)))
    case Fill => Some(Boot(State(rows, map[])).rows)
  }

  lemma WrittenKeepsUnique(rows: Rows, a: Action)
    requires Unique(rows) && Written(rows, a).Some?
    ensures Unique(Written(rows, a).value)
  {
    var v := Written(rows, a).value;
    match a
    case Add(d) =>
      assert forall i, key :: At(v, key, i) <==> At(rows, key, i) || (i == |rows| && key == KeyOf(d));
    case EditRow(id, edit) =>
      if Present(rows, id) {
        var changed := Edited(rows[id].value, edit);
        assert forall i, key :: At(v, key, i) <==> if i == id then key == KeyOf(changed) else At(rows, key, i);
        assert At(rows, KeyOf(rows[id].value), id);
      }
    case Delete(id) =>
      if Present(rows, id) { assert forall i, key :: At(v, key, i) <==> i != id && At(rows, key, i); }
    case _ =>
      assert forall i, key :: At(v, key, i) <==> At(rows, key, i);
  }

  /** The answers a write moves, read off the rows it meets. */
  predicate Moves(rows: Rows, a: Action, key: Key) {
    match a
    case Add(d) => key == KeyOf(d) && Authorized(d)
    case EditRow(id, edit) =>
      Present(rows, id) &&
      var d, changed := rows[id].value, Edited(rows[id].value, edit);
      if key == KeyOf(d) then AnswerOf(d) != if KeyOf(changed) == key then AnswerOf(changed) else DENIED
      else key == KeyOf(changed) && Authorized(changed)
    case Delete(id) => Present(rows, id) && key == KeyOf(rows[id].value) && Authorized(rows[id].value)
    case SupersedeAll(merchant, staff, token) =>
      exists i | 0 <= i < |rows| ::
        At(rows, key, i) && IsSibling(rows[i].value, merchant, staff, token) && Authorized(rows[i].value)
    case Fill => false
  }

  lemma NobodyAt(rows: Rows, key: Key)
    requires forall i :: !At(rows, key, i)
    ensures Answer(rows, key) == DENIED
  {
  }

  lemma MovesExactly(rows: Rows, a: Action, key: Key)
    requires Unique(rows) && Written(rows, a).Some?
    ensures Answer(Written(rows, a).value, key) != Answer(rows, key) <==> Moves(rows, a, key)
  {
    hide Answer, Written;
    var v := Written(rows, a).value;
    WrittenKeepsUnique(rows, a);
    if i :| At(rows, key, i) {
      DeviceRun.AnswerAt(rows, key, i);
      AnswerAfter(rows, a, key, i);
    } else {
      NobodyAt(rows, key);
      AnswerAfterNone(rows, a, key);
    }
  }

  lemma AnswerAfter(rows: Rows, a: Action, key: Key, i: nat)
    requires Unique(rows) && Written(rows, a).Some? && At(rows, key, i)
    ensures var v := Written(rows, a).value;
      Answer(v, key) == if At(v, key, i) then AnswerOf(v[i].value) else DENIED
    ensures Moves(rows, a, key) <==> Answer(Written(rows, a).value, key) != AnswerOf(rows[i].value)
  {
    hide Answer;
    var v := Written(rows, a).value;
    WrittenKeepsUnique(rows, a);
    if At(v, key, i) {
      DeviceRun.AnswerAt(v, key, i);
    } else {
      forall j ensures !At(v, key, j) {
        assert At(rows, key, j) ==> j == i;
      }
      NobodyAt(v, key);
    }
    MovesAt(rows, a, key, i);
  }

  lemma MovesAt(rows: Rows, a: Action, key: Key, i: nat)
    requires Unique(rows) && Written(rows, a).Some? && At(rows, key, i)
    ensures var v := Written(rows, a).value;
      Moves(rows, a, key) <==> (if At(v, key, i) then AnswerOf(v[i].value) else DENIED) != AnswerOf(rows[i].value)
  {
    match a
    case Add(d) =>
    case EditRow(id, edit) =>
      if Present(rows, id) { assert At(rows, KeyOf(rows[id].value), id); }
    case Delete(id) =>
      if Present(rows, id) { assert At(rows, KeyOf(rows[id].value), id); }
    case SupersedeAll(merchant, staff, token) =>
      assert forall j :: At(rows, key, j) ==> j == i;
    case Fill =>
  }

  lemma AnswerAfterNone(rows: Rows, a: Action, key: Key)
    requires Unique(rows) && Written(rows, a).Some? && forall i :: !At(rows, key, i)
    ensures Answer(Written(rows, a).value, key) != DENIED <==> Moves(rows, a, key)
  {
    hide Answer;
    var v := Written(rows, a).value;
    WrittenKeepsUnique(rows, a);
    assert a.EditRow? && Present(rows, a.id) ==> At(rows, KeyOf(rows[a.id].value), a.id);
    assert a.Delete? && Present(rows, a.id) ==> At(rows, KeyOf(rows[a.id].value), a.id);
    assert a.Add? ==> v[|rows|] == Some(a.d);
    var place := match a case Add(_) => |rows| case EditRow(id, _) => id case _ => 0;
    forall j | At(v, key, j) ensures j == place && (a.Add? || a.EditRow?) {
      assert !At(rows, key, j);
    }
    if At(v, key, place) {
      DeviceRun.AnswerAt(v, key, place);
    } else {
      NobodyAt(v, key);
    }
  }

  // ----- The machine -----

  datatype Reader = Reader(key: Key, result: AuthResult, asOf: nat)

  /** An action that has looked up and not written, or written and not yet dropped everything it found. */
  datatype Writer = Planned(action: Action, owed: set<Key>, asOf: nat) | Owing(owed: set<Key>)

  /**
    `asOf`, `overlapped` and `missed` record history: which state the answer was read from, whether it had
    moved by the time it was stored, and whether a write that did not owe it has moved it since.
   */
  datatype Cached = Cached(result: AuthResult, storedAt: int, asOf: nat, overlapped: bool, missed: bool)

  /** `past` lists every state of the rows so far, the current one last. */
  datatype World = World(
    past: seq<Rows>, cache: map<Key, Cached>, clock: int, readers: map<nat, Reader>, writers: map<nat, Writer>)

  datatype Event =
    | Tick(elapsed: nat)
    | Plan(writer: nat, action: Action)
    | Write(writer: nat)
    | Invalidate(writer: nat, key: Key)
    | Look(reader: nat, key: Key)
    | Store(reader: nat)

  function Current(w: World): Rows
    requires w.past != []
  {
    w.past[|w.past| - 1]
  }

  predicate Served(w: World, key: Key) {
    key in w.cache && w.clock < w.cache[key].storedAt + DEVICE_AUTH_TTL
  }

  predicate WritesNow(w: World, writer: nat) {
    w.past != [] && writer in w.writers && w.writers[writer].Planned?
    && Written(Current(w), w.writers[writer].action).Some?
  }

  /** The write moves this answer and the writer will not drop it. */
  predicate Misses(w: World, writer: nat, key: Key)
    requires WritesNow(w, writer)
  {
    Moves(Current(w), w.writers[writer].action, key) && key !in w.writers[writer].owed
  }

  function Marked(w: World, writer: nat): map<Key, Cached>
    requires WritesNow(w, writer)
  {
    map key | key in w.cache :: if Misses(w, writer, key) then w.cache[key].(missed := true) else w.cache[key]
  }

  function Next(w: World, e: Event): World
    requires w.past != []
  {
    match e
    case Tick(elapsed) => w.(clock := w.clock + elapsed)
    case Plan(writer, action) =>
      if writer in w.writers || !CanStart(Current(w), action) then w
      else w.(writers := w.writers[writer := Planned(action, Found(Current(w), action), |w.past| - 1)])
    case Write(writer) =>
      if writer !in w.writers || !w.writers[writer].Planned? then w
      else if !WritesNow(w, writer) then w.(writers := w.writers - {writer})
      else
        w.(past := w.past + [Written(Current(w), w.writers[writer].action).value],
           cache := Marked(w, writer),
           writers := w.writers[writer := Owing(w.writers[writer].owed)])
    case Invalidate(writer, key) =>
      if writer !in w.writers || !w.writers[writer].Owing? || key !in w.writers[writer].owed then w
      else w.(cache := w.cache - {key}, writers := w.writers[writer := Owing(w.writers[writer].owed - {key})])
    case Look(reader, key) =>
      if reader in w.readers || Served(w, key) then w
      else w.(readers := w.readers[reader := Reader(key, Answer(Current(w), key), |w.past| - 1)])
    case Store(reader) =>
      if reader !in w.readers then w
      else
        var x := w.readers[reader];
        var entry := Cached(x.result, w.clock, x.asOf, x.result != Answer(Current(w), x.key), false);
        w.(cache := w.cache[x.key := entry], readers := w.readers - {reader})
  }

  ghost predicate BeingDropped(w: World, key: Key) {
    exists writer :: writer in w.writers && w.writers[writer].Owing? && key in w.writers[writer].owed
  }

  predicate ReadEarlier(w: World, key: Key, result: AuthResult, asOf: nat) {
    asOf < |w.past| && result == Answer(w.past[asOf], key)
  }

  /** A writer at work owes what it found in the state it looked at. */
  predicate OwesWhatItFound(w: World, writer: Writer) {
    writer.Planned? ==>
      && writer.asOf < |w.past| && CanStart(w.past[writer.asOf], writer.action)
      && writer.owed == Found(w.past[writer.asOf], writer.action)
  }

  ghost predicate Inv(w: World) {
    && w.past != [] && Unique(Current(w))
    && (forall r :: r in w.readers ==> ReadEarlier(w, w.readers[r].key, w.readers[r].result, w.readers[r].asOf))
    && (forall u :: u in w.writers ==> OwesWhatItFound(w, w.writers[u]))
    && (forall key :: key in w.cache ==>
          ReadEarlier(w, key, w.cache[key].result, w.cache[key].asOf) && w.cache[key].storedAt <= w.clock)
    && (forall key :: key in w.cache ==> Explained(w, key))
  }

  /**
    A cached answer is current, or its writer has yet to drop it, or a write slipped between its read and
    its store, or a write moved it that had not found it.
   */
  ghost predicate Explained(w: World, key: Key)
    requires w.past != [] && key in w.cache
  {
    || w.cache[key].result == Answer(Current(w), key) || BeingDropped(w, key)
    || w.cache[key].overlapped || w.cache[key].missed
  }

  lemma WriteKeepsExplained(w: World, writer: nat, key: Key)
    requires Inv(w) && WritesNow(w, writer) && key in w.cache
    ensures Explained(Next(w, Write(writer)), key)
  {
    hide Answer, Written, Moves, Unique;
    var v := Next(w, Write(writer));
    MovesExactly(Current(w), w.writers[writer].action, key);
    assert Explained(w, key);
    if BeingDropped(w, key) {
      var u :| u in w.writers && w.writers[u].Owing? && key in w.writers[u].owed;
      assert u in v.writers && v.writers[u].Owing? && key in v.writers[u].owed;
    } else if key in w.writers[writer].owed {
      assert v.writers[writer].Owing? && key in v.writers[writer].owed;
    }
  }

  lemma WriteKeepsInv(w: World, writer: nat)
    requires Inv(w) && WritesNow(w, writer)
    ensures Inv(Next(w, Write(writer)))
  {
    hide Answer, Written, Moves, Unique, Explained, CanStart, Found;
    var v := Next(w, Write(writer));
    WrittenKeepsUnique(Current(w), w.writers[writer].action);
    forall i | 0 <= i < |w.past| ensures v.past[i] == w.past[i] {}
    forall u | u in v.writers ensures OwesWhatItFound(v, v.writers[u]) { assert OwesWhatItFound(w, w.writers[u]); }
    forall key | key in v.cache ensures Explained(v, key) { WriteKeepsExplained(w, writer, key); }
  }

  lemma QuietKeepsExplained(w: World, e: Event, key: Key)
    requires Inv(w) && Next(w, e).past == w.past && key in Next(w, e).cache
    ensures Explained(Next(w, e), key)
  {
    hide Answer, Written, Moves, Unique, CanStart, Found, OwesWhatItFound, ReadEarlier, Served;
    var v := Next(w, e);
    if key in w.cache {
      assert Explained(w, key);
      if BeingDropped(w, key) {
        var u :| u in w.writers && w.writers[u].Owing? && key in w.writers[u].owed;
        assert u in v.writers;
      }
    }
  }

  lemma QuietKeepsWriters(w: World, e: Event)
    requires Inv(w) && Next(w, e).past == w.past
    ensures var v := Next(w, e); forall u :: u in v.writers ==> OwesWhatItFound(v, v.writers[u])
  {
    hide Answer, Written, Moves, Unique, CanStart, Found, Explained, ReadEarlier, Served;
    var v := Next(w, e);
    forall u | u in v.writers ensures OwesWhatItFound(v, v.writers[u]) {
      if u in w.writers { assert OwesWhatItFound(w, w.writers[u]); }
    }
  }

  lemma QuietKeepsInv(w: World, e: Event)
    requires Inv(w) && Next(w, e).past == w.past
    ensures Inv(Next(w, e))
  {
    hide Answer, Written, Moves, Unique, CanStart, Found, OwesWhatItFound, Explained, Served;
    var v := Next(w, e);
    QuietKeepsWriters(w, e);
    forall key | key in v.cache ensures Explained(v, key) { QuietKeepsExplained(w, e, key); }
  }

  lemma NextKeepsInv(w: World, e: Event)
    requires Inv(w)
    ensures Inv(Next(w, e))
  {
    hide Answer, Written, Moves, CanStart, Found, Served, Unique, OwesWhatItFound, Explained, ReadEarlier;
    if e.Write? && WritesNow(w, e.writer) { WriteKeepsInv(w, e.writer); } else { QuietKeepsInv(w, e); }
  }

  function Run(w: World, events: seq<Event>): World
    requires Inv(w)
    decreases |events|
  {
    if events == [] then w
    else
      NextKeepsInv(w, events[0]);
      Run(Next(w, events[0]), events[1..])
  }

  lemma {:induction false} RunKeepsInv(w: World, events: seq<Event>)
    requires Inv(w)
    ensures Inv(Run(w, events))
    decreases |events|
  {
    hide Next, Unique, OwesWhatItFound, Explained, ReadEarlier;
    if events != [] {
      NextKeepsInv(w, events[0]);
      RunKeepsInv(Next(w, events[0]), events[1..]);
    }
  }

  /**
    In any interleaving, an answer served from the cache was true of some earlier state and was stored less
    than one TTL ago. If it is no longer true, then the writer that changed it has not dropped it yet, or
    the request that stored it read before a write it then overwrote, or a write changed it that had
    looked up something else.
   */
  lemma ServedAnswerIsRecentTruth(w: World, events: seq<Event>, key: Key)
    requires Inv(w) && Served(Run(w, events), key)
    ensures var v := Run(w, events); var entry := v.cache[key];
      && entry.asOf < |v.past| && entry.result == Answer(v.past[entry.asOf], key)
      && entry.storedAt <= v.clock < entry.storedAt + DEVICE_AUTH_TTL
      && (entry.result != Answer(Current(v), key) ==> BeingDropped(v, key) || entry.overlapped || entry.missed)
  {
    RunKeepsInv(w, events);
    var v := Run(w, events);
    var entry := v.cache[key];
    assert ReadEarlier(v, key, entry.result, entry.asOf) && Explained(v, key);
  }

  // ----- The third reason, exactly -----

  /**
    What a write misses. An edit misses an answer it moves only under a key the row did not have when it
    was looked up: the one an update gives it, or one another update gave it in between. A supersession
    misses exactly the devices it signs out that were no siblings at its lookup.
   */
  lemma MissedExactly(w: World, writer: nat, key: Key)
    requires Inv(w) && WritesNow(w, writer)
    ensures var x := w.writers[writer]; var before, now := w.past[x.asOf], Current(w);
      Misses(w, writer, key) <==>
        match x.action
        case Add(_) => false
        case EditRow(id, _) => Moves(now, x.action, key) && KeyOf(before[id].value) != key
        case Delete(id) => Moves(now, x.action, key) && KeyOf(before[id].value) != key
        case SupersedeAll(merchant, staff, token) =>
          && Moves(now, x.action, key)
          && forall i :: At(before, key, i) ==> !IsSibling(before[i].value, merchant, staff, token)
        case Fill => false
  {
    hide Answer, Written;
    var x := w.writers[writer];
    assert OwesWhatItFound(w, x);
    var before := w.past[x.asOf];
    if x.action.SupersedeAll? {
      var m, st, token := x.action.merchant, x.action.staff, x.action.token;
      assert key in SiblingKeys(before, m, st, token) <==>
        exists i :: At(before, key, i) && IsSibling(before[i].value, m, st, token);
    }
  }

  /** No write of the run changes an answer it had not found. */
  ghost predicate NothingMissed(w: World, events: seq<Event>)
    requires Inv(w)
    decreases |events|
  {
    events != [] ==>
      && (events[0].Write? && WritesNow(w, events[0].writer) ==>
            forall key :: key in w.cache ==> !Misses(w, events[0].writer, key))
      && (NextKeepsInv(w, events[0]); NothingMissed(Next(w, events[0]), events[1..]))
  }

  ghost predicate NoneMarked(w: World) { forall key :: key in w.cache ==> !w.cache[key].missed }

  lemma NothingMarked(w: World, e: Event)
    requires w.past != [] && NoneMarked(w)
    requires e.Write? && WritesNow(w, e.writer) ==> forall key :: key in w.cache ==> !Misses(w, e.writer, key)
    ensures NoneMarked(Next(w, e))
  {
    hide Answer, Written, Misses, CanStart, Found, Served;
  }

  /** Without such a write only the two races with a write still under way remain. */
  lemma {:induction false} UnmissedAnswerOnlyRaces(w: World, events: seq<Event>, key: Key)
    requires Inv(w) && NoneMarked(w) && NothingMissed(w, events)
    requires key in Run(w, events).cache && Run(w, events).past != []
    ensures var v := Run(w, events);
      v.cache[key].result == Answer(Current(v), key) || BeingDropped(v, key) || v.cache[key].overlapped
    decreases |events|
  {
    hide Answer, Next, NoneMarked, Misses, WritesNow, ReadEarlier, OwesWhatItFound, Unique;
    if events == [] {
      assert Explained(w, key);
      StillUnmarked(w, key);
    } else {
      NextKeepsInv(w, events[0]);
      NothingMarked(w, events[0]);
      UnmissedAnswerOnlyRaces(Next(w, events[0]), events[1..], key);
    }
  }

  lemma StillUnmarked(w: World, key: Key)
    requires NoneMarked(w) && key in w.cache
    ensures !w.cache[key].missed
  {
  }

  // ----- A signed-out device that is still let in -----

  /** The store between operations: nothing cached, nobody at work. */
  function Quiet(rows: Rows): World { World([rows], map[], 0, map[], map[]) }

  const CLERK := Actor("s", Some("m"))

  const SETUP: seq<DeviceRun.Event> := [
    DeviceRun.RegisterEvent(CLERK, "A", "b"), DeviceRun.ApproveEvent(0, "m"),
    DeviceRun.RegisterEvent(CLERK, "C", "b"), DeviceRun.ApproveEvent(1, "m"),
    DeviceRun.RegisterEvent(CLERK, "B", "b")]

  /**
    C signs in and finds B, still pending, to sign out. Then A signs in and the gate caches its yes. Then
    C's update re-runs its filter, meets A too, and drops what it had found.
   */
  const RACE: seq<Event> := [
    Plan(0, SIGN_IN_OF_C),
    Plan(1, SIGN_IN_OF_A), Write(1), Invalidate(1, A_KEY),
    Look(0, A_KEY), Store(0),
    Write(0), Invalidate(0, B_KEY)]

  function Clerk(token: string, status: Status, activeSession: bool): Option<Device> {
    Some(Device("m", Some("s"), Some("b"), token, Some(status), status == Approved, Some(activeSession), ""))
  }

  lemma SetupStep(s: State, events: seq<DeviceRun.Event>)
    requires events != []
    ensures DeviceRun.Run(s, events) == DeviceRun.Run(DeviceRun.Next(s, events[0]), events[1..])
  {
  }

  lemma SetupLeaves()
    ensures DeviceRun.Run(State([], map[]), SETUP).rows
            == [Clerk("A", Approved, false), Clerk("C", Approved, true), Clerk("B", Pending, true)]
  {
    var s0 := State([], map[]);
    var s1 := DeviceRun.Next(s0, SETUP[0]);
    assert s1.rows == [Clerk("A", Pending, true)];
    var s2 := DeviceRun.Next(s1, SETUP[1]);
    assert s2.rows == [Clerk("A", Approved, true)];
    var s3 := DeviceRun.Next(s2, SETUP[2]);
    assert s3.rows == [Clerk("A", Approved, true), Clerk("C", Pending, true)];
    var s4 := DeviceRun.Next(s3, SETUP[3]);
    assert s4.rows == [Clerk("A", Approved, false), Clerk("C", Approved, true)];
    var s5 := DeviceRun.Next(s4, SETUP[4]);
    assert s5.rows == [Clerk("A", Approved, false), Clerk("C", Approved, true), Clerk("B", Pending, true)];
    SetupStep(s0, SETUP);
    SetupStep(s1, SETUP[1..]);
    SetupStep(s2, SETUP[2..]);
    SetupStep(s3, SETUP[3..]);
    SetupStep(s4, SETUP[4..]);
  }

  lemma RunStep(w: World, events: seq<Event>)
    requires Inv(w) && events != []
    ensures Inv(Next(w, events[0])) && Run(w, events) == Run(Next(w, events[0]), events[1..])
  {
    NextKeepsInv(w, events[0]);
  }

  const BEFORE: Rows := [Clerk("A", Approved, false), Clerk("C", Approved, true), Clerk("B", Pending, true)]
  const BOTH_IN: Rows := [Clerk("A", Approved, true), Clerk("C", Approved, true), Clerk("B", Pending, true)]
  const KICKED: Rows := [Clerk("A", Approved, false), Clerk("C", Approved, true), Clerk("B", Pending, false)]

  const A_KEY: Key := ("m", "A")
  const B_KEY: Key := ("m", "B")
  const SIGN_IN_OF_C := SupersedeAll("m", "s", "C")
  const SIGN_IN_OF_A := EditRow(0, TakeSession(""))

  lemma RowsOfTheRace()
    ensures CanStart(BEFORE, SIGN_IN_OF_C) && Found(BEFORE, SIGN_IN_OF_C) == {B_KEY}
    ensures CanStart(BEFORE, SIGN_IN_OF_A) && Found(BEFORE, SIGN_IN_OF_A) == {A_KEY}
    ensures Written(BEFORE, SIGN_IN_OF_A) == Some(BOTH_IN) && Written(BOTH_IN, SIGN_IN_OF_C) == Some(KICKED)
    ensures Answer(BOTH_IN, A_KEY) == AuthResult(true, Some("b"), Some("s")) && Answer(KICKED, A_KEY) == DENIED
    ensures Moves(BOTH_IN, SIGN_IN_OF_C, A_KEY)
    ensures Unique(BEFORE)
  {
    assert B_KEY in SiblingKeys(BEFORE, "m", "s", "C") by { assert IsSibling(BEFORE[2].value, "m", "s", "C"); }
    assert FindFrom(BOTH_IN, A_KEY, 0) == Some(0) && FindFrom(KICKED, A_KEY, 0) == Some(0);
    assert At(BOTH_IN, A_KEY, 0);
    assert Written(BEFORE, SIGN_IN_OF_A).value == BOTH_IN;
    assert Written(BOTH_IN, SIGN_IN_OF_C).value == KICKED;
  }

  const YES := AuthResult(true, Some("b"), Some("s"))

  const HALFWAY: World := World(
    [BEFORE, BOTH_IN], map[], 0, map[], map[0 := Planned(SIGN_IN_OF_C, {B_KEY}, 0), 1 := Owing({})])

  const ENDED: World := World(
    [BEFORE, BOTH_IN, KICKED], map[A_KEY := Cached(YES, 0, 1, false, true)], 0, map[],
    map[0 := Owing({}), 1 := Owing({})])

  lemma RaceOpens()
    ensures Inv(Quiet(BEFORE)) && Inv(HALFWAY) && Run(Quiet(BEFORE), RACE) == Run(HALFWAY, RACE[4..])
  {
    RowsOfTheRace();
    hide Answer, Written, Moves, CanStart, Found, Unique, Served, Clerk;
    var w0 := Quiet(BEFORE);
    var w2 := World([BEFORE], map[], 0, map[],
                    map[0 := Planned(SIGN_IN_OF_C, {B_KEY}, 0), 1 := Planned(SIGN_IN_OF_A, {A_KEY}, 0)]);
    assert Inv(w0);
    var w1 := Next(w0, RACE[0]);
    assert Next(w1, RACE[1]) == w2;
    var w3 := Next(w2, RACE[2]);
    assert w3.writers[1] == Owing({A_KEY}) && {A_KEY} - {A_KEY} == {};
    assert w3.cache == map[] && w3.cache - {A_KEY} == map[];
    assert Next(w3, RACE[3]) == HALFWAY;
    RunStep(w0, RACE);
    RunStep(w1, RACE[1..]);
    RunStep(w2, RACE[2..]);
    RunStep(w3, RACE[3..]);
  }

  lemma RaceEnds()
    requires Inv(HALFWAY)
    ensures Run(HALFWAY, RACE[4..]) == ENDED
  {
    RowsOfTheRace();
    hide Answer, Written, Moves, CanStart, Found, Unique, Clerk, Inv;
    var w6 := HALFWAY.(cache := map[A_KEY := Cached(YES, 0, 1, false, false)]);
    var w5 := Next(HALFWAY, RACE[4]);
    assert Next(w5, RACE[5]) == w6;
    var w7 := Next(w6, RACE[6]);
    assert w7.cache == ENDED.cache && w7.past == ENDED.past && w7.writers[0] == Owing({B_KEY});
    assert w7.cache - {B_KEY} == w7.cache && {B_KEY} - {B_KEY} == {};
    assert Next(w7, RACE[7]) == ENDED;
    RunStep(HALFWAY, RACE[4..]);
    RunStep(w5, RACE[5..]);
    RunStep(w6, RACE[6..]);
    RunStep(w7, RACE[7..]);
  }

  /**
    From an empty store, five ordinary operations and that race end with A signed out in its row, nobody
    left at work, and the gate still letting A in from the cache. The third reason alone explains it.
   */
  lemma SignedOutAndStillServed()
    ensures var w := Quiet(DeviceRun.Run(State([], map[]), SETUP).rows);
      Inv(w) &&
      var v := Run(w, RACE);
      && Served(v, A_KEY) && v.cache[A_KEY].result.authorized
      && v.past != [] && Answer(Current(v), A_KEY) == DENIED
      && !BeingDropped(v, A_KEY) && v.readers == map[] && !v.cache[A_KEY].overlapped && v.cache[A_KEY].missed
  {
    hide Run, Inv;
    SetupLeaves();
    RowsOfTheRace();
    RaceOpens();
    RaceEnds();
  }
}
