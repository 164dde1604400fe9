/**
  Runs of the device operations (src/devices/devices.service.ts): the cache agrees with the rows, and a
  staff member keeps at most one authorized device.
 */
module DeviceRun {
  import opened Wrappers
  import opened Devices

  // ----- Which answers a stored change can move -----

  lemma AnswerAt(rows: Rows, key: Key, i: nat)
    requires Unique(rows) && At(rows, key, i)
    ensures Answer(rows, key) == AnswerOf(rows[i].value)
  {
  }

  /** Two collections give a key the same answer if the same place, or no place, answers to it in both. */
  ghost predicate SamePlace(a: Rows, b: Rows, key: Key) {
    && (forall i :: At(a, key, i) ==> At(b, key, i) && AnswerOf(a[i].value) == AnswerOf(b[i].value))
    && (forall i :: At(b, key, i) ==> At(a, key, i))
  }

  lemma SamePlaceSameAnswer(a: Rows, b: Rows, key: Key)
    requires Unique(a) && Unique(b) && SamePlace(a, b, key)
    ensures Answer(a, key) == Answer(b, key)
  {
    var i := FindFrom(a, key, 0);
    if i.Some? {
      AnswerAt(a, key, i.value);
      AnswerAt(b, key, i.value);
    }
  }

  ghost predicate Coherent(s: State) {
    forall key :: key in s.cache ==> s.cache[key].result == Answer(s.rows, key)
  }

  ghost predicate Inv(s: State) { Unique(s.rows) && Coherent(s) }

  /** The stored changes that leave every row under its own key. */
  datatype Change =
    | Insert(d: Device)
    | Replace(id: nat, d: Device)
    | Drop(id: nat)
    | Supersede(merchant: string, staff: string, token: string)
    | Backfill

  predicate Legal(rows: Rows, c: Change) {
    match c
    case Insert(d) => FindFrom(rows, KeyOf(d), 0).None?
    case Replace(id, d) => id < |rows| && rows[id].Some? && KeyOf(d) == KeyOf(rows[id].value)
    case Drop(id) => id < |rows| && rows[id].Some?
    case _ => true
  }

  function After(rows: Rows, c: Change): Rows
    requires Legal(rows, c)
  {
    match c
    case Insert(d) => rows + [Some(d)]
    case Replace(id, d) => rows[id := Some(d)]
    case Drop(id) => rows[id := None]
    case Supersede(merchant, staff, token) => SupersedeSiblings(State(rows, map[]), merchant, staff, token).rows
    case Backfill => Boot(State(rows, map[])).rows
  }

  /** The cache entries the operation drops after the change. */
  function Owed(rows: Rows, c: Change): set<Key>
    requires Legal(rows, c)
  {
    match c
    case Insert(d) => {KeyOf(d)}
    case Replace(id, d) => {KeyOf(d)}
    case Drop(id) => {KeyOf(rows[id].value)}
    case Supersede(merchant, staff, token) => SiblingKeys(rows, merchant, staff, token)
    case Backfill => {}
  }

  lemma ChangeKeepsUnique(rows: Rows, c: Change)
    requires Unique(rows) && Legal(rows, c)
    ensures Unique(After(rows, c))
  {
    var v := After(rows, c);
    assert !c.Insert? && !c.Drop? ==> forall i, key :: At(v, key, i) <==> At(rows, key, i);
    assert c.Drop? ==> forall i, key :: At(v, key, i) <==> i != c.id && At(rows, key, i);
    assert c.Insert? ==> forall i, key :: At(v, key, i) <==> At(rows, key, i) || (i == |rows| && key == KeyOf(c.d));
  }

  /** A change moves no answer but those it owes. Backfilling owes none: it moves no answer at all. */
  lemma ChangeMovesOnlyOwed(rows: Rows, c: Change, key: Key)
    requires Unique(rows) && Legal(rows, c) && key !in Owed(rows, c)
    ensures Answer(After(rows, c), key) == Answer(rows, key)
  {
    hide Answer;
    var v := After(rows, c);
    ChangeKeepsUnique(rows, c);
    if c.Supersede? {
      forall i | 0 <= i < |rows| && rows[i].Some? && IsSibling(rows[i].value, c.merchant, c.staff, c.token)
        ensures KeyOf(rows[i].value) in SiblingKeys(rows, c.merchant, c.staff, c.token)
      {
      }
    }
    assert SamePlace(rows, v, key);
    SamePlaceSameAnswer(rows, v, key);
  }

  lemma ChangeKeepsInv(s: State, c: Change)
    requires Inv(s) && Legal(s.rows, c)
    ensures Inv(State(After(s.rows, c), s.cache - Owed(s.rows, c)))
  {
    hide Answer, After, Owed;
    ChangeKeepsUnique(s.rows, c);
    forall key | key in s.cache && key !in Owed(s.rows, c)
      ensures s.cache[key].result == Answer(After(s.rows, c), key)
    {
      ChangeMovesOnlyOwed(s.rows, c, key);
    }
  }

  lemma PutKeepsInv(s: State, id: nat, d: Device)
    requires Inv(s) && id < |s.rows| && s.rows[id].Some? && KeyOf(d) == KeyOf(s.rows[id].value)
    ensures Inv(Put(s, id, d))
  {
    ChangeKeepsInv(s, Replace(id, d));
  }

  lemma SupersedeKeepsInv(s: State, merchant: string, staff: string, token: string)
    requires Inv(s)
    ensures Inv(SupersedeSiblings(s, merchant, staff, token))
  {
    ChangeKeepsInv(s, Supersede(merchant, staff, token));
  }

  // ----- Update may change the token -----

  lemma UpdateKeepsUnique(s: State, id: nat, merchant: string, token: Option<string>, branchId: Option<string>)
    requires Unique(s.rows) && Update(s, id, merchant, token, branchId).Ok?
    ensures Unique(Update(s, id, merchant, token, branchId).value.rows)
  {
    var v := Update(s, id, merchant, token, branchId).value;
    assert forall i, key :: i != id ==> (At(v.rows, key, i) <==> At(s.rows, key, i));
    var d, changed := s.rows[id].value, v.rows[id].value;
    assert At(s.rows, KeyOf(d), id);
    assert forall key :: At(v.rows, key, id) <==> key == KeyOf(changed);
    forall i | i != id ensures !At(s.rows, KeyOf(changed), i) {
      if changed.token == d.token { assert KeyOf(changed) == KeyOf(d); }
    }
  }

  /**
    Update drops the entry of the old token only. It leaves a stale answer exactly when it moves an
    authorized device onto a token whose refusal is still cached.
   */
  lemma UpdateCoherentExactly(s: State, id: nat, merchant: string, token: Option<string>, branchId: Option<string>)
    requires Inv(s) && Update(s, id, merchant, token, branchId).Ok?
    ensures var d := s.rows[id].value;
      Coherent(Update(s, id, merchant, token, branchId).value)
      <==> token.GetOr(d.token) == d.token || (merchant, token.value) !in s.cache || !Authorized(d)
  {
    hide Answer;
    var d := s.rows[id].value;
    var v := Update(s, id, merchant, token, branchId).value;
    UpdateKeepsUnique(s, id, merchant, token, branchId);
    var newKey := KeyOf(v.rows[id].value);
    forall key | key in v.cache && key != newKey ensures v.cache[key].result == Answer(v.rows, key) {
      assert forall i :: i != id ==> (At(v.rows, key, i) <==> At(s.rows, key, i));
      assert !At(s.rows, key, id) && !At(v.rows, key, id);
      assert SamePlace(s.rows, v.rows, key);
      SamePlaceSameAnswer(s.rows, v.rows, key);
    }
    AnswerAt(v.rows, newKey, id);
    if newKey in v.cache {
      assert newKey != KeyOf(d);
      NobodyAnswers(s.rows, newKey);
    }
  }

  lemma NobodyAnswers(rows: Rows, key: Key)
    requires FindFrom(rows, key, 0).None?
    ensures Answer(rows, key) == DENIED
  {
  }

  // ----- Sequential runs -----

  datatype Event =
    | RegisterEvent(actor: Actor, token: string, branchId: string)
    | ApproveEvent(id: nat, merchant: string)
    | BlockEvent(id: nat, merchant: string)
    | UnblockEvent(id: nat, merchant: string)
    | RemoveEvent(id: nat, merchant: string)
    | UpdateEvent(id: nat, merchant: string, newToken: Option<string>, newBranch: Option<string>)
    | ClaimEvent(actor: Actor, token: string, pushToken: string)
    | BootEvent
    | ResolveEvent(key: Key, now: int)
    | ExpireEvent(key: Key)

  function Kept(s: State, r: Result<State, Error>): State { if r.Ok? then r.value else s }

  function Next(s: State, e: Event): State {
    match e
    case RegisterEvent(actor, token, branchId) => Kept(s, Register(s, actor, token, branchId))
    case ApproveEvent(id, merchant) => Kept(s, Approve(s, id, merchant))
    case BlockEvent(id, merchant) => Kept(s, Block(s, id, merchant))
    case UnblockEvent(id, merchant) => Kept(s, Unblock(s, id, merchant))
    case RemoveEvent(id, merchant) => Kept(s, Remove(s, id, merchant))
    case UpdateEvent(id, merchant, token, branchId) => Kept(s, Update(s, id, merchant, token, branchId))
    case ClaimEvent(actor, token, pushToken) => ClaimActive(s, actor, token, pushToken)
    case BootEvent => Boot(s)
    case ResolveEvent(key, now) => Resolve(s, key, now).0
    case ExpireEvent(key) => s.(cache := s.cache - {key})
  }

  /** The guard on update that the exact condition above asks for, checkable before the call. */
  predicate TokenSafe(s: State, e: Event) {
    e.UpdateEvent? && Owned(s.rows, e.id, e.merchant) && e.newToken.Some? ==>
      var d := s.rows[e.id].value;
      e.newToken.value == d.token || (e.merchant, e.newToken.value) !in s.cache || !Authorized(d)
  }

  lemma NextKeepsInv(s: State, e: Event)
    requires Inv(s) && TokenSafe(s, e)
    ensures Inv(Next(s, e))
  {
    hide Answer, SupersedeSiblings;
    match e
    case RegisterEvent(actor, token, branchId) =>
      if Register(s, actor, token, branchId).Ok? {
        var v := Register(s, actor, token, branchId).value;
        ChangeKeepsInv(s, Insert(v.rows[|s.rows|].value));
      }
    case ApproveEvent(id, merchant) =>
      if Owned(s.rows, id, merchant) {
        var d := s.rows[id].value;
        PutKeepsInv(s, id, Opened(d));
        if d.staffUid.Some? { SupersedeKeepsInv(Put(s, id, Opened(d)), merchant, d.staffUid.value, d.token); }
      }
    case BlockEvent(id, merchant) =>
      if Owned(s.rows, id, merchant) { PutKeepsInv(s, id, s.rows[id].value.(status := Some(Blocked), isActive := false)); }
    case UnblockEvent(id, merchant) =>
      if Owned(s.rows, id, merchant) { PutKeepsInv(s, id, Opened(s.rows[id].value)); }
    case RemoveEvent(id, merchant) =>
      if Owned(s.rows, id, merchant) { ChangeKeepsInv(s, Drop(id)); }
    case UpdateEvent(id, merchant, token, branchId) =>
      if Update(s, id, merchant, token, branchId).Ok? {
        UpdateKeepsUnique(s, id, merchant, token, branchId);
        UpdateCoherentExactly(s, id, merchant, token, branchId);
      }
    case ClaimEvent(actor, token, pushToken) => ClaimKeepsInv(s, actor, token, pushToken);
    case BootEvent => ChangeKeepsInv(s, Backfill);
    case ResolveEvent(_, _) =>
    case ExpireEvent(_) =>
  }

  lemma ClaimKeepsInv(s: State, actor: Actor, token: string, pushToken: string)
    requires Inv(s)
    ensures Inv(ClaimActive(s, actor, token, pushToken))
  {
    hide Answer, SupersedeSiblings;
    var id := FindFrom(s.rows, (actor.Merchant(), token), 0);
    if actor.IsStaff() && id.Some? && s.rows[id.value].value.status == Some(Approved) {
      var d := s.rows[id.value].value;
      var claimed := d.(activeSession := Some(true), pushToken := if pushToken != "" then pushToken else d.pushToken);
      PutKeepsInv(s, id.value, claimed);
      SupersedeKeepsInv(Put(s, id.value, claimed), actor.Merchant(), d.staffUid.GetOr(actor.id), token);
    }
  }

  ghost predicate TokensSafe(s: State, events: seq<Event>)
    decreases |events|
  {
    events != [] ==> TokenSafe(s, events[0]) && TokensSafe(Next(s, events[0]), events[1..])
  }

  function Run(s: State, events: seq<Event>): State
    decreases |events|
  {
    if events == [] then s else Run(Next(s, events[0]), events[1..])
  }

  /** After any sequential run, what the gate answers - from cache or not - is what the rows say. */
  lemma {:induction false} CacheAgreesWithRows(s: State, events: seq<Event>, key: Key, now: int)
    requires Inv(s) && TokensSafe(s, events)
    ensures Inv(Run(s, events))
    ensures Resolve(Run(s, events), key, now).1 == Answer(Run(s, events).rows, key)
    decreases |events|
  {
    if events != [] {
      NextKeepsInv(s, events[0]);
      CacheAgreesWithRows(Next(s, events[0]), events[1..], key, now);
    }
  }

  // ----- One active device per staff member -----

  predicate Serves(r: Option<Device>, merchant: string, staff: string) {
    r.Some? && r.value.uid == merchant && r.value.staffUid == Some(staff) && Authorized(r.value)
  }

  ghost predicate AtMostOne(s: State, merchant: string, staff: string) {
    forall i, j | 0 <= i < |s.rows| && 0 <= j < |s.rows| ::
      Serves(s.rows[i], merchant, staff) && Serves(s.rows[j], merchant, staff) ==> i == j
  }

  ghost predicate Sole(s: State, id: nat, merchant: string, staff: string) {
    forall i :: 0 <= i < |s.rows| ==> (Serves(s.rows[i], merchant, staff) <==> i == id)
  }

  lemma SupersedeLeavesOnlyToken(s: State, merchant: string, staff: string, id: nat)
    requires Unique(s.rows) && id < |s.rows| && s.rows[id].Some? && s.rows[id].value.uid == merchant
    ensures var v := SupersedeSiblings(s, merchant, staff, s.rows[id].value.token);
      forall i :: 0 <= i < |v.rows| && Serves(v.rows[i], merchant, staff) ==> i == id
  {
    var token := s.rows[id].value.token;
    var v := SupersedeSiblings(s, merchant, staff, token);
    forall i | 0 <= i < |v.rows| && Serves(v.rows[i], merchant, staff) ensures i == id {
      if s.rows[i].value.token == token {
        assert At(s.rows, (merchant, token), i) && At(s.rows, (merchant, token), id);
      }
    }
  }

  // How many rows are authorized has nothing to do with the cache: these results ask for the unique index only.

  lemma PutKeepsUnique(s: State, id: nat, d: Device)
    requires Unique(s.rows) && id < |s.rows| && s.rows[id].Some? && KeyOf(d) == KeyOf(s.rows[id].value)
    ensures Unique(Put(s, id, d).rows)
  {
    ChangeKeepsUnique(s.rows, Replace(id, d));
  }

  /** Approving a device makes it its staff member's only authorized one. */
  lemma ApprovedIsSole(s: State, id: nat, merchant: string)
    requires Unique(s.rows) && Owned(s.rows, id, merchant) && s.rows[id].value.staffUid.Some?
    ensures Sole(Next(s, ApproveEvent(id, merchant)), id, merchant, s.rows[id].value.staffUid.value)
  {
    hide Answer;
    var d := s.rows[id].value;
    var put := Put(s, id, Opened(d));
    PutKeepsUnique(s, id, Opened(d));
    SupersedeLeavesOnlyToken(put, merchant, d.staffUid.value, id);
  }

  /** A staff member's approved device is there to be claimed. */
  predicate Claimable(s: State, actor: Actor, token: string, id: nat) {
    && actor.IsStaff() && At(s.rows, (actor.Merchant(), token), id)
    && s.rows[id].value.status == Some(Approved) && s.rows[id].value.staffUid.Some?
  }

  /** So does a successful claim, for the staff member the device is registered to. */
  lemma ClaimedIsSole(s: State, actor: Actor, token: string, pushToken: string, id: nat)
    requires Unique(s.rows) && Claimable(s, actor, token, id)
    ensures Sole(ClaimActive(s, actor, token, pushToken), id, actor.Merchant(), s.rows[id].value.staffUid.value)
  {
    hide Answer;
    assert FindFrom(s.rows, (actor.Merchant(), token), 0) == Some(id);
    var d := s.rows[id].value;
    var claimed := d.(activeSession := Some(true), pushToken := if pushToken != "" then pushToken else d.pushToken);
    PutKeepsUnique(s, id, claimed);
    SupersedeLeavesOnlyToken(Put(s, id, claimed), actor.Merchant(), d.staffUid.value, id);
  }

  /** Steps that authorize nobody new at (merchant, staff) keep at most one. */
  lemma NoNewServer(s: State, v: State, merchant: string, staff: string)
    requires AtMostOne(s, merchant, staff)
    requires forall i :: 0 <= i < |v.rows| && Serves(v.rows[i], merchant, staff) ==>
      i < |s.rows| && Serves(s.rows[i], merchant, staff)
    ensures AtMostOne(v, merchant, staff)
  {
  }

  lemma SupersedeKeepsAtMostOne(s: State, m: string, st: string, token: string, merchant: string, staff: string)
    requires AtMostOne(s, merchant, staff)
    ensures AtMostOne(SupersedeSiblings(s, m, st, token), merchant, staff)
  {
    NoNewServer(s, SupersedeSiblings(s, m, st, token), merchant, staff);
  }

  lemma SessionStepKeepsAtMostOne(s: State, e: Event, merchant: string, staff: string)
    requires Unique(s.rows) && AtMostOne(s, merchant, staff) && (e.ApproveEvent? || e.ClaimEvent?)
    ensures AtMostOne(Next(s, e), merchant, staff)
  {
    hide Answer, SupersedeSiblings;
    if e.ApproveEvent? && Owned(s.rows, e.id, e.merchant) {
      var d := s.rows[e.id].value;
      if d.staffUid == Some(staff) && e.merchant == merchant {
        ApprovedIsSole(s, e.id, merchant);
      } else {
        var put := Put(s, e.id, Opened(d));
        NoNewServer(s, put, merchant, staff);
        if d.staffUid.Some? { SupersedeKeepsAtMostOne(put, e.merchant, d.staffUid.value, d.token, merchant, staff); }
      }
    }
    if e.ClaimEvent? {
      var id := FindFrom(s.rows, (e.actor.Merchant(), e.token), 0);
      if e.actor.IsStaff() && id.Some? && s.rows[id.value].value.status == Some(Approved) {
        var d := s.rows[id.value].value;
        if d.staffUid == Some(staff) && e.actor.Merchant() == merchant {
          ClaimedIsSole(s, e.actor, e.token, e.pushToken, id.value);
        } else {
          var claimed := d.(activeSession := Some(true), pushToken := if e.pushToken != "" then e.pushToken else d.pushToken);
          var put := Put(s, id.value, claimed);
          NoNewServer(s, put, merchant, staff);
          SupersedeKeepsAtMostOne(put, e.actor.Merchant(), d.staffUid.GetOr(e.actor.id), e.token, merchant, staff);
        }
      }
    }
  }

  /** Owners are exempt: they are registered approved, on as many devices as they like. */
  lemma NextKeepsAtMostOne(s: State, e: Event, merchant: string, staff: string)
    requires Unique(s.rows) && AtMostOne(s, merchant, staff) && merchant != staff && !e.UnblockEvent?
    ensures AtMostOne(Next(s, e), merchant, staff)
  {
    hide Answer, SupersedeSiblings, Approve, ClaimActive;
    if e.ApproveEvent? || e.ClaimEvent? {
      SessionStepKeepsAtMostOne(s, e, merchant, staff);
    } else {
      NoNewServer(s, Next(s, e), merchant, staff);
    }
  }

  /** Whatever the cache holds, no step breaks the unique index. */
  lemma NextKeepsUnique(s: State, e: Event)
    requires Unique(s.rows)
    ensures Unique(Next(s, e).rows)
  {
    var bare := State(s.rows, map[]);
    BareCacheCoherent(s.rows);
    assert TokenSafe(bare, e);
    NextKeepsInv(bare, e);
    RowsIgnoreCache(s, e);
  }

  lemma BareCacheCoherent(rows: Rows)
    ensures Coherent(State(rows, map[]))
  {
  }

  lemma RowsIgnoreCache(s: State, e: Event)
    ensures Next(State(s.rows, map[]), e).rows == Next(s, e).rows
  {
    hide FindFrom;
  }

  lemma {:induction false} RunKeepsAtMostOne(s: State, events: seq<Event>, merchant: string, staff: string)
    requires Unique(s.rows) && AtMostOne(s, merchant, staff) && merchant != staff
    requires forall e :: e in events ==> !e.UnblockEvent?
    ensures AtMostOne(Run(s, events), merchant, staff)
    decreases |events|
  {
    hide Next, AtMostOne;
    if events != [] {
      NextKeepsUnique(s, events[0]);
      NextKeepsAtMostOne(s, events[0], merchant, staff);
      RunKeepsAtMostOne(Next(s, events[0]), events[1..], merchant, staff);
    }
  }

  /** Once approved, and whatever follows short of an unblock, the staff member signs in from one device. */
  lemma OneSessionAfterApproval(s: State, id: nat, merchant: string, events: seq<Event>)
    requires Unique(s.rows) && Owned(s.rows, id, merchant)
    requires s.rows[id].value.staffUid.Some? && s.rows[id].value.staffUid.value != merchant
    requires forall e :: e in events ==> !e.UnblockEvent?
    ensures AtMostOne(Run(Next(s, ApproveEvent(id, merchant)), events), merchant, s.rows[id].value.staffUid.value)
  {
    hide Answer, Next;
    NextKeepsUnique(s, ApproveEvent(id, merchant));
    ApprovedIsSole(s, id, merchant);
    RunKeepsAtMostOne(Next(s, ApproveEvent(id, merchant)), events, merchant, s.rows[id].value.staffUid.value);
  }

  /** Signing in does the same: from a successful claim on, short of an unblock, one device at most. */
  lemma OneSessionAfterClaim(
    s: State, actor: Actor, token: string, pushToken: string, id: nat, events: seq<Event>)
    requires Unique(s.rows) && Claimable(s, actor, token, id) && s.rows[id].value.staffUid.value != actor.Merchant()
    requires forall e :: e in events ==> !e.UnblockEvent?
    ensures AtMostOne(Run(ClaimActive(s, actor, token, pushToken), events),
                      actor.Merchant(), s.rows[id].value.staffUid.value)
  {
    hide Answer, ClaimActive;
    NextKeepsUnique(s, ClaimEvent(actor, token, pushToken));
    ClaimedIsSole(s, actor, token, pushToken, id);
    RunKeepsAtMostOne(ClaimActive(s, actor, token, pushToken), events, actor.Merchant(), s.rows[id].value.staffUid.value);
  }

  /** Unblocking supersedes nobody: it keeps at most one exactly when no other device of that staff is authorized. */
  lemma UnblockKeepsAtMostOneExactly(s: State, id: nat, merchant: string, staff: string)
    requires Owned(s.rows, id, merchant) && s.rows[id].value.staffUid == Some(staff)
    requires AtMostOne(s, merchant, staff)
    ensures AtMostOne(Next(s, UnblockEvent(id, merchant)), merchant, staff)
            <==> forall i :: 0 <= i < |s.rows| && i != id ==> !Serves(s.rows[i], merchant, staff)
  {
    var v := Next(s, UnblockEvent(id, merchant));
    assert Serves(v.rows[id], merchant, staff);
    assert forall i :: 0 <= i < |s.rows| && i != id ==> v.rows[i] == s.rows[i];
  }
}
