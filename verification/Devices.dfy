/**
  Device authorization (src/devices/devices.service.ts): device rows, the single active session of a
  staff member, and the cache in front of the rows.
 */
module Devices {
  import opened Wrappers

  const DEVICE_AUTH_TTL := 5 * 60 * 1000

  datatype Status = Pending | Approved | Blocked

  /** Missing status or activeSession is a row from before the field existed. */
  datatype Device = Device(
    uid: string, staffUid: Option<string>, branchId: Option<string>, token: string,
    status: Option<Status>, isActive: bool, activeSession: Option<bool>, pushToken: string)

  type Key = (string, string)

  /** A row's id is its place; a removed row leaves None behind. */
  type Rows = seq<Option<Device>>

  datatype AuthResult = AuthResult(authorized: bool, branchId: Option<string>, staffUid: Option<string>)

  const DENIED := AuthResult(false, None, None)

  datatype Entry = Entry(result: AuthResult, expiresAt: int)

  datatype State = State(rows: Rows, cache: map<Key, Entry>)

  datatype Error = NotFound | BadRequest

  function KeyOf(d: Device): Key { (d.uid, d.token) }

  predicate At(rows: Rows, key: Key, i: int) { 0 <= i < |rows| && rows[i].Some? && KeyOf(rows[i].value) == key }

  /** The unique index on (uid, fcmToken). */
  ghost predicate Unique(rows: Rows) {
    forall i, j, key :: At(rows, key, i) && At(rows, key, j) ==> i == j
  }

  function FindFrom(rows: Rows, key: Key, from: nat): (r: Option<nat>)
    requires from <= |rows|
    ensures r.Some? ==> At(rows, key, r.value)
    ensures r.None? ==> forall i :: from <= i < |rows| ==> !At(rows, key, i)
    decreases |rows| - from
  {
    if from == |rows| then None else if At(rows, key, from) then Some(from) else FindFrom(rows, key, from + 1)
  }

  predicate Authorized(d: Device) {
    && d.activeSession != Some(false)
    && (d.status == Some(Approved) || (d.status.None? && d.isActive))
  }

  function AnswerOf(d: Device): AuthResult {
    if Authorized(d) then AuthResult(true, d.branchId, d.staffUid) else DENIED
  }

  /** What resolveDeviceAuth computes when the cache has nothing. */
  function Answer(rows: Rows, key: Key): AuthResult {
    var id := FindFrom(rows, key, 0);
    if id.Some? then AnswerOf(rows[id.value].value) else DENIED
  }

  // ----- Operations: each stored change is followed by dropping the cache entries it owes -----

  predicate Owned(rows: Rows, id: nat, merchant: string) {
    id < |rows| && rows[id].Some? && rows[id].value.uid == merchant
  }

  function Put(s: State, id: nat, d: Device): State
    requires id < |s.rows| && s.rows[id].Some?
  {
    State(s.rows[id := Some(d)], s.cache - {KeyOf(s.rows[id].value)})
  }

  predicate IsSibling(d: Device, merchant: string, staff: string, token: string) {
    d.uid == merchant && d.staffUid == Some(staff) && d.token != token && d.activeSession != Some(false)
  }

  function SiblingKeys(rows: Rows, merchant: string, staff: string, token: string): set<Key> {
    set i | 0 <= i < |rows| && rows[i].Some? && IsSibling(rows[i].value, merchant, staff, token) :: KeyOf(rows[i].value)
  }

  function SupersededRow(r: Option<Device>, merchant: string, staff: string, token: string): Option<Device> {
    if r.Some? && IsSibling(r.value, merchant, staff, token) then Some(r.value.(activeSession := Some(false))) else r
  }

  function SupersedeSiblings(s: State, merchant: string, staff: string, token: string): State {
    State(seq(|s.rows|, i requires 0 <= i < |s.rows| => SupersededRow(s.rows[i], merchant, staff, token)),
          s.cache - SiblingKeys(s.rows, merchant, staff, token))
  }

  datatype Actor = Actor(id: string, merchantId: Option<string>) {
    function Merchant(): string { merchantId.GetOr(id) }

    predicate IsStaff() { Merchant() != id }
  }

  function Register(s: State, actor: Actor, token: string, branchId: string): Result<State, Error> {
    var key := (actor.Merchant(), token);
    if FindFrom(s.rows, key, 0).Some? then Err(BadRequest)
    else
      var status := if actor.IsStaff() then Pending else Approved;
      var d := Device(actor.Merchant(), Some(actor.id), Some(branchId), token, Some(status),
                      status == Approved, Some(true), "");
      Ok(State(s.rows + [Some(d)], s.cache - {key}))
  }

  function Opened(d: Device): Device { d.(status := Some(Approved), isActive := true, activeSession := Some(true)) }

  function Approve(s: State, id: nat, merchant: string): Result<State, Error> {
    if !Owned(s.rows, id, merchant) then Err(NotFound)
    else
      var d := s.rows[id].value;
      var v := Put(s, id, Opened(d));
      Ok(if d.staffUid.Some? then SupersedeSiblings(v, merchant, d.staffUid.value, d.token) else v)
  }

  function Block(s: State, id: nat, merchant: string): Result<State, Error> {
    if !Owned(s.rows, id, merchant) then Err(NotFound)
    else Ok(Put(s, id, s.rows[id].value.(status := Some(Blocked), isActive := false)))
  }

  function Unblock(s: State, id: nat, merchant: string): Result<State, Error> {
    if !Owned(s.rows, id, merchant) then Err(NotFound) else Ok(Put(s, id, Opened(s.rows[id].value)))
  }

  /** delete and disapprove. */
  function Remove(s: State, id: nat, merchant: string): Result<State, Error> {
    if !Owned(s.rows, id, merchant) then Err(NotFound)
    else Ok(State(s.rows[id := None], s.cache - {KeyOf(s.rows[id].value)}))
  }

  /** Writes any of the registration fields, the token included, and drops the old token's entry only. */
  function Update(s: State, id: nat, merchant: string, token: Option<string>, branchId: Option<string>): Result<State, Error> {
    if !Owned(s.rows, id, merchant) then Err(NotFound)
    else
      var d := s.rows[id].value;
      var changed := d.(token := token.GetOr(d.token), branchId := if branchId.Some? then branchId else d.branchId);
      if changed.token != d.token && FindFrom(s.rows, KeyOf(changed), 0).Some? then Err(BadRequest)
      else Ok(Put(s, id, changed))
  }

  function ClaimActive(s: State, actor: Actor, token: string, pushToken: string): State {
    var key := (actor.Merchant(), token);
    var id := FindFrom(s.rows, key, 0);
    if !actor.IsStaff() || id.None? || s.rows[id.value].value.status != Some(Approved) then s
    else
      var d := s.rows[id.value].value;
      var claimed := d.(activeSession := Some(true), pushToken := if pushToken != "" then pushToken else d.pushToken);
      SupersedeSiblings(Put(s, id.value, claimed), actor.Merchant(), d.staffUid.GetOr(actor.id), token)
  }

  function Backfilled(d: Device): Device {
    d.(status := if d.status.Some? then d.status else Some(if d.isActive then Approved else Blocked),
       activeSession := if d.activeSession.Some? then d.activeSession else Some(true))
  }

  /** onModuleInit: fills the fields older rows lack, touching no cache entry. */
  function Boot(s: State): State {
    s.(rows := seq(|s.rows|, i requires 0 <= i < |s.rows| =>
                 if s.rows[i].Some? then Some(Backfilled(s.rows[i].value)) else None))
  }

  function Resolve(s: State, key: Key, now: int): (State, AuthResult) {
    if key in s.cache && now < s.cache[key].expiresAt then (s, s.cache[key].result)
    else
      var result := Answer(s.rows, key);
      (s.(cache := s.cache[key := Entry(result, now + DEVICE_AUTH_TTL)]), result)
  }
}
