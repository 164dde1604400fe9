/**
  The device service over its collection and its cache (src/devices/devices.service.ts), each method run
  without interruption: what an operation does to the rows, and what the gate answers afterwards.
 */
module DeviceStore {
  import opened Wrappers
  import opened Devices
  import opened DeviceRun

  /** Every staff member who had at most one authorized device still has at most one. */
  ghost predicate KeepsSessions(before: State, after: State) {
    forall merchant, staff :: merchant != staff && AtMostOne(before, merchant, staff) ==> AtMostOne(after, merchant, staff)
  }

  /** A cache that agreed with the rows still does. */
  ghost predicate KeepsTruth(before: State, after: State) { Coherent(before) ==> Coherent(after) }

  /** The gate's answer changes for no device but those listed. */
  ghost predicate AnswersKeptBut(before: Rows, after: Rows, keys: set<Key>) {
    forall key :: key !in keys ==> Answer(after, key) == Answer(before, key)
  }

  /** A staff member signs in on an approved device, which stands at this place. */
  predicate SignsIn(rows: Rows, actor: Actor, token: string, i: int) {
    actor.IsStaff() && At(rows, (actor.Merchant(), token), i) && rows[i].value.status == Some(Approved)
  }

  /**
    The device holds the session, the gate lets it in, it is its staff member's only one, and no other row
    is touched but its siblings'.
   */
  ghost predicate SignedIn(before: Rows, s: State, actor: Actor, token: string, pushToken: string, i: int) {
    && |s.rows| == |before| && At(before, (actor.Merchant(), token), i) && At(s.rows, (actor.Merchant(), token), i)
    && var was, d := before[i].value, s.rows[i].value;
       && d == was.(activeSession := Some(true), pushToken := if pushToken != "" then pushToken else was.pushToken)
       && Answer(s.rows, KeyOf(d)) == AuthResult(true, was.branchId, was.staffUid)
       && (was.staffUid.Some? ==> Sole(s, i, actor.Merchant(), was.staffUid.value))
       && forall k :: 0 <= k < |before| && k != i ==>
            s.rows[k] == SupersededRow(before[k], actor.Merchant(), was.staffUid.GetOr(actor.id), token)
  }

  class DevicesService {
    var rows: Rows
    var cache: map<Key, Entry>

    function Stored(): State
      reads this
    {
      State(rows, cache)
    }

    /** The unique index. The cache need not agree with the rows: an update can leave a stale refusal. */
    ghost predicate Valid()
      reads this
    {
      Unique(rows)
    }

    constructor ()
      ensures Valid() && rows == [] && cache == map[]
    {
      rows, cache := [], map[];
    }

    method InvalidateDeviceAuth(key: Key)
      modifies this`cache
      ensures cache == old(cache) - {key}
    {
      cache := cache - {key};
    }

    method SupersedeSiblingDevices(merchant: string, staff: string, token: string) returns (tokens: seq<string>)
      requires Valid()
      modifies this
      ensures Valid() && KeepsTruth(old(Stored()), Stored()) && KeepsSessions(old(Stored()), Stored())
      ensures Stored() == SupersedeSiblings(old(Stored()), merchant, staff, token)
    {
      tokens := [];
      var before := rows;
      ghost var cached := cache;
      var dropped: set<Key> := {};
      for i := 0 to |before|
        invariant |rows| == |before| && cache == cached
        invariant forall k :: 0 <= k < |before| ==>
          rows[k] == if k < i then SupersededRow(before[k], merchant, staff, token) else before[k]
        invariant dropped == set k | 0 <= k < i && before[k].Some? && IsSibling(before[k].value, merchant, staff, token)
                                   :: KeyOf(before[k].value)
      {
        if before[i].Some? && IsSibling(before[i].value, merchant, staff, token) {
          rows := rows[i := Some(before[i].value.(activeSession := Some(false)))];
          dropped := dropped + {KeyOf(before[i].value)};
          if before[i].value.pushToken != "" { tokens := tokens + [before[i].value.pushToken]; }
        }
      }
      cache := cache - dropped;
      assert Stored() == SupersedeSiblings(old(Stored()), merchant, staff, token);
      SupersedeFacts(old(Stored()), merchant, staff, token);
    }

    /** A new device answers to its key at once for an owner, and only after approval for staff. */
    method RegisterDevice(actor: Actor, token: string, branchId: string) returns (error: Option<Error>)
      requires Valid()
      modifies this
      ensures Valid() && KeepsTruth(old(Stored()), Stored()) && KeepsSessions(old(Stored()), Stored())
      ensures var key := (actor.Merchant(), token);
        && error == (if exists i :: At(old(rows), key, i) then Some(BadRequest) else None)
        && (error.Some? ==> Stored() == old(Stored()))
        && (error.None? ==>
              && |rows| == |old(rows)| + 1 && rows[..|old(rows)|] == old(rows) && At(rows, key, |old(rows)|)
              && cache == old(cache) - {key}
              && Answer(rows, key) == (if actor.IsStaff() then DENIED else AuthResult(true, Some(branchId), Some(actor.id)))
              && AnswersKeptBut(old(rows), rows, {key}))
    {
      hide Answer, Unique;
      ghost var before := Stored();
      var key := (actor.Merchant(), token);
      StepKeeps(before, RegisterEvent(actor, token, branchId));
      FindExactly(rows, key);
      if FindFrom(rows, key, 0).Some? { return Some(BadRequest); }
      var status := if actor.IsStaff() then Pending else Approved;
      var d := Device(actor.Merchant(), Some(actor.id), Some(branchId), token, Some(status),
                      status == Approved, Some(true), "");
      rows := rows + [Some(d)];
      InvalidateDeviceAuth(key);
      assert Stored() == Next(before, RegisterEvent(actor, token, branchId));
      ChangedAnswers(before.rows, Insert(d));
      AnswerAt(rows, key, |before.rows|);
      return None;
    }

    /** The approved device is let in, and is its staff member's only one. */
    method ApproveDevice(id: nat, merchant: string) returns (error: Option<Error>)
      requires Valid()
      modifies this
      ensures Valid() && KeepsTruth(old(Stored()), Stored()) && KeepsSessions(old(Stored()), Stored())
      ensures error == if Owned(old(rows), id, merchant) then None else Some(NotFound)
      ensures error.Some? ==> Stored() == old(Stored())
      ensures error.None? ==> var d := old(rows)[id].value;
        && |rows| == |old(rows)| && rows[id] == Some(Opened(d))
        && (forall i :: 0 <= i < |rows| && i != id ==>
              rows[i] == if d.staffUid.Some? then SupersededRow(old(rows)[i], merchant, d.staffUid.value, d.token)
                         else old(rows)[i])
        && Answer(rows, KeyOf(d)) == AuthResult(true, d.branchId, d.staffUid)
        && (d.staffUid.Some? ==> Sole(Stored(), id, merchant, d.staffUid.value))
    {
      hide Answer, Unique;
      ghost var before := Stored();
      StepKeeps(before, ApproveEvent(id, merchant));
      if !Owned(rows, id, merchant) { return Some(NotFound); }
      var d := rows[id].value;
      UniqueAfterPut(before, id, Opened(d));
      rows := rows[id := Some(Opened(d))];
      InvalidateDeviceAuth(KeyOf(d));
      if d.staffUid.Some? {
        var _ := SupersedeSiblingDevices(merchant, d.staffUid.value, d.token);
        ApprovedIsSole(before, id, merchant);
      }
      assert Stored() == Next(before, ApproveEvent(id, merchant));
      AnswerAt(rows, KeyOf(d), id);
      return None;
    }

    /**
      The fields sent are stored; a cache that agreed still does exactly when no authorized device lands on
      a cached refusal.
     */
    method UpdateDevice(id: nat, merchant: string, token: Option<string>, branchId: Option<string>)
      returns (error: Option<Error>)
      requires Valid()
      modifies this
      ensures Valid() && KeepsSessions(old(Stored()), Stored())
      ensures error == Some(NotFound) <==> !Owned(old(rows), id, merchant)
      ensures error == Some(BadRequest) <==>
        Owned(old(rows), id, merchant) && token.Some? && token.value != old(rows)[id].value.token
        && exists i :: At(old(rows), (merchant, token.value), i)
      ensures error.Some? ==> Stored() == old(Stored())
      ensures error.None? ==> var d := old(rows)[id].value;
        && |rows| == |old(rows)| && (forall i :: 0 <= i < |rows| && i != id ==> rows[i] == old(rows)[i])
        && rows[id].Some? && var changed := rows[id].value;
           && changed == d.(token := changed.token, branchId := changed.branchId)
           && changed.token == token.GetOr(d.token) && (changed.branchId == if branchId.Some? then branchId else d.branchId)
           && Answer(rows, KeyOf(changed)) == AnswerOf(changed)
           && (changed.token != d.token ==> Answer(rows, KeyOf(d)) == DENIED)
           && AnswersKeptBut(old(rows), rows, {KeyOf(d), KeyOf(changed)})
           && (old(Coherent(Stored())) ==>
                 (Coherent(Stored()) <==>
                    changed.token == d.token || (merchant, changed.token) !in old(cache) || !Authorized(d)))
    {
      hide Answer, Unique, Coherent;
      ghost var before := Stored();
      NextKeepsUnique(before, UpdateEvent(id, merchant, token, branchId));
      SessionsKept(before, UpdateEvent(id, merchant, token, branchId));
      if !Owned(rows, id, merchant) { return Some(NotFound); }
      var d := rows[id].value;
      var changed := d.(token := token.GetOr(d.token), branchId := if branchId.Some? then branchId else d.branchId);
      FindExactly(rows, KeyOf(changed));
      if changed.token != d.token && FindFrom(rows, KeyOf(changed), 0).Some? { return Some(BadRequest); }
      rows := rows[id := Some(changed)];
      InvalidateDeviceAuth(KeyOf(d));
      assert Stored() == Update(before, id, merchant, token, branchId).value;
      UpdatedAnswers(before, id, merchant, token, branchId);
      if Coherent(before) { UpdateCoherentExactly(before, id, merchant, token, branchId); }
      return None;
    }

    /** Blocking shuts this device out and nobody else; unblocking lets it in beside whatever is let in already. */
    method SetBlocked(id: nat, merchant: string, blocked: bool) returns (error: Option<Error>)
      requires Valid()
      modifies this
      ensures Valid() && KeepsTruth(old(Stored()), Stored()) && (blocked ==> KeepsSessions(old(Stored()), Stored()))
      ensures error == if Owned(old(rows), id, merchant) then None else Some(NotFound)
      ensures error.Some? ==> Stored() == old(Stored())
      ensures error.None? ==> var d := old(rows)[id].value;
        && |rows| == |old(rows)| && (forall i :: 0 <= i < |rows| && i != id ==> rows[i] == old(rows)[i])
        && rows[id] == Some(if blocked then d.(status := Some(Blocked), isActive := false) else Opened(d))
        && cache == old(cache) - {KeyOf(d)}
        && Answer(rows, KeyOf(d)) == (if blocked then DENIED else AuthResult(true, d.branchId, d.staffUid))
        && AnswersKeptBut(old(rows), rows, {KeyOf(d)})
      ensures error.None? && !blocked ==>
        forall staff :: old(rows)[id].value.staffUid == Some(staff) && AtMostOne(old(Stored()), merchant, staff) ==>
          (AtMostOne(Stored(), merchant, staff)
           <==> forall i :: 0 <= i < |rows| && i != id ==> !Serves(rows[i], merchant, staff))
    {
      hide Answer, Unique, Coherent, Serves;
      ghost var before := Stored();
      ghost var event := if blocked then BlockEvent(id, merchant) else UnblockEvent(id, merchant);
      NextKeepsUnique(before, event);
      TruthKept(before, event);
      if blocked { SessionsKept(before, event); }
      if !Owned(rows, id, merchant) { return Some(NotFound); }
      var d := rows[id].value;
      var changed := if blocked then d.(status := Some(Blocked), isActive := false) else Opened(d);
      rows := rows[id := Some(changed)];
      InvalidateDeviceAuth(KeyOf(d));
      assert Stored() == Next(before, event);
      ChangedAnswers(before.rows, Replace(id, changed));
      AnswerAt(rows, KeyOf(d), id);
      if !blocked {
        forall staff | d.staffUid == Some(staff) && AtMostOne(before, merchant, staff)
          ensures AtMostOne(Stored(), merchant, staff)
                  <==> forall i :: 0 <= i < |rows| && i != id ==> !Serves(rows[i], merchant, staff)
        {
          UnblockKeepsAtMostOneExactly(before, id, merchant, staff);
        }
      }
      return None;
    }

    /** A deleted device is refused from then on, everybody else answered as before. */
    method DeleteDevice(id: nat, merchant: string) returns (error: Option<Error>)
      requires Valid()
      modifies this
      ensures Valid() && KeepsTruth(old(Stored()), Stored()) && KeepsSessions(old(Stored()), Stored())
      ensures error == if Owned(old(rows), id, merchant) then None else Some(NotFound)
      ensures error.Some? ==> Stored() == old(Stored())
      ensures error.None? ==> var key := KeyOf(old(rows)[id].value);
        && |rows| == |old(rows)| && (forall i :: 0 <= i < |rows| && i != id ==> rows[i] == old(rows)[i])
        && !(exists i :: At(rows, key, i)) && Answer(rows, key) == DENIED
        && cache == old(cache) - {key} && AnswersKeptBut(old(rows), rows, {key})
    {
      hide Answer, Coherent;
      ghost var before := Stored();
      StepKeeps(before, RemoveEvent(id, merchant));
      if !Owned(rows, id, merchant) { return Some(NotFound); }
      var key := KeyOf(rows[id].value);
      rows := rows[id := None];
      InvalidateDeviceAuth(key);
      assert Stored() == Next(before, RemoveEvent(id, merchant));
      ChangedAnswers(before.rows, Drop(id));
      forall i ensures !At(rows, key, i) { assert At(before.rows, key, id); assert At(rows, key, i) ==> At(before.rows, key, i); }
      NobodyThere(rows, key);
      return None;
    }

    /** Signing in on an approved device takes the session from every other one; anything else changes nothing. */
    method ClaimActiveDevice(actor: Actor, token: string, pushToken: string)
      requires Valid()
      modifies this
      ensures Valid() && KeepsTruth(old(Stored()), Stored()) && KeepsSessions(old(Stored()), Stored())
      ensures !(exists i :: SignsIn(old(rows), actor, token, i)) ==> Stored() == old(Stored())
      ensures forall i :: SignsIn(old(rows), actor, token, i) ==>
        SignedIn(old(rows), Stored(), actor, token, pushToken, i)
    {
      hide Answer, Unique, Coherent, Sole, SignedIn, KeepsTruth, KeepsSessions;
      ghost var before := Stored();
      var merchant := actor.Merchant();
      SignInFacts(before, actor, token, pushToken);
      var id := FindFrom(rows, (merchant, token), 0);
      if !actor.IsStaff() || id.None? || rows[id.value].value.status != Some(Approved) { return; }
      var d := rows[id.value].value;
      var claimed := d.(activeSession := Some(true), pushToken := if pushToken != "" then pushToken else d.pushToken);
      UniqueAfterPut(before, id.value, claimed);
      rows := rows[id.value := Some(claimed)];
      InvalidateDeviceAuth((merchant, token));
      var _ := SupersedeSiblingDevices(merchant, d.staffUid.GetOr(actor.id), token);
      assert Stored() == ClaimActive(before, actor, token, pushToken);
    }

    /** The gate: a live entry is served, anything else is computed from the rows and kept for one TTL. */
    method ResolveDeviceAuth(key: Key, now: int) returns (result: AuthResult)
      requires Valid()
      modifies this`cache
      ensures Valid() && KeepsTruth(old(Stored()), Stored())
      ensures old(Coherent(Stored())) ==> result == Answer(rows, key)
      ensures key in cache && cache[key].result == result && now < cache[key].expiresAt
      ensures forall k :: k != key ==> (k in cache <==> k in old(cache)) && (k in cache ==> cache[k] == old(cache)[k])
      ensures key in old(cache) && now < old(cache)[key].expiresAt ==> cache == old(cache)
      ensures !(key in old(cache) && now < old(cache)[key].expiresAt) ==>
        result == Answer(rows, key) && cache[key].expiresAt == now + DEVICE_AUTH_TTL
    {
      hide Answer;
      if key in cache && now < cache[key].expiresAt { return cache[key].result; }
      result := Answer(rows, key);
      cache := cache[key := Entry(result, now + DEVICE_AUTH_TTL)];
    }
  }

  // ----- What the operations rely on -----

  lemma FindExactly(rows: Rows, key: Key)
    ensures FindFrom(rows, key, 0).Some? <==> exists i :: At(rows, key, i)
  {
    if FindFrom(rows, key, 0).Some? { assert At(rows, key, FindFrom(rows, key, 0).value); }
  }

  lemma OnlyPlace(rows: Rows, key: Key)
    requires Unique(rows)
    ensures forall i :: At(rows, key, i) ==> FindFrom(rows, key, 0) == Some(i)
  {
  }

  lemma NobodyThere(rows: Rows, key: Key)
    requires forall i :: !At(rows, key, i)
    ensures Answer(rows, key) == DENIED
  {
    FindExactly(rows, key);
  }

  lemma UniqueAfterPut(s: State, id: nat, d: Device)
    requires Unique(s.rows) && id < |s.rows| && s.rows[id].Some? && KeyOf(d) == KeyOf(s.rows[id].value)
    ensures Unique(s.rows[id := Some(d)])
  {
    PutKeepsUnique(s, id, d);
  }

  lemma ChangedAnswers(rows: Rows, c: Change)
    requires Unique(rows) && Legal(rows, c)
    ensures Unique(After(rows, c)) && AnswersKeptBut(rows, After(rows, c), Owed(rows, c))
  {
    hide Answer, Unique, After, Owed, Legal;
    ChangeKeepsUnique(rows, c);
    forall key | key !in Owed(rows, c) ensures Answer(After(rows, c), key) == Answer(rows, key) {
      ChangeMovesOnlyOwed(rows, c, key);
    }
  }

  lemma TruthKept(s: State, e: Event)
    requires Unique(s.rows) && !e.UpdateEvent?
    ensures KeepsTruth(s, Next(s, e))
  {
    hide Next;
    if Coherent(s) { NextKeepsInv(s, e); }
  }

  lemma SessionsKept(s: State, e: Event)
    requires Unique(s.rows) && !e.UnblockEvent?
    ensures KeepsSessions(s, Next(s, e))
  {
    hide Next, AtMostOne, Unique;
    forall merchant, staff | merchant != staff && AtMostOne(s, merchant, staff) ensures AtMostOne(Next(s, e), merchant, staff) {
      NextKeepsAtMostOne(s, e, merchant, staff);
    }
  }

  lemma StepKeeps(s: State, e: Event)
    requires Unique(s.rows) && !e.UpdateEvent? && !e.UnblockEvent?
    ensures Unique(Next(s, e).rows) && KeepsTruth(s, Next(s, e)) && KeepsSessions(s, Next(s, e))
  {
    NextKeepsUnique(s, e);
    TruthKept(s, e);
    SessionsKept(s, e);
  }

  lemma SupersedeFacts(s: State, merchant: string, staff: string, token: string)
    requires Unique(s.rows)
    ensures var v := SupersedeSiblings(s, merchant, staff, token);
      Unique(v.rows) && KeepsTruth(s, v) && KeepsSessions(s, v)
  {
    hide SupersedeSiblings, AtMostOne, Unique, Coherent;
    var v := SupersedeSiblings(s, merchant, staff, token);
    ChangedAnswers(s.rows, Supersede(merchant, staff, token));
    assert v.rows == After(s.rows, Supersede(merchant, staff, token)) by { SupersedeIgnoresCache(s, merchant, staff, token); }
    if Coherent(s) { SupersedeKeepsInv(s, merchant, staff, token); }
    forall m, st | m != st && AtMostOne(s, m, st) ensures AtMostOne(v, m, st) {
      SupersedeKeepsAtMostOne(s, merchant, staff, token, m, st);
    }
  }

  lemma SupersedeIgnoresCache(s: State, merchant: string, staff: string, token: string)
    ensures SupersedeSiblings(s, merchant, staff, token).rows
            == SupersedeSiblings(State(s.rows, map[]), merchant, staff, token).rows
  {
  }

  lemma SignInFacts(s: State, actor: Actor, token: string, pushToken: string)
    requires Unique(s.rows)
    ensures var v := ClaimActive(s, actor, token, pushToken);
      && Unique(v.rows) && KeepsTruth(s, v) && KeepsSessions(s, v)
      && (!(exists i :: SignsIn(s.rows, actor, token, i)) ==> v == s)
      && (forall i :: SignsIn(s.rows, actor, token, i) ==> SignedIn(s.rows, v, actor, token, pushToken, i))
  {
    hide Answer, Coherent, Sole, KeepsTruth, KeepsSessions;
    var v := ClaimActive(s, actor, token, pushToken);
    StepKeeps(s, ClaimEvent(actor, token, pushToken));
    OnlyPlace(s.rows, (actor.Merchant(), token));
    FindExactly(s.rows, (actor.Merchant(), token));
    var id := FindFrom(s.rows, (actor.Merchant(), token), 0);
    if id.Some? && SignsIn(s.rows, actor, token, id.value) {
      AnswerAt(v.rows, (actor.Merchant(), token), id.value);
      if s.rows[id.value].value.staffUid.Some? { ClaimedIsSole(s, actor, token, pushToken, id.value); }
    }
  }

  lemma UpdatedAnswers(s: State, id: nat, merchant: string, token: Option<string>, branchId: Option<string>)
    requires Unique(s.rows) && Update(s, id, merchant, token, branchId).Ok?
    ensures var v := Update(s, id, merchant, token, branchId).value.rows;
      var d, changed := s.rows[id].value, v[id].value;
      && Answer(v, KeyOf(changed)) == AnswerOf(changed)
      && (changed.token != d.token ==> Answer(v, KeyOf(d)) == DENIED)
      && AnswersKeptBut(s.rows, v, {KeyOf(d), KeyOf(changed)})
  {
    hide Answer;
    var v := Update(s, id, merchant, token, branchId).value.rows;
    UpdateKeepsUnique(s, id, merchant, token, branchId);
    var d, changed := s.rows[id].value, v[id].value;
    AnswerAt(v, KeyOf(changed), id);
    assert At(s.rows, KeyOf(d), id);
    if changed.token != d.token {
      forall i ensures !At(v, KeyOf(d), i) { assert At(v, KeyOf(d), i) ==> At(s.rows, KeyOf(d), i); }
      NobodyThere(v, KeyOf(d));
    }
    forall key | key !in {KeyOf(d), KeyOf(changed)} ensures Answer(v, key) == Answer(s.rows, key) {
      assert forall i :: At(v, key, i) <==> At(s.rows, key, i);
      assert SamePlace(s.rows, v, key);
      SamePlaceSameAnswer(s.rows, v, key);
    }
  }
}
