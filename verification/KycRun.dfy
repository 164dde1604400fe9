/**
  Every sequential run of the KYC operations (src/kyc/kyc.service.ts): what the documents keep, and
  that the badge is a function of the evidence.
 */
module KycRun {
  import opened Wrappers
  import opened Kyc

  datatype Event =
    | SubmitEvent(user: string, pid: string, x: Submission, now: int)
    | ClaimCaseEvent(reviewer: string, pid: string)
    | ReleaseEvent(reviewer: string, pid: string)
    | ClaimDocumentEvent(reviewer: string, id: nat)
    | ApproveEvent(reviewer: string, id: nat, now: int)
    | RejectEvent(reviewer: string, id: nat, reason: string, now: int)

  function Apply(s: State, e: Event): Result<State, Error> {
    match e
    case SubmitEvent(user, pid, x, now) => Submit(s, user, pid, x, now)
    case ClaimCaseEvent(reviewer, pid) => ClaimCase(s, reviewer, pid)
    case ReleaseEvent(reviewer, pid) => ReleaseCase(s, reviewer, pid)
    case ClaimDocumentEvent(reviewer, id) => ClaimDocument(s, reviewer, id)
    case ApproveEvent(reviewer, id, now) => Approve(s, reviewer, id, now)
    case RejectEvent(reviewer, id, reason, now) => Reject(s, reviewer, id, reason, now)
  }

  /** A refused operation stores nothing. */
  function Next(s: State, e: Event): State {
    var r := Apply(s, e);
    if r.Ok? then r.value else s
  }

  function Run(s: State, events: seq<Event>): State
    decreases |events|
  {
    if events == [] then s else Run(Next(s, events[0]), events[1..])
  }

  // ----- Invariants of the documents -----

  predicate SameKey(a: Doc, b: Doc) { a.providerId == b.providerId && a.docType == b.docType }

  /** Under review exactly while somebody holds it. */
  ghost predicate ClaimedExactlyUnderReview(docs: seq<Doc>) {
    forall i :: 0 <= i < |docs| ==> (docs[i].status == UnderReview <==> docs[i].claimedBy.Some?)
  }

  /** Every document but the newest of its provider and type is superseded. */
  ghost predicate OnlyNewestLive(docs: seq<Doc>) {
    forall i, j :: 0 <= i < j < |docs| && SameKey(docs[i], docs[j]) ==> docs[i].status == Superseded
  }

  /** p is the last earlier document of the same provider and type. */
  ghost predicate IsPredecessor(docs: seq<Doc>, i: nat, p: Option<nat>)
    requires i < |docs|
  {
    match p
    case None => forall k :: 0 <= k < i ==> !SameKey(docs[k], docs[i])
    case Some(j) => j < i && SameKey(docs[j], docs[i]) && forall k :: j < k < i ==> !SameKey(docs[k], docs[i])
  }

  /** The supersedes links of each type are one chain through all its documents, newest to oldest. */
  ghost predicate OneChain(docs: seq<Doc>) {
    forall i :: 0 <= i < |docs| ==> IsPredecessor(docs, i, docs[i].supersedes)
  }

  /** The newest document of each provider and type is live: replacing a document never leaves a gap. */
  ghost predicate NewestIsLive(docs: seq<Doc>) {
    forall i :: 0 <= i < |docs| && docs[i].status == Superseded ==>
      exists j :: i < j < |docs| && SameKey(docs[i], docs[j])
  }

  ghost predicate WellTyped(s: State) {
    forall i :: 0 <= i < |s.docs| ==>
      var d := s.docs[i];
      && d.providerId in s.providers
      && AllowedType(s.providers[d.providerId].kind, d.docType)
      && (d.governmentId.Some? ==> IsFrontOfId(d.docType))
  }

  ghost predicate Inv(s: State) {
    && ClaimedExactlyUnderReview(s.docs) && OnlyNewestLive(s.docs) && NewestIsLive(s.docs)
    && OneChain(s.docs) && WellTyped(s)
  }

  /** What one step may do to a document that already exists. */
  predicate StepAllowed(a: Doc, b: Doc) {
    && b == a.(status := b.status, claimedBy := b.claimedBy, rejectionReason := b.rejectionReason)
    && (a.status == Superseded ==> b == a)
    && (a.status == Approved || a.status == Rejected ==> b == a || b.status == Superseded)
    && (b.status == UnderReview <==> b.claimedBy.Some?)
  }

  ghost predicate Evolves(a: seq<Doc>, b: seq<Doc>) {
    && |a| <= |b|
    && forall i :: 0 <= i < |a| ==> StepAllowed(a[i], b[i])
  }

  /** Reviewing steps: same documents, none superseded. */
  ghost predicate Reviewed(a: seq<Doc>, b: seq<Doc>) {
    && |a| == |b| && Evolves(a, b)
    && forall i :: 0 <= i < |a| ==> (b[i].status == Superseded <==> a[i].status == Superseded)
  }

  lemma ReviewKeepsInv(s: State, v: State)
    requires Inv(s) && Reviewed(s.docs, v.docs)
    requires SameProviders(s, v)
    ensures Inv(v)
  {
    forall i | 0 <= i < |v.docs| ensures IsPredecessor(v.docs, i, v.docs[i].supersedes) {
      assert StepAllowed(s.docs[i], v.docs[i]);
      assert IsPredecessor(s.docs, i, s.docs[i].supersedes);
      assert forall k :: 0 <= k < |s.docs| ==> StepAllowed(s.docs[k], v.docs[k]);
    }
    forall i | 0 <= i < |v.docs| && v.docs[i].status == Superseded
      ensures exists j :: i < j < |v.docs| && SameKey(v.docs[i], v.docs[j])
    {
      var j :| i < j < |s.docs| && SameKey(s.docs[i], s.docs[j]);
      assert StepAllowed(s.docs[i], v.docs[i]) && StepAllowed(s.docs[j], v.docs[j]);
    }
    forall i, j | 0 <= i < j < |v.docs| && SameKey(v.docs[i], v.docs[j]) ensures v.docs[i].status == Superseded {
      assert StepAllowed(s.docs[i], v.docs[i]) && StepAllowed(s.docs[j], v.docs[j]);
    }
    forall i | 0 <= i < |v.docs| ensures v.docs[i].status == UnderReview <==> v.docs[i].claimedBy.Some? {
      assert StepAllowed(s.docs[i], v.docs[i]);
    }
    forall i | 0 <= i < |v.docs|
      ensures v.docs[i].providerId in v.providers
              && AllowedType(v.providers[v.docs[i].providerId].kind, v.docs[i].docType)
              && (v.docs[i].governmentId.Some? ==> IsFrontOfId(v.docs[i].docType))
    {
      assert StepAllowed(s.docs[i], v.docs[i]);
    }
  }

  // ----- The newest submission of a type -----

  function NewestId(docs: seq<Doc>, pid: string, t: DocType): (r: Option<nat>)
    ensures r.Some? ==> r.value < |docs| && docs[r.value].providerId == pid && docs[r.value].docType == t
    ensures forall k :: 0 <= k < |docs| && docs[k].providerId == pid && docs[k].docType == t ==>
      r.Some? && k <= r.value
  {
    if docs == [] then None
    else
      var last := docs[|docs| - 1];
      if last.providerId == pid && last.docType == t then Some(|docs| - 1)
      else NewestId(docs[..|docs| - 1], pid, t)
  }

  /** The live document of a type is its newest submission, and the newest submission is always live. */
  lemma LiveExactlyNewest(docs: seq<Doc>, pid: string, t: DocType, i: nat)
    requires OnlyNewestLive(docs) && NewestIsLive(docs)
    requires i < |docs|
    ensures LiveOfType(docs[i], pid, t) <==> NewestId(docs, pid, t) == Some(i)
  {
    var n := NewestId(docs, pid, t);
    if LiveOfType(docs[i], pid, t) && n.value != i {
      assert SameKey(docs[i], docs[n.value]);
    }
    if n == Some(i) && docs[i].status == Superseded {
      var j :| i < j < |docs| && SameKey(docs[i], docs[j]);
    }
  }

  lemma PreviousIsNewest(docs: seq<Doc>, pid: string, t: DocType)
    requires OnlyNewestLive(docs) && NewestIsLive(docs)
    ensures var previous := PreviousIds(docs, pid, t);
      (if previous != [] then Some(previous[0]) else None) == NewestId(docs, pid, t)
  {
    var previous, n := PreviousIds(docs, pid, t), NewestId(docs, pid, t);
    if previous != [] {
      assert previous[0] in previous;
      LiveExactlyNewest(docs, pid, t, previous[0]);
    }
    if n.Some? {
      LiveExactlyNewest(docs, pid, t, n.value);
      assert n.value in previous;
    }
  }

  /** The documents after an accepted submission: the newest one of its type superseded, the new one appended. */
  ghost predicate SubmittedOver(a: seq<Doc>, b: seq<Doc>, doc: Doc) {
    var newest := NewestId(a, doc.providerId, doc.docType);
    && |b| == |a| + 1 && b[|a|] == doc
    && doc.status == Submitted && doc.claimedBy.None? && doc.supersedes == newest
    && forall i :: 0 <= i < |a| ==> b[i] == if newest == Some(i) then Supersede(a[i]) else a[i]
  }

  lemma SubmitAppends(s: State, user: string, pid: string, x: Submission, now: int)
    requires OnlyNewestLive(s.docs) && NewestIsLive(s.docs) && Submit(s, user, pid, x, now).Ok?
    ensures SubmittedOver(s.docs, Submit(s, user, pid, x, now).value.docs,
                          NewDoc(pid, x, NewestId(s.docs, pid, x.docType), now))
  {
    hide Recompute, SubmissionError, NewestId, OnlyNewestLive, NewestIsLive;
    var previous := PreviousIds(s.docs, pid, x.docType);
    PreviousIsNewest(s.docs, pid, x.docType);
    var newest := NewestId(s.docs, pid, x.docType);
    var b := Submit(s, user, pid, x, now).value.docs;
    assert b == UpdateMany(s.docs, previous, Supersede) + [NewDoc(pid, x, newest, now)];
    forall i | 0 <= i < |s.docs| ensures i in previous <==> newest == Some(i) {
      LiveExactlyNewest(s.docs, pid, x.docType, i);
    }
  }

  lemma SubmittedKeepsLive(a: seq<Doc>, b: seq<Doc>, doc: Doc)
    requires OnlyNewestLive(a) && NewestIsLive(a) && SubmittedOver(a, b, doc)
    ensures OnlyNewestLive(b) && NewestIsLive(b)
  {
    var newest := NewestId(a, doc.providerId, doc.docType);
    hide NewestId;
    forall i | 0 <= i < |b| && b[i].status == Superseded ensures exists j :: i < j < |b| && SameKey(b[i], b[j]) {
      if newest == Some(i) {
        assert SameKey(b[i], b[|a|]);
      } else {
        var j :| i < j < |a| && SameKey(a[i], a[j]);
        assert SameKey(b[i], b[j]);
      }
    }
    forall i, j | 0 <= i < j < |b| && SameKey(b[i], b[j]) ensures b[i].status == Superseded {
      if j < |a| {
        assert SameKey(a[i], a[j]);
      } else if newest != Some(i) {
        assert SameKey(a[i], a[newest.value]);
      }
    }
  }

  lemma SubmittedKeepsChain(a: seq<Doc>, b: seq<Doc>, doc: Doc)
    requires OneChain(a) && SubmittedOver(a, b, doc)
    ensures OneChain(b)
  {
    var newest := NewestId(a, doc.providerId, doc.docType);
    hide NewestId;
    forall i | 0 <= i < |b| ensures IsPredecessor(b, i, b[i].supersedes) {
      if i < |a| { assert IsPredecessor(a, i, a[i].supersedes); }
    }
  }

  lemma SubmitKeepsInv(s: State, user: string, pid: string, x: Submission, now: int)
    requires Inv(s) && Submit(s, user, pid, x, now).Ok?
    ensures Inv(Submit(s, user, pid, x, now).value)
    ensures Evolves(s.docs, Submit(s, user, pid, x, now).value.docs)
  {
    hide Recompute, PreviousIds, UpdateMany, OneChain, OnlyNewestLive, NewestIsLive, NewestId;
    var v := Submit(s, user, pid, x, now).value;
    var doc := NewDoc(pid, x, NewestId(s.docs, pid, x.docType), now);
    SubmitAppends(s, user, pid, x, now);
    SubmittedKeepsLive(s.docs, v.docs, doc);
    SubmittedKeepsChain(s.docs, v.docs, doc);
    RecomputeKeepsKind(v.docs, s.providers[pid], pid, None, now);
  }

  lemma RecomputeKeepsKind(docs: seq<Doc>, p: Provider, pid: string, reviewer: Option<string>, now: int)
    ensures Recompute(docs, p, pid, reviewer, now).kind == p.kind
  {
    hide LatestByType, RequiredTypes, FirstRejected, ClaimedGovernmentId;
  }

  ghost predicate SameProviders(a: State, b: State) {
    && a.providers.Keys == b.providers.Keys
    && forall pid :: pid in a.providers ==> b.providers[pid].kind == a.providers[pid].kind
  }

  lemma ClaimOrReleaseReviewed(s: State, e: Event)
    requires Inv(s) && (e.ClaimCaseEvent? || e.ReleaseEvent? || e.ClaimDocumentEvent?)
    ensures Reviewed(s.docs, Next(s, e).docs) && Next(s, e).providers == s.providers
  {
    hide OneChain, OnlyNewestLive, NewestIsLive, WellTyped;
    var v := Next(s, e);
    forall i | 0 <= i < |s.docs|
      ensures StepAllowed(s.docs[i], v.docs[i]) && (v.docs[i].status == Superseded <==> s.docs[i].status == Superseded)
    {
      assert s.docs[i].status == UnderReview <==> s.docs[i].claimedBy.Some?;
    }
  }

  lemma DecisionReviewed(s: State, e: Event)
    requires Inv(s) && (e.ApproveEvent? || e.RejectEvent?)
    ensures Reviewed(s.docs, Next(s, e).docs) && SameProviders(s, Next(s, e))
  {
    hide OneChain, OnlyNewestLive, NewestIsLive, WellTyped, Recompute;
    var v := Next(s, e);
    if Apply(s, e).Ok? {
      var pid := s.docs[e.id].providerId;
      RecomputeKeepsKind(v.docs, s.providers[pid], pid, Some(e.reviewer), e.now);
      RecomputeKeepsKind(v.docs, s.providers[pid], pid, None, e.now);
    }
    forall i | 0 <= i < |s.docs|
      ensures StepAllowed(s.docs[i], v.docs[i]) && (v.docs[i].status == Superseded <==> s.docs[i].status == Superseded)
    {
      assert s.docs[i].status == UnderReview <==> s.docs[i].claimedBy.Some?;
    }
  }

  lemma Unchanged(s: State)
    requires Inv(s)
    ensures Evolves(s.docs, s.docs)
  {
  }

  /** Every operation keeps the document invariants, and changes an existing document only as StepAllowed says. */
  lemma NextKeepsInv(s: State, e: Event)
    requires Inv(s)
    ensures Inv(Next(s, e)) && Evolves(s.docs, Next(s, e).docs)
  {
    hide Submit, ClaimCase, ReleaseCase, ClaimDocument, Approve, Reject, Inv, StepAllowed;
    if e.SubmitEvent? {
      if Apply(s, e).Ok? {
        SubmitKeepsInv(s, e.user, e.pid, e.x, e.now);
      } else {
        Unchanged(s);
      }
    } else {
      if e.ApproveEvent? || e.RejectEvent? { DecisionReviewed(s, e); } else { ClaimOrReleaseReviewed(s, e); }
      ReviewKeepsInv(s, Next(s, e));
    }
  }

  lemma {:induction false} RunKeepsInv(s: State, events: seq<Event>)
    requires Inv(s)
    ensures Inv(Run(s, events))
    ensures |s.docs| <= |Run(s, events).docs|
    decreases |events|
  {
    if events != [] {
      NextKeepsInv(s, events[0]);
      RunKeepsInv(Next(s, events[0]), events[1..]);
    }
  }

  /**
    From an empty collection, after any run: one live document per provider and type, and the
    supersedes links of a type run through all its submissions in order, so they cannot form a cycle.
   */
  lemma EveryRunIsChained(s: State, events: seq<Event>)
    requires s.docs == []
    ensures Inv(Run(s, events))
  {
    RunKeepsInv(s, events);
  }

  /** SUPERSEDED is terminal and decided documents are never reopened, over whole runs. */
  lemma {:induction false} DecidedStaysDecided(s: State, events: seq<Event>, i: nat)
    requires Inv(s) && i < |s.docs|
    ensures var v := Run(s, events);
      && i < |v.docs| && SameKey(s.docs[i], v.docs[i]) && s.docs[i].supersedes == v.docs[i].supersedes
      && (s.docs[i].status == Superseded ==> v.docs[i] == s.docs[i])
      && (s.docs[i].status == Approved || s.docs[i].status == Rejected ==>
            v.docs[i] == s.docs[i] || v.docs[i].status == Superseded)
    decreases |events|
  {
    if events != [] {
      NextKeepsInv(s, events[0]);
      assert StepAllowed(s.docs[i], Next(s, events[0]).docs[i]);
      DecidedStaysDecided(Next(s, events[0]), events[1..], i);
    }
  }

  // ----- Who holds a case -----

  ghost predicate OneHolder(s: State, pid: string) {
    forall i, j :: 0 <= i < |s.docs| && 0 <= j < |s.docs|
                   && s.docs[i].providerId == pid && s.docs[j].providerId == pid
                   && s.docs[i].claimedBy.Some? && s.docs[j].claimedBy.Some? ==>
      s.docs[i].claimedBy == s.docs[j].claimedBy
  }

  /** Claims on a provider's documents after a step were there before, or are all the case claimer's. */
  lemma NextKeepsOneHolder(s: State, e: Event, pid: string)
    requires Inv(s) && OneHolder(s, pid) && !e.ClaimDocumentEvent?
    ensures OneHolder(Next(s, e), pid)
  {
    hide Recompute, RequiredTypes, OneChain, OnlyNewestLive, NewestIsLive, WellTyped;
    var v := Next(s, e);
    if e.ClaimCaseEvent? && e.pid == pid && Apply(s, e).Ok? && v != s {
      forall i | 0 <= i < |v.docs| && v.docs[i].providerId == pid && v.docs[i].claimedBy.Some?
        ensures v.docs[i].claimedBy == Some(e.reviewer)
      {
        assert s.docs[i].status == UnderReview <==> s.docs[i].claimedBy.Some?;
      }
    } else {
      forall i | 0 <= i < |v.docs| && v.docs[i].providerId == pid && v.docs[i].claimedBy.Some?
        ensures i < |s.docs| && s.docs[i].providerId == pid && s.docs[i].claimedBy == v.docs[i].claimedBy
      {
      }
    }
  }

  lemma {:induction false} CaseClaimsHaveOneHolder(s: State, events: seq<Event>, pid: string)
    requires Inv(s) && OneHolder(s, pid)
    requires forall e :: e in events ==> !e.ClaimDocumentEvent?
    ensures OneHolder(Run(s, events), pid)
    decreases |events|
  {
    if events != [] {
      NextKeepsInv(s, events[0]);
      NextKeepsOneHolder(s, events[0], pid);
      CaseClaimsHaveOneHolder(Next(s, events[0]), events[1..], pid);
    }
  }

  /** A single-document claim splits a case exactly when another reviewer already holds some other part of it. */
  lemma DocumentClaimSplitsExactly(s: State, reviewer: string, id: nat)
    requires Inv(s) && id < |s.docs| && OneHolder(s, s.docs[id].providerId)
    requires s.docs[id].claimedBy.None? && ClaimDocument(s, reviewer, id).Ok?
    ensures OneHolder(Next(s, ClaimDocumentEvent(reviewer, id)), s.docs[id].providerId)
            <==> forall i :: 0 <= i < |s.docs| && s.docs[i].providerId == s.docs[id].providerId ==>
                   s.docs[i].claimedBy.None? || s.docs[i].claimedBy == Some(reviewer)
  {
    var v := Next(s, ClaimDocumentEvent(reviewer, id));
    assert v.docs[id].claimedBy == Some(reviewer);
    if OneHolder(v, s.docs[id].providerId) {
      forall i | 0 <= i < |s.docs| && s.docs[i].providerId == s.docs[id].providerId && s.docs[i].claimedBy.Some?
        ensures s.docs[i].claimedBy == Some(reviewer)
      {
        assert v.docs[i].claimedBy == v.docs[id].claimedBy;
      }
    }
  }
}
