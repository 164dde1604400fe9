/**
  The KYC service over its two collections (src/kyc/kyc.service.ts): what each operation does to them and
  what a caller may rely on afterwards, on any store the operations can have produced.
 */
module KycStore {
  import opened Wrappers
  import opened Kyc
  import opened KycRun
  import opened KycBadge

  /** One provider's verdict is derived anew from these documents; nobody else's is touched. */
  predicate Rederived(
    before: map<string, Provider>, after: map<string, Provider>, docs: seq<Doc>, pid: string, d: Derivation)
  {
    && pid in before && after.Keys == before.Keys
    && (forall q :: q in before && q != pid ==> after[q] == before[q])
    && after[pid].kind == before[pid].kind && after[pid].owner == before[pid].owner
    && Agrees(after[pid], docs, pid, d)
  }

  /** The document can be decided by this reviewer: it is open, and not her own. */
  predicate MayDecide(s: State, reviewer: string, id: nat) {
    && id < |s.docs| && Reviewable(s.docs[id], s.docs[id].providerId)
    && s.docs[id].providerId in s.providers && s.providers[s.docs[id].providerId].owner != reviewer
  }

  predicate HasOpen(docs: seq<Doc>, pid: string) { exists i :: 0 <= i < |docs| && Reviewable(docs[i], pid) }

  predicate OpenFor(d: Doc, pid: string, reviewer: string) {
    Reviewable(d, pid) ==> d.claimedBy.None? || d.claimedBy == Some(reviewer)
  }

  predicate HeldBy(d: Doc, pid: string, reviewer: string) {
    d.providerId == pid && d.status == UnderReview && d.claimedBy == Some(reviewer)
  }

  /** Something is open, it is not the reviewer's own case, and nobody else holds any open part of it. */
  predicate CaseIsFree(s: State, reviewer: string, pid: string) {
    && pid in s.providers && s.providers[pid].owner != reviewer && HasOpen(s.docs, pid)
    && forall i :: 0 <= i < |s.docs| ==> OpenFor(s.docs[i], pid, reviewer)
  }

  /** Exactly the open documents are hers, and nobody else holds anything of that provider. */
  predicate WholeCaseTaken(before: seq<Doc>, after: seq<Doc>, reviewer: string, pid: string) {
    && |after| == |before|
    && (forall i :: 0 <= i < |after| ==>
          after[i] == if Reviewable(before[i], pid) then ClaimFor(reviewer)(before[i]) else before[i])
    && (forall i :: 0 <= i < |after| && after[i].providerId == pid && after[i].claimedBy.Some? ==>
          after[i].claimedBy == Some(reviewer))
  }

  /** Stored documents and providers, with the run invariants; `derived` says how each verdict came about. */
  class KycService {
    var docs: seq<Doc>
    var providers: map<string, Provider>
    ghost var derived: map<string, Derivation>

    function Stored(): State
      reads this
    {
      State(docs, providers)
    }

    ghost predicate Valid()
      reads this
    {
      Inv(Stored()) && AllAgree(Traced(Stored(), derived))
    }

    constructor (providers: map<string, Provider>)
      ensures Valid() && docs == [] && this.providers == providers
    {
      this.docs, this.providers, derived := [], providers, map[];
    }

    /**
      An accepted submission takes the place of the newest document of its type, which it links back to and
      supersedes, and stands undecided and unexpired as the evidence of that type.
     */
    method SubmitDocument(user: string, pid: string, x: Submission, now: int) returns (error: Option<Error>)
      requires Valid()
      modifies this
      ensures Valid()
      ensures error == SubmissionError(old(Stored()), user, pid, x, now)
      ensures error.Some? ==> Stored() == old(Stored()) && derived == old(derived)
      ensures error.None? ==>
        && SubmittedOver(old(docs), docs, NewDoc(pid, x, NewestId(old(docs), pid, x.docType), now))
        && Evidence(docs, pid, x.docType).Some? && Evidence(docs, pid, x.docType).value.decision == Undecided
        && Unexpired(Evidence(docs, pid, x.docType).value, now) && old(providers)[pid].owner == user
        && Rederived(old(providers), providers, docs, pid, Derivation(now, None))
    {
      hide Inv, AllAgree, SubmissionError, Recompute, Agrees, Evidence;
      error := SubmissionError(Stored(), user, pid, x, now);
      if error.Some? { return; }
      ghost var before := Traced(Stored(), derived);
      ghost var event := SubmitEvent(user, pid, x, now);
      SubmissionKnowsProvider(Stored(), user, pid, x, now);
      var previous := PreviousIds(docs, pid, x.docType);
      var doc := NewDoc(pid, x, if previous != [] then Some(previous[0]) else None, now);
      docs := UpdateMany(docs, previous, Supersede) + [doc];
      providers := providers[pid := Recompute(docs, providers[pid], pid, None, now)];
      derived := derived[pid := Derivation(now, None)];
      assert Apply(before.s, event) == Ok(Stored());
      StepFacts(before, event);
      SubmitFacts(before.s, user, pid, x, now);
    }

    /** The whole case goes to one reviewer, unless somebody else holds any open part of it. */
    method ClaimCaseForReview(reviewer: string, pid: string) returns (error: Option<Error>)
      requires Valid()
      modifies this`docs
      ensures Valid()
      ensures error == Some(NotFound) <==> pid !in providers
      ensures error == Some(BadRequest) <==>
        pid in providers && providers[pid].owner != reviewer && !HasOpen(old(docs), pid)
      ensures error.None? <==> CaseIsFree(old(Stored()), reviewer, pid)
      ensures error.Some? ==> docs == old(docs)
      ensures error.None? ==> WholeCaseTaken(old(docs), docs, reviewer, pid)
    {
      hide Inv, AllAgree, Recompute, CaseIsFree, WholeCaseTaken, HasOpen;
      ghost var before := Traced(Stored(), derived);
      ghost var event := ClaimCaseEvent(reviewer, pid);
      CaseClaimed(Stored(), reviewer, pid);
      StepFacts(before, event);
      error := ReviewError(Stored(), reviewer, pid);
      if error.Some? { return; }
      var open := IdsFrom(docs, (d: Doc) => Reviewable(d, pid), 0);
      if open == [] { return Some(BadRequest); }
      if exists i :: i in open && docs[i].claimedBy.Some? && docs[i].claimedBy.value != reviewer {
        return Some(Forbidden);
      }
      if !(forall i :: i in open ==> docs[i].claimedBy == Some(reviewer)) {
        docs := UpdateMany(docs, open, ClaimFor(reviewer));
      }
      assert Stored() == Next(before.s, event);
    }

    /** The reviewer lets go of what she holds; no decided or superseded document is touched. */
    method ReleaseCaseOf(reviewer: string, pid: string) returns (error: Option<Error>)
      requires Valid()
      modifies this`docs
      ensures Valid()
      ensures error == if pid in providers then None else Some(NotFound)
      ensures error.Some? ==> docs == old(docs)
      ensures error.None? ==>
        && |docs| == |old(docs)|
        && (forall i :: 0 <= i < |docs| ==>
              docs[i] == if HeldBy(old(docs)[i], pid, reviewer) then Unclaim(old(docs)[i]) else old(docs)[i])
        && (forall i :: 0 <= i < |docs| && old(docs)[i].status != UnderReview ==> docs[i] == old(docs)[i])
        && (forall i :: 0 <= i < |docs| && docs[i].providerId == pid ==> docs[i].claimedBy != Some(reviewer))
    {
      hide Inv, AllAgree, Recompute;
      ghost var before := Traced(Stored(), derived);
      ghost var event := ReleaseEvent(reviewer, pid);
      ClaimedExactly(Stored());
      StepFacts(before, event);
      if pid !in providers { return Some(NotFound); }
      var mine := IdsFrom(docs, (d: Doc) => d.providerId == pid && d.claimedBy == Some(reviewer), 0);
      docs := UpdateMany(docs, mine, Unclaim);
      assert Stored() == Next(before.s, event);
      return None;
    }

    method ClaimDocumentForReview(reviewer: string, id: nat) returns (error: Option<Error>)
      requires Valid()
      modifies this`docs
      ensures Valid()
      ensures error == Some(NotFound) <==> id >= |old(docs)|
      ensures error.None? <==>
        MayDecide(old(Stored()), reviewer, id) && OpenFor(old(docs)[id], old(docs)[id].providerId, reviewer)
      ensures error.Some? ==> docs == old(docs)
      ensures error.None? ==>
        docs == old(docs)[id := ClaimFor(reviewer)(old(docs)[id])] && HeldBy(docs[id], old(docs)[id].providerId, reviewer)
    {
      hide Inv, AllAgree, Recompute;
      ghost var before := Traced(Stored(), derived);
      ghost var event := ClaimDocumentEvent(reviewer, id);
      ClaimedExactly(Stored());
      ProvidersKnown(Stored());
      StepFacts(before, event);
      error := DocumentError(Stored(), reviewer, id);
      if error.Some? || docs[id].claimedBy == Some(reviewer) { return; }
      if docs[id].claimedBy.Some? { return Some(Forbidden); }
      docs := docs[id := docs[id].(status := UnderReview, claimedBy := Some(reviewer))];
      assert Stored() == Next(before.s, event);
    }

    /** The decision counts at once: the approved document is the evidence of its type, whoever had claimed it. */
    method ApproveDocument(reviewer: string, id: nat, now: int) returns (error: Option<Error>)
      requires Valid()
      modifies this
      ensures Valid()
      ensures error == Some(NotFound) <==> id >= |old(docs)|
      ensures error.None? <==> MayDecide(old(Stored()), reviewer, id)
      ensures error.Some? ==> Stored() == old(Stored()) && derived == old(derived)
      ensures error.None? ==> var d := old(docs)[id];
        && docs == old(docs)[id := d.(status := Approved, claimedBy := None, rejectionReason := None)]
        && Evidence(docs, d.providerId, d.docType) == Some(View(Yes, d.expiresAt, d.governmentId))
        && Rederived(old(providers), providers, docs, d.providerId, Derivation(now, Some(reviewer)))
    {
      hide Inv, AllAgree, Recompute, Agrees, Evidence;
      ghost var before := Traced(Stored(), derived);
      ghost var event := ApproveEvent(reviewer, id, now);
      ProvidersKnown(Stored());
      error := DocumentError(Stored(), reviewer, id);
      if error.Some? { return; }
      var pid := docs[id].providerId;
      docs := docs[id := docs[id].(status := Approved, claimedBy := None, rejectionReason := None)];
      providers := providers[pid := Recompute(docs, providers[pid], pid, Some(reviewer), now)];
      derived := derived[pid := Derivation(now, Some(reviewer))];
      assert Apply(before.s, event) == Ok(Stored());
      StepFacts(before, event);
      DecidedIsEvidence(before.s, event, id);
    }

    /** A rejected document of a required type refuses the provider, with its reason or another required type's. */
    method RejectDocument(reviewer: string, id: nat, reason: string, now: int) returns (error: Option<Error>)
      requires Valid()
      modifies this
      ensures Valid()
      ensures error == Some(NotFound) <==> id >= |old(docs)|
      ensures error.None? <==> MayDecide(old(Stored()), reviewer, id)
      ensures error.Some? ==> Stored() == old(Stored()) && derived == old(derived)
      ensures error.None? ==> var d := old(docs)[id];
        && docs == old(docs)[id := d.(status := Rejected, claimedBy := None, rejectionReason := Some(reason))]
        && Evidence(docs, d.providerId, d.docType) == Some(View(No(Some(reason)), d.expiresAt, d.governmentId))
        && Rederived(old(providers), providers, docs, d.providerId, Derivation(now, None))
        && (d.docType in RequiredFor(docs, d.providerId, providers[d.providerId].kind) ==>
              providers[d.providerId].badge == Refused)
    {
      hide Inv, AllAgree, Recompute, Agrees, Evidence;
      ghost var before := Traced(Stored(), derived);
      ghost var event := RejectEvent(reviewer, id, reason, now);
      ProvidersKnown(Stored());
      error := DocumentError(Stored(), reviewer, id);
      if error.Some? { return; }
      var pid := docs[id].providerId;
      docs := docs[id := docs[id].(status := Rejected, claimedBy := None, rejectionReason := Some(reason))];
      providers := providers[pid := Recompute(docs, providers[pid], pid, None, now)];
      derived := derived[pid := Derivation(now, None)];
      assert Apply(before.s, event) == Ok(Stored());
      StepFacts(before, event);
      DecidedIsEvidence(before.s, event, id);
      RefusedByRequired(providers[pid], docs, pid, before.s.docs[id].docType, Derivation(now, None));
    }
  }

  // ----- What the operations rely on -----

  lemma StepFacts(w: Traced, e: Event)
    requires Inv(w.s) && AllAgree(w)
    ensures Inv(Next(w.s, e)) && AllAgree(NextTraced(w, e))
    ensures Target(w.s, e).Some? ==>
      var (pid, d) := Target(w.s, e).value;
      pid in w.s.providers && Rederived(w.s.providers, Next(w.s, e).providers, Next(w.s, e).docs, pid, d)
  {
    hide Inv, AllAgree, Agrees, Recompute, PreviousIds, UpdateMany, SubmissionError;
    NextKeepsInv(w.s, e);
    NextKeepsAgreement(w, e);
    if Target(w.s, e).Some? {
      var (pid, d) := Target(w.s, e).value;
      TargetAgrees(w.s, e);
      TargetKeepsKind(w.s, e);
      RecomputeKeepsRest(Next(w.s, e).docs, w.s.providers[pid], pid, d.approver, d.at);
    }
  }

  lemma RecomputeKeepsRest(docs: seq<Doc>, p: Provider, pid: string, reviewer: Option<string>, now: int)
    ensures Recompute(docs, p, pid, reviewer, now).kind == p.kind
    ensures Recompute(docs, p, pid, reviewer, now).owner == p.owner
  {
    hide LatestByType, RequiredTypes, FirstRejected, ClaimedGovernmentId;
  }

  lemma ClaimedExactly(s: State)
    requires Inv(s)
    ensures ClaimedExactlyUnderReview(s.docs)
  {
  }

  lemma CaseClaimed(s: State, reviewer: string, pid: string)
    requires Inv(s)
    ensures var r := ClaimCase(s, reviewer, pid);
      && (r == Err(NotFound) <==> pid !in s.providers)
      && (r == Err(BadRequest) <==> pid in s.providers && s.providers[pid].owner != reviewer && !HasOpen(s.docs, pid))
      && (r.Ok? <==> CaseIsFree(s, reviewer, pid))
      && (r.Ok? ==> WholeCaseTaken(s.docs, r.value.docs, reviewer, pid))
  {
    hide OneChain, WellTyped, OnlyNewestLive, NewestIsLive;
    var open := IdsFrom(s.docs, (d: Doc) => Reviewable(d, pid), 0);
    FirstMember(open);
    assert HasOpen(s.docs, pid) <==> open != [];
    assert (forall i :: 0 <= i < |s.docs| ==> OpenFor(s.docs[i], pid, reviewer))
      <==> forall i :: i in open ==> OpenFor(s.docs[i], pid, reviewer);
    assert forall i :: 0 <= i < |s.docs| ==> (s.docs[i].status == UnderReview <==> s.docs[i].claimedBy.Some?);
  }

  lemma FirstMember<T>(s: seq<T>)
    ensures s != [] ==> s[0] in s
  {
  }

  lemma ProvidersKnown(s: State)
    requires Inv(s)
    ensures forall i :: 0 <= i < |s.docs| ==> s.docs[i].providerId in s.providers
  {
  }

  lemma SubmissionKnowsProvider(s: State, user: string, pid: string, x: Submission, now: int)
    requires SubmissionError(s, user, pid, x, now).None?
    ensures pid in s.providers && s.providers[pid].owner == user
  {
  }

  lemma SubmitFacts(s: State, user: string, pid: string, x: Submission, now: int)
    requires Inv(s) && Submit(s, user, pid, x, now).Ok?
    ensures var b := Submit(s, user, pid, x, now).value.docs;
      && SubmittedOver(s.docs, b, NewDoc(pid, x, NewestId(s.docs, pid, x.docType), now))
      && Evidence(b, pid, x.docType).Some? && Evidence(b, pid, x.docType).value.decision == Undecided
      && Unexpired(Evidence(b, pid, x.docType).value, now)
  {
    hide Submit, OneChain, WellTyped, OnlyNewestLive, NewestIsLive;
    SubmitAppends(s, user, pid, x, now);
    AcceptedUnexpired(s, user, pid, x, now);
    var b := Submit(s, user, pid, x, now).value.docs;
    assert b[|b| - 1].providerId == pid && b[|b| - 1].docType == x.docType;
  }

  lemma AcceptedUnexpired(s: State, user: string, pid: string, x: Submission, now: int)
    requires Submit(s, user, pid, x, now).Ok?
    ensures Unexpired(ViewOf(NewDoc(pid, x, NewestId(s.docs, pid, x.docType), now)), now)
  {
    hide PreviousIds, UpdateMany, Recompute, NewestId;
  }

  /** An open document is the newest of its type, so the decision on it is the evidence. */
  lemma DecidedIsEvidence(s: State, e: Event, id: nat)
    requires Inv(s) && (e.ApproveEvent? || e.RejectEvent?) && e.id == id && Apply(s, e).Ok? && id < |s.docs|
    ensures var d := s.docs[id]; var b := Next(s, e).docs;
      id < |b| && Evidence(b, d.providerId, d.docType) == Some(ViewOf(b[id]))
  {
    hide Recompute, OneChain, OnlyNewestLive, NewestIsLive, WellTyped, NewestId;
    var d := s.docs[id];
    var b := Next(s, e).docs;
    LiveExactlyNewest(s.docs, d.providerId, d.docType, id);
    forall i | 0 <= i < |s.docs| ensures SameKey(s.docs[i], b[i]) {}
    NewestIdSameKeys(s.docs, b, d.providerId, d.docType);
  }

  lemma RefusedByRequired(p: Provider, docs: seq<Doc>, pid: string, t: DocType, d: Derivation)
    requires Agrees(p, docs, pid, d)
    requires Evidence(docs, pid, t).Some? && Evidence(docs, pid, t).value.decision.No?
    ensures t in RequiredFor(docs, pid, p.kind) ==> p.badge == Refused
  {
    hide RequiredFor, Evidence;
  }

  /** Claiming a case nobody had touched and releasing it again leaves everything as it was. */
  lemma ReleaseUndoesClaim(s: State, reviewer: string, pid: string)
    requires Inv(s) && ClaimCase(s, reviewer, pid).Ok?
    requires forall i :: 0 <= i < |s.docs| && s.docs[i].providerId == pid ==> s.docs[i].claimedBy.None?
    ensures ReleaseCase(ClaimCase(s, reviewer, pid).value, reviewer, pid) == Ok(s)
  {
    hide OneChain, WellTyped, OnlyNewestLive, NewestIsLive;
    var v := ClaimCase(s, reviewer, pid).value;
    var r := ReleaseCase(v, reviewer, pid).value;
    forall i | 0 <= i < |s.docs| ensures r.docs[i] == s.docs[i] {
      assert s.docs[i].status == UnderReview <==> s.docs[i].claimedBy.Some?;
    }
    assert r.docs == s.docs;
  }
}
