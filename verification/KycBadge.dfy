/**
  The provider badge as a function of the evidence (recomputeProviderVerification in
  src/kyc/kyc.service.ts), whatever sequence of operations led there.
 */
module KycBadge {
  import opened Wrappers
  import opened Kyc
  import opened KycRun
  import Sorting

  // ----- The reference: the newest submission of each type, nothing else -----

  datatype Decision = Undecided | Yes | No(reason: Option<string>)

  datatype View = View(decision: Decision, expiresAt: Option<int>, governmentId: Option<GovernmentId>)

  function ViewOf(d: Doc): View {
    View(match d.status case Approved => Yes case Rejected => No(d.rejectionReason) case _ => Undecided,
         d.expiresAt, d.governmentId)
  }

  function Evidence(docs: seq<Doc>, pid: string, t: DocType): Option<View> {
    var id := NewestId(docs, pid, t);
    if id.Some? then Some(ViewOf(docs[id.value])) else None
  }

  function RequiredFor(docs: seq<Doc>, pid: string, kind: ProviderKind): seq<DocType> {
    var front := Evidence(docs, pid, FrontOf(kind));
    RequiredTypes(kind, if front.Some? then front.value.governmentId else None)
  }

  predicate Unexpired(v: View, now: int) { v.expiresAt.None? || now < v.expiresAt.value }

  function BadgeFor(docs: seq<Doc>, pid: string, kind: ProviderKind, now: int): Badge {
    var required := RequiredFor(docs, pid, kind);
    if exists t :: t in required && Evidence(docs, pid, t).Some? && Evidence(docs, pid, t).value.decision.No? then Refused
    else if forall t :: t in required ==>
      Evidence(docs, pid, t).Some? && Evidence(docs, pid, t).value.decision.Yes? && Unexpired(Evidence(docs, pid, t).value, now)
    then Verified
    else if forall t :: t in required ==> Evidence(docs, pid, t).Some? then InReview
    else Pending
  }

  // ----- The source's computation agrees with the reference -----

  lemma {:induction false} GetSpec(byType: seq<Doc>, t: DocType)
    ensures Get(byType, t).Some? ==> Get(byType, t).value in byType && Get(byType, t).value.docType == t
    ensures Get(byType, t).None? ==> forall d :: d in byType ==> d.docType != t
  {
    if byType != [] { GetSpec(byType[1..], t); }
  }

  lemma HasTypeConcat(a: seq<Doc>, b: seq<Doc>, t: DocType)
    ensures HasType(a + b, t) <==> HasType(a, t) || HasType(b, t)
  {
    if HasType(a, t) {
      var d :| d in a && d.docType == t;
      assert d in a + b;
    }
    if HasType(b, t) {
      var d :| d in b && d.docType == t;
      assert d in a + b;
    }
  }

  lemma {:induction false} FirstPerTypeSpec(docs: seq<Doc>)
    ensures forall d :: d in FirstPerType(docs) ==> d in docs
    ensures forall t :: HasType(FirstPerType(docs), t) <==> HasType(docs, t)
  {
    if docs != [] {
      var init, last := docs[..|docs| - 1], docs[|docs| - 1];
      FirstPerTypeSpec(init);
      assert docs == init + [last];
      forall t ensures HasType(FirstPerType(docs), t) <==> HasType(docs, t) {
        HasTypeConcat(init, [last], t);
        HasTypeConcat(FirstPerType(init), [last], t);
        assert HasType([last], t) <==> last.docType == t by { assert last in [last]; }
        assert HasType(FirstPerType(init), t) <==> HasType(init, t);
        assert HasType(FirstPerType(init), last.docType) <==> HasType(init, last.docType);
      }
    }
  }

  /** What the source keeps per type is the newest submission of that type. */
  lemma LatestIsNewest(docs: seq<Doc>, pid: string, t: DocType)
    requires OnlyNewestLive(docs) && NewestIsLive(docs)
    ensures var id := NewestId(docs, pid, t);
      Get(LatestByType(docs, pid), t) == if id.Some? then Some(docs[id.value]) else None
  {
    hide NewestId, OnlyNewestLive, NewestIsLive, FirstPerType, Get, Sorting.Sort;
    LatestMembers(docs, pid);
    var byType := LatestByType(docs, pid);
    var id := NewestId(docs, pid, t);
    GetSpec(byType, t);
    var got := Get(byType, t);
    if got.Some? {
      var i :| 0 <= i < |docs| && docs[i] == got.value;
      LiveExactlyNewest(docs, pid, t, i);
    }
    if id.Some? {
      LiveExactlyNewest(docs, pid, t, id.value);
      assert docs[id.value] in docs && Live(docs[id.value], pid);
      assert HasType(byType, docs[id.value].docType);
    }
  }

  lemma LatestMembers(docs: seq<Doc>, pid: string)
    ensures forall d :: d in LatestByType(docs, pid) ==> d in docs && Live(d, pid)
    ensures forall d :: d in docs && Live(d, pid) ==> HasType(LatestByType(docs, pid), d.docType)
  {
    var live := Sorting.Filter(docs, (d: Doc) => Live(d, pid));
    Sorting.SortMembers(live, NewestFirst);
    FirstPerTypeSpec(Sorting.Sort(live, NewestFirst));
    forall d | d in docs && Live(d, pid) ensures HasType(Sorting.Sort(live, NewestFirst), d.docType) {
      assert d in Sorting.Sort(live, NewestFirst);
    }
  }

  lemma {:induction false} ClaimedSpec(byType: seq<Doc>)
    ensures var claimed := ClaimedGovernmentId(byType);
      if claimed.Some? then exists d :: d in byType && IsFrontClaim(d) && d.governmentId == claimed
      else forall d :: d in byType ==> !IsFrontClaim(d)
  {
    if byType != [] && !IsFrontClaim(byType[0]) {
      ClaimedSpec(byType[1..]);
      var claimed := ClaimedGovernmentId(byType[1..]);
      if claimed.Some? {
        var d :| d in byType[1..] && IsFrontClaim(d) && d.governmentId == claimed;
        assert d in byType;
      }
    }
  }

  lemma FrontClaimIsFronts(s: State, pid: string, d: Doc)
    requires Inv(s) && pid in s.providers && d in s.docs && Live(d, pid) && IsFrontClaim(d)
    ensures d.docType == FrontOf(s.providers[pid].kind)
    ensures Evidence(s.docs, pid, d.docType) == Some(ViewOf(d))
  {
    hide OneChain, OnlyNewestLive, NewestIsLive, NewestId;
    var i :| 0 <= i < |s.docs| && s.docs[i] == d;
    assert AllowedType(s.providers[pid].kind, s.docs[i].docType);
    LiveExactlyNewest(s.docs, pid, d.docType, i);
  }

  /** The claimed ID is read off the newest front-of-ID document, the only place one is recorded. */
  lemma ClaimedIsFronts(s: State, pid: string)
    requires Inv(s) && pid in s.providers
    ensures var front := Evidence(s.docs, pid, FrontOf(s.providers[pid].kind));
      ClaimedGovernmentId(LatestByType(s.docs, pid)) == if front.Some? then front.value.governmentId else None
  {
    hide NewestId, ClaimedGovernmentId, LatestByType, OneChain, WellTyped, OnlyNewestLive, NewestIsLive, IsFrontClaim;
    var byType := LatestByType(s.docs, pid);
    var t := FrontOf(s.providers[pid].kind);
    ClaimedSpec(byType);
    LatestMembers(s.docs, pid);
    var claimed := ClaimedGovernmentId(byType);
    if claimed.Some? {
      var d :| d in byType && IsFrontClaim(d) && d.governmentId == claimed;
      FrontClaimIsFronts(s, pid, d);
    } else {
      LatestIsNewest(s.docs, pid, t);
      GetSpec(byType, t);
      var front := Get(byType, t);
      if front.Some? {
        assert !IsFrontClaim(front.value);
        NotFrontClaim(front.value, pid);
      }
    }
  }

  lemma NotFrontClaim(d: Doc, pid: string)
    requires Live(d, pid) && IsFrontOfId(d.docType) && !IsFrontClaim(d)
    ensures d.governmentId.None?
  {
  }

  lemma {:induction false} FirstRejectedSpec(required: seq<DocType>, byType: seq<Doc>)
    ensures FirstRejected(required, byType).Some? <==> exists t :: t in required && IsRejected(Get(byType, t))
    ensures FirstRejected(required, byType).Some? ==>
      exists t :: t in required && IsRejected(Get(byType, t)) && FirstRejected(required, byType) == Get(byType, t)
  {
    if required != [] {
      FirstRejectedSpec(required[1..], byType);
      if IsRejected(Get(byType, required[0])) {
        assert required[0] in required;
      } else {
        assert forall t :: t in required <==> t == required[0] || t in required[1..];
      }
    }
  }

  /** When a verdict was last derived, and by whose approval if by one. */
  datatype Derivation = Derivation(at: int, approver: Option<string>)

  /** Everything the source stores about a verdict. */
  predicate Agrees(p: Provider, docs: seq<Doc>, pid: string, v: Derivation) {
    && p.badge == BadgeFor(docs, pid, p.kind, v.at)
    && p.verifiedAt == (if p.badge == Verified then Some(v.at) else None)
    && p.verifiedBy == (if p.badge == Verified then v.approver else None)
    && p.policyVersion == (if p.badge == Verified then Some(KYC_POLICY_VERSION) else None)
    && (if p.badge == Refused then CarriesReason(p, docs, pid) else p.rejectionReason.None?)
  }

  /** The reason shown with a refusal is the one recorded on a required document. */
  predicate CarriesReason(p: Provider, docs: seq<Doc>, pid: string) {
    exists t :: t in RequiredFor(docs, pid, p.kind) && RejectedFor(Evidence(docs, pid, t), p.rejectionReason)
  }

  predicate RejectedFor(v: Option<View>, reason: Option<string>) { v.Some? && v.value.decision == No(reason) }

  lemma RecomputeAgrees(s: State, pid: string, reviewer: Option<string>, now: int)
    requires Inv(s) && pid in s.providers
    ensures Agrees(Recompute(s.docs, s.providers[pid], pid, reviewer, now), s.docs, pid, Derivation(now, reviewer))
  {
    hide NewestId, ClaimedGovernmentId, LatestByType, RequiredTypes, FirstRejected, Get, OneChain, WellTyped;
    var byType := LatestByType(s.docs, pid);
    var kind := s.providers[pid].kind;
    ClaimedIsFronts(s, pid);
    var required := RequiredFor(s.docs, pid, kind);
    FirstRejectedSpec(required, byType);
    forall t: DocType
      ensures Evidence(s.docs, pid, t) == if Get(byType, t).Some? then Some(ViewOf(Get(byType, t).value)) else None
    {
      LatestIsNewest(s.docs, pid, t);
    }
  }

  // ----- The badge ignores what is not evidence -----

  ghost predicate SameEvidence(a: seq<Doc>, b: seq<Doc>, pid: string) {
    forall t :: Evidence(a, pid, t) == Evidence(b, pid, t)
  }

  lemma BadgeDependsOnEvidence(a: seq<Doc>, b: seq<Doc>, pid: string, kind: ProviderKind, now: int)
    requires SameEvidence(a, b, pid)
    ensures BadgeFor(a, pid, kind, now) == BadgeFor(b, pid, kind, now)
  {
    hide Evidence, RequiredTypes;
    assert Evidence(a, pid, FrontOf(kind)) == Evidence(b, pid, FrontOf(kind));
    assert forall t :: Evidence(a, pid, t) == Evidence(b, pid, t);
  }

  lemma AgreementDependsOnEvidence(p: Provider, a: seq<Doc>, b: seq<Doc>, pid: string, v: Derivation)
    requires SameEvidence(a, b, pid) && Agrees(p, a, pid, v)
    ensures Agrees(p, b, pid, v)
  {
    hide Evidence, RequiredTypes, BadgeFor;
    BadgeDependsOnEvidence(a, b, pid, p.kind, v.at);
    assert Evidence(a, pid, FrontOf(p.kind)) == Evidence(b, pid, FrontOf(p.kind));
    if p.badge == Refused {
      var t :| t in RequiredFor(a, pid, p.kind) && RejectedFor(Evidence(a, pid, t), p.rejectionReason);
      assert Evidence(a, pid, t) == Evidence(b, pid, t);
      assert t in RequiredFor(b, pid, p.kind);
    }
  }

  predicate LooksAlike(a: Doc, b: Doc) { SameKey(a, b) && ViewOf(a) == ViewOf(b) }

  lemma {:induction false} NewestIdSameKeys(a: seq<Doc>, b: seq<Doc>, pid: string, t: DocType)
    requires |a| == |b| && forall i :: 0 <= i < |a| ==> SameKey(a[i], b[i])
    ensures NewestId(a, pid, t) == NewestId(b, pid, t)
  {
    if a != [] { NewestIdSameKeys(a[..|a| - 1], b[..|b| - 1], pid, t); }
  }

  lemma EvidenceFromLooks(a: seq<Doc>, b: seq<Doc>, pid: string)
    requires |a| == |b| && forall i :: 0 <= i < |a| ==> SameKey(a[i], b[i])
    requires forall i :: 0 <= i < |a| && a[i].providerId == pid && NewestId(a, pid, a[i].docType) == Some(i) ==>
      LooksAlike(a[i], b[i])
    ensures SameEvidence(a, b, pid)
  {
    forall t ensures Evidence(a, pid, t) == Evidence(b, pid, t) {
      NewestIdSameKeys(a, b, pid, t);
    }
  }

  /** Claiming and releasing never move a badge. */
  lemma ClaimsKeepEvidence(s: State, e: Event, pid: string)
    requires Inv(s) && (e.ClaimCaseEvent? || e.ReleaseEvent? || e.ClaimDocumentEvent?)
    ensures SameEvidence(s.docs, Next(s, e).docs, pid)
  {
    hide NewestId, OneChain, OnlyNewestLive, NewestIsLive, WellTyped;
    var v := Next(s, e);
    ClaimOrReleaseReviewed(s, e);
    forall i | 0 <= i < |s.docs| ensures LooksAlike(s.docs[i], v.docs[i]) {
      assert s.docs[i].status == UnderReview <==> s.docs[i].claimedBy.Some?;
      assert StepAllowed(s.docs[i], v.docs[i]);
    }
    EvidenceFromLooks(s.docs, v.docs, pid);
  }

  lemma DecisionKeepsOthers(s: State, e: Event, pid: string)
    requires Inv(s) && (e.ApproveEvent? || e.RejectEvent?)
    requires e.id < |s.docs| && s.docs[e.id].providerId != pid
    ensures SameEvidence(s.docs, Next(s, e).docs, pid)
  {
    hide NewestId, OneChain, OnlyNewestLive, NewestIsLive, WellTyped, Recompute;
    EvidenceFromLooks(s.docs, Next(s, e).docs, pid);
  }

  lemma SubmitKeepsOthers(s: State, user: string, target: string, x: Submission, now: int, pid: string)
    requires Inv(s) && Submit(s, user, target, x, now).Ok? && target != pid
    ensures SameEvidence(s.docs, Submit(s, user, target, x, now).value.docs, pid)
  {
    hide Submit, OneChain, WellTyped;
    var b := Submit(s, user, target, x, now).value.docs;
    SubmitAppends(s, user, target, x, now);
    var init := b[..|b| - 1];
    forall i | 0 <= i < |s.docs| ensures SameKey(s.docs[i], init[i]) {}
    EvidenceFromLooks(s.docs, init, pid);
    forall t ensures Evidence(s.docs, pid, t) == Evidence(b, pid, t) {
      assert Evidence(s.docs, pid, t) == Evidence(init, pid, t);
    }
  }

  // ----- Over whole runs -----

  /** How each provider's badge was last derived; kept beside the store, not in it. */
  datatype Traced = Traced(s: State, derived: map<string, Derivation>)

  function Target(s: State, e: Event): Option<(string, Derivation)> {
    if Apply(s, e).Err? then None
    else
      match e
      case SubmitEvent(_, pid, _, now) => Some((pid, Derivation(now, None)))
      case ApproveEvent(reviewer, id, now) =>
        if id < |s.docs| then Some((s.docs[id].providerId, Derivation(now, Some(reviewer)))) else None
      case RejectEvent(_, id, _, now) => if id < |s.docs| then Some((s.docs[id].providerId, Derivation(now, None))) else None
      case _ => None
  }

  function NextTraced(w: Traced, e: Event): Traced {
    var target := Target(w.s, e);
    Traced(Next(w.s, e),
           if target.Some? then w.derived[target.value.0 := target.value.1] else w.derived)
  }

  function RunTraced(w: Traced, events: seq<Event>): Traced
    decreases |events|
  {
    if events == [] then w else RunTraced(NextTraced(w, events[0]), events[1..])
  }

  ghost predicate AllAgree(w: Traced) {
    forall pid :: pid in w.derived ==>
      pid in w.s.providers && Agrees(w.s.providers[pid], w.s.docs, pid, w.derived[pid])
  }

  /** Submit, approve and reject store the verdict on the documents they leave behind. */
  lemma TargetAgrees(s: State, e: Event)
    requires Inv(s) && Target(s, e).Some?
    ensures var (pid, v) := Target(s, e).value;
      pid in s.providers && Agrees(Next(s, e).providers[pid], Next(s, e).docs, pid, v)
  {
    hide Inv, Agrees, Recompute, NewestId, PreviousIds, UpdateMany, SubmissionError;
    var (pid, d) := Target(s, e).value;
    var v := Next(s, e);
    NextKeepsInv(s, e);
    TargetKeepsKind(s, e);
    RecomputeAgrees(v, pid, d.approver, d.at);
    RecomputeForgets(s.providers[pid], v.providers[pid], v.docs, pid, d.at);
  }

  lemma TargetKeepsKind(s: State, e: Event)
    requires Target(s, e).Some?
    ensures Target(s, e).value.0 in s.providers && Target(s, e).value.0 in Next(s, e).providers
    ensures var (pid, d) := Target(s, e).value;
      Next(s, e).providers[pid] == Recompute(Next(s, e).docs, s.providers[pid], pid, d.approver, d.at)
  {
    hide Recompute, PreviousIds, UpdateMany;
  }

  /** A derivation depends on the stored provider only through its kind and owner. */
  lemma RecomputeForgets(p: Provider, q: Provider, docs: seq<Doc>, pid: string, now: int)
    requires exists r :: q == Recompute(docs, p, pid, r, now)
    ensures forall r :: Recompute(docs, q, pid, r, now) == Recompute(docs, p, pid, r, now)
  {
    hide LatestByType, RequiredTypes, FirstRejected, ClaimedGovernmentId, Get;
  }

  lemma OthersKeep(s: State, e: Event, pid: string)
    requires Inv(s) && pid in s.providers
    requires Target(s, e).Some? ==> Target(s, e).value.0 != pid
    ensures pid in Next(s, e).providers && Next(s, e).providers[pid] == s.providers[pid]
    ensures SameEvidence(s.docs, Next(s, e).docs, pid)
  {
    hide Inv, Recompute, NewestId, Evidence, PreviousIds, UpdateMany;
    if Apply(s, e).Ok? {
      match e
      case SubmitEvent(user, target, x, now) => SubmitKeepsOthers(s, user, target, x, now, pid);
      case ApproveEvent(_, _, _) => DecisionKeepsOthers(s, e, pid);
      case RejectEvent(_, _, _, _) => DecisionKeepsOthers(s, e, pid);
      case _ => ClaimsKeepEvidence(s, e, pid);
    }
  }

  lemma NextKeepsAgreement(w: Traced, e: Event)
    requires Inv(w.s) && AllAgree(w)
    ensures AllAgree(NextTraced(w, e))
  {
    hide Inv, Next, Agrees, SameEvidence;
    var v := NextTraced(w, e);
    if Target(w.s, e).Some? {
      TargetAgrees(w.s, e);
      TargetKeepsKind(w.s, e);
    }
    forall pid | pid in v.derived ensures pid in v.s.providers && Agrees(v.s.providers[pid], v.s.docs, pid, v.derived[pid]) {
      if !(Target(w.s, e).Some? && Target(w.s, e).value.0 == pid) {
        OthersKeep(w.s, e, pid);
        AgreementDependsOnEvidence(w.s.providers[pid], w.s.docs, v.s.docs, pid, w.derived[pid]);
      }
    }
  }

  /**
    Whatever history led there, a stored badge is the pure derivation over the documents now stored, at
    the time it was last derived; verifiedAt, its approver and the policy version are set only when it is Verified.
   */
  lemma {:induction false} BadgeIsFunctionOfEvidence(w: Traced, events: seq<Event>)
    requires Inv(w.s) && AllAgree(w)
    ensures AllAgree(RunTraced(w, events)) && RunTraced(w, events).s == Run(w.s, events)
    decreases |events|
  {
    if events != [] {
      NextKeepsInv(w.s, events[0]);
      NextKeepsAgreement(w, events[0]);
      BadgeIsFunctionOfEvidence(NextTraced(w, events[0]), events[1..]);
    }
  }

  /** The only way a badge goes stale with no operation: it is Verified and a required document has expired since. */
  lemma BadgeDriftsExactly(docs: seq<Doc>, pid: string, kind: ProviderKind, at: int, now: int)
    requires at <= now
    ensures BadgeFor(docs, pid, kind, now) != BadgeFor(docs, pid, kind, at) <==>
      BadgeFor(docs, pid, kind, at) == Verified
      && exists t :: t in RequiredFor(docs, pid, kind)
                     && Evidence(docs, pid, t).Some? && !Unexpired(Evidence(docs, pid, t).value, now)
  {
    hide Evidence, RequiredFor;
  }
}
