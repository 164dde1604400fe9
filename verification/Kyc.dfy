/**
  KYC documents and the verification badge (src/kyc/kyc.service.ts).

  Documents are never removed, so a document's id is its place in the submission order.
 */
module Kyc {
  import opened Wrappers
  import Sorting

  datatype ProviderKind = MerchantBranch | WasherProvider

  datatype DocType =
    | BusinessPermit | OwnerValidId | DtiCertificate | Bir2303
    | PhotoStorefront | PhotoInterior | PhotoMachines
    | ValidId | ValidIdBack | BarangayClearance | ProofOfAddress | Selfie

  datatype GovernmentId =
    | PhilSys | DriversLicense | Passport | Umid | SssId | PhilHealthId | PostalId | VotersId | PrcId | TinId | OtherId

  datatype Expiry = NoExpiry | OptionalExpiry | RequiredExpiry

  datatype Status = Submitted | UnderReview | Approved | Rejected | Superseded

  datatype Badge = Pending | InReview | Verified | Refused

  const KYC_POLICY_VERSION := 2

  function RequiredBase(kind: ProviderKind): seq<DocType> {
    match kind
    case MerchantBranch => [OwnerValidId, DtiCertificate, Bir2303, PhotoStorefront, PhotoInterior, PhotoMachines]
    case WasherProvider => [ValidId, ValidIdBack, Selfie, ProofOfAddress, BarangayClearance]
  }

  /** A passport has no back, so claiming one drops the back-of-ID requirement. */
  function RequiredTypes(kind: ProviderKind, claimed: Option<GovernmentId>): seq<DocType> {
    if claimed == Some(Passport) then Sorting.Filter(RequiredBase(kind), (t: DocType) => t != ValidIdBack)
    else RequiredBase(kind)
  }

  predicate AllowedType(kind: ProviderKind, t: DocType) {
    t in RequiredBase(kind) || (kind == MerchantBranch && t == BusinessPermit)
  }

  predicate IsFrontOfId(t: DocType) { t == ValidId || t == OwnerValidId }

  function FrontOf(kind: ProviderKind): DocType { if kind == MerchantBranch then OwnerValidId else ValidId }

  function ExpiryOf(t: DocType): Expiry {
    match t
    case BusinessPermit => RequiredExpiry
    case BarangayClearance => RequiredExpiry
    case OwnerValidId => OptionalExpiry
    case ValidId => OptionalExpiry
    case ValidIdBack => OptionalExpiry
    case ProofOfAddress => OptionalExpiry
    case _ => NoExpiry
  }

  datatype Doc = Doc(
    providerId: string, docType: DocType, status: Status, claimedBy: Option<string>, supersedes: Option<nat>,
    submittedAt: int, expiresAt: Option<int>, governmentId: Option<GovernmentId>, rejectionReason: Option<string>)

  datatype Provider = Provider(
    kind: ProviderKind, owner: string, badge: Badge, verifiedAt: Option<int>, verifiedBy: Option<string>,
    policyVersion: Option<int>, rejectionReason: Option<string>)

  datatype State = State(docs: seq<Doc>, providers: map<string, Provider>)

  datatype Error = NotFound | Forbidden | BadRequest

  predicate Live(d: Doc, pid: string) { d.providerId == pid && d.status != Superseded }

  predicate LiveOfType(d: Doc, pid: string, t: DocType) { Live(d, pid) && d.docType == t }

  predicate Reviewable(d: Doc, pid: string) {
    d.providerId == pid && (d.status == Submitted || d.status == UnderReview)
  }

  // ----- Deriving the badge from the stored documents -----

  const NewestFirst := (d: Doc) => -d.submittedAt

  predicate HasType(docs: seq<Doc>, t: DocType) { exists d :: d in docs && d.docType == t }

  /** One document per type, in list order: the loop of latestDocumentsByType. */
  function FirstPerType(docs: seq<Doc>): seq<Doc> {
    if docs == [] then []
    else
      var init, last := FirstPerType(docs[..|docs| - 1]), docs[|docs| - 1];
      if HasType(init, last.docType) then init else init + [last]
  }

  function LatestByType(docs: seq<Doc>, pid: string): seq<Doc> {
    FirstPerType(Sorting.Sort(Sorting.Filter(docs, (d: Doc) => Live(d, pid)), NewestFirst))
  }

  method LatestDocumentsByType(docs: seq<Doc>, pid: string) returns (byType: seq<Doc>)
    ensures byType == LatestByType(docs, pid)
  {
    var sorted := Sorting.Sort(Sorting.Filter(docs, (d: Doc) => Live(d, pid)), NewestFirst);
    byType := [];
    for i := 0 to |sorted|
      invariant byType == FirstPerType(sorted[..i])
    {
      assert sorted[..i + 1][..i] == sorted[..i];
      if !HasType(byType, sorted[i].docType) {
        byType := byType + [sorted[i]];
      }
    }
    assert sorted[..|sorted|] == sorted;
  }

  function Get(byType: seq<Doc>, t: DocType): Option<Doc> {
    if byType == [] then None else if byType[0].docType == t then Some(byType[0]) else Get(byType[1..], t)
  }

  predicate IsFrontClaim(d: Doc) {
    d.status != Superseded && IsFrontOfId(d.docType) && d.governmentId.Some?
  }

  function ClaimedGovernmentId(byType: seq<Doc>): Option<GovernmentId> {
    if byType == [] then None
    else if IsFrontClaim(byType[0])
    then byType[0].governmentId
    else ClaimedGovernmentId(byType[1..])
  }

  predicate SatisfiesRequirement(d: Option<Doc>, now: int) {
    d.Some? && d.value.status == Approved && !(d.value.expiresAt.Some? && d.value.expiresAt.value <= now)
  }

  predicate IsRejected(d: Option<Doc>) { d.Some? && d.value.status == Rejected }

  function FirstRejected(required: seq<DocType>, byType: seq<Doc>): Option<Doc> {
    if required == [] then None
    else
      var d := Get(byType, required[0]);
      if IsRejected(d) then d else FirstRejected(required[1..], byType)
  }

  function Recompute(docs: seq<Doc>, p: Provider, pid: string, reviewer: Option<string>, now: int): Provider {
    var byType := LatestByType(docs, pid);
    var required := RequiredTypes(p.kind, ClaimedGovernmentId(byType));
    var rejected := FirstRejected(required, byType);
    var badge :=
      if rejected.Some? then Refused
      else if forall t :: t in required ==> SatisfiesRequirement(Get(byType, t), now) then Verified
      else if forall t :: t in required ==> Get(byType, t).Some? then InReview
      else Pending;
    p.(badge := badge,
       verifiedAt := if badge == Verified then Some(now) else None,
       verifiedBy := if badge == Verified then reviewer else None,
       policyVersion := if badge == Verified then Some(KYC_POLICY_VERSION) else None,
       rejectionReason := if rejected.Some? then rejected.value.rejectionReason else None)
  }

  // ----- Operations -----

  function IdsFrom(docs: seq<Doc>, keep: Doc -> bool, from: nat): (ids: seq<nat>)
    requires from <= |docs|
    ensures forall i :: i in ids <==> from <= i < |docs| && keep(docs[i])
    decreases |docs| - from
  {
    if from == |docs| then []
    else (if keep(docs[from]) then [from] else []) + IdsFrom(docs, keep, from + 1)
  }

  /** find({providerId, documentType, status != SUPERSEDED}).sort({submittedAt: -1}) */
  function PreviousIds(docs: seq<Doc>, pid: string, t: DocType): (ids: seq<nat>)
    ensures forall i :: i in ids <==> 0 <= i < |docs| && LiveOfType(docs[i], pid, t)
  {
    var ids := IdsFrom(docs, (d: Doc) => LiveOfType(d, pid, t), 0);
    var byAge := (i: nat) => if i < |docs| then -docs[i].submittedAt else 0;
    Sorting.SortMembers(ids, byAge);
    Sorting.Sort(ids, byAge)
  }

  function UpdateMany(docs: seq<Doc>, ids: seq<nat>, change: Doc -> Doc): (r: seq<Doc>)
    ensures |r| == |docs|
    ensures forall i :: 0 <= i < |docs| ==> r[i] == if i in ids then change(docs[i]) else docs[i]
  {
    seq(|docs|, i requires 0 <= i < |docs| => if i in ids then change(docs[i]) else docs[i])
  }

  const Supersede := (d: Doc) => d.(status := Superseded, claimedBy := None)
  const Unclaim := (d: Doc) => d.(status := Submitted, claimedBy := None)

  function ClaimFor(reviewer: string): Doc -> Doc {
    (d: Doc) => d.(status := UnderReview, claimedBy := Some(reviewer))
  }

  datatype Submission = Submission(
    docType: DocType, governmentId: Option<GovernmentId>, expiresAt: Option<int>)

  function SubmissionError(s: State, user: string, pid: string, x: Submission, now: int): Option<Error> {
    if pid !in s.providers then Some(NotFound)
    else if s.providers[pid].owner != user then Some(Forbidden)
    else if !AllowedType(s.providers[pid].kind, x.docType) then Some(BadRequest)
    else if IsFrontOfId(x.docType) && x.governmentId.None? then Some(BadRequest)
    else if ExpiryOf(x.docType) == RequiredExpiry && x.expiresAt.None? then Some(BadRequest)
    else if ExpiryOf(x.docType) != NoExpiry && x.expiresAt.Some? && x.expiresAt.value <= now then Some(BadRequest)
    else None
  }

  function NewDoc(pid: string, x: Submission, supersedes: Option<nat>, now: int): Doc {
    Doc(pid, x.docType, Submitted, None, supersedes, now,
        if ExpiryOf(x.docType) == NoExpiry then None else x.expiresAt,
        if IsFrontOfId(x.docType) then x.governmentId else None, None)
  }

  function WithBadge(s: State, pid: string, reviewer: Option<string>, now: int): State
    requires pid in s.providers
  {
    s.(providers := s.providers[pid := Recompute(s.docs, s.providers[pid], pid, reviewer, now)])
  }

  function Submit(s: State, user: string, pid: string, x: Submission, now: int): Result<State, Error> {
    var error := SubmissionError(s, user, pid, x, now);
    if error.Some? then Err(error.value)
    else
      var previous := PreviousIds(s.docs, pid, x.docType);
      var doc := NewDoc(pid, x, if previous != [] then Some(previous[0]) else None, now);
      Ok(WithBadge(s.(docs := UpdateMany(s.docs, previous, Supersede) + [doc]), pid, None, now))
  }

  function ReviewError(s: State, reviewer: string, pid: string): Option<Error> {
    if pid !in s.providers then Some(NotFound)
    else if s.providers[pid].owner == reviewer then Some(Forbidden)
    else None
  }

  function ClaimCase(s: State, reviewer: string, pid: string): Result<State, Error> {
    var error := ReviewError(s, reviewer, pid);
    var open := IdsFrom(s.docs, (d: Doc) => Reviewable(d, pid), 0);
    if error.Some? then Err(error.value)
    else if open == [] then Err(BadRequest)
    else if exists i :: i in open && s.docs[i].claimedBy.Some? && s.docs[i].claimedBy.value != reviewer then Err(Forbidden)
    else if forall i :: i in open ==> s.docs[i].claimedBy == Some(reviewer) then Ok(s)
    else Ok(s.(docs := UpdateMany(s.docs, open, ClaimFor(reviewer))))
  }

  /** Filters on the claimer alone, not on the status. */
  function ReleaseCase(s: State, reviewer: string, pid: string): Result<State, Error> {
    if pid !in s.providers then Err(NotFound)
    else
      var mine := IdsFrom(s.docs, (d: Doc) => d.providerId == pid && d.claimedBy == Some(reviewer), 0);
      Ok(s.(docs := UpdateMany(s.docs, mine, Unclaim)))
  }

  /** The checks claim, approve and reject share. */
  function DocumentError(s: State, reviewer: string, id: nat): Option<Error> {
    if id >= |s.docs| then Some(NotFound)
    else
      var d := s.docs[id];
      var error := ReviewError(s, reviewer, d.providerId);
      if error.Some? then error
      else if !Reviewable(d, d.providerId) then Some(BadRequest)
      else None
  }

  function ClaimDocument(s: State, reviewer: string, id: nat): Result<State, Error> {
    var error := DocumentError(s, reviewer, id);
    if error.Some? then Err(error.value)
    else if s.docs[id].claimedBy == Some(reviewer) then Ok(s)
    else if s.docs[id].claimedBy.Some? then Err(Forbidden)
    else Ok(s.(docs := s.docs[id := ClaimFor(reviewer)(s.docs[id])]))
  }

  function Approve(s: State, reviewer: string, id: nat, now: int): Result<State, Error> {
    var error := DocumentError(s, reviewer, id);
    if error.Some? then Err(error.value)
    else
      var d := s.docs[id].(status := Approved, claimedBy := None, rejectionReason := None);
      Ok(WithBadge(s.(docs := s.docs[id := d]), d.providerId, Some(reviewer), now))
  }

  function Reject(s: State, reviewer: string, id: nat, reason: string, now: int): Result<State, Error> {
    var error := DocumentError(s, reviewer, id);
    if error.Some? then Err(error.value)
    else
      var d := s.docs[id].(status := Rejected, claimedBy := None, rejectionReason := Some(reason));
      Ok(WithBadge(s.(docs := s.docs[id := d]), d.providerId, None, now))
  }
}
