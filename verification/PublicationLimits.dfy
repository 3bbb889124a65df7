/** Publishing a revision that was committed on another branch: whose rules its approvals were judged by, and when that makes
    no difference. */
module PublicationLimits {
  import opened Wrappers
  import opened JsonPatch
  import opened CollaborationPatch
  import opened Pointer
  import opened Conflict
  import opened Collaboration
  import opened CollaborationInvariant
  import opened CollaborationRuns

  // ---------------------------------------------------------------------------------------------
  // When one policy's approvals satisfy another.

  /** The reviewers of the one are reviewers of the other, which separates duties only if the one does. */
  predicate Contained(own: Policy, publishing: Policy) {
    && (publishing.reviewerIds == [] ||
        (own.reviewerIds != [] && forall k :: 0 <= k < |own.reviewerIds| ==> own.reviewerIds[k] in publishing.reviewerIds))
    && (publishing.separateAuthorAndReviewer ==> own.separateAuthorAndReviewer)
  }

  ghost predicate CarryOver(own: Policy, publishing: Policy) {
    forall proposal, actorId, expected, now ::
      ApprovalDiagnostic(own, proposal, actorId, expected, now).None? ==>
      ApprovalDiagnostic(publishing, proposal, actorId, expected, now).None?
  }

  function Longest(ids: seq<Id>): (n: nat)
    ensures forall k :: 0 <= k < |ids| ==> |ids[k]| <= n
  {
    if ids == [] then 0
    else
      var rest := Longest(ids[1..]);
      if |ids[0]| > rest then |ids[0]| else rest
  }

  /** Somebody who is on no list. */
  function Stranger(ids: seq<Id>): (id: Id)
    ensures id !in ids
  {
    var id := seq(Longest(ids) + 1, _ => 'x');
    assert |id| == Longest(ids) + 1;
    id
  }

  function Unseen(author: Id): Proposal {
    Proposal([], author, "", "", "", [], 0, None, "", false, Pending)
  }

  /** A branch accepts nothing but what another accepts exactly when its policy is contained in the other's. */
  lemma ApprovalsCarryOver(own: Policy, publishing: Policy)
    ensures CarryOver(own, publishing) <==> Contained(own, publishing)
  {
    if !Contained(own, publishing) {
      var actorId, author := Rejected(own, publishing);
      var proposal := Unseen(author);
      assert ApprovalDiagnostic(own, proposal, actorId, "", 0).None?;
      assert ApprovalDiagnostic(publishing, proposal, actorId, "", 0).Some?;
    }
  }

  /** Somebody whose approval only the one policy accepts, of a proposal by this author. */
  lemma Rejected(own: Policy, publishing: Policy) returns (actorId: Id, author: Id)
    requires !Contained(own, publishing)
    ensures IsReviewer(own, actorId) && (own.separateAuthorAndReviewer ==> author != actorId)
    ensures !IsReviewer(publishing, actorId) || (publishing.separateAuthorAndReviewer && author == actorId)
    ensures own.separateAuthorAndReviewer ==> author !in own.reviewerIds
  {
    if publishing.separateAuthorAndReviewer && !own.separateAuthorAndReviewer {
      actorId := if own.reviewerIds == [] then "" else own.reviewerIds[0];
      author := actorId;
    } else {
      if own.reviewerIds == [] {
        actorId := Stranger(publishing.reviewerIds);
      } else {
        var k :| 0 <= k < |own.reviewerIds| && own.reviewerIds[k] !in publishing.reviewerIds;
        actorId := own.reviewerIds[k];
      }
      author := Stranger(own.reviewerIds + [actorId]);
      assert own.reviewerIds <= own.reviewerIds + [actorId] && actorId in own.reviewerIds + [actorId];
    }
  }

  // ---------------------------------------------------------------------------------------------
  // Publishing elsewhere.

  /** The own policy has reviewers enough for the approvals that it and the other branch ask for. */
  predicate Enough(own: Policy, publishing: Policy) {
    own.reviewerIds == [] || (|own.reviewerIds| >= Asked(own) && |own.reviewerIds| >= publishing.requiredApprovals)
  }

  function Asked(policy: Policy): int {
    if policy.guarded then policy.requiredApprovals else 0
  }

  lemma {:induction false} DistinctCount(ids: seq<Id>)
    requires forall i, j :: 0 <= i < j < |ids| ==> ids[i] != ids[j]
    ensures |Members(ids)| == |ids|
  {
    if ids != [] {
      var last := |ids| - 1;
      DistinctCount(ids[..last]);
      assert Members(ids) == Members(ids[..last]) + {ids[last]};
    }
  }

  function Members(ids: seq<Id>): set<Id> {
    set k | 0 <= k < |ids| :: ids[k]
  }

  lemma SmallerSet(a: set<Id>, b: set<Id>)
    requires a <= b
    ensures |a| <= |b|
  {
    if a != {} {
      var x :| x in a;
      SmallerSet(a - {x}, b - {x});
    }
  }

  /** In every reachable state: what a branch publishes from another branch is eligible under its own rules whenever the
      other's policy is contained in its own. Without reviewers enough there is no such publication. */
  lemma ForeignPublicationIsEligible(s: State, request: Request, actor: Actor, now: Time)
    requires Inv(s) && request.Publish? && PublishRevision(s, request, actor, now).1.status == Accepted
    requires request.branchId in s.branches && s.branches[request.branchId].policy.guarded
    requires request.revision in s.revisions && s.revisions[request.revision].branchId in s.branches
    ensures var own, publishing := s.branches[s.revisions[request.revision].branchId].policy, s.branches[request.branchId].policy;
            && Enough(own, publishing) && ProposalOf(s, request.revision).Some?
            && (Contained(own, publishing) ==> Eligible(publishing, ProposalOf(s, request.revision).value, request.revision))
  {
    var own, publishing := s.branches[s.revisions[request.revision].branchId].policy, s.branches[request.branchId].policy;
    assert RevisionOk(s, request.revision);
    var p := ProposalOf(s, request.revision).value;
    assert ProposalOk(s, s.revisions[request.revision].proposalId.value);
    assert BranchOk(s, s.revisions[request.revision].branchId);
    ReviewersEnough(own, p);
    forall i | 0 <= i < |p.approvals| && Contained(own, publishing)
      ensures p.approvals[i].revision == request.revision && IsReviewer(publishing, p.approvals[i].actorId)
      ensures publishing.separateAuthorAndReviewer ==> p.approvals[i].actorId != p.authorId
      ensures p.expiresAt.Some? ==> p.approvals[i].approvedAt < p.expiresAt.value {
      assert ApprovalOk(own, p, p.approvals[i]);
    }
  }

  lemma ReviewersEnough(own: Policy, p: Proposal)
    requires ApprovalsOk(own, p) && ValidPolicy(own)
    ensures own.reviewerIds == [] || |Approvers(p)| <= |own.reviewerIds|
  {
    if own.reviewerIds != [] {
      forall id | id in Approvers(p) ensures id in Members(own.reviewerIds) {
        var k :| 0 <= k < |p.approvals| && p.approvals[k].actorId == id;
        assert ApprovalOk(own, p, p.approvals[k]);
      }
      DistinctCount(own.reviewerIds);
      SmallerSet(Approvers(p), Members(own.reviewerIds));
    }
  }

  /** Anybody but the reviewer a policy names. */
  predicate NoneReviews(policy: Policy, p: Proposal) {
    forall i :: 0 <= i < |p.approvals| ==> !IsReviewer(policy, p.approvals[i].actorId)
  }

  function ReviewedBy(reviewer: Id): Policy {
    Policy(60_000, true, 1, [reviewer], true)
  }

  lemma ForkStep(s: State, branchId: Id, k: Id, policy: Policy, validates: Json -> bool)
    requires Inv(s) && k in s.revisions && branchId !in s.branches && ValidPolicy(policy)
    ensures Step(s, OpenBranch(branchId, k, Some(policy)), validates) ==
            s.(branches := s.branches[branchId := Branch(branchId, k, policy, None)])
  {
  }

  lemma PublishStep(s: State, request: Request, actor: Actor, now: Time, validates: Json -> bool)
    requires Inv(s) && request.Publish? && Authorized(s, request, actor) && request.branchId in s.branches
    requires RevisionMayPublish(s.branches[request.branchId], ProposalOf(s, request.revision), request.revision)
    ensures var t := Step(s, Call(request, actor, now), validates);
            && t.branches == s.branches[request.branchId := s.branches[request.branchId].(publishedRevision := Some(request.revision))]
            && t.revisions == s.revisions && t.proposals == s.proposals
  {
    InvWellFormed(s);
    assert Execute(s, request, actor, now, validates) == PublishRevision(s, request, actor, now);
  }

  lemma StrangersMayPublish(policy: Policy, p: Proposal, reviewer: Id)
    requires p.approvals != [] && reviewer !in Approvers(p) && policy == ReviewedBy(reviewer)
    ensures HasRequiredApprovals(policy, p) && NoneReviews(policy, p)
  {
    assert p.approvals[0].actorId in Approvers(p);
    SomeApprover(Approvers(p), p.approvals[0].actorId);
    forall i | 0 <= i < |p.approvals| ensures !IsReviewer(policy, p.approvals[i].actorId) {
      assert p.approvals[i].actorId in Approvers(p);
    }
  }

  /** From every reachable state with an approved revision, a new branch with any policy that is content with the number of
      approvals publishes it. */
  lemma RevisionIsPublishedElsewhere(s: State, k: Id, branchId: Id, policy: Policy, actor: Actor, meta: Metadata, now: Time,
                                     validates: Json -> bool)
    requires Inv(s) && k in s.revisions && ProposalOf(s, k).Some? && HasRequiredApprovals(policy, ProposalOf(s, k).value)
    requires branchId !in s.branches && ValidPolicy(policy)
    requires actor.tenantId == s.tenantId && CanPublish in actor.capabilities
    ensures var fork := Step(s, OpenBranch(branchId, k, Some(policy)), validates);
            var t := Step(fork, Call(Publish(meta, branchId, k), actor, now), validates);
            && t.branches == s.branches[branchId := Branch(branchId, k, policy, Some(k))]
            && t.revisions == s.revisions && ProposalOf(t, k) == ProposalOf(s, k)
  {
    ForkStep(s, branchId, k, policy, validates);
    ProposedCandidate(s, k);
    var fork := Step(s, OpenBranch(branchId, k, Some(policy)), validates);
    assert ProposalOf(fork, k) == ProposalOf(s, k);
    PublishStep(fork, Publish(meta, branchId, k), actor, now, validates);
  }

  /** So a guarded branch whose only reviewer never saw the revision publishes it. */
  lemma StrangersRevisionIsPublished(s: State, k: Id, branchId: Id, reviewer: Id, actor: Actor, meta: Metadata, now: Time,
                                     validates: Json -> bool)
    requires Inv(s) && k in s.revisions && ProposalOf(s, k).Some? && ProposalOf(s, k).value.approvals != []
    requires branchId !in s.branches && reviewer !in Approvers(ProposalOf(s, k).value)
    requires actor.tenantId == s.tenantId && CanPublish in actor.capabilities
    ensures var fork := Step(s, OpenBranch(branchId, k, Some(ReviewedBy(reviewer))), validates);
            var t := Step(fork, Call(Publish(meta, branchId, k), actor, now), validates);
            && branchId in t.branches && t.branches[branchId].policy == ReviewedBy(reviewer)
            && t.branches[branchId].publishedRevision == Some(k)
            && ProposalOf(t, k) == ProposalOf(s, k) && NoneReviews(ReviewedBy(reviewer), ProposalOf(t, k).value)
  {
    StrangersMayPublish(ReviewedBy(reviewer), ProposalOf(s, k).value, reviewer);
    RevisionIsPublishedElsewhere(s, k, branchId, ReviewedBy(reviewer), actor, meta, now, validates);
  }

  lemma ProposedCandidate(s: State, k: Id)
    requires Inv(s) && ProposalOf(s, k).Some?
    ensures ProposalOf(s, k).value.candidateRevision == k
  {
    assert RevisionOk(s, k);
  }

  lemma SomeApprover(ids: set<Id>, id: Id)
    requires id in ids
    ensures |ids| >= 1
  {
    assert ids == (ids - {id}) + {id};
  }

  // ---------------------------------------------------------------------------------------------
  // Such a state is reached.

  function Everybody(actorId: Id, tenantId: Id): Actor {
    Actor(actorId, {CanApprove, CanComment, CanPropose, CanPublish, CanUndo}, tenantId)
  }

  /** A note that any object takes. */
  predicate NotePatch(ops: seq<Operation>) {
    |ops| == 1 && ops[0].Add? && Address(ops[0].path) == Some(["note"]) && PolicyApproved(ops[0])
  }

  lemma SomeNote() returns (ops: seq<Operation>)
    ensures NotePatch(ops)
  {
    PlainPointer("note");
    DecodeEncodePointer(["note"]);
    ops := [Add("/note", Null)];
    assert OperationPaths(ops[0]) == ["/note"];
  }

  lemma NoteApplies(doc: Json, ops: seq<Operation>)
    requires doc.Obj? && NotePatch(ops)
    ensures AllApproved(ops) && ApplyAll(doc, ops).Some? && ApplyAll(doc, ops).value.Obj?
  {
    var op := ops[0];
    assert ops == [op] && ops[1..] == [];
    TopUpdate(doc, ["note"], Insert(op.value));
    assert Apply(doc, op) == Update(doc, ["note"], Insert(op.value));
    assert ApplyAll(doc, ops) == Apply(doc, op);
  }

  /** A submission at the head meets no intervening revision. */
  lemma SubmitAtHead(s: State, request: Request, author: Actor, now: Time, validates: Json -> bool)
    requires Inv(s) && WellFormed(s) && request.Propose?
    requires request.branchId in s.branches && request.proposalId !in s.proposals
    requires request.baseRevision == s.branches[request.branchId].headRevision
    ensures Submit(s, request, author, now, validates) == CreateProposal(s, request, author, request.baseRevision, now, validates)
  {
    var head := request.baseRevision;
    NoConflictsReported(head, head, request.operations, ChangedPathLists([]));
    assert Intervening(s.revisions, Some(head), head) == Some([]);
  }

  lemma PatchedIsRecorded(s: State, request: Request, author: Actor, now: Time, validates: Json -> bool, applied: PatchResult)
    requires WellFormed(s) && request.Propose? && request.baseRevision in s.revisions && applied.Patched?
    requires applied == ApplyCollaborationPatch(s.revisions[request.baseRevision].document, request.operations,
                                                RevisionName(s.revisionSequence + 1), validates)
    ensures CreateProposal(s, request, author, request.baseRevision, now, validates) ==
            RecordProposal(Allocate(s), request, author,
              Candidate(author, request.branchId, applied.changedPaths, request.meta.correlationId, applied.document,
                        request.baseRevision, applied.removedPaths, RevisionName(s.revisionSequence + 1), s.revisionSequence + 1), now)
  {
  }

  /** What a submission at the head of a branch comes to. */
  lemma NoteIsRecorded(s: State, request: Request, author: Actor, now: Time, validates: Json -> bool)
    requires Inv(s) && WellFormed(s) && request.Propose? && NotePatch(request.operations) && (forall doc :: validates(doc))
    requires request.branchId in s.branches && request.proposalId !in s.proposals
    requires request.baseRevision == s.branches[request.branchId].headRevision
    ensures request.baseRevision in s.revisions && s.revisions[request.baseRevision].document.Obj?
    ensures var name := RevisionName(s.revisionSequence + 1);
            var applied := ApplyCollaborationPatch(s.revisions[request.baseRevision].document, request.operations, name, validates);
            && applied.Patched?
            && Submit(s, request, author, now, validates) ==
               RecordProposal(Allocate(s), request, author,
                 Candidate(author, request.branchId, applied.changedPaths, request.meta.correlationId, applied.document,
                           request.baseRevision, applied.removedPaths, name, s.revisionSequence + 1), now)
  {
    var head := request.baseRevision;
    assert BranchOk(s, request.branchId) && RevisionOk(s, head);
    NoteApplies(s.revisions[head].document, request.operations);
    SubmitAtHead(s, request, author, now, validates);
    var name := RevisionName(s.revisionSequence + 1);
    var applied := ApplyCollaborationPatch(s.revisions[head].document, request.operations, name, validates);
    assert applied.Patched?;
    PatchedIsRecorded(s, request, author, now, validates, applied);
  }

  /** On a guarded branch the proposal waits for approval, with its candidate on the head; elsewhere it is committed. */
  ghost predicate Waiting(s: State, t: State, request: Request, author: Actor, now: Time)
    requires request.Propose? && request.branchId in s.branches
  {
    var b, id, name, policy := request.branchId, request.proposalId, RevisionName(s.revisionSequence + 1),
                               s.branches[request.branchId].policy;
    && t.tenantId == s.tenantId && t.branches.Keys == s.branches.Keys && t.branches[b].policy == policy
    && id in t.proposals
    && t.proposals[id].branchId == b && t.proposals[id].approvals == [] && t.proposals[id].proposalId == id
    && t.proposals[id].candidateRevision == name && t.proposals[id].authorId == author.actorId
    && t.proposals[id].expiresAt == (if policy.guarded then Some(now + policy.approvalTtlMs) else None)
    && if policy.guarded
       then id in t.candidates && t.candidates[id].revision == name && t.candidates[id].parentRevision == t.branches[b].headRevision
       else id !in t.candidates && name in t.revisions && t.revisions[name].proposalId == Some(id)
  }

  lemma RecordedWaits(s: State, request: Request, author: Actor, candidate: Candidate, now: Time)
    requires request.Propose? && request.branchId in s.branches && request.baseRevision == s.branches[request.branchId].headRevision
    requires candidate.parentRevision == request.baseRevision && candidate.revision == RevisionName(s.revisionSequence + 1)
    ensures Waiting(s, RecordProposal(Allocate(s), request, author, candidate, now).0, request, author, now)
  {
  }

  lemma NoteIsProposed(s: State, request: Request, author: Actor, now: Time, validates: Json -> bool)
    requires Inv(s) && request.Propose? && NotePatch(request.operations) && (forall doc :: validates(doc))
    requires request.branchId in s.branches && request.proposalId !in s.proposals
    requires request.baseRevision == s.branches[request.branchId].headRevision
    requires Authorized(s, request, author) && KeyOf(request, author) !in s.idempotency
    ensures Waiting(s, Step(s, Call(request, author, now), validates), request, author, now)
  {
    InvWellFormed(s);
    NoteIsRecorded(s, request, author, now, validates);
    var name := RevisionName(s.revisionSequence + 1);
    var applied := ApplyCollaborationPatch(s.revisions[request.baseRevision].document, request.operations, name, validates);
    RecordedWaits(s, request, author,
                  Candidate(author, request.branchId, applied.changedPaths, request.meta.correlationId, applied.document,
                            request.baseRevision, applied.removedPaths, name, s.revisionSequence + 1), now);
    SubmitStep(s, request, author, now, validates);
  }

  lemma SubmitStep(s: State, request: Request, author: Actor, now: Time, validates: Json -> bool)
    requires Inv(s) && WellFormed(s) && request.Propose? && Authorized(s, request, author) && KeyOf(request, author) !in s.idempotency
    ensures var t, u := Step(s, Call(request, author, now), validates), Submit(s, request, author, now, validates).0;
            t == u.(idempotency := t.idempotency)
  {
    assert RunOnce(s, request, author, now, validates) == Submit(s, request, author, now, validates);
    assert Execute(s, request, author, now, validates) == ExecuteIdempotent(s, request, author, now, validates);
  }

  /** A service that has just started with one branch. */
  ghost predicate Started(s: State, tenantId: Id, document: Json, own: Policy, validates: Json -> bool) {
    document.Obj? && Initial(tenantId, document, Some(own), 0, validates) == Some(s) && Inv(s)
  }

  lemma StartedFacts(s: State, tenantId: Id, document: Json, own: Policy, validates: Json -> bool)
    requires Started(s, tenantId, document, own, validates)
    ensures s.tenantId == tenantId && s.branches == map["main" := Branch("main", RevisionName(1), own, None)]
    ensures s.proposals == map[] && s.idempotency == map[] && s.revisionSequence == 1
  {
  }

  lemma NoteIsSubmitted(s: State, tenantId: Id, document: Json, own: Policy, author: Id, meta: Metadata, validates: Json -> bool)
    returns (request: Request)
    requires Started(s, tenantId, document, own, validates) && (forall doc :: validates(doc))
    ensures request.Propose? && request.branchId == "main" && request.proposalId == "p1" && request.baseRevision == RevisionName(1)
    ensures "main" in s.branches && s.branches["main"].policy == own && s.branches["main"].headRevision == RevisionName(1)
    ensures Waiting(s, Step(s, Call(request, Everybody(author, tenantId), 0), validates), request, Everybody(author, tenantId), 0)
  {
    StartedFacts(s, tenantId, document, own, validates);
    var ops := SomeNote();
    request := Propose(meta, RevisionName(1), "main", "key", ops, "p1");
    NoteIsProposed(s, request, Everybody(author, tenantId), 0, validates);
  }

  // ---------------------------------------------------------------------------------------------
  // Gathering approvals.

  function Signed(ids: seq<Id>): seq<Approval> {
    seq(|ids|, k requires 0 <= k < |ids| => Approval(ids[k], 0, RevisionName(2)))
  }

  /** The note is approved by these actors; with approvals enough it is committed. */
  ghost predicate Gathered(t: State, tenantId: Id, own: Policy, author: Id, ids: seq<Id>) {
    var k := RevisionName(2);
    && t.tenantId == tenantId && t.branches.Keys == {"main"} && t.branches["main"].policy == own && "p1" in t.proposals
    && var p := t.proposals["p1"];
       && p.proposalId == "p1" && p.branchId == "main" && p.authorId == author && p.candidateRevision == k
       && (p.expiresAt.Some? ==> 0 < p.expiresAt.value) && p.approvals == Signed(ids)
       && if |ids| < Asked(own)
          then
            && "p1" in t.candidates && t.candidates["p1"].revision == k
            && t.branches["main"].headRevision == t.candidates["p1"].parentRevision
          else k in t.revisions && t.revisions[k].proposalId == Some("p1") && "p1" !in t.candidates
  }

  lemma NothingGathered(s: State, tenantId: Id, document: Json, own: Policy, author: Id, meta: Metadata, validates: Json -> bool)
    returns (propose: Command)
    requires Started(s, tenantId, document, own, validates) && ValidPolicy(own) && (forall doc :: validates(doc))
    ensures Gathered(Step(s, propose, validates), tenantId, own, author, [])
  {
    var submit := NoteIsSubmitted(s, tenantId, document, own, author, meta, validates);
    StartedFacts(s, tenantId, document, own, validates);
    propose := Call(submit, Everybody(author, tenantId), 0);
    WaitingIsGathered(s, Step(s, propose, validates), submit, tenantId, own, author);
  }

  lemma WaitingIsGathered(s: State, t: State, submit: Request, tenantId: Id, own: Policy, author: Id)
    requires submit.Propose? && submit.branchId == "main" && submit.proposalId == "p1"
    requires s.tenantId == tenantId && s.branches == map["main" := Branch("main", RevisionName(1), own, None)]
    requires s.revisionSequence == 1 && ValidPolicy(own)
    requires Waiting(s, t, submit, Everybody(author, tenantId), 0)
    ensures Gathered(t, tenantId, own, author, [])
  {
  }

  lemma ApproverCountIs(p: Proposal, ids: seq<Id>)
    requires p.approvals == Signed(ids) && forall i, j :: 0 <= i < j < |ids| ==> ids[i] != ids[j]
    ensures Approvers(p) == Members(ids) && |Approvers(p)| == |ids|
  {
    forall id ensures id in Approvers(p) <==> id in Members(ids) {
      if id in Members(ids) {
        var k :| 0 <= k < |ids| && ids[k] == id;
        assert p.approvals[k].actorId == id;
      }
    }
    DistinctCount(ids);
  }

  lemma SignedOneMore(ids: seq<Id>, next: Id)
    ensures Signed(ids + [next]) == Signed(ids) + [Approval(next, 0, RevisionName(2))]
  {
  }

  /** Different actors, each entitled to approve what the author proposes. */
  predicate MayAllApprove(own: Policy, author: Id, ids: seq<Id>) {
    && (forall i, j :: 0 <= i < j < |ids| ==> ids[i] != ids[j])
    && (forall k :: 0 <= k < |ids| ==> IsReviewer(own, ids[k]) && (own.separateAuthorAndReviewer ==> ids[k] != author))
  }

  lemma OneMayApprove(own: Policy, author: Id, ids: seq<Id>)
    requires ids != [] && MayAllApprove(own, author, ids)
    ensures var front, next := ids[..|ids| - 1], ids[|ids| - 1];
            MayAllApprove(own, author, front) && next !in front && MayApprove(own, author, next)
  {
  }

  predicate MayApprove(own: Policy, author: Id, next: Id) {
    IsReviewer(own, next) && (own.separateAuthorAndReviewer ==> next != author)
  }

  /** One more approval by somebody eligible. */
  lemma OneMoreApproval(t: State, tenantId: Id, own: Policy, author: Id, ids: seq<Id>, next: Id, meta: Metadata)
    requires Inv(t) && WellFormed(t) && Gathered(t, tenantId, own, author, ids)
    requires MayAllApprove(own, author, ids) && next !in ids && MayApprove(own, author, next)
    ensures var review := Approve(meta, RevisionName(2), "p1");
            Gathered(ApproveProposal(t, review, Everybody(next, tenantId), 0).0, tenantId, own, author, ids + [next])
  {
    var p, review := t.proposals["p1"], Approve(meta, RevisionName(2), "p1");
    ApproverCountIs(p, ids);
    assert next !in Approvers(p) && ApprovalDiagnostic(own, p, next, RevisionName(2), 0).None?;
    var signed := p.(approvals := p.approvals + [Approval(next, 0, RevisionName(2))]);
    var recorded := RecordApproval(t, p, review, Everybody(next, tenantId), 0);
    SignedOneMore(ids, next);
    ApproverCountIs(signed, ids + [next]);
    assert recorded.proposals["p1"] == signed;
    ApprovalOutcome(t, own, p, review, Everybody(next, tenantId), signed);
  }

  lemma ApprovalOutcome(t: State, own: Policy, p: Proposal, review: Request, reviewer: Actor, signed: Proposal)
    requires WellFormed(t) && review.Approve? && review.proposalId in t.proposals && t.proposals[review.proposalId] == p
    requires p.branchId in t.branches && t.branches[p.branchId].policy == own
    requires ApprovalDiagnostic(own, p, reviewer.actorId, review.expectedRevision, 0).None?
    requires var recorded := RecordApproval(t, p, review, reviewer, 0);
             review.proposalId in recorded.proposals && recorded.proposals[review.proposalId] == signed
    ensures ApproveProposal(t, review, reviewer, 0).0 ==
            var recorded := RecordApproval(t, p, review, reviewer, 0);
            if HasRequiredApprovals(own, signed) then FinishApproved(recorded, signed, 0).0 else recorded
  {
  }

  lemma ApproveStep(s: State, request: Request, actor: Actor, now: Time, validates: Json -> bool)
    requires Inv(s) && WellFormed(s) && request.Approve? && Authorized(s, request, actor)
    ensures Step(s, Call(request, actor, now), validates) == ApproveProposal(s, request, actor, now).0
  {
  }

  lemma OneMoreApprovalStep(t: State, tenantId: Id, own: Policy, author: Id, ids: seq<Id>, next: Id, meta: Metadata,
                            validates: Json -> bool)
    requires Inv(t) && Gathered(t, tenantId, own, author, ids)
    requires MayAllApprove(own, author, ids) && next !in ids && MayApprove(own, author, next)
    ensures Gathered(Step(t, Call(Approve(meta, RevisionName(2), "p1"), Everybody(next, tenantId), 0), validates),
                     tenantId, own, author, ids + [next])
  {
    InvWellFormed(t);
    OneMoreApproval(t, tenantId, own, author, ids, next, meta);
    ApproveStep(t, Approve(meta, RevisionName(2), "p1"), Everybody(next, tenantId), 0, validates);
  }

  lemma OneMoreApproves(s: State, before: seq<Command>, tenantId: Id, own: Policy, author: Id, ids: seq<Id>, next: Id, meta: Metadata,
                        validates: Json -> bool) returns (commands: seq<Command>)
    requires Inv(s) && Gathered(Run(s, before, validates), tenantId, own, author, ids)
    requires MayAllApprove(own, author, ids) && next !in ids && MayApprove(own, author, next)
    ensures Gathered(Run(s, commands, validates), tenantId, own, author, ids + [next])
  {
    var approve := Call(Approve(meta, RevisionName(2), "p1"), Everybody(next, tenantId), 0);
    OneMoreApprovalStep(Run(s, before, validates), tenantId, own, author, ids, next, meta, validates);
    commands := before + [approve];
    RunLast(s, before, approve, validates);
  }

  /** Everybody on the list approves. */
  lemma {:induction false} AllApprove(s: State, tenantId: Id, document: Json, own: Policy, author: Id, ids: seq<Id>, meta: Metadata,
                                      validates: Json -> bool) returns (commands: seq<Command>)
    requires Started(s, tenantId, document, own, validates) && ValidPolicy(own) && (forall doc :: validates(doc))
    requires MayAllApprove(own, author, ids)
    ensures Gathered(Run(s, commands, validates), tenantId, own, author, ids)
    decreases |ids|
  {
    if ids == [] {
      var propose := NothingGathered(s, tenantId, document, own, author, meta, validates);
      commands := [propose];
      assert commands[1..] == [];
    } else {
      var front, next := ids[..|ids| - 1], ids[|ids| - 1];
      assert front + [next] == ids;
      OneMayApprove(own, author, ids);
      var before := AllApprove(s, tenantId, document, own, author, front, meta, validates);
      commands := OneMoreApproves(s, before, tenantId, own, author, front, next, meta, validates);
    }
  }

  // ---------------------------------------------------------------------------------------------
  // Containment is necessary.

  /** Distinct reviewers of the policy, the given one first, the author not among them unless the author is the given one. */
  lemma {:induction false} SomeReviewers(own: Policy, author: Id, first: Id, n: nat) returns (ids: seq<Id>)
    requires ValidPolicy(own) && n >= 1 && IsReviewer(own, first) && (own.reviewerIds == [] || n <= |own.reviewerIds|)
    requires own.separateAuthorAndReviewer ==> author != first && author !in own.reviewerIds
    ensures |ids| == n && ids[0] == first && MayAllApprove(own, author, ids)
    decreases n
  {
    if n == 1 {
      ids := [first];
    } else {
      var front := SomeReviewers(own, author, first, n - 1);
      var next := OneMoreReviewer(own, author, front);
      ids := front + [next];
    }
  }

  lemma OneMoreReviewer(own: Policy, author: Id, ids: seq<Id>) returns (next: Id)
    requires ValidPolicy(own) && (own.reviewerIds == [] || |ids| < |own.reviewerIds|)
    requires own.separateAuthorAndReviewer ==> author !in own.reviewerIds
    ensures next !in ids && MayApprove(own, author, next)
  {
    if own.reviewerIds == [] {
      next := Stranger(ids + [author]);
      assert author in ids + [author] && forall id :: id in ids ==> id in ids + [author];
    } else {
      DistinctCount(own.reviewerIds);
      if Members(own.reviewerIds) <= Members(ids) {
        SmallerSet(Members(own.reviewerIds), Members(ids));
        FewMembers(ids);
      }
      next :| next in Members(own.reviewerIds) && next !in Members(ids);
      assert forall k :: 0 <= k < |ids| ==> ids[k] in Members(ids);
    }
  }

  lemma {:induction false} FewMembers(ids: seq<Id>)
    ensures |Members(ids)| <= |ids|
  {
    if ids != [] {
      var last := |ids| - 1;
      FewMembers(ids[..last]);
      assert Members(ids) == Members(ids[..last]) + {ids[last]};
    }
  }

  /** A branch with the publishing policy has published a revision of a branch with the own policy that some approver was not
      entitled to approve here. */
  ghost predicate PublishedForeign(t: State, own: Policy, publishing: Policy) {
    exists b, k :: b in t.branches && t.branches[b].policy == publishing && t.branches[b].publishedRevision == Some(k)
                   && k in t.revisions && t.revisions[k].branchId in t.branches && t.branches[t.revisions[k].branchId].policy == own
                   && ProposalOf(t, k).Some? && !Eligible(publishing, ProposalOf(t, k).value, k)
  }

  /** Containment is necessary: for any policy that is not contained in a guarded one, but has reviewers enough, a service that
      starts with it reaches a publication under the guarded policy that breaks its rules. */
  lemma ForeignPublicationIsReached(s: State, tenantId: Id, document: Json, own: Policy, publishing: Policy, meta: Metadata,
                                    validates: Json -> bool) returns (commands: seq<Command>)
    requires Started(s, tenantId, document, own, validates) && (forall doc :: validates(doc))
    requires ValidPolicy(own) && ValidPolicy(publishing) && publishing.guarded
    requires !Contained(own, publishing) && Enough(own, publishing)
    ensures PublishedForeign(Run(s, commands, validates), own, publishing)
  {
    var first, author := Rejected(own, publishing);
    var n := if Asked(own) >= publishing.requiredApprovals then Asked(own) else publishing.requiredApprovals;
    var ids := SomeReviewers(own, author, first, n);
    var before := AllApprove(s, tenantId, document, own, author, ids, meta, validates);
    var t, k, publisher := Run(s, before, validates), RevisionName(2), Everybody(author, tenantId);
    var p := t.proposals["p1"];
    ApproverCountIs(p, ids);
    RevisionIsPublishedElsewhere(t, k, "copy", publishing, publisher, meta, 0, validates);
    var fork, publish := OpenBranch("copy", k, Some(publishing)), Call(Publish(meta, "copy", k), publisher, 0);
    RunLast(s, before, fork, validates);
    RunLast(s, before + [fork], publish, validates);
    commands := before + [fork] + [publish];
    ForeignIsPublished(t, Run(s, commands, validates), own, publishing, tenantId, author, ids);
  }

  lemma ForeignIsPublished(t: State, after: State, own: Policy, publishing: Policy, tenantId: Id, author: Id, ids: seq<Id>)
    requires Inv(t) && Gathered(t, tenantId, own, author, ids) && ids != [] && |ids| >= Asked(own)
    requires after.branches == t.branches["copy" := Branch("copy", RevisionName(2), publishing, Some(RevisionName(2)))]
    requires after.revisions == t.revisions && ProposalOf(after, RevisionName(2)) == ProposalOf(t, RevisionName(2))
    requires !IsReviewer(publishing, ids[0]) || (publishing.separateAuthorAndReviewer && author == ids[0])
    ensures PublishedForeign(after, own, publishing)
  {
    var k := RevisionName(2);
    assert RevisionOk(t, k);
    var p := ProposalOf(after, k).value;
    assert p == t.proposals["p1"] && p.approvals[0].actorId == ids[0];
    assert !Eligible(publishing, p, k);
    assert "copy" in after.branches;
  }
}
