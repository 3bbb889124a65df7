/** Each command keeps the invariant and takes nothing back. */
module CollaborationSteps {
  import opened Wrappers
  import opened JsonPatch
  import opened CollaborationPatch
  import opened Collaboration
  import opened CollaborationInvariant

  // ---------------------------------------------------------------------------------------------
  // Storing a fresh proposal with its candidate.

  ghost function StoreProposal(s: State, proposal: Proposal, candidate: Candidate, ops: seq<Operation>): State {
    SetProposal(s, proposal).(candidates := s.candidates[proposal.proposalId := candidate],
                              patches := s.patches[candidate.revision := ops])
  }

  ghost predicate FreshCandidate(s: State, candidate: Candidate, ops: seq<Operation>) {
    && candidate.sequence == s.revisionSequence && candidate.sequence >= 1
    && candidate.revision == RevisionName(candidate.sequence) && candidate.revision !in s.revisions
    && (forall id :: id in s.candidates ==>
          s.candidates[id].sequence < s.revisionSequence && s.candidates[id].revision != candidate.revision)
    && candidate.branchId in s.branches
    && candidate.parentRevision == s.branches[candidate.branchId].headRevision
    && candidate.parentRevision in s.revisions
    && s.revisions[candidate.parentRevision].sequence < candidate.sequence
    && StampedAs(candidate.document, candidate.revision)
    && candidate.changedPaths == ChangedPaths(ops) && candidate.removedPaths == RemovedPaths(ops)
    && Made(s.revisions[candidate.parentRevision].document, ops, candidate.document, candidate.revision)
  }

  ghost predicate FreshProposal(s: State, proposal: Proposal, candidate: Candidate)
    requires candidate.branchId in s.branches
  {
    && proposal.proposalId !in s.proposals
    && proposal.branchId == candidate.branchId && proposal.candidateRevision == candidate.revision
    && proposal.approvals == [] && proposal.status == Pending
    && var policy := s.branches[candidate.branchId].policy;
    && proposal.expiresAt == if policy.guarded then Some(proposal.createdAt + policy.approvalTtlMs) else None
  }

  ghost predicate Storing(s: State, t: State, proposal: Proposal, candidate: Candidate, ops: seq<Operation>) {
    && Inv(s) && FreshCandidate(s, candidate, ops) && FreshProposal(s, proposal, candidate)
    && t == StoreProposal(s, proposal, candidate, ops)
  }

  lemma StoreExtends(s: State, t: State, proposal: Proposal, candidate: Candidate, ops: seq<Operation>)
    requires Storing(s, t, proposal, candidate, ops)
    ensures Extends(s, t)
  {
  }

  lemma StoredCandidate(s: State, t: State, proposal: Proposal, candidate: Candidate, ops: seq<Operation>)
    requires Storing(s, t, proposal, candidate, ops)
    ensures CandidateOk(t, proposal.proposalId) && ProposalOk(t, proposal.proposalId)
  {
  }

  lemma OtherCandidate(s: State, t: State, proposal: Proposal, candidate: Candidate, ops: seq<Operation>, id: Id)
    requires Storing(s, t, proposal, candidate, ops) && Extends(s, t)
    requires id in s.candidates && id != proposal.proposalId
    ensures CandidateOk(t, id)
  {
    assert CandidateOk(s, id);
    CandidateKept(s, t, id);
  }

  lemma StoredSequences(s: State, t: State, proposal: Proposal, candidate: Candidate, ops: seq<Operation>)
    requires Storing(s, t, proposal, candidate, ops)
    ensures forall i, j :: i in t.candidates && j in t.candidates && i != j ==>
              t.candidates[i].sequence != t.candidates[j].sequence
  {
  }

  lemma StoredProposals(s: State, t: State, proposal: Proposal, candidate: Candidate, ops: seq<Operation>)
    requires Storing(s, t, proposal, candidate, ops) && Extends(s, t)
    ensures forall id {:trigger ProposalOk(t, id)} :: id in t.proposals ==> ProposalOk(t, id)
  {
    StoredCandidate(s, t, proposal, candidate, ops);
    forall id | id in t.proposals ensures ProposalOk(t, id) {
      if id != proposal.proposalId {
        WaitingProposalKept(s, t, id);
      }
    }
  }

  lemma StoreProposalKeeps(s: State, t: State, proposal: Proposal, candidate: Candidate, ops: seq<Operation>)
    requires Storing(s, t, proposal, candidate, ops)
    ensures Inv(t) && Extends(s, t)
  {
    StoreExtends(s, t, proposal, candidate, ops);
    SameRevisions(s, t);
    SameBranches(s, t);
    StoredProposals(s, t, proposal, candidate, ops);
    StoredSequences(s, t, proposal, candidate, ops);
    forall id | id in t.candidates ensures CandidateOk(t, id) {
      if id == proposal.proposalId {
        StoredCandidate(s, t, proposal, candidate, ops);
      } else {
        OtherCandidate(s, t, proposal, candidate, ops, id);
      }
    }
  }

  // ---------------------------------------------------------------------------------------------
  // Changing approvals, comments or the verdict of a proposal.

  ghost predicate Revised(s: State, before: Proposal, after: Proposal) {
    && before.proposalId in s.proposals && s.proposals[before.proposalId] == before
    && ProposalKept(before, after)
    && before.branchId in s.branches && ApprovalsOk(s.branches[before.branchId].policy, after)
    && (after.status == before.status
        || (after.status == Stale && before.proposalId in s.candidates
            && s.branches[before.branchId].headRevision != s.candidates[before.proposalId].parentRevision))
  }

  lemma RevisedProposalOk(s: State, before: Proposal, after: Proposal)
    requires Inv(s) && Revised(s, before, after)
    ensures ProposalOk(SetProposal(s, after), after.proposalId)
  {
    assert ProposalOk(s, before.proposalId);
    MoreApprovals(before, after);
  }

  lemma ReviseExtends(s: State, before: Proposal, after: Proposal)
    requires Inv(s) && Revised(s, before, after)
    ensures Extends(s, SetProposal(s, after))
  {
  }

  lemma RevisedCandidateOk(s: State, before: Proposal, after: Proposal, id: Id)
    requires Inv(s) && Revised(s, before, after) && Extends(s, SetProposal(s, after)) && id in s.candidates
    ensures CandidateOk(SetProposal(s, after), id)
  {
    assert CandidateOk(s, id);
    CandidateKept(s, SetProposal(s, after), id);
  }

  lemma ReviseKeeps(s: State, before: Proposal, after: Proposal)
    requires Inv(s) && Revised(s, before, after)
    ensures Inv(SetProposal(s, after)) && Extends(s, SetProposal(s, after))
  {
    var t := SetProposal(s, after);
    ReviseExtends(s, before, after);
    SameRevisions(s, t);
    SameBranches(s, t);
    forall id | id in t.candidates ensures CandidateOk(t, id) {
      RevisedCandidateOk(s, before, after, id);
    }
    RevisedProposalOk(s, before, after);
    forall id | id in t.proposals ensures ProposalOk(t, id) {
      if id != after.proposalId {
        WaitingProposalKept(s, t, id);
      }
    }
  }

  // ---------------------------------------------------------------------------------------------
  // Committing a revision on top of a branch head.

  /** What the new head must look like for the rest of the state. */
  ghost predicate NewHead(s: State, branchId: Id, revision: Revision) {
    && branchId in s.branches && revision.revision !in s.revisions
    && s.branches[branchId].headRevision in s.revisions
    && revision.parentRevision == Some(s.branches[branchId].headRevision)
    && s.revisions[s.branches[branchId].headRevision].sequence < revision.sequence
    && revision.sequence <= s.revisionSequence
  }

  ghost predicate Grown(s: State, t: State, branchId: Id, revision: Revision)
    requires NewHead(s, branchId, revision)
  {
    && t.revisions == s.revisions[revision.revision := revision]
    && t.branches == s.branches[branchId := s.branches[branchId].(headRevision := revision.revision)]
    && t.patches == s.patches && t.revisionSequence == s.revisionSequence
  }

  lemma GrownBranches(s: State, t: State, branchId: Id, revision: Revision)
    requires Inv(s) && NewHead(s, branchId, revision) && Grown(s, t, branchId, revision) && Extends(s, t)
    ensures forall b {:trigger BranchOk(t, b)} :: b in t.branches ==> BranchOk(t, b)
    ensures forall b {:trigger PublicationOk(t, b)} :: b in t.branches ==> PublicationOk(t, b)
  {
    assert BranchOk(s, branchId) && PublicationOk(s, branchId);
    PublicationKept(s, t, branchId);
    BranchesKept(s, t, branchId);
  }

  lemma GrownRevisions(s: State, t: State, branchId: Id, revision: Revision)
    requires Inv(s) && NewHead(s, branchId, revision) && Grown(s, t, branchId, revision) && Extends(s, t)
    requires RevisionOk(t, revision.revision)
    ensures forall k {:trigger RevisionOk(t, k)} :: k in t.revisions ==> RevisionOk(t, k)
  {
    forall k | k in t.revisions ensures RevisionOk(t, k) {
      if k != revision.revision {
        RevisionKept(s, t, k);
      }
    }
  }

  lemma GrownCandidate(s: State, t: State, branchId: Id, revision: Revision, id: Id)
    requires Inv(s) && NewHead(s, branchId, revision) && Grown(s, t, branchId, revision) && Extends(s, t)
    requires id in s.candidates && id in t.candidates && t.candidates[id] == s.candidates[id]
    requires s.candidates[id].revision != revision.revision
    requires id in s.proposals ==> t.proposals[id].status == s.proposals[id].status
    ensures CandidateOk(t, id)
  {
    assert CandidateOk(s, id);
    var c := s.candidates[id];
    assert NotBehind(s, c.branchId, c.parentRevision);
    assert NotBehind(t, c.branchId, c.parentRevision);
    CandidateKept(s, t, id);
  }

  // ---------------------------------------------------------------------------------------------
  // Committing an approved or unguarded candidate.

  ghost predicate Committable(s: State, proposal: Proposal, candidate: Candidate) {
    && proposal.proposalId in s.proposals && s.proposals[proposal.proposalId] == proposal
    && proposal.proposalId in s.candidates && s.candidates[proposal.proposalId] == candidate
    && proposal.branchId in s.branches
    && s.branches[proposal.branchId].headRevision == candidate.parentRevision
    && (s.branches[proposal.branchId].policy.guarded ==>
          HasRequiredApprovals(s.branches[proposal.branchId].policy, proposal))
  }

  ghost predicate Committing(s: State, t: State, proposal: Proposal, candidate: Candidate, revision: Revision) {
    && Inv(s) && Committable(s, proposal, candidate)
    && NewHead(s, proposal.branchId, revision) && Grown(s, t, proposal.branchId, revision)
    && revision == ToRevision(candidate, Some(proposal.proposalId), None, revision.committedAt)
    && t.proposals == s.proposals[proposal.proposalId := proposal.(status := Committed)]
    && t.candidates == s.candidates - {proposal.proposalId}
  }

  lemma CommitIsCommitting(s: State, proposal: Proposal, candidate: Candidate, now: Time)
    requires Inv(s) && Committable(s, proposal, candidate)
    ensures proposal.status == Pending
    ensures Committing(s, CommitProposal(s, proposal, candidate, now).0, proposal, candidate,
                       ToRevision(candidate, Some(proposal.proposalId), None, now))
  {
    assert CandidateOk(s, proposal.proposalId) && ProposalOk(s, proposal.proposalId);
  }

  lemma CommitExtends(s: State, t: State, proposal: Proposal, candidate: Candidate, revision: Revision)
    requires Committing(s, t, proposal, candidate, revision) && proposal.status == Pending
    ensures Extends(s, t)
  {
  }

  lemma CommittedRevisionOk(s: State, t: State, proposal: Proposal, candidate: Candidate, revision: Revision)
    requires Committing(s, t, proposal, candidate, revision) && Extends(s, t)
    ensures RevisionOk(t, revision.revision)
  {
    assert CandidateOk(s, proposal.proposalId) && ProposalOk(s, proposal.proposalId);
  }

  lemma CommittedProposalOk(s: State, t: State, proposal: Proposal, candidate: Candidate, revision: Revision)
    requires Committing(s, t, proposal, candidate, revision) && Extends(s, t)
    ensures ProposalOk(t, proposal.proposalId)
  {
    assert CandidateOk(s, proposal.proposalId) && ProposalOk(s, proposal.proposalId);
    ApprovalsKept(s.branches[proposal.branchId].policy, proposal, t.proposals[proposal.proposalId]);
  }

  lemma CommitLeavesCandidate(s: State, t: State, proposal: Proposal, candidate: Candidate, revision: Revision, id: Id)
    requires Committing(s, t, proposal, candidate, revision) && Extends(s, t) && id in t.candidates
    ensures CandidateOk(t, id)
  {
    assert CandidateOk(s, id) && CandidateOk(s, proposal.proposalId);
    if s.candidates[id].revision == candidate.revision {
      NamesAreDistinct(s.candidates[id].sequence, candidate.sequence);
    }
    GrownCandidate(s, t, proposal.branchId, revision, id);
  }

  lemma CommitKeeps(s: State, proposal: Proposal, candidate: Candidate, now: Time)
    requires Inv(s) && Committable(s, proposal, candidate)
    ensures proposal.status == Pending
    ensures NewHead(s, proposal.branchId, ToRevision(candidate, Some(proposal.proposalId), None, now))
    ensures Inv(CommitProposal(s, proposal, candidate, now).0) && Extends(s, CommitProposal(s, proposal, candidate, now).0)
  {
    var t := CommitProposal(s, proposal, candidate, now).0;
    var revision := ToRevision(candidate, Some(proposal.proposalId), None, now);
    CommitIsCommitting(s, proposal, candidate, now);
    CommitExtends(s, t, proposal, candidate, revision);
    CommittedRevisionOk(s, t, proposal, candidate, revision);
    GrownRevisions(s, t, proposal.branchId, revision);
    GrownBranches(s, t, proposal.branchId, revision);
    forall id | id in t.candidates ensures CandidateOk(t, id) {
      CommitLeavesCandidate(s, t, proposal, candidate, revision, id);
    }
    CommittedProposalOk(s, t, proposal, candidate, revision);
    forall id | id in t.proposals ensures ProposalOk(t, id) {
      if id != proposal.proposalId {
        WaitingProposalKept(s, t, id);
      }
    }
  }

  // ---------------------------------------------------------------------------------------------
  // Undo: committing a revision without a proposal.

  ghost predicate Compensating(s: State, t: State, branchId: Id, revision: Revision) {
    && Inv(s) && NewHead(s, branchId, revision) && Grown(s, t, branchId, revision)
    && t.proposals == s.proposals && t.candidates == s.candidates
    && revision.revision == RevisionName(revision.sequence) && revision.sequence == s.revisionSequence
    && (forall id :: id in s.candidates ==> s.candidates[id].revision != revision.revision)
    && revision.proposalId.None? && revision.compensatesRevision == revision.parentRevision
    && revision.changedPaths == ["/"]
    && var undone := s.revisions[revision.parentRevision.value];
    && undone.parentRevision.Some? && undone.parentRevision.value in s.revisions
    && s.revisions[undone.parentRevision.value].document.Obj?
    && revision.document == Stamp(s.revisions[undone.parentRevision.value].document, revision.revision)
  }

  lemma CompensationExtends(s: State, t: State, branchId: Id, revision: Revision)
    requires Compensating(s, t, branchId, revision)
    ensures Extends(s, t)
  {
  }

  lemma CompensationRevisionOk(s: State, t: State, branchId: Id, revision: Revision)
    requires Compensating(s, t, branchId, revision) && Extends(s, t)
    ensures RevisionOk(t, revision.revision)
  {
  }

  lemma CompensationKeeps(s: State, t: State, branchId: Id, revision: Revision)
    requires Compensating(s, t, branchId, revision)
    ensures Inv(t) && Extends(s, t)
  {
    CompensationExtends(s, t, branchId, revision);
    CompensationRevisionOk(s, t, branchId, revision);
    GrownRevisions(s, t, branchId, revision);
    GrownBranches(s, t, branchId, revision);
    forall id | id in t.candidates ensures CandidateOk(t, id) {
      GrownCandidate(s, t, branchId, revision, id);
    }
    forall id | id in t.proposals ensures ProposalOk(t, id) {
      WaitingProposalKept(s, t, id);
    }
  }

  // ---------------------------------------------------------------------------------------------
  // Branch bookkeeping: publication and new branches.

  lemma RebranchKeeps(s: State, t: State, changed: Id)
    requires Inv(s) && t == s.(branches := t.branches)
    requires changed in t.branches
    requires forall b :: b in s.branches ==> b in t.branches && BranchKept(s.branches[b], t.branches[b])
                                             && t.branches[b].headRevision == s.branches[b].headRevision
    requires forall b :: b in t.branches && b != changed ==> b in s.branches && t.branches[b] == s.branches[b]
    requires BranchOk(t, changed) && PublicationOk(t, changed)
    ensures Inv(t) && Extends(s, t)
  {
    assert Extends(s, t);
    SameRevisions(s, t);
    BranchesKept(s, t, changed);
    forall id | id in t.candidates ensures CandidateOk(t, id) {
      assert CandidateOk(s, id);
      CandidateKept(s, t, id);
    }
    forall id | id in t.proposals ensures ProposalOk(t, id) {
      WaitingProposalKept(s, t, id);
    }
  }

  lemma {:induction false} ExtendsTransitive(s: State, t: State, u: State)
    requires Extends(s, t) && Extends(t, u)
    ensures Extends(s, u)
  {
    forall id | id in s.proposals ensures id in u.proposals && ProposalKept(s.proposals[id], u.proposals[id]) {
      var p, q, r := s.proposals[id], t.proposals[id], u.proposals[id];
      assert ProposalKept(p, q) && ProposalKept(q, r);
      assert p.approvals <= r.approvals && p.comments <= r.comments;
    }
    forall k | k in s.revisions && k in s.patches ensures k in u.patches && u.patches[k] == s.patches[k] {
      assert k in t.revisions && k in t.patches;
    }
  }

  lemma ExtendsReflexive(s: State)
    ensures Extends(s, s)
  {
  }

  // ---------------------------------------------------------------------------------------------
  // The commands.

  lemma PatchedIsMade(parent: Json, ops: seq<Operation>, name: Id, validates: Json -> bool)
    requires parent.Obj? && ApplyCollaborationPatch(parent, ops, name, validates).Patched?
    ensures var patched := ApplyCollaborationPatch(parent, ops, name, validates);
            && Made(parent, ops, patched.document, name) && StampedAs(patched.document, name)
            && patched.changedPaths == ChangedPaths(ops)
  {
  }

  lemma RecordKeeps(s: State, request: Request, actor: Actor, candidate: Candidate, now: Time)
    requires Inv(s) && request.Propose? && request.proposalId !in s.proposals
    requires candidate.branchId == request.branchId && FreshCandidate(s, candidate, request.operations)
    ensures var t := RecordProposal(s, request, actor, candidate, now).0;
            Inv(t) && Extends(s, t)
  {
    var policy := s.branches[request.branchId].policy;
    var proposal := NewProposal(request, actor, candidate, policy, now);
    var stored := StoreProposal(s, proposal, candidate, request.operations);
    StoreProposalKeeps(s, stored, proposal, candidate, request.operations);
    var created := Emit(stored, ProposalCreated(request.proposalId, proposal.rebased, candidate.revision), actor,
                        request.branchId, request.meta.correlationId, now);
    BookkeepingKeeps(stored, created);
    ExtendsTransitive(s, stored, created);
    if !policy.guarded {
      CommitKeeps(created, proposal, candidate, now);
      ExtendsTransitive(s, created, CommitProposal(created, proposal, candidate, now).0);
    }
  }

  lemma CreateProposalKeeps(s: State, request: Request, actor: Actor, parent: Id, now: Time, validates: Json -> bool)
    requires Inv(s) && WellFormed(s) && request.Propose? && request.proposalId !in s.proposals
    requires request.branchId in s.branches && parent == s.branches[request.branchId].headRevision
    ensures var t := CreateProposal(s, request, actor, parent, now, validates).0;
            Inv(t) && Extends(s, t)
  {
    var t := Allocate(s);
    NextNameIsFree(s);
    BookkeepingKeeps(s, t);
    assert BranchOk(s, request.branchId) && RevisionOk(s, parent);
    var name := RevisionName(t.revisionSequence);
    var applied := ApplyCollaborationPatch(t.revisions[parent].document, request.operations, name, validates);
    if applied.Patched? {
      PatchedIsMade(t.revisions[parent].document, request.operations, name, validates);
      var candidate := Candidate(actor, request.branchId, applied.changedPaths, request.meta.correlationId,
                                 applied.document, parent, applied.removedPaths, name, t.revisionSequence);
      assert FreshCandidate(t, candidate, request.operations);
      RecordKeeps(t, request, actor, candidate, now);
      ExtendsTransitive(s, t, RecordProposal(t, request, actor, candidate, now).0);
    }
  }

  lemma SubmitKeeps(s: State, request: Request, actor: Actor, now: Time, validates: Json -> bool)
    requires Inv(s) && WellFormed(s) && request.Propose?
    ensures var t := Submit(s, request, actor, now, validates).0;
            Inv(t) && Extends(s, t)
  {
    ExtendsReflexive(s);
    if request.branchId in s.branches && request.proposalId !in s.proposals {
      CreateProposalKeeps(s, request, actor, s.branches[request.branchId].headRevision, now, validates);
    }
  }

  lemma ApprovalKeeps(s: State, proposal: Proposal, request: Request, actor: Actor, now: Time)
    requires Inv(s) && request.Approve? && proposal.proposalId in s.proposals && s.proposals[proposal.proposalId] == proposal
    requires proposal.branchId in s.branches
    requires ApprovalDiagnostic(s.branches[proposal.branchId].policy, proposal, actor.actorId, request.expectedRevision, now).None?
    ensures var t := RecordApproval(s, proposal, request, actor, now);
            Inv(t) && Extends(s, t)
  {
    ExtendsReflexive(s);
    if actor.actorId !in Approvers(proposal) {
      var approval := Approval(actor.actorId, now, request.expectedRevision);
      var after := proposal.(approvals := proposal.approvals + [approval]);
      var policy := s.branches[proposal.branchId].policy;
      assert ProposalOk(s, proposal.proposalId);
      assert ApprovalsOk(policy, after) by {
        forall i | 0 <= i < |after.approvals| ensures ApprovalOk(policy, after, after.approvals[i]) {
          if i < |proposal.approvals| {
            assert ApprovalOk(policy, proposal, proposal.approvals[i]);
          }
        }
        forall i, j | 0 <= i < j < |after.approvals| ensures after.approvals[i].actorId != after.approvals[j].actorId {
          assert proposal.approvals[i].actorId in Approvers(proposal);
        }
      }
      ReviseKeeps(s, proposal, after);
      var t := RecordApproval(s, proposal, request, actor, now);
      BookkeepingKeeps(SetProposal(s, after), t);
      ExtendsTransitive(s, SetProposal(s, after), t);
    }
  }

  lemma FinishKeeps(s: State, proposal: Proposal, now: Time)
    requires Inv(s) && proposal.proposalId in s.proposals && s.proposals[proposal.proposalId] == proposal
    requires proposal.branchId in s.branches && HasRequiredApprovals(s.branches[proposal.branchId].policy, proposal)
    ensures var t := FinishApproved(s, proposal, now).0;
            Inv(t) && Extends(s, t)
  {
    ExtendsReflexive(s);
    if proposal.proposalId in s.candidates {
      var candidate := s.candidates[proposal.proposalId];
      assert CandidateOk(s, proposal.proposalId) && ProposalOk(s, proposal.proposalId);
      if s.branches[proposal.branchId].headRevision != candidate.parentRevision {
        ApprovalsKept(s.branches[proposal.branchId].policy, proposal, proposal.(status := Stale));
        ReviseKeeps(s, proposal, proposal.(status := Stale));
      } else {
        CommitKeeps(s, proposal, candidate, now);
      }
    }
  }

  lemma ApproveKeeps(s: State, request: Request, actor: Actor, now: Time)
    requires Inv(s) && WellFormed(s) && request.Approve?
    ensures var t := ApproveProposal(s, request, actor, now).0;
            Inv(t) && Extends(s, t)
  {
    ExtendsReflexive(s);
    if request.proposalId in s.proposals && s.proposals[request.proposalId].branchId in s.branches {
      var proposal := s.proposals[request.proposalId];
      var policy := s.branches[proposal.branchId].policy;
      if ApprovalDiagnostic(policy, proposal, actor.actorId, request.expectedRevision, now).None? {
        ApprovalKeeps(s, proposal, request, actor, now);
        var t := RecordApproval(s, proposal, request, actor, now);
        var approved := t.proposals[request.proposalId];
        assert approved.proposalId == proposal.proposalId && approved.branchId == proposal.branchId;
        if HasRequiredApprovals(policy, approved) {
          FinishKeeps(t, approved, now);
          ExtendsTransitive(s, t, FinishApproved(t, approved, now).0);
        }
      }
    }
  }

  lemma CommentKeeps(s: State, request: Request, actor: Actor, now: Time)
    requires Inv(s) && WellFormed(s) && request.AddComment?
    ensures var t := CommentOnProposal(s, request, actor, now).0;
            Inv(t) && Extends(s, t)
  {
    ExtendsReflexive(s);
    if request.proposalId in s.proposals {
      var proposal := s.proposals[request.proposalId];
      var commented := proposal.(comments := proposal.comments + [Comment(actor.actorId, request.body, now)]);
      assert ProposalOk(s, request.proposalId);
      ApprovalsKept(s.branches[proposal.branchId].policy, proposal, commented);
      ReviseKeeps(s, proposal, commented);
      var t := CommentOnProposal(s, request, actor, now).0;
      BookkeepingKeeps(SetProposal(s, commented), t);
      ExtendsTransitive(s, SetProposal(s, commented), t);
    }
  }

  lemma PublishKeeps(s: State, request: Request, actor: Actor, now: Time)
    requires Inv(s) && request.Publish?
    ensures var t := PublishRevision(s, request, actor, now).0;
            Inv(t) && Extends(s, t)
  {
    ExtendsReflexive(s);
    if request.branchId in s.branches {
      var branch := s.branches[request.branchId];
      if RevisionMayPublish(branch, ProposalOf(s, request.revision), request.revision) {
        var published := s.(branches := s.branches[request.branchId := branch.(publishedRevision := Some(request.revision))]);
        assert BranchOk(s, request.branchId);
        assert BranchOk(published, request.branchId) && PublicationOk(published, request.branchId);
        RebranchKeeps(s, published, request.branchId);
        var t := PublishRevision(s, request, actor, now).0;
        BookkeepingKeeps(published, t);
        ExtendsTransitive(s, published, t);
      }
    }
  }

  lemma UndoKeeps(s: State, request: Request, actor: Actor, now: Time, validates: Json -> bool)
    requires Inv(s) && WellFormed(s) && request.Undo?
    ensures var t := UndoRevision(s, request, actor, now, validates).0;
            Inv(t) && Extends(s, t)
  {
    ExtendsReflexive(s);
    var t := UndoRevision(s, request, actor, now, validates).0;
    if t != s {
      assert BranchOk(s, request.branchId) && RevisionOk(s, request.targetRevision);
      CompensateKeeps(s, request, actor, s.revisions[s.revisions[request.targetRevision].parentRevision.value].document, now, validates);
    }
  }

  lemma CompensateKeeps(s: State, request: Request, actor: Actor, document: Json, now: Time, validates: Json -> bool)
    requires Inv(s) && WellFormed(s) && request.Undo? && document.Obj?
    requires request.branchId in s.branches && s.branches[request.branchId].headRevision == request.targetRevision
    requires request.targetRevision in s.revisions
    requires var parent := s.revisions[request.targetRevision].parentRevision;
             parent.Some? && parent.value in s.revisions && document == s.revisions[parent.value].document
    ensures var t := CommitCompensation(s, request, actor, document, now, validates).0;
            Inv(t) && Extends(s, t)
  {
    var a, t := Allocate(s), CommitCompensation(s, request, actor, document, now, validates).0;
    NextNameIsFree(s);
    BookkeepingKeeps(s, a);
    var name := RevisionName(a.revisionSequence);
    var restored := Stamp(document, name);
    if validates(restored) {
      assert RevisionOk(s, request.targetRevision);
      var candidate := Candidate(actor, request.branchId, ["/"], request.meta.correlationId, restored,
                                 request.targetRevision, [], name, a.revisionSequence);
      var revision := ToRevision(candidate, None, Some(request.targetRevision), now);
      var moved := MoveHead(AddRevision(a, revision), request.branchId, name);
      CompensationKeeps(a, moved, request.branchId, revision);
      BookkeepingKeeps(moved, t);
      ExtendsTransitive(s, a, moved);
      ExtendsTransitive(s, moved, t);
    }
  }

  lemma CreateBranchKeeps(s: State, branchId: Id, fromRevision: Id, policy: Option<Policy>)
    requires Inv(s)
    ensures var t := CreateBranch(s, branchId, fromRevision, policy);
            t.Some? ==> Inv(t.value) && Extends(s, t.value)
  {
    var t := CreateBranch(s, branchId, fromRevision, policy);
    if t.Some? {
      RebranchKeeps(s, t.value, branchId);
    }
  }

  lemma ExecuteKeeps(s: State, request: Request, actor: Actor, now: Time, validates: Json -> bool)
    requires Inv(s) && WellFormed(s)
    ensures var t := Execute(s, request, actor, now, validates).0;
            Inv(t) && Extends(s, t)
  {
    ExtendsReflexive(s);
    if Authorized(s, request, actor) {
      match request
      case Propose(_, _, _, _, _, _) =>
        SubmitKeeps(s, request, actor, now, validates);
        IdempotentKeeps(s, request, actor, now, validates);
      case Approve(_, _, _) => ApproveKeeps(s, request, actor, now);
      case AddComment(_, _, _) => CommentKeeps(s, request, actor, now);
      case Publish(_, _, _) => PublishKeeps(s, request, actor, now);
      case Undo(_, _, _, _) =>
        UndoKeeps(s, request, actor, now, validates);
        IdempotentKeeps(s, request, actor, now, validates);
    }
  }

  lemma IdempotentKeeps(s: State, request: Request, actor: Actor, now: Time, validates: Json -> bool)
    requires Inv(s) && WellFormed(s) && Idempotent(request)
    requires Inv(RunOnce(s, request, actor, now, validates).0) && Extends(s, RunOnce(s, request, actor, now, validates).0)
    ensures var t := ExecuteIdempotent(s, request, actor, now, validates).0;
            Inv(t) && Extends(s, t)
  {
    ExtendsReflexive(s);
    if KeyOf(request, actor) !in s.idempotency {
      var ran := RunOnce(s, request, actor, now, validates).0;
      var t := ExecuteIdempotent(s, request, actor, now, validates).0;
      BookkeepingKeeps(ran, t);
      ExtendsTransitive(s, ran, t);
    }
  }
}
