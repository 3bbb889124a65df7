/** What every reachable state of the collaboration service satisfies, and why each command keeps it. */
module CollaborationInvariant {
  import opened Wrappers
  import opened Decimal
  import opened JsonPatch
  import opened CollaborationPatch
  import opened Rebase
  import opened Collaboration

  /** The document carries exactly its revision's name. */
  ghost predicate StampedAs(doc: Json, name: Id) {
    doc.Obj? && "revision" in doc.members && doc.members["revision"] == Str(name)
  }

  /** `doc` is what the patch makes of the parent's document. */
  ghost predicate Made(parent: Json, ops: seq<Operation>, doc: Json, name: Id) {
    && parent.Obj? && AllApproved(ops)
    && Commit(parent, Change(ops, name)) == Some(doc)
  }

  ghost predicate RevisionNamed(s: State, k: Id)
    requires k in s.revisions
  {
    var r := s.revisions[k];
    && r.revision == k == RevisionName(r.sequence)
    && 1 <= r.sequence <= s.revisionSequence
    && StampedAs(r.document, k)
  }

  /** Only the first revision has no parent; every parent is present and older. */
  ghost predicate ParentKnown(s: State, k: Id)
    requires k in s.revisions
  {
    var r := s.revisions[k];
    match r.parentRevision
    case None => r.proposalId.None?
    case Some(p) => p in s.revisions && s.revisions[p].sequence < r.sequence
  }

  /** A revision with a proposal is the committed candidate of that proposal and the work of its patch. */
  ghost predicate FromProposal(s: State, k: Id)
    requires k in s.revisions
  {
    var r := s.revisions[k];
    r.proposalId.Some? ==>
      && r.proposalId.value in s.proposals
      && var p := s.proposals[r.proposalId.value];
      && p.status == Committed && p.candidateRevision == k && p.branchId == r.branchId
      && r.compensatesRevision.None?
      && k in s.patches && r.changedPaths == ChangedPaths(s.patches[k]) && r.removedPaths == RemovedPaths(s.patches[k])
      && r.parentRevision.Some? && r.parentRevision.value in s.revisions
      && Made(s.revisions[r.parentRevision.value].document, s.patches[k], r.document, k)
  }

  /** Every other revision but the first is an undo: it restores the document before its parent. */
  ghost predicate FromUndo(s: State, k: Id)
    requires k in s.revisions
  {
    var r := s.revisions[k];
    r.proposalId.None? && r.parentRevision.Some? ==>
      && r.compensatesRevision == r.parentRevision
      && r.changedPaths == ["/"]
      && r.parentRevision.value in s.revisions
      && var undone := s.revisions[r.parentRevision.value];
      && undone.parentRevision.Some? && undone.parentRevision.value in s.revisions
      && s.revisions[undone.parentRevision.value].document.Obj?
      && r.document == Stamp(s.revisions[undone.parentRevision.value].document, k)
  }

  ghost predicate BranchOk(s: State, b: Id)
    requires b in s.branches
  {
    var branch := s.branches[b];
    branch.branchId == b && branch.headRevision in s.revisions && ValidPolicy(branch.policy)
  }

  /** A guarded branch only ever published revisions whose proposal holds enough distinct approvals. */
  ghost predicate PublicationOk(s: State, b: Id)
    requires b in s.branches
  {
    var branch := s.branches[b];
    branch.publishedRevision.Some? && branch.policy.guarded ==>
      && ProposalOf(s, branch.publishedRevision.value).Some?
      && var p := ProposalOf(s, branch.publishedRevision.value).value;
      && p.candidateRevision == branch.publishedRevision.value
      && HasRequiredApprovals(branch.policy, p)
  }

  /** A waiting candidate sits on a committed parent that its branch has not fallen behind. */
  ghost predicate CandidateOk(s: State, id: Id)
    requires id in s.candidates
  {
    var c := s.candidates[id];
    && c.revision == RevisionName(c.sequence) && 1 <= c.sequence <= s.revisionSequence
    && c.revision !in s.revisions && c.parentRevision in s.revisions
    && s.revisions[c.parentRevision].sequence < c.sequence
    && c.branchId in s.branches && s.branches[c.branchId].headRevision in s.revisions
    && (s.branches[c.branchId].headRevision == c.parentRevision
        || s.revisions[c.parentRevision].sequence < s.revisions[s.branches[c.branchId].headRevision].sequence)
    && StampedAs(c.document, c.revision)
    && c.revision in s.patches && c.changedPaths == ChangedPaths(s.patches[c.revision])
    && c.removedPaths == RemovedPaths(s.patches[c.revision])
    && Made(s.revisions[c.parentRevision].document, s.patches[c.revision], c.document, c.revision)
    && id in s.proposals && s.proposals[id].status != Committed
    && s.proposals[id].candidateRevision == c.revision && s.proposals[id].branchId == c.branchId
    && (s.proposals[id].status == Stale ==> s.branches[c.branchId].headRevision != c.parentRevision)
  }

  ghost predicate ApprovalOk(policy: Policy, p: Proposal, a: Approval) {
    && a.revision == p.candidateRevision
    && (p.expiresAt.Some? ==> a.approvedAt < p.expiresAt.value)
    && IsReviewer(policy, a.actorId) && Separated(policy, p, a.actorId)
  }

  ghost predicate ApprovalsOk(policy: Policy, p: Proposal) {
    && (forall i :: 0 <= i < |p.approvals| ==> ApprovalOk(policy, p, p.approvals[i]))
    && (forall i, j :: 0 <= i < j < |p.approvals| ==> p.approvals[i].actorId != p.approvals[j].actorId)
  }

  ghost predicate ProposalOk(s: State, id: Id)
    requires id in s.proposals
  {
    var p := s.proposals[id];
    && p.proposalId == id && p.branchId in s.branches
    && var policy := s.branches[p.branchId].policy;
    && p.expiresAt == (if policy.guarded then Some(p.createdAt + policy.approvalTtlMs) else None)
    && ApprovalsOk(policy, p)
    && (p.status != Committed ==> id in s.candidates)
    && (p.status == Committed ==>
          && p.candidateRevision in s.revisions && s.revisions[p.candidateRevision].proposalId == Some(id)
          && (policy.guarded ==> HasRequiredApprovals(policy, p)))
  }

  ghost predicate RevisionOk(s: State, k: Id)
    requires k in s.revisions
  {
    RevisionNamed(s, k) && ParentKnown(s, k) && FromProposal(s, k) && FromUndo(s, k)
  }

  ghost predicate Inv(s: State) {
    && (forall k {:trigger RevisionOk(s, k)} :: k in s.revisions ==> RevisionOk(s, k))
    && (forall b {:trigger BranchOk(s, b)} :: b in s.branches ==> BranchOk(s, b))
    && (forall b {:trigger PublicationOk(s, b)} :: b in s.branches ==> PublicationOk(s, b))
    && (forall id {:trigger CandidateOk(s, id)} :: id in s.candidates ==> CandidateOk(s, id))
    && (forall i, j :: i in s.candidates && j in s.candidates && i != j ==> s.candidates[i].sequence != s.candidates[j].sequence)
    && (forall id {:trigger ProposalOk(s, id)} :: id in s.proposals ==> ProposalOk(s, id))
  }

  lemma InvWellFormed(s: State)
    requires Inv(s)
    ensures WellFormed(s)
  {
    forall k | k in s.revisions ensures s.revisions[k].document.Obj? {
      assert RevisionOk(s, k);
    }
    forall id | id in s.proposals ensures s.proposals[id].proposalId == id {
      assert ProposalOk(s, id);
    }
    forall k | k in s.revisions && s.revisions[k].parentRevision.Some? && s.revisions[k].parentRevision.value in s.revisions
      ensures s.revisions[s.revisions[k].parentRevision.value].sequence < s.revisions[k].sequence
    {
      assert RevisionOk(s, k);
    }
  }

  /** Different sequences give different names. */
  lemma NamesAreDistinct(m: nat, n: nat)
    requires RevisionName(m) == RevisionName(n)
    ensures m == n
  {
    ToNatNumeral(m);
    ToNatNumeral(n);
    PaddingKeepsValue(Numeral(m), 12);
    PaddingKeepsValue(Numeral(n), 12);
    assert RevisionName(m)[9..] == PadStart(Numeral(m), 12);
    assert RevisionName(n)[9..] == PadStart(Numeral(n), 12);
  }

  // ---------------------------------------------------------------------------------------------
  // What no command ever takes back.

  ghost predicate BranchKept(before: Branch, after: Branch) {
    after.branchId == before.branchId && after.policy == before.policy
  }

  /** Everything but approvals, comments and status is fixed; approvals and comments only grow; a verdict is final. */
  ghost predicate ProposalKept(before: Proposal, after: Proposal) {
    && after == before.(approvals := after.approvals, comments := after.comments, status := after.status)
    && before.approvals <= after.approvals && before.comments <= after.comments
    && (before.status != Pending ==> after.status == before.status)
  }

  ghost predicate Extends(s: State, t: State) {
    && (forall k :: k in s.revisions ==> k in t.revisions && t.revisions[k] == s.revisions[k])
    && (forall b :: b in s.branches ==> b in t.branches && BranchKept(s.branches[b], t.branches[b]))
    && (forall id :: id in s.proposals ==> id in t.proposals && ProposalKept(s.proposals[id], t.proposals[id]))
    && (forall k :: k in s.revisions && k in s.patches ==> k in t.patches && t.patches[k] == s.patches[k])
    && s.revisionSequence <= t.revisionSequence
  }

  lemma MoreApprovals(before: Proposal, after: Proposal)
    requires before.approvals <= after.approvals
    ensures Approvers(before) <= Approvers(after) && |Approvers(before)| <= |Approvers(after)|
  {
    forall a | a in Approvers(before) ensures a in Approvers(after) {
      var k :| 0 <= k < |before.approvals| && before.approvals[k].actorId == a;
      assert after.approvals[k] == before.approvals[k];
    }
    assert Approvers(after) == Approvers(before) + (Approvers(after) - Approvers(before));
  }

  lemma NamedKept(s: State, t: State, k: Id)
    requires Extends(s, t) && k in s.revisions && RevisionNamed(s, k)
    ensures RevisionNamed(t, k)
  {
  }

  lemma ParentKept(s: State, t: State, k: Id)
    requires Extends(s, t) && k in s.revisions && ParentKnown(s, k)
    ensures ParentKnown(t, k)
  {
  }

  lemma FromProposalKept(s: State, t: State, k: Id)
    requires Extends(s, t) && k in s.revisions && FromProposal(s, k)
    ensures FromProposal(t, k)
  {
  }

  lemma FromUndoKept(s: State, t: State, k: Id)
    requires Extends(s, t) && k in s.revisions && FromUndo(s, k)
    ensures FromUndo(t, k)
  {
  }

  lemma PublicationKept(s: State, t: State, b: Id)
    requires Extends(s, t) && b in s.branches && PublicationOk(s, b)
    requires t.branches[b].publishedRevision == s.branches[b].publishedRevision
    ensures PublicationOk(t, b)
  {
    var r := s.branches[b].publishedRevision;
    if r.Some? && s.branches[b].policy.guarded {
      var id := s.revisions[r.value].proposalId.value;
      MoreApprovals(s.proposals[id], t.proposals[id]);
    }
  }

  lemma RevisionKept(s: State, t: State, k: Id)
    requires Inv(s) && Extends(s, t) && k in s.revisions
    ensures RevisionOk(t, k)
  {
    assert RevisionOk(s, k);
    NamedKept(s, t, k);
    ParentKept(s, t, k);
    FromProposalKept(s, t, k);
    FromUndoKept(s, t, k);
  }

  /** The branch has not moved back behind the candidate's parent. */
  ghost predicate NotBehind(s: State, branchId: Id, parent: Id) {
    && branchId in s.branches && parent in s.revisions && s.branches[branchId].headRevision in s.revisions
    && (s.branches[branchId].headRevision == parent
        || s.revisions[parent].sequence < s.revisions[s.branches[branchId].headRevision].sequence)
  }

  lemma CandidateKept(s: State, t: State, id: Id)
    requires Inv(s) && Extends(s, t) && id in s.candidates && id in t.candidates && t.candidates[id] == s.candidates[id]
    requires var c := s.candidates[id];
             && c.revision !in t.revisions
             && (c.revision in s.patches ==> c.revision in t.patches && t.patches[c.revision] == s.patches[c.revision])
             && (c.branchId in s.branches && NotBehind(s, c.branchId, c.parentRevision) ==>
                   && NotBehind(t, c.branchId, c.parentRevision)
                   && (t.branches[c.branchId].headRevision == c.parentRevision ==>
                         s.branches[c.branchId].headRevision == c.parentRevision))
    requires id in s.proposals ==>
               && t.proposals[id].status != Committed
               && (t.proposals[id].status == Stale && s.proposals[id].status != Stale ==>
                     s.candidates[id].branchId in t.branches
                     && t.branches[s.candidates[id].branchId].headRevision != s.candidates[id].parentRevision)
    ensures CandidateOk(t, id)
  {
    assert CandidateOk(s, id);
  }

  /** Comments and status do not matter for what the approvals are worth. */
  lemma ApprovalsKept(policy: Policy, p: Proposal, q: Proposal)
    requires q == p.(comments := q.comments, status := q.status) && ApprovalsOk(policy, p)
    ensures ApprovalsOk(policy, q) && Approvers(q) == Approvers(p)
  {
    forall i | 0 <= i < |q.approvals| ensures ApprovalOk(policy, q, q.approvals[i]) {
      assert ApprovalOk(policy, p, p.approvals[i]);
    }
  }

  lemma WaitingProposalKept(s: State, t: State, id: Id)
    requires Inv(s) && Extends(s, t) && id in s.proposals && t.proposals[id].approvals == s.proposals[id].approvals
    requires s.proposals[id].status != Committed ==> t.proposals[id].status != Committed
    requires id in s.candidates ==> id in t.candidates
    ensures ProposalOk(t, id)
  {
    assert ProposalOk(s, id);
    ApprovalsKept(s.branches[s.proposals[id].branchId].policy, s.proposals[id], t.proposals[id]);
  }

  lemma BranchesKept(s: State, t: State, changed: Id)
    requires Inv(s) && Extends(s, t)
    requires forall b :: b in t.branches && b != changed ==> b in s.branches && t.branches[b] == s.branches[b]
    requires changed in t.branches ==> BranchOk(t, changed) && PublicationOk(t, changed)
    ensures forall b {:trigger BranchOk(t, b)} :: b in t.branches ==> BranchOk(t, b)
    ensures forall b {:trigger PublicationOk(t, b)} :: b in t.branches ==> PublicationOk(t, b)
  {
    forall b | b in t.branches ensures BranchOk(t, b) && PublicationOk(t, b) {
      if b != changed {
        assert BranchOk(s, b) && PublicationOk(s, b);
        PublicationKept(s, t, b);
      }
    }
  }

  // ---------------------------------------------------------------------------------------------
  // The elementary changes.

  lemma SameRevisions(s: State, t: State)
    requires Inv(s) && Extends(s, t) && t.revisions == s.revisions
    ensures forall k {:trigger RevisionOk(t, k)} :: k in t.revisions ==> RevisionOk(t, k)
  {
    forall k | k in t.revisions ensures RevisionOk(t, k) {
      RevisionKept(s, t, k);
    }
  }

  lemma NextNameIsFree(s: State)
    requires Inv(s)
    ensures RevisionName(s.revisionSequence + 1) !in s.revisions
    ensures forall id :: id in s.candidates ==>
              && s.candidates[id].sequence <= s.revisionSequence
              && s.candidates[id].revision != RevisionName(s.revisionSequence + 1)
  {
    forall k | k in s.revisions ensures k != RevisionName(s.revisionSequence + 1) {
      assert RevisionOk(s, k);
      if k == RevisionName(s.revisionSequence + 1) {
        NamesAreDistinct(s.revisions[k].sequence, s.revisionSequence + 1);
      }
    }
    forall id | id in s.candidates
      ensures s.candidates[id].sequence <= s.revisionSequence
      ensures s.candidates[id].revision != RevisionName(s.revisionSequence + 1)
    {
      assert CandidateOk(s, id);
      if s.candidates[id].revision == RevisionName(s.revisionSequence + 1) {
        NamesAreDistinct(s.candidates[id].sequence, s.revisionSequence + 1);
      }
    }
  }

  /** Taking a sequence, events and idempotency entries do not touch the graph. */
  lemma BookkeepingKeeps(s: State, t: State)
    requires Inv(s) && s.revisionSequence <= t.revisionSequence
    requires t == s.(emitted := t.emitted, idempotency := t.idempotency, revisionSequence := t.revisionSequence)
    ensures Inv(t) && Extends(s, t)
  {
    SameRevisions(s, t);
    forall id | id in t.candidates ensures CandidateOk(t, id) {
      assert CandidateOk(s, id);
      CandidateKept(s, t, id);
    }
    forall id | id in t.proposals ensures ProposalOk(t, id) {
      WaitingProposalKept(s, t, id);
    }
    SameBranches(s, t);
  }

  lemma SameBranches(s: State, t: State)
    requires Inv(s) && Extends(s, t) && t.branches == s.branches
    ensures forall b {:trigger BranchOk(t, b)} :: b in t.branches ==> BranchOk(t, b)
    ensures forall b {:trigger PublicationOk(t, b)} :: b in t.branches ==> PublicationOk(t, b)
  {
    forall b | b in t.branches ensures BranchOk(t, b) && PublicationOk(t, b) {
      assert BranchOk(s, b) && PublicationOk(s, b);
      PublicationKept(s, t, b);
    }
  }
}
