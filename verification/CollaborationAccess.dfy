/** Who did what: everything a run of the service adds was asked for by an actor of its tenant with the capability for it. */
module CollaborationAccess {
  import opened Wrappers
  import opened JsonPatch
  import opened CollaborationPatch
  import opened Collaboration
  import opened CollaborationInvariant
  import opened CollaborationRuns

  /** The command is a request by an actor of the tenant who has the capability. */
  predicate AskedBy(s: State, command: Command, capability: Capability) {
    command.Call? && command.actor.tenantId == s.tenantId && capability in command.actor.capabilities
  }

  // ---------------------------------------------------------------------------------------------
  // One command.

  /** Without the capability for its kind, or from another tenant, a request changes nothing. */
  lemma TheOthersChangeNothing(s: State, request: Request, actor: Actor, now: Time, validates: Json -> bool)
    requires Inv(s)
    requires actor.tenantId == s.tenantId ==>
               match request
               case Propose(_, _, _, _, _, _) => CanPropose !in actor.capabilities
               case Approve(_, _, _) => CanApprove !in actor.capabilities
               case AddComment(_, _, _) => CanComment !in actor.capabilities
               case Publish(_, _, _) => CanPublish !in actor.capabilities
               case Undo(_, _, _, _) => CanUndo !in actor.capabilities
    ensures Step(s, Call(request, actor, now), validates) == s
  {
    InvWellFormed(s);
  }

  function ApprovalsOf(s: State, id: Id): seq<Approval> {
    if id in s.proposals then s.proposals[id].approvals else []
  }

  function CommentsOf(s: State, id: Id): seq<Comment> {
    if id in s.proposals then s.proposals[id].comments else []
  }

  function PublishedOf(s: State, b: Id): Option<Id> {
    if b in s.branches then s.branches[b].publishedRevision else None
  }

  /** A proposal's approvals stay, or an approver adds one of its own. */
  ghost predicate ApprovalsFollow(s: State, t: State, command: Command, id: Id) {
    || ApprovalsOf(t, id) == ApprovalsOf(s, id)
    || (&& AskedBy(s, command, CanApprove) && command.request.Approve? && command.request.proposalId == id
        && ApprovalsOf(t, id) ==
           ApprovalsOf(s, id) + [Approval(command.actor.actorId, command.now, command.request.expectedRevision)])
  }

  ghost predicate CommentsFollow(s: State, t: State, command: Command, id: Id) {
    || CommentsOf(t, id) == CommentsOf(s, id)
    || (&& AskedBy(s, command, CanComment) && command.request.AddComment? && command.request.proposalId == id
        && CommentsOf(t, id) == CommentsOf(s, id) + [Comment(command.actor.actorId, command.request.body, command.now)])
  }

  ghost predicate PublicationFollows(s: State, t: State, command: Command, b: Id) {
    || PublishedOf(t, b) == PublishedOf(s, b)
    || (&& AskedBy(s, command, CanPublish) && command.request.Publish? && command.request.branchId == b
        && PublishedOf(t, b) == Some(command.request.revision))
  }

  /** The revision names this actor, branch and correlation, and this time. */
  predicate Names(r: Revision, actor: Actor, branchId: Id, correlationId: Id, at: Time) {
    && r.actorId == actor.actorId && r.tenantId == actor.tenantId && r.branchId == branchId
    && r.correlationId == correlationId && r.committedAt == at
  }

  predicate PatchStays(s: State, t: State, k: Id) {
    k in s.patches ==> k in t.patches && t.patches[k] == s.patches[k]
  }

  /** Revisions stay, or an undo adds its own, a proposer the one that needs no approval, or an approver the waiting one. */
  ghost predicate RevisionFollows(s: State, t: State, command: Command, k: Id)
    requires k in t.revisions
  {
    var r := t.revisions[k];
    || (k in s.revisions && r == s.revisions[k] && PatchStays(s, t, k))
    || (AskedBy(s, command, CanUndo) && command.request.Undo? && r.compensatesRevision == Some(command.request.targetRevision)
        && Names(r, command.actor, command.request.branchId, command.request.meta.correlationId, command.now))
    || (AskedBy(s, command, CanPropose) && command.request.Propose? && r.proposalId == Some(command.request.proposalId)
        && Names(r, command.actor, command.request.branchId, command.request.meta.correlationId, command.now)
        && k in t.patches && t.patches[k] == command.request.operations)
    || (AskedBy(s, command, CanApprove) && command.request.Approve? && r.proposalId == Some(command.request.proposalId)
        && PatchStays(s, t, k) && CandidateNamed(s, command.request.proposalId, r, command.now))
  }

  /** The revision is the waiting candidate, committed at this time. */
  predicate CandidateNamed(s: State, id: Id, r: Revision, at: Time) {
    && id in s.candidates && s.candidates[id].revision == r.revision
    && Names(r, s.candidates[id].actor, s.candidates[id].branchId, s.candidates[id].correlationId, at)
  }

  /** The candidate and its patch are the ones submitted. */
  predicate CandidateSubmitted(t: State, c: Candidate, command: Command) {
    && command.Call? && command.request.Propose?
    && c.actor == command.actor && c.branchId == command.request.branchId && c.correlationId == command.request.meta.correlationId
    && c.revision in t.patches && t.patches[c.revision] == command.request.operations
  }

  /** Candidates and their patches stay, or a proposer adds its own. */
  ghost predicate CandidateFollows(s: State, t: State, command: Command, id: Id)
    requires id in t.candidates
  {
    var c := t.candidates[id];
    || (id in s.candidates && c == s.candidates[id] && PatchStays(s, t, c.revision))
    || (AskedBy(s, command, CanPropose) && CandidateSubmitted(t, c, command) && command.request.proposalId == id)
  }

  /** A proposal's submission: what stays the same when it is approved, commented, committed or stale. */
  predicate SameSubmission(p: Proposal, q: Proposal) {
    && p.authorId == q.authorId && p.createdAt == q.createdAt && p.baseRevision == q.baseRevision && p.branchId == q.branchId
    && p.rebased == q.rebased
  }

  /** The proposal carries what was submitted, and is marked as rebased exactly when its base is not the head. */
  predicate ProposalSubmitted(s: State, p: Proposal, command: Command) {
    && command.Call? && command.request.Propose?
    && p.authorId == command.actor.actorId && p.createdAt == command.now
    && p.baseRevision == command.request.baseRevision && p.branchId == command.request.branchId
    && p.branchId in s.branches && (p.rebased <==> p.baseRevision != s.branches[p.branchId].headRevision)
  }

  ghost predicate ProposalFollows(s: State, t: State, command: Command, id: Id)
    requires id in t.proposals
  {
    || (id in s.proposals && SameSubmission(t.proposals[id], s.proposals[id]))
    || (id !in s.proposals && AskedBy(s, command, CanPropose) && ProposalSubmitted(s, t.proposals[id], command)
        && command.request.proposalId == id)
  }

  /** Everything that is new was asked for by somebody entitled to it. */
  ghost predicate Follows(s: State, t: State, command: Command) {
    && t.tenantId == s.tenantId
    && RecordsFollow(s, t, command)
    && (forall k :: k in t.revisions ==> RevisionFollows(s, t, command, k))
    && (forall id :: id in t.proposals ==> ProposalFollows(s, t, command, id))
    && (forall id :: id in t.candidates ==> CandidateFollows(s, t, command, id))
  }

  ghost predicate RecordsFollow(s: State, t: State, command: Command) {
    && (forall id :: ApprovalsFollow(s, t, command, id))
    && (forall id :: CommentsFollow(s, t, command, id))
    && (forall b :: PublicationFollows(s, t, command, b))
  }

  ghost predicate SameRecords(t: State, u: State) {
    && (forall id :: ApprovalsOf(u, id) == ApprovalsOf(t, id) && CommentsOf(u, id) == CommentsOf(t, id))
    && (forall b :: PublishedOf(u, b) == PublishedOf(t, b))
  }

  lemma RecordsCarry(s: State, t: State, u: State, command: Command)
    requires RecordsFollow(s, t, command) && SameRecords(t, u)
    ensures RecordsFollow(s, u, command)
  {
    forall id ensures ApprovalsFollow(s, u, command, id) && CommentsFollow(s, u, command, id) {
      assert ApprovalsFollow(s, t, command, id) && CommentsFollow(s, t, command, id);
    }
    forall b ensures PublicationFollows(s, u, command, b) {
      assert PublicationFollows(s, t, command, b);
    }
  }

  /** What follows goes on following where revisions, submissions and candidates stay. */
  lemma RestCarries(s: State, t: State, u: State, command: Command)
    requires Follows(s, t, command) && RecordsFollow(s, u, command) && u.patches == t.patches && u.tenantId == t.tenantId
    requires forall k :: k in u.revisions ==> (k in t.revisions && u.revisions[k] == t.revisions[k]) || RevisionFollows(s, u, command, k)
    requires forall id :: id in u.proposals ==> id in t.proposals && SameSubmission(u.proposals[id], t.proposals[id])
    requires forall id :: id in u.candidates ==> id in t.candidates && u.candidates[id] == t.candidates[id]
    ensures Follows(s, u, command)
  {
    forall k | k in u.revisions ensures RevisionFollows(s, u, command, k) {
      if k in t.revisions && u.revisions[k] == t.revisions[k] {
        assert RevisionFollows(s, t, command, k);
      }
    }
    forall id | id in u.proposals ensures ProposalFollows(s, u, command, id) {
      assert ProposalFollows(s, t, command, id);
    }
    forall id | id in u.candidates ensures CandidateFollows(s, u, command, id) {
      assert CandidateFollows(s, t, command, id);
    }
  }

  lemma NothingNew(s: State, t: State, command: Command)
    requires t.tenantId == s.tenantId && t.proposals == s.proposals && t.revisions == s.revisions && t.branches == s.branches
    requires t.candidates == s.candidates && t.patches == s.patches
    ensures Follows(s, t, command)
  {
  }

  /** A commit adds a revision and closes the proposal. */
  lemma CommitFollows(s: State, r: State, proposal: Proposal, candidate: Candidate, now: Time, command: Command)
    requires Follows(s, r, command)
    requires proposal.proposalId in r.proposals && r.proposals[proposal.proposalId] == proposal
    requires RevisionFollows(s, CommitProposal(r, proposal, candidate, now).0, command, candidate.revision)
    ensures Follows(s, CommitProposal(r, proposal, candidate, now).0, command)
  {
    var t := CommitProposal(r, proposal, candidate, now).0;
    CommitParts(r, proposal, candidate, now);
    RecordsCarry(s, r, t, command);
    RestCarries(s, r, t, command);
  }

  lemma CommitParts(r: State, proposal: Proposal, candidate: Candidate, now: Time)
    requires proposal.proposalId in r.proposals && r.proposals[proposal.proposalId] == proposal
    ensures var t := CommitProposal(r, proposal, candidate, now).0;
            && SameRecords(r, t) && t.patches == r.patches && t.tenantId == r.tenantId
            && (forall k :: k in t.revisions && k != candidate.revision ==> k in r.revisions && t.revisions[k] == r.revisions[k])
            && (forall id :: id in t.proposals ==> id in r.proposals && SameSubmission(t.proposals[id], r.proposals[id]))
            && (forall id :: id in t.candidates ==> id in r.candidates && t.candidates[id] == r.candidates[id])
  {
  }

  lemma CreatedFollows(s: State, t: State, proposal: Proposal, candidate: Candidate, command: Command)
    requires AskedBy(s, command, CanPropose) && CandidateSubmitted(t, candidate, command) && ProposalSubmitted(s, proposal, command)
    requires proposal.proposalId == command.request.proposalId && proposal.proposalId !in s.proposals
    requires proposal.approvals == [] && proposal.comments == []
    requires t.proposals == s.proposals[proposal.proposalId := proposal]
    requires t.candidates == s.candidates[proposal.proposalId := candidate]
    requires t.tenantId == s.tenantId && t.revisions == s.revisions && t.branches == s.branches
    requires t.patches == s.patches[candidate.revision := command.request.operations]
    requires FreshName(s, candidate.revision)
    ensures Follows(s, t, command)
  {
    assert SameRecords(s, t);
    NothingNew(s, s, command);
    RecordsCarry(s, s, t, command);
  }

  predicate FreshName(s: State, name: Id) {
    name !in s.revisions && forall id :: id in s.candidates ==> s.candidates[id].revision != name
  }

  lemma RecordFollows(s: State, request: Request, actor: Actor, candidate: Candidate, now: Time)
    requires request.Propose? && request.proposalId !in s.proposals && AskedBy(s, Call(request, actor, now), CanPropose)
    requires request.branchId in s.branches && candidate.actor == actor && candidate.branchId == request.branchId
    requires candidate.correlationId == request.meta.correlationId && FreshName(s, candidate.revision)
    requires candidate.parentRevision == s.branches[request.branchId].headRevision
    ensures Follows(s, RecordProposal(Allocate(s), request, actor, candidate, now).0, Call(request, actor, now))
  {
    var policy := s.branches[request.branchId].policy;
    var proposal := NewProposal(request, actor, candidate, policy, now);
    var stored := SetProposal(Allocate(s), proposal).(candidates := s.candidates[request.proposalId := candidate],
                                                      patches := s.patches[candidate.revision := request.operations]);
    var created := Emit(stored, ProposalCreated(request.proposalId, proposal.rebased, candidate.revision), actor,
                        request.branchId, request.meta.correlationId, now);
    CreatedFollows(s, created, proposal, candidate, Call(request, actor, now));
    if !policy.guarded {
      CommitFollows(s, created, proposal, candidate, now, Call(request, actor, now));
    }
  }

  lemma CreateFollows(s: State, request: Request, actor: Actor, now: Time, validates: Json -> bool)
    requires Inv(s) && WellFormed(s) && request.Propose? && AskedBy(s, Call(request, actor, now), CanPropose)
    requires request.branchId in s.branches && request.proposalId !in s.proposals
    requires s.branches[request.branchId].headRevision in s.revisions
    ensures var parent := s.branches[request.branchId].headRevision;
            Follows(s, CreateProposal(s, request, actor, parent, now, validates).0, Call(request, actor, now))
  {
    var a, parent := Allocate(s), s.branches[request.branchId].headRevision;
    var name := RevisionName(a.revisionSequence);
    var applied := ApplyCollaborationPatch(s.revisions[parent].document, request.operations, name, validates);
    NothingNew(s, a, Call(request, actor, now));
    if applied.Patched? {
      var candidate := Candidate(actor, request.branchId, applied.changedPaths, request.meta.correlationId, applied.document, parent,
                                 applied.removedPaths, name, a.revisionSequence);
      NextNameIsFree(s);
      RecordFollows(s, request, actor, candidate, now);
    }
  }

  lemma SubmitFollows(s: State, request: Request, actor: Actor, now: Time, validates: Json -> bool)
    requires Inv(s) && WellFormed(s) && request.Propose? && AskedBy(s, Call(request, actor, now), CanPropose)
    ensures Follows(s, Submit(s, request, actor, now, validates).0, Call(request, actor, now))
  {
    NothingNew(s, s, Call(request, actor, now));
    if request.branchId in s.branches && request.proposalId !in s.proposals {
      assert BranchOk(s, request.branchId);
      CreateFollows(s, request, actor, now, validates);
    }
  }

  lemma FinishFollows(s: State, r: State, proposal: Proposal, now: Time, command: Command)
    requires Follows(s, r, command) && AskedBy(s, command, CanApprove) && command.request.Approve? && command.now == now
    requires proposal.proposalId == command.request.proposalId
    requires proposal.proposalId in r.proposals && r.proposals[proposal.proposalId] == proposal
    requires r.candidates == s.candidates && r.patches == s.patches
    requires proposal.proposalId in s.candidates ==> s.candidates[proposal.proposalId].branchId == proposal.branchId
    ensures Follows(s, FinishApproved(r, proposal, now).0, command)
  {
    if proposal.proposalId in r.candidates && proposal.branchId in r.branches {
      var candidate := r.candidates[proposal.proposalId];
      if r.branches[proposal.branchId].headRevision == candidate.parentRevision {
        WaitingFollows(s, r, proposal, now, command);
        CommitFollows(s, r, proposal, candidate, now, command);
      } else {
        StaleFollows(s, r, proposal, command);
      }
    }
  }

  lemma WaitingFollows(s: State, r: State, proposal: Proposal, now: Time, command: Command)
    requires AskedBy(s, command, CanApprove) && command.request.Approve? && command.now == now
    requires proposal.proposalId == command.request.proposalId && proposal.proposalId in s.candidates
    requires s.candidates[proposal.proposalId].branchId == proposal.branchId && r.patches == s.patches
    ensures var candidate := s.candidates[proposal.proposalId];
            RevisionFollows(s, CommitProposal(r, proposal, candidate, now).0, command, candidate.revision)
  {
  }

  lemma StaleFollows(s: State, r: State, proposal: Proposal, command: Command)
    requires Follows(s, r, command) && proposal.proposalId in r.proposals && r.proposals[proposal.proposalId] == proposal
    ensures Follows(s, SetProposal(r, proposal.(status := Stale)), command)
  {
    var t := SetProposal(r, proposal.(status := Stale));
    assert SameRecords(r, t);
    RecordsCarry(s, r, t, command);
    RestCarries(s, r, t, command);
  }

  lemma RecordedFollows(s: State, request: Request, actor: Actor, now: Time)
    requires request.Approve? && request.proposalId in s.proposals && s.proposals[request.proposalId].proposalId == request.proposalId
    requires AskedBy(s, Call(request, actor, now), CanApprove)
    ensures Follows(s, RecordApproval(s, s.proposals[request.proposalId], request, actor, now), Call(request, actor, now))
  {
    var command, t := Call(request, actor, now), RecordApproval(s, s.proposals[request.proposalId], request, actor, now);
    ApprovalRecordsFollow(s, request, actor, now);
    NothingNew(s, s, command);
    RestCarries(s, s, t, command);
  }

  lemma ApprovalRecordsFollow(s: State, request: Request, actor: Actor, now: Time)
    requires request.Approve? && request.proposalId in s.proposals && s.proposals[request.proposalId].proposalId == request.proposalId
    requires AskedBy(s, Call(request, actor, now), CanApprove)
    ensures RecordsFollow(s, RecordApproval(s, s.proposals[request.proposalId], request, actor, now), Call(request, actor, now))
  {
    var command, t := Call(request, actor, now), RecordApproval(s, s.proposals[request.proposalId], request, actor, now);
    forall id ensures ApprovalsFollow(s, t, command, id) && CommentsFollow(s, t, command, id) {
    }
  }

  lemma CandidateOnBranch(s: State, id: Id)
    requires Inv(s) && id in s.proposals
    ensures id in s.candidates ==> s.candidates[id].branchId == s.proposals[id].branchId
  {
    assert id in s.candidates ==> CandidateOk(s, id);
  }

  lemma ApproveFollows(s: State, request: Request, actor: Actor, now: Time)
    requires Inv(s) && WellFormed(s) && request.Approve? && AskedBy(s, Call(request, actor, now), CanApprove)
    ensures Follows(s, ApproveProposal(s, request, actor, now).0, Call(request, actor, now))
  {
    var command := Call(request, actor, now);
    NothingNew(s, s, command);
    if request.proposalId in s.proposals && s.proposals[request.proposalId].branchId in s.branches {
      var proposal := s.proposals[request.proposalId];
      if ApprovalDiagnostic(s.branches[proposal.branchId].policy, proposal, actor.actorId, request.expectedRevision, now).None? {
        RecordedFollows(s, request, actor, now);
        var r := RecordApproval(s, proposal, request, actor, now);
        CandidateOnBranch(s, request.proposalId);
        FinishFollows(s, r, r.proposals[request.proposalId], now, command);
      }
    }
  }

  lemma CommentFollows(s: State, request: Request, actor: Actor, now: Time)
    requires WellFormed(s) && request.AddComment? && AskedBy(s, Call(request, actor, now), CanComment)
    ensures Follows(s, CommentOnProposal(s, request, actor, now).0, Call(request, actor, now))
  {
    var command, t := Call(request, actor, now), CommentOnProposal(s, request, actor, now).0;
    CommentRecordsFollow(s, request, actor, now);
    NothingNew(s, s, command);
    RestCarries(s, s, t, command);
  }

  lemma CommentRecordsFollow(s: State, request: Request, actor: Actor, now: Time)
    requires WellFormed(s) && request.AddComment? && AskedBy(s, Call(request, actor, now), CanComment)
    ensures RecordsFollow(s, CommentOnProposal(s, request, actor, now).0, Call(request, actor, now))
  {
    var t := CommentOnProposal(s, request, actor, now).0;
    forall id ensures ApprovalsFollow(s, t, Call(request, actor, now), id) && CommentsFollow(s, t, Call(request, actor, now), id) {
    }
  }

  lemma PublishFollows(s: State, request: Request, actor: Actor, now: Time)
    requires request.Publish? && AskedBy(s, Call(request, actor, now), CanPublish)
    ensures Follows(s, PublishRevision(s, request, actor, now).0, Call(request, actor, now))
  {
    var command, t := Call(request, actor, now), PublishRevision(s, request, actor, now).0;
    forall b ensures PublicationFollows(s, t, command, b) {
    }
    assert RecordsFollow(s, t, command);
    NothingNew(s, s, command);
    RestCarries(s, s, t, command);
  }

  lemma UndoFollows(s: State, request: Request, actor: Actor, now: Time, validates: Json -> bool)
    requires Inv(s) && WellFormed(s) && request.Undo? && AskedBy(s, Call(request, actor, now), CanUndo)
    ensures Follows(s, UndoRevision(s, request, actor, now, validates).0, Call(request, actor, now))
  {
    var command, t := Call(request, actor, now), UndoRevision(s, request, actor, now, validates).0;
    NextNameIsFree(s);
    UndoParts(s, request, actor, now, validates);
    UndoAdds(s, request, actor, now, validates);
    NothingNew(s, s, command);
    RecordsCarry(s, s, t, command);
    RestCarries(s, s, t, command);
  }

  lemma UndoParts(s: State, request: Request, actor: Actor, now: Time, validates: Json -> bool)
    requires WellFormed(s) && request.Undo?
    ensures var t := UndoRevision(s, request, actor, now, validates).0;
            && SameRecords(s, t) && t.patches == s.patches && t.tenantId == s.tenantId
            && t.proposals == s.proposals && t.candidates == s.candidates
  {
    var t, b := UndoRevision(s, request, actor, now, validates).0, request.branchId;
    assert t.branches == s.branches
           || (b in s.branches && t.branches == s.branches[b := s.branches[b].(headRevision := t.branches[b].headRevision)]);
    HeadMoves(s, t, b);
  }

  lemma HeadMoves(s: State, t: State, b: Id)
    requires t.proposals == s.proposals
    requires t.branches == s.branches
             || (b in s.branches && b in t.branches
                 && t.branches == s.branches[b := s.branches[b].(headRevision := t.branches[b].headRevision)])
    ensures SameRecords(s, t)
  {
  }

  lemma UndoAdds(s: State, request: Request, actor: Actor, now: Time, validates: Json -> bool)
    requires WellFormed(s) && request.Undo? && AskedBy(s, Call(request, actor, now), CanUndo)
    requires RevisionName(s.revisionSequence + 1) !in s.revisions
    ensures var t := UndoRevision(s, request, actor, now, validates).0;
            forall k :: k in t.revisions ==>
              (k in s.revisions && t.revisions[k] == s.revisions[k]) || RevisionFollows(s, t, Call(request, actor, now), k)
  {
    var t, name := UndoRevision(s, request, actor, now, validates).0, RevisionName(s.revisionSequence + 1);
    if t.revisions != s.revisions {
      assert t.revisions == s.revisions[name := t.revisions[name]];
      assert RevisionFollows(s, t, Call(request, actor, now), name);
    }
  }

  lemma OnceFollows(s: State, request: Request, actor: Actor, now: Time, validates: Json -> bool)
    requires Inv(s) && WellFormed(s) && Idempotent(request) && Authorized(s, request, actor)
    ensures Follows(s, ExecuteIdempotent(s, request, actor, now, validates).0, Call(request, actor, now))
  {
    NothingNew(s, s, Call(request, actor, now));
    if KeyOf(request, actor) !in s.idempotency {
      var t := RunOnce(s, request, actor, now, validates).0;
      if request.Propose? {
        SubmitFollows(s, request, actor, now, validates);
      } else {
        UndoFollows(s, request, actor, now, validates);
      }
      RecordsCarry(s, t, ExecuteIdempotent(s, request, actor, now, validates).0, Call(request, actor, now));
      RestCarries(s, t, ExecuteIdempotent(s, request, actor, now, validates).0, Call(request, actor, now));
    }
  }

  lemma OpenFollows(s: State, t: State, command: Command)
    requires t.tenantId == s.tenantId && t.proposals == s.proposals && t.revisions == s.revisions
    requires t.candidates == s.candidates && t.patches == s.patches && forall b :: PublishedOf(t, b) == PublishedOf(s, b)
    ensures Follows(s, t, command)
  {
  }

  /** One command adds nothing that its actor was not entitled to ask for. */
  lemma StepFollows(s: State, command: Command, validates: Json -> bool)
    requires Inv(s)
    ensures Follows(s, Step(s, command, validates), command)
  {
    InvWellFormed(s);
    match command
    case OpenBranch(branchId, fromRevision, policy) => OpenFollows(s, Step(s, command, validates), command);
    case Call(request, actor, now) =>
      if !Authorized(s, request, actor) {
        NothingNew(s, s, command);
      } else {
        CallFollows(s, request, actor, now, validates);
      }
  }

  lemma CallFollows(s: State, request: Request, actor: Actor, now: Time, validates: Json -> bool)
    requires Inv(s) && WellFormed(s) && Authorized(s, request, actor)
    ensures Follows(s, Execute(s, request, actor, now, validates).0, Call(request, actor, now))
  {
    match request
    case Propose(_, _, _, _, _, _) => OnceFollows(s, request, actor, now, validates);
    case Approve(_, _, _) => ApproveFollows(s, request, actor, now);
    case AddComment(_, _, _) => CommentFollows(s, request, actor, now);
    case Publish(_, _, _) => PublishFollows(s, request, actor, now);
    case Undo(_, _, _, _) => OnceFollows(s, request, actor, now, validates);
  }

  // ---------------------------------------------------------------------------------------------
  // Runs.

  /** The states of a run, from the first to the last. */
  ghost function TraceOf(s: State, commands: seq<Command>, validates: Json -> bool): (trace: seq<State>)
    requires Inv(s)
    ensures |trace| == |commands| + 1
    decreases |commands|
  {
    if commands == [] then [s] else [s] + TraceOf(Step(s, commands[0], validates), commands[1..], validates)
  }

  ghost predicate Traced(trace: seq<State>, commands: seq<Command>) {
    && |trace| == |commands| + 1
    && (forall n :: 0 <= n <= |commands| ==> trace[n].tenantId == trace[0].tenantId)
    && (forall n :: 0 <= n < |commands| ==> Follows(trace[n], trace[n + 1], commands[n]))
  }

  lemma TraceGrows(s: State, first: Command, trace: seq<State>, commands: seq<Command>)
    requires Traced(trace, commands) && Follows(s, trace[0], first)
    ensures Traced([s] + trace, [first] + commands)
  {
    var longer, all := [s] + trace, [first] + commands;
    forall n | 0 <= n < |all| ensures Follows(longer[n], longer[n + 1], all[n]) {
      if n > 0 {
        assert Follows(trace[n - 1], trace[n - 1 + 1], commands[n - 1]);
      }
    }
  }

  lemma {:induction false} RunIsTraced(s: State, commands: seq<Command>, validates: Json -> bool)
    requires Inv(s)
    ensures Traced(TraceOf(s, commands, validates), commands)
    ensures TraceOf(s, commands, validates)[0] == s && TraceOf(s, commands, validates)[|commands|] == Run(s, commands, validates)
    decreases |commands|
  {
    if commands != [] {
      var t := Step(s, commands[0], validates);
      StepFollows(s, commands[0], validates);
      RunIsTraced(t, commands[1..], validates);
      TraceGrows(s, commands[0], TraceOf(t, commands[1..], validates), commands[1..]);
      assert [commands[0]] + commands[1..] == commands;
      assert TraceOf(s, commands, validates) == [s] + TraceOf(t, commands[1..], validates);
    }
  }

  lemma {:induction false} ApprovalSource(trace: seq<State>, commands: seq<Command>, end: nat, id: Id, a: Approval) returns (n: nat)
    requires Traced(trace, commands) && end <= |commands|
    requires a in ApprovalsOf(trace[end], id) && a !in ApprovalsOf(trace[0], id)
    ensures n < end && AskedBy(trace[0], commands[n], CanApprove) && commands[n].request.Approve? && commands[n].request.proposalId == id
    ensures a == Approval(commands[n].actor.actorId, commands[n].now, commands[n].request.expectedRevision)
  {
    n := end - 1;
    assert ApprovalsFollow(trace[n], trace[n + 1], commands[n], id);
    if a in ApprovalsOf(trace[n], id) {
      n := ApprovalSource(trace, commands, n, id, a);
    }
  }

  lemma {:induction false} CommentSource(trace: seq<State>, commands: seq<Command>, end: nat, id: Id, c: Comment) returns (n: nat)
    requires Traced(trace, commands) && end <= |commands|
    requires c in CommentsOf(trace[end], id) && c !in CommentsOf(trace[0], id)
    ensures n < end && AskedBy(trace[0], commands[n], CanComment) && commands[n].request.AddComment?
    ensures commands[n].request.proposalId == id
    ensures c == Comment(commands[n].actor.actorId, commands[n].request.body, commands[n].now)
  {
    n := end - 1;
    assert CommentsFollow(trace[n], trace[n + 1], commands[n], id);
    if c in CommentsOf(trace[n], id) {
      n := CommentSource(trace, commands, n, id, c);
    }
  }

  lemma {:induction false} PublicationSource(trace: seq<State>, commands: seq<Command>, end: nat, b: Id) returns (n: nat)
    requires Traced(trace, commands) && end <= |commands| && PublishedOf(trace[end], b) != PublishedOf(trace[0], b)
    ensures n < end && AskedBy(trace[0], commands[n], CanPublish) && commands[n].request.Publish? && commands[n].request.branchId == b
    ensures PublishedOf(trace[end], b) == Some(commands[n].request.revision)
  {
    n := end - 1;
    assert PublicationFollows(trace[n], trace[n + 1], commands[n], b);
    if PublishedOf(trace[n], b) == PublishedOf(trace[end], b) {
      n := PublicationSource(trace, commands, n, b);
    }
  }

  lemma {:induction false} ProposalSource(trace: seq<State>, commands: seq<Command>, end: nat, id: Id) returns (n: nat)
    requires Traced(trace, commands) && end <= |commands| && id in trace[end].proposals && id !in trace[0].proposals
    ensures n < end && AskedBy(trace[0], commands[n], CanPropose) && ProposalSubmitted(trace[n], trace[end].proposals[id], commands[n])
    ensures commands[n].request.proposalId == id
  {
    n := end - 1;
    assert ProposalFollows(trace[n], trace[n + 1], commands[n], id);
    if id in trace[n].proposals {
      n := ProposalSource(trace, commands, n, id);
    }
  }

  lemma {:induction false} CandidateSource(trace: seq<State>, commands: seq<Command>, end: nat, id: Id) returns (n: nat)
    requires Traced(trace, commands) && end <= |commands| && id in trace[end].candidates && id !in trace[0].candidates
    ensures n < end && AskedBy(trace[0], commands[n], CanPropose)
    ensures CandidateSubmitted(trace[end], trace[end].candidates[id], commands[n]) && commands[n].request.proposalId == id
  {
    n := end - 1;
    assert CandidateFollows(trace[n], trace[n + 1], commands[n], id);
    if !(AskedBy(trace[n], commands[n], CanPropose) && CandidateSubmitted(trace[end], trace[end].candidates[id], commands[n])
         && commands[n].request.proposalId == id) {
      n := CandidateSource(trace, commands, n, id);
    }
  }

  /** The revision is an undo that the first command asked for, or the patch of a proposal that it submitted; the second command
      committed it: the same one, or an approval. */
  ghost predicate RevisionAskedBy(s: State, t: State, k: Id, asking: Command, committing: Command)
    requires k in t.revisions
  {
    var r := t.revisions[k];
    && asking.Call? && committing.Call?
    && if asking.request.Undo? then
         && AskedBy(s, asking, CanUndo) && committing == asking && r.compensatesRevision == Some(asking.request.targetRevision)
         && Names(r, asking.actor, asking.request.branchId, asking.request.meta.correlationId, committing.now)
       else
         && AskedBy(s, asking, CanPropose) && asking.request.Propose? && r.proposalId == Some(asking.request.proposalId)
         && Names(r, asking.actor, asking.request.branchId, asking.request.meta.correlationId, committing.now)
         && k in t.patches && t.patches[k] == asking.request.operations
         && (committing == asking ||
             (AskedBy(s, committing, CanApprove) && committing.request.Approve? && committing.request.proposalId == r.proposalId.value))
  }

  lemma {:induction false} RevisionSource(trace: seq<State>, commands: seq<Command>, end: nat, k: Id) returns (m: nat, n: nat)
    requires Traced(trace, commands) && end <= |commands| && k in trace[end].revisions && trace[end].revisions[k].revision == k
    requires k !in trace[0].revisions && trace[end].revisions[k].proposalId.GetOr("") !in trace[0].candidates
    ensures m <= n < end && RevisionAskedBy(trace[0], trace[end], k, commands[m], commands[n])
  {
    m, n := end - 1, end - 1;
    assert RevisionFollows(trace[n], trace[end], commands[n], k);
    if k in trace[n].revisions && trace[n].revisions[k] == trace[end].revisions[k] && PatchStays(trace[n], trace[end], k) {
      m, n := RevisionSource(trace, commands, n, k);
    } else if commands[n].request.Approve? {
      m := CandidateSource(trace, commands, n, commands[n].request.proposalId);
    }
  }

  /** Every approval of a run was recorded by a request of an actor of the tenant who may approve, in that actor's name, at
      that time and for that revision. */
  lemma ApprovalsWereAskedFor(s: State, commands: seq<Command>, validates: Json -> bool, id: Id, a: Approval) returns (n: nat)
    requires Inv(s) && a in ApprovalsOf(Run(s, commands, validates), id) && a !in ApprovalsOf(s, id)
    ensures n < |commands| && AskedBy(s, commands[n], CanApprove) && commands[n].request.Approve? && commands[n].request.proposalId == id
    ensures a == Approval(commands[n].actor.actorId, commands[n].now, commands[n].request.expectedRevision)
  {
    RunIsTraced(s, commands, validates);
    n := ApprovalSource(TraceOf(s, commands, validates), commands, |commands|, id, a);
  }

  lemma CommentsWereAskedFor(s: State, commands: seq<Command>, validates: Json -> bool, id: Id, c: Comment) returns (n: nat)
    requires Inv(s) && c in CommentsOf(Run(s, commands, validates), id) && c !in CommentsOf(s, id)
    ensures n < |commands| && AskedBy(s, commands[n], CanComment) && commands[n].request.AddComment? && commands[n].request.proposalId == id
    ensures c == Comment(commands[n].actor.actorId, commands[n].request.body, commands[n].now)
  {
    RunIsTraced(s, commands, validates);
    n := CommentSource(TraceOf(s, commands, validates), commands, |commands|, id, c);
  }

  /** What a branch shows as published was published by a request of an actor who may publish. */
  lemma PublicationsWereAskedFor(s: State, commands: seq<Command>, validates: Json -> bool, b: Id) returns (n: nat)
    requires Inv(s) && PublishedOf(Run(s, commands, validates), b) != PublishedOf(s, b)
    ensures n < |commands| && AskedBy(s, commands[n], CanPublish) && commands[n].request.Publish? && commands[n].request.branchId == b
    ensures PublishedOf(Run(s, commands, validates), b) == Some(commands[n].request.revision)
  {
    RunIsTraced(s, commands, validates);
    n := PublicationSource(TraceOf(s, commands, validates), commands, |commands|, b);
  }

  /** Every proposal of a run was submitted by somebody who may propose, and is marked as rebased exactly when the base named
      in the submission was not the head of the branch at that moment. */
  lemma ProposalsWereSubmitted(s: State, commands: seq<Command>, validates: Json -> bool, id: Id) returns (n: nat)
    requires Inv(s) && id in Run(s, commands, validates).proposals && id !in s.proposals
    ensures n < |commands| && AskedBy(s, commands[n], CanPropose)
    ensures ProposalSubmitted(TraceOf(s, commands, validates)[n], Run(s, commands, validates).proposals[id], commands[n])
    ensures commands[n].request.proposalId == id
  {
    RunIsTraced(s, commands, validates);
    n := ProposalSource(TraceOf(s, commands, validates), commands, |commands|, id);
  }

  /** Every revision of a run is an undo asked for by somebody who may undo, or holds the patch of a proposal submitted by
      somebody who may propose. It names that actor, branch and correlation, and the time at which it was committed: by the
      submission itself, or by an approval of somebody who may approve. */
  lemma RevisionsWereAskedFor(s: State, commands: seq<Command>, validates: Json -> bool, k: Id) returns (m: nat, n: nat)
    requires Inv(s) && k in Run(s, commands, validates).revisions && k !in s.revisions
    requires Run(s, commands, validates).revisions[k].proposalId.GetOr("") !in s.candidates
    ensures m <= n < |commands| && RevisionAskedBy(s, Run(s, commands, validates), k, commands[m], commands[n])
  {
    RunIsTraced(s, commands, validates);
    assert RevisionOk(Run(s, commands, validates), k);
    m, n := RevisionSource(TraceOf(s, commands, validates), commands, |commands|, k);
  }
}
