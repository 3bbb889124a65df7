/** The collaboration service as the stateful object it is: maps and counters updated in place, an event log, and
    methods that do to them what the specification in `Collaboration` says. */
module CollaborationService {
  import opened Wrappers
  import opened JsonPatch
  import opened CollaborationPatch
  import opened Conflict
  import opened Collaboration
  import opened CollaborationInvariant
  import opened CollaborationSteps
  import opened CollaborationRuns
  import opened EventLog

  function Reverse(values: seq<Revision>): seq<Revision> {
    if values == [] then [] else Reverse(values[1..]) + [values[0]]
  }

  lemma {:induction false} ReverseAppend(values: seq<Revision>, last: Revision)
    ensures Reverse(values + [last]) == [last] + Reverse(values)
  {
    if values == [] {
      assert (values + [last])[1..] == [];
    } else {
      ReverseAppend(values[1..], last);
      assert (values + [last])[1..] == values[1..] + [last];
    }
  }

  class ReferenceCollaborationService {
    const tenantId: Id
    const events: CollaborationEventLog
    const validates: Json -> bool
    var branches: map<Id, Branch>
    var candidates: map<Id, Candidate>
    var proposals: map<Id, Proposal>
    var revisions: map<Id, Revision>
    var idempotency: map<string, Entry>
    var revisionSequence: nat
    ghost var patches: map<Id, seq<Operation>>

    ghost function Model(): State
      reads this, events
    {
      State(tenantId, branches, candidates, proposals, revisions, idempotency, revisionSequence, events.history, patches)
    }

    ghost predicate Valid()
      reads this, events
    {
      events.Valid() && WellFormed(Model())
    }

    /** Opening the service fails when the host rejects the first document, the branch policy or the log capacity. */
    static method Open(tenantId: Id, document: Json, policy: Option<Policy>, eventCapacity: int, now: Time,
                       validates: Json -> bool) returns (service: Option<ReferenceCollaborationService>)
      requires document.Obj?
      ensures service.Some? <==>
              ValidCapacity(eventCapacity) && Initial(tenantId, document, policy, now, validates).Some?
      ensures service.Some? ==>
                && fresh(service.value) && fresh(service.value.events) && service.value.Valid()
                && service.value.validates == validates
                && service.value.Model() == Initial(tenantId, document, policy, now, validates).value
    {
      var initial := Initial(tenantId, document, policy, now, validates);
      if !ValidCapacity(eventCapacity) || initial.None? {
        return None;
      }
      InitialInv(tenantId, document, policy, now, validates);
      InvWellFormed(initial.value);
      var log := new CollaborationEventLog(eventCapacity);
      var created := new ReferenceCollaborationService(initial.value, log, validates);
      service := Some(created);
    }

    constructor (initial: State, events: CollaborationEventLog, validates: Json -> bool)
      requires events.Valid() && events.history == initial.emitted && WellFormed(initial)
      ensures Valid() && Model() == initial && this.events == events && this.validates == validates
    {
      this.tenantId, this.events, this.validates := initial.tenantId, events, validates;
      branches, candidates, proposals := initial.branches, initial.candidates, initial.proposals;
      revisions, idempotency, revisionSequence := initial.revisions, initial.idempotency, initial.revisionSequence;
      patches := initial.patches;
    }

    method NextRevisionIdentity() returns (revision: Id, sequence: nat)
      modifies this`revisionSequence
      ensures Model() == Allocate(old(Model()))
      ensures sequence == old(revisionSequence) + 1 && revision == RevisionName(sequence)
    {
      revisionSequence := revisionSequence + 1;
      sequence := revisionSequence;
      revision := RevisionName(sequence);
    }

    /** The traversal that collects the revisions between a head and a base. */
    method InterveningRevisions(head: Id, base: Id) returns (chain: Option<seq<Revision>>)
      requires Valid()
      ensures chain == Intervening(revisions, Some(head), base)
    {
      var values: seq<Revision> := [];
      var cursor := Some(head);
      assert forall older: seq<Revision> :: older + Reverse(values) == older;
      while cursor.Some? && cursor.value != base
        invariant Intervening(revisions, Some(head), base) ==
                  match Intervening(revisions, cursor, base) {
                    case None => None
                    case Some(older) => Some(older + Reverse(values))
                  }
        decreases Height(revisions, cursor), if cursor.Some? then 1 else 0
      {
        if cursor.value !in revisions {
          return None;
        }
        var revision := revisions[cursor.value];
        ReverseAppend(values, revision);
        ghost var rest := Intervening(revisions, revision.parentRevision, base);
        if rest.Some? {
          assert rest.value + [revision] + Reverse(values) == rest.value + ([revision] + Reverse(values));
        }
        values := values + [revision];
        cursor := revision.parentRevision;
      }
      if cursor == Some(base) {
        assert [] + Reverse(values) == Reverse(values);
        return Some(Reverse(values));
      }
      return None;
    }

    method Commit(candidate: Candidate, proposalId: Option<Id>, compensates: Option<Id>, now: Time)
      returns (revision: Revision)
      modifies this`revisions
      ensures revision == ToRevision(candidate, proposalId, compensates, now)
      ensures Model() == AddRevision(old(Model()), revision)
    {
      revision := ToRevision(candidate, proposalId, compensates, now);
      revisions := revisions[revision.revision := revision];
    }

    method CommitProposal(proposal: Proposal, candidate: Candidate, now: Time) returns (response: Response)
      requires events.Valid()
      modifies this`revisions, this`branches, this`proposals, this`candidates, events
      ensures events.Valid()
      ensures (Model(), response) == Collaboration.CommitProposal(old(Model()), proposal, candidate, now)
    {
      var revision := Commit(candidate, Some(proposal.proposalId), None, now);
      if proposal.branchId in branches {
        branches := branches[proposal.branchId := branches[proposal.branchId].(headRevision := revision.revision)];
      }
      proposals := proposals[proposal.proposalId := proposal.(status := Committed)];
      candidates := candidates - {proposal.proposalId};
      events.Append(ProposalCommitted(proposal.proposalId, revision.revision), candidate.actor, proposal.branchId,
                    candidate.correlationId, now);
      response := Success(OfRevision(revision));
    }

    method RecordProposal(request: Request, actor: Actor, candidate: Candidate, now: Time) returns (response: Response)
      requires events.Valid() && request.Propose?
      modifies this, events
      ensures events.Valid()
      ensures (Model(), response) == Collaboration.RecordProposal(old(Model()), request, actor, candidate, now)
    {
      if request.branchId !in branches {
        return Missing(BranchNotFound);
      }
      var policy := branches[request.branchId].policy;
      var proposal := NewProposal(request, actor, candidate, policy, now);
      proposals := proposals[request.proposalId := proposal];
      candidates := candidates[request.proposalId := candidate];
      patches := patches[candidate.revision := request.operations];
      events.Append(ProposalCreated(request.proposalId, proposal.rebased, candidate.revision), actor, request.branchId,
                    request.meta.correlationId, now);
      if policy.guarded {
        return InReview(OfProposal(proposal));
      }
      response := CommitProposal(proposal, candidate, now);
    }

    method CreateProposal(request: Request, actor: Actor, parent: Id, now: Time) returns (response: Response)
      requires Valid() && request.Propose?
      modifies this, events
      ensures events.Valid()
      ensures (Model(), response) == Collaboration.CreateProposal(old(Model()), request, actor, parent, now, validates)
    {
      var name, sequence := NextRevisionIdentity();
      if parent !in revisions {
        return Missing(RevisionNotFound);
      }
      var applied := ApplyCollaborationPatch(revisions[parent].document, request.operations, name, validates);
      if applied.Rejected? {
        return Failure(Invalid, PatchError(applied.failure));
      }
      var candidate := Candidate(actor, request.branchId, applied.changedPaths, request.meta.correlationId,
                                 applied.document, parent, applied.removedPaths, name, sequence);
      response := RecordProposal(request, actor, candidate, now);
    }

    method SubmitProposal(request: Request, actor: Actor, now: Time) returns (response: Response)
      requires Valid() && request.Propose?
      modifies this, events
      ensures events.Valid()
      ensures (Model(), response) == Submit(old(Model()), request, actor, now, validates)
    {
      if request.branchId !in branches {
        return Missing(BranchNotFound);
      }
      if request.proposalId in proposals {
        return Failure(Invalid, InvalidRequest);
      }
      var head := branches[request.branchId].headRevision;
      var chain := InterveningRevisions(head, request.baseRevision);
      if chain.None? {
        return Response(Conflicted, [Conflict(request.baseRevision, "/", head, "/")], [BaseNotAncestor], NoValue);
      }
      var conflicts := UniqueConflicts(AllConflicts(request.baseRevision, head, request.operations,
                                                    ChangedPathLists(chain.value)));
      if conflicts != [] {
        return Response(Conflicted, conflicts, [], NoValue);
      }
      response := CreateProposal(request, actor, head, now);
    }

    method ApproveProposal(request: Request, actor: Actor, now: Time) returns (response: Response)
      requires Valid() && request.Approve?
      modifies this`revisions, this`branches, this`proposals, this`candidates, events
      ensures events.Valid()
      ensures (Model(), response) == Collaboration.ApproveProposal(old(Model()), request, actor, now)
    {
      if request.proposalId !in proposals {
        return Missing(ProposalNotFound);
      }
      var proposal := proposals[request.proposalId];
      if proposal.branchId !in branches {
        return Missing(BranchNotFound);
      }
      var policy := branches[proposal.branchId].policy;
      var issue := ApprovalDiagnostic(policy, proposal, actor.actorId, request.expectedRevision, now);
      if issue.Some? {
        return Failure(if issue.value == ApprovalStale then Conflicted else Denied, issue.value);
      }
      RecordApproval(proposal, request, actor, now);
      proposal := proposals[request.proposalId];
      if !HasRequiredApprovals(policy, proposal) {
        return InReview(OfProposal(proposal));
      }
      response := FinishApproved(proposal, now);
    }

    /** An actor's second approval of the same proposal is ignored. */
    method RecordApproval(proposal: Proposal, request: Request, actor: Actor, now: Time)
      requires events.Valid() && request.Approve?
      modifies this`proposals, events
      ensures events.Valid()
      ensures Model() == Collaboration.RecordApproval(old(Model()), proposal, request, actor, now)
    {
      var known := exists k :: 0 <= k < |proposal.approvals| && proposal.approvals[k].actorId == actor.actorId;
      assert known <==> actor.actorId in Approvers(proposal);
      if known {
        return;
      }
      var approval := Approval(actor.actorId, now, request.expectedRevision);
      proposals := proposals[proposal.proposalId := proposal.(approvals := proposal.approvals + [approval])];
      events.Append(ApprovalRecorded(proposal.proposalId, request.expectedRevision), actor, proposal.branchId,
                    request.meta.correlationId, now);
    }

    method FinishApproved(proposal: Proposal, now: Time) returns (response: Response)
      requires events.Valid()
      modifies this`revisions, this`branches, this`proposals, this`candidates, events
      ensures events.Valid()
      ensures (Model(), response) == Collaboration.FinishApproved(old(Model()), proposal, now)
    {
      if proposal.proposalId !in candidates {
        return Missing(RevisionNotFound);
      }
      var candidate := candidates[proposal.proposalId];
      if proposal.branchId !in branches {
        return Missing(BranchNotFound);
      }
      if branches[proposal.branchId].headRevision != candidate.parentRevision {
        proposals := proposals[proposal.proposalId := proposal.(status := Stale)];
        return Failure(Conflicted, ApprovalStale);
      }
      response := CommitProposal(proposal, candidate, now);
    }

    method CommentOnProposal(request: Request, actor: Actor, now: Time) returns (response: Response)
      requires Valid() && request.AddComment?
      modifies this`proposals, events
      ensures events.Valid()
      ensures (Model(), response) == Collaboration.CommentOnProposal(old(Model()), request, actor, now)
    {
      if request.proposalId !in proposals {
        return Missing(ProposalNotFound);
      }
      var proposal := proposals[request.proposalId];
      var commented := proposal.(comments := proposal.comments + [Comment(actor.actorId, request.body, now)]);
      proposals := proposals[request.proposalId := commented];
      events.Append(CommentAdded(proposal.proposalId, |commented.comments|), actor, proposal.branchId,
                    request.meta.correlationId, now);
      response := Success(OfProposal(commented));
    }

    method PublishRevision(request: Request, actor: Actor, now: Time) returns (response: Response)
      requires Valid() && request.Publish?
      modifies this`branches, events
      ensures events.Valid()
      ensures (Model(), response) == Collaboration.PublishRevision(old(Model()), request, actor, now)
    {
      if request.branchId !in branches {
        return Missing(BranchNotFound);
      }
      var branch := branches[request.branchId];
      var proposal: Option<Proposal> := None;
      if request.revision in revisions {
        var proposalId := revisions[request.revision].proposalId;
        if proposalId.Some? && proposalId.value in proposals {
          proposal := Some(proposals[proposalId.value]);
        }
      }
      if !RevisionMayPublish(branch, proposal, request.revision) {
        return Failure(Denied, PublishNotApproved);
      }
      branches := branches[request.branchId := branch.(publishedRevision := Some(request.revision))];
      events.Append(RevisionPublished(request.revision), actor, request.branchId, request.meta.correlationId, now);
      response := Success(Publication(request.branchId, request.revision));
    }

    method UndoRevision(request: Request, actor: Actor, now: Time) returns (response: Response)
      requires Valid() && request.Undo?
      modifies this`revisionSequence, this`revisions, this`branches, events
      ensures events.Valid()
      ensures (Model(), response) == Collaboration.UndoRevision(old(Model()), request, actor, now, validates)
    {
      if request.branchId !in branches {
        return Missing(BranchNotFound);
      }
      if branches[request.branchId].headRevision != request.targetRevision {
        return Failure(Conflicted, ApprovalStale);
      }
      if request.targetRevision !in revisions {
        return Missing(RevisionNotFound);
      }
      var parent := revisions[request.targetRevision].parentRevision;
      if parent.None? || parent.value !in revisions {
        return Missing(RevisionNotFound);
      }
      response := CommitCompensation(request, actor, revisions[parent.value].document, now);
    }

    method CommitCompensation(request: Request, actor: Actor, document: Json, now: Time) returns (response: Response)
      requires events.Valid() && request.Undo? && document.Obj?
      modifies this`revisionSequence, this`revisions, this`branches, events
      ensures events.Valid()
      ensures (Model(), response) == Collaboration.CommitCompensation(old(Model()), request, actor, document, now, validates)
    {
      var name, sequence := NextRevisionIdentity();
      var restored := Stamp(document, name);
      if !validates(restored) {
        return Failure(Invalid, SchemaRejected);
      }
      var candidate := Candidate(actor, request.branchId, ["/"], request.meta.correlationId, restored,
                                 request.targetRevision, [], name, sequence);
      var revision := Commit(candidate, None, Some(request.targetRevision), now);
      if request.branchId in branches {
        branches := branches[request.branchId := branches[request.branchId].(headRevision := name)];
      }
      events.Append(CompensationCommitted(request.targetRevision, name), actor, request.branchId,
                    request.meta.correlationId, now);
      response := Success(OfRevision(revision));
    }

    /** Answers a known key from its stored entry and runs an unknown one. */
    method RunIdempotent(request: Request, actor: Actor, now: Time) returns (response: Response)
      requires Valid() && Idempotent(request)
      modifies this, events
      ensures events.Valid()
      ensures (Model(), response) == ExecuteIdempotent(old(Model()), request, actor, now, validates)
    {
      var key := KeyOf(request, actor);
      if key in idempotency {
        var entry := idempotency[key];
        if entry.fingerprint == request {
          return entry.response.(status := Replayed);
        }
        return Failure(Invalid, IdempotencyConflict);
      }
      if request.Propose? {
        response := SubmitProposal(request, actor, now);
      } else {
        response := UndoRevision(request, actor, now);
      }
      idempotency := idempotency[key := Entry(request, response)];
    }

    method Dispatch(request: Request, actor: Actor, now: Time) returns (response: Response)
      requires Valid()
      modifies this, events
      ensures events.Valid()
      ensures (Model(), response) == Collaboration.Execute(old(Model()), request, actor, now, validates)
    {
      if actor.tenantId != tenantId || RequiredCapability(request) !in actor.capabilities {
        return Failure(Denied, CapabilityDenied);
      }
      match request
      case Propose(_, _, _, _, _, _) => response := RunIdempotent(request, actor, now);
      case Approve(_, _, _) => response := ApproveProposal(request, actor, now);
      case AddComment(_, _, _) => response := CommentOnProposal(request, actor, now);
      case Publish(_, _, _) => response := PublishRevision(request, actor, now);
      case Undo(_, _, _, _) => response := RunIdempotent(request, actor, now);
    }

    /** One request is one step of the specification, and the invariant of all runs survives it. */
    method Execute(request: Request, actor: Actor, now: Time) returns (response: Response)
      requires Valid() && Inv(Model())
      modifies this, events
      ensures Valid() && Inv(Model()) && Extends(old(Model()), Model())
      ensures (Model(), response) == Collaboration.Execute(old(Model()), request, actor, now, validates)
    {
      ghost var before := Model();
      ExecuteKeeps(before, request, actor, now, validates);
      response := Dispatch(request, actor, now);
      InvWellFormed(Model());
    }

    /** Refused when the branch exists, its start does not, or the policy is out of bounds. */
    method CreateBranch(branchId: Id, fromRevision: Id, policy: Option<Policy>) returns (created: bool)
      requires Valid() && Inv(Model())
      modifies this`branches
      ensures Valid() && Inv(Model())
      ensures created <==> Collaboration.CreateBranch(old(Model()), branchId, fromRevision, policy).Some?
      ensures Model() == Collaboration.CreateBranch(old(Model()), branchId, fromRevision, policy).GetOr(old(Model()))
    {
      ghost var before := Model();
      CreateBranchKeeps(before, branchId, fromRevision, policy);
      var chosen := policy.GetOr(DEFAULT_POLICY);
      if branchId in branches || fromRevision !in revisions || !ValidPolicy(chosen) {
        return false;
      }
      branches := branches[branchId := Branch(branchId, fromRevision, chosen, None)];
      InvWellFormed(Model());
      created := true;
    }
  }
}
