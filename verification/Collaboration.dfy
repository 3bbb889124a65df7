/** The collaboration service as a function from state and command to state and response.
    One command is one atomic step; the host's clock is read once per step. */
module Collaboration {
  import opened Wrappers
  import opened Decimal
  import opened JsonPatch
  import opened CollaborationPatch
  import opened Conflict

  type Id = string
  type Time = int

  datatype Capability = CanApprove | CanComment | CanPropose | CanPublish | CanUndo
  datatype Actor = Actor(actorId: Id, capabilities: set<Capability>, tenantId: Id)

  datatype Policy = Policy(approvalTtlMs: int, guarded: bool, requiredApprovals: int, reviewerIds: seq<Id>,
                           separateAuthorAndReviewer: bool)

  datatype Branch = Branch(branchId: Id, headRevision: Id, policy: Policy, publishedRevision: Option<Id>)

  datatype Revision = Revision(
    actorId: Id, branchId: Id, changedPaths: seq<string>, committedAt: Time, compensatesRevision: Option<Id>,
    correlationId: Id, document: Json, parentRevision: Option<Id>, proposalId: Option<Id>,
    removedPaths: seq<string>, revision: Id, sequence: nat, tenantId: Id)

  datatype Candidate = Candidate(
    actor: Actor, branchId: Id, changedPaths: seq<string>, correlationId: Id, document: Json, parentRevision: Id,
    removedPaths: seq<string>, revision: Id, sequence: nat)

  datatype Approval = Approval(actorId: Id, approvedAt: Time, revision: Id)
  datatype Comment = Comment(actorId: Id, body: string, createdAt: Time)
  datatype ProposalStatus = Pending | Committed | Stale

  datatype Proposal = Proposal(
    approvals: seq<Approval>, authorId: Id, baseRevision: Id, branchId: Id, candidateRevision: Id,
    comments: seq<Comment>, createdAt: Time, expiresAt: Option<Time>, proposalId: Id, rebased: bool,
    status: ProposalStatus)

  datatype Metadata = Metadata(correlationId: Id, requestId: Id)

  datatype Request =
    | Propose(meta: Metadata, baseRevision: Id, branchId: Id, idempotencyKey: Id, operations: seq<Operation>, proposalId: Id)
    | Approve(meta: Metadata, expectedRevision: Id, proposalId: Id)
    | AddComment(meta: Metadata, body: string, proposalId: Id)
    | Publish(meta: Metadata, branchId: Id, revision: Id)
    | Undo(meta: Metadata, branchId: Id, idempotencyKey: Id, targetRevision: Id)

  datatype Status = Accepted | Conflicted | Denied | Invalid | NotFound | Replayed | ReviewRequired

  datatype ErrorCode =
    | ApprovalExpired | ApprovalStale | BaseNotAncestor | BranchNotFound | CapabilityDenied | IdempotencyConflict
    | InvalidPatch | InvalidRequest | ProposalNotFound | PublishNotApproved | ReviewerDenied | RevisionNotFound
    | SchemaRejected | SeparationOfDuties

  datatype Value = NoValue | OfProposal(proposal: Proposal) | OfRevision(revision: Revision)
                 | Publication(branchId: Id, publishedRevision: Id)

  datatype Response = Response(status: Status, conflicts: seq<Conflict>, diagnostics: seq<ErrorCode>, value: Value)

  datatype Notice =
    | ProposalCreated(proposalId: Id, rebased: bool, revision: Id)
    | ApprovalRecorded(proposalId: Id, revision: Id)
    | CommentAdded(proposalId: Id, number: nat)
    | ProposalCommitted(proposalId: Id, revision: Id)
    | CompensationCommitted(compensatesRevision: Id, revision: Id)
    | RevisionPublished(revision: Id)

  datatype Event = Event(actorId: Id, branchId: Id, correlationId: Id, notice: Notice, occurredAt: Time,
                         sequence: nat, tenantId: Id)

  datatype Entry = Entry(fingerprint: Request, response: Response)

  /** `emitted` is every event ever appended; `patches` remembers, for the theorems, the operations behind each
      proposed revision. Everything else is the service's own state. */
  datatype State = State(
    tenantId: Id,
    branches: map<Id, Branch>,
    candidates: map<Id, Candidate>,
    proposals: map<Id, Proposal>,
    revisions: map<Id, Revision>,
    idempotency: map<string, Entry>,
    revisionSequence: nat,
    emitted: seq<Event>,
    patches: map<Id, seq<Operation>>)

  // ---------------------------------------------------------------------------------------------
  // Responses.

  function Success(value: Value): Response { Response(Accepted, [], [], value) }
  function InReview(value: Value): Response { Response(ReviewRequired, [], [], value) }
  function Failure(status: Status, code: ErrorCode): Response { Response(status, [], [code], NoValue) }
  function Missing(code: ErrorCode): Response { Failure(NotFound, code) }

  // ---------------------------------------------------------------------------------------------
  // Policies and approvals.

  predicate ValidPolicy(policy: Policy) {
    && 60_000 <= policy.approvalTtlMs <= 2_592_000_000
    && 0 <= policy.requiredApprovals <= 16
    && (policy.guarded ==> policy.requiredApprovals > 0)
    && |policy.reviewerIds| <= 64
    && forall i, j :: 0 <= i < j < |policy.reviewerIds| ==> policy.reviewerIds[i] != policy.reviewerIds[j]
  }

  const DEFAULT_POLICY := Policy(86_400_000, false, 0, [], true)

  predicate IsReviewer(policy: Policy, actorId: Id) {
    policy.reviewerIds == [] || actorId in policy.reviewerIds
  }

  predicate Separated(policy: Policy, proposal: Proposal, actorId: Id) {
    !policy.separateAuthorAndReviewer || proposal.authorId != actorId
  }

  function ApprovalDiagnostic(policy: Policy, proposal: Proposal, actorId: Id, expected: Id, now: Time): Option<ErrorCode> {
    if expected != proposal.candidateRevision then Some(ApprovalStale)
    else if proposal.expiresAt.Some? && proposal.expiresAt.value <= now then Some(ApprovalExpired)
    else if !IsReviewer(policy, actorId) then Some(ReviewerDenied)
    else if !Separated(policy, proposal, actorId) then Some(SeparationOfDuties)
    else None
  }

  function Approvers(proposal: Proposal): set<Id> {
    set k | 0 <= k < |proposal.approvals| :: proposal.approvals[k].actorId
  }

  predicate HasRequiredApprovals(policy: Policy, proposal: Proposal) {
    |Approvers(proposal)| >= policy.requiredApprovals
  }

  predicate RevisionMayPublish(branch: Branch, proposal: Option<Proposal>, revision: Id) {
    && branch.headRevision == revision
    && (branch.policy.guarded ==>
          && proposal.Some?
          && proposal.value.candidateRevision == revision
          && HasRequiredApprovals(branch.policy, proposal.value))
  }

  // ---------------------------------------------------------------------------------------------
  // Revision identities and ancestry.

  function RevisionName(sequence: nat): Id {
    "revision-" + PadStart(Numeral(sequence), 12)
  }

  /** Parents were committed under a smaller sequence: the reason why walking up the graph ends. */
  ghost predicate ParentsOlder(revisions: map<Id, Revision>) {
    forall k | k in revisions && revisions[k].parentRevision.Some? && revisions[k].parentRevision.value in revisions
      :: revisions[revisions[k].parentRevision.value].sequence < revisions[k].sequence
  }

  function Height(revisions: map<Id, Revision>, cursor: Option<Id>): nat {
    if cursor.Some? && cursor.value in revisions then revisions[cursor.value].sequence + 1 else 0
  }

  /** The revisions after `base` up to `cursor`, oldest first, or nothing when `base` is not on the way. */
  function Intervening(revisions: map<Id, Revision>, cursor: Option<Id>, base: Id): Option<seq<Revision>>
    requires ParentsOlder(revisions)
    decreases Height(revisions, cursor)
  {
    if cursor == Some(base) then Some([])
    else if cursor.None? || cursor.value !in revisions then None
    else
      var revision := revisions[cursor.value];
      var older :- Intervening(revisions, revision.parentRevision, base);
      Some(older + [revision])
  }

  // ---------------------------------------------------------------------------------------------
  // Steps shared by the commands.

  function Emit(s: State, notice: Notice, actor: Actor, branchId: Id, correlationId: Id, now: Time): State {
    s.(emitted := s.emitted
                  + [Event(actor.actorId, branchId, correlationId, notice, now, |s.emitted| + 1, actor.tenantId)])
  }

  /** Takes the next revision sequence; it stays taken even when nothing is committed under it. */
  function Allocate(s: State): State {
    s.(revisionSequence := s.revisionSequence + 1)
  }

  function ToRevision(candidate: Candidate, proposalId: Option<Id>, compensates: Option<Id>, now: Time): Revision {
    Revision(candidate.actor.actorId, candidate.branchId, candidate.changedPaths, now, compensates,
             candidate.correlationId, candidate.document, Some(candidate.parentRevision), proposalId,
             candidate.removedPaths, candidate.revision, candidate.sequence, candidate.actor.tenantId)
  }

  function AddRevision(s: State, revision: Revision): State {
    s.(revisions := s.revisions[revision.revision := revision])
  }

  function MoveHead(s: State, branchId: Id, revision: Id): State {
    if branchId !in s.branches then s
    else s.(branches := s.branches[branchId := s.branches[branchId].(headRevision := revision)])
  }

  function SetProposal(s: State, proposal: Proposal): State {
    s.(proposals := s.proposals[proposal.proposalId := proposal])
  }

  // ---------------------------------------------------------------------------------------------
  // proposal.submit

  function CommitProposal(s: State, proposal: Proposal, candidate: Candidate, now: Time): (State, Response) {
    var revision := ToRevision(candidate, Some(proposal.proposalId), None, now);
    var moved := MoveHead(AddRevision(s, revision), proposal.branchId, revision.revision);
    var closed := SetProposal(moved, proposal.(status := Committed));
    var done := closed.(candidates := closed.candidates - {proposal.proposalId});
    (Emit(done, ProposalCommitted(proposal.proposalId, revision.revision), candidate.actor,
          proposal.branchId, candidate.correlationId, now),
     Success(OfRevision(revision)))
  }

  function NewProposal(request: Request, actor: Actor, candidate: Candidate, policy: Policy, now: Time): Proposal
    requires request.Propose?
  {
    Proposal([], actor.actorId, request.baseRevision, request.branchId, candidate.revision, [], now,
             if policy.guarded then Some(now + policy.approvalTtlMs) else None,
             request.proposalId, request.baseRevision != candidate.parentRevision, Pending)
  }

  function RecordProposal(s: State, request: Request, actor: Actor, candidate: Candidate, now: Time): (State, Response)
    requires request.Propose?
  {
    if request.branchId !in s.branches then (s, Missing(BranchNotFound))
    else
      var policy := s.branches[request.branchId].policy;
      var proposal := NewProposal(request, actor, candidate, policy, now);
      var stored := SetProposal(s, proposal).(candidates := s.candidates[request.proposalId := candidate],
                                              patches := s.patches[candidate.revision := request.operations]);
      var created := Emit(stored, ProposalCreated(request.proposalId, proposal.rebased, candidate.revision), actor,
                          request.branchId, request.meta.correlationId, now);
      if policy.guarded then (created, InReview(OfProposal(proposal)))
      else CommitProposal(created, proposal, candidate, now)
  }

  function PatchError(failure: PatchFailure): ErrorCode {
    if failure.ValidationRejected? then SchemaRejected else InvalidPatch
  }

  function CreateProposal(s: State, request: Request, actor: Actor, parent: Id, now: Time,
                          validates: Json -> bool): (State, Response)
    requires request.Propose?
    requires forall k :: k in s.revisions ==> s.revisions[k].document.Obj?
  {
    var t := Allocate(s);
    var name := RevisionName(t.revisionSequence);
    if parent !in t.revisions then (t, Missing(RevisionNotFound))
    else
      match ApplyCollaborationPatch(t.revisions[parent].document, request.operations, name, validates)
      case Rejected(failure) => (t, Failure(Invalid, PatchError(failure)))
      case Patched(changed, document, removed) =>
        var candidate := Candidate(actor, request.branchId, changed, request.meta.correlationId, document, parent,
                                   removed, name, t.revisionSequence);
        RecordProposal(t, request, actor, candidate, now)
  }

  function ChangedPathLists(revisions: seq<Revision>): seq<seq<string>> {
    seq(|revisions|, n requires 0 <= n < |revisions| => revisions[n].changedPaths)
  }

  function Submit(s: State, request: Request, actor: Actor, now: Time, validates: Json -> bool): (State, Response)
    requires request.Propose? && ParentsOlder(s.revisions)
    requires forall k :: k in s.revisions ==> s.revisions[k].document.Obj?
  {
    if request.branchId !in s.branches then (s, Missing(BranchNotFound))
    else if request.proposalId in s.proposals then (s, Failure(Invalid, InvalidRequest))
    else
      var head := s.branches[request.branchId].headRevision;
      match Intervening(s.revisions, Some(head), request.baseRevision)
      case None =>
        (s, Response(Conflicted, [Conflict(request.baseRevision, "/", head, "/")], [BaseNotAncestor], NoValue))
      case Some(intervening) =>
        var conflicts := CollaborationConflicts(request.baseRevision, head, request.operations,
                                                ChangedPathLists(intervening));
        if conflicts != [] then (s, Response(Conflicted, conflicts, [], NoValue))
        else CreateProposal(s, request, actor, head, now, validates)
  }

  // ---------------------------------------------------------------------------------------------
  // proposal.approve and proposal.comment

  function RecordApproval(s: State, proposal: Proposal, request: Request, actor: Actor, now: Time): State
    requires request.Approve?
  {
    if actor.actorId in Approvers(proposal) then s
    else
      var approved := proposal.(approvals := proposal.approvals + [Approval(actor.actorId, now, request.expectedRevision)]);
      Emit(SetProposal(s, approved), ApprovalRecorded(proposal.proposalId, request.expectedRevision), actor,
           proposal.branchId, request.meta.correlationId, now)
  }

  function FinishApproved(s: State, proposal: Proposal, now: Time): (State, Response) {
    if proposal.proposalId !in s.candidates then (s, Missing(RevisionNotFound))
    else if proposal.branchId !in s.branches then (s, Missing(BranchNotFound))
    else
      var candidate := s.candidates[proposal.proposalId];
      if s.branches[proposal.branchId].headRevision != candidate.parentRevision then
        (SetProposal(s, proposal.(status := Stale)), Failure(Conflicted, ApprovalStale))
      else CommitProposal(s, proposal, candidate, now)
  }

  function ApproveProposal(s: State, request: Request, actor: Actor, now: Time): (State, Response)
    requires request.Approve?
    requires forall id :: id in s.proposals ==> s.proposals[id].proposalId == id
  {
    if request.proposalId !in s.proposals then (s, Missing(ProposalNotFound))
    else
      var proposal := s.proposals[request.proposalId];
      if proposal.branchId !in s.branches then (s, Missing(BranchNotFound))
      else
        var policy := s.branches[proposal.branchId].policy;
        match ApprovalDiagnostic(policy, proposal, actor.actorId, request.expectedRevision, now)
        case Some(code) => (s, Failure(if code == ApprovalStale then Conflicted else Denied, code))
        case None =>
          var t := RecordApproval(s, proposal, request, actor, now);
          var approved := t.proposals[request.proposalId];
          if !HasRequiredApprovals(policy, approved) then (t, InReview(OfProposal(approved)))
          else FinishApproved(t, approved, now)
  }

  function CommentOnProposal(s: State, request: Request, actor: Actor, now: Time): (State, Response)
    requires request.AddComment?
  {
    if request.proposalId !in s.proposals then (s, Missing(ProposalNotFound))
    else
      var proposal := s.proposals[request.proposalId];
      var commented := proposal.(comments := proposal.comments + [Comment(actor.actorId, request.body, now)]);
      (Emit(SetProposal(s, commented), CommentAdded(proposal.proposalId, |commented.comments|), actor,
            proposal.branchId, request.meta.correlationId, now),
       Success(OfProposal(commented)))
  }

  // ---------------------------------------------------------------------------------------------
  // revision.publish and revision.undo

  function ProposalOf(s: State, revision: Id): Option<Proposal> {
    if revision !in s.revisions || s.revisions[revision].proposalId.None? then None
    else if s.revisions[revision].proposalId.value !in s.proposals then None
    else Some(s.proposals[s.revisions[revision].proposalId.value])
  }

  function PublishRevision(s: State, request: Request, actor: Actor, now: Time): (State, Response)
    requires request.Publish?
  {
    if request.branchId !in s.branches then (s, Missing(BranchNotFound))
    else
      var branch := s.branches[request.branchId];
      if !RevisionMayPublish(branch, ProposalOf(s, request.revision), request.revision) then
        (s, Failure(Denied, PublishNotApproved))
      else
        var published := s.(branches := s.branches[request.branchId :=
                              branch.(publishedRevision := Some(request.revision))]);
        (Emit(published, RevisionPublished(request.revision), actor, request.branchId, request.meta.correlationId, now),
         Success(Publication(request.branchId, request.revision)))
  }

  function CommitCompensation(s: State, request: Request, actor: Actor, document: Json, now: Time,
                              validates: Json -> bool): (State, Response)
    requires request.Undo? && document.Obj?
  {
    var t := Allocate(s);
    var name := RevisionName(t.revisionSequence);
    var restored := Stamp(document, name);
    if !validates(restored) then (t, Failure(Invalid, SchemaRejected))
    else
      var candidate := Candidate(actor, request.branchId, ["/"], request.meta.correlationId, restored,
                                 request.targetRevision, [], name, t.revisionSequence);
      var revision := ToRevision(candidate, None, Some(request.targetRevision), now);
      var moved := MoveHead(AddRevision(t, revision), request.branchId, name);
      (Emit(moved, CompensationCommitted(request.targetRevision, name), actor, request.branchId,
            request.meta.correlationId, now),
       Success(OfRevision(revision)))
  }

  function UndoRevision(s: State, request: Request, actor: Actor, now: Time, validates: Json -> bool): (State, Response)
    requires request.Undo?
    requires forall k :: k in s.revisions ==> s.revisions[k].document.Obj?
  {
    if request.branchId !in s.branches then (s, Missing(BranchNotFound))
    else if s.branches[request.branchId].headRevision != request.targetRevision then
      (s, Failure(Conflicted, ApprovalStale))
    else if request.targetRevision !in s.revisions then (s, Missing(RevisionNotFound))
    else
      var parent := s.revisions[request.targetRevision].parentRevision;
      if parent.None? || parent.value !in s.revisions then (s, Missing(RevisionNotFound))
      else CommitCompensation(s, request, actor, s.revisions[parent.value].document, now, validates)
  }

  // ---------------------------------------------------------------------------------------------
  // Authorization, idempotency and dispatch.

  function RequiredCapability(request: Request): Capability {
    match request
    case Propose(_, _, _, _, _, _) => CanPropose
    case Approve(_, _, _) => CanApprove
    case AddComment(_, _, _) => CanComment
    case Publish(_, _, _) => CanPublish
    case Undo(_, _, _, _) => CanUndo
  }

  predicate Authorized(s: State, request: Request, actor: Actor) {
    actor.tenantId == s.tenantId && RequiredCapability(request) in actor.capabilities
  }

  predicate Idempotent(request: Request) {
    request.Propose? || request.Undo?
  }

  function OperationName(request: Request): string
    requires Idempotent(request)
  {
    if request.Propose? then "proposal.submit" else "revision.undo"
  }

  function IdempotencyKey(actor: Actor, operation: string, key: Id): string {
    actor.tenantId + "\0" + actor.actorId + "\0" + operation + "\0" + key
  }

  function KeyOf(request: Request, actor: Actor): string
    requires Idempotent(request)
  {
    IdempotencyKey(actor, OperationName(request), request.idempotencyKey)
  }

  function ReplayEntry(entry: Entry, request: Request): Response {
    if entry.fingerprint == request then entry.response.(status := Replayed)
    else Failure(Invalid, IdempotencyConflict)
  }

  function RunOnce(s: State, request: Request, actor: Actor, now: Time, validates: Json -> bool): (State, Response)
    requires Idempotent(request) && ParentsOlder(s.revisions)
    requires forall k :: k in s.revisions ==> s.revisions[k].document.Obj?
  {
    if request.Propose? then Submit(s, request, actor, now, validates)
    else UndoRevision(s, request, actor, now, validates)
  }

  function ExecuteIdempotent(s: State, request: Request, actor: Actor, now: Time, validates: Json -> bool): (State, Response)
    requires Idempotent(request) && ParentsOlder(s.revisions)
    requires forall k :: k in s.revisions ==> s.revisions[k].document.Obj?
  {
    var key := KeyOf(request, actor);
    if key in s.idempotency then (s, ReplayEntry(s.idempotency[key], request))
    else
      var (t, response) := RunOnce(s, request, actor, now, validates);
      (t.(idempotency := t.idempotency[key := Entry(request, response)]), response)
  }

  ghost predicate WellFormed(s: State) {
    && ParentsOlder(s.revisions)
    && (forall k :: k in s.revisions ==> s.revisions[k].document.Obj?)
    && (forall id :: id in s.proposals ==> s.proposals[id].proposalId == id)
  }

  function Execute(s: State, request: Request, actor: Actor, now: Time, validates: Json -> bool): (State, Response)
    requires WellFormed(s)
  {
    if !Authorized(s, request, actor) then (s, Failure(Denied, CapabilityDenied))
    else
      match request
      case Propose(_, _, _, _, _, _) => ExecuteIdempotent(s, request, actor, now, validates)
      case Approve(_, _, _) => ApproveProposal(s, request, actor, now)
      case AddComment(_, _, _) => CommentOnProposal(s, request, actor, now)
      case Publish(_, _, _) => PublishRevision(s, request, actor, now)
      case Undo(_, _, _, _) => ExecuteIdempotent(s, request, actor, now, validates)
  }

  /** The host opens a branch at an existing revision; anything else is refused with an exception. */
  function CreateBranch(s: State, branchId: Id, fromRevision: Id, policy: Option<Policy>): Option<State> {
    var chosen := policy.GetOr(DEFAULT_POLICY);
    if branchId in s.branches || fromRevision !in s.revisions || !ValidPolicy(chosen) then None
    else Some(s.(branches := s.branches[branchId := Branch(branchId, fromRevision, chosen, None)]))
  }

  function Initial(tenantId: Id, document: Json, policy: Option<Policy>, now: Time, validates: Json -> bool): Option<State>
    requires document.Obj?
  {
    var name := RevisionName(1);
    var stamped := Stamp(document, name);
    var chosen := policy.GetOr(DEFAULT_POLICY);
    if !validates(stamped) || !ValidPolicy(chosen) then None
    else
      var revision := Revision("system", "main", ["/"], now, None, "initial", stamped, None, None, [], name, 1, tenantId);
      Some(State(tenantId, map["main" := Branch("main", name, chosen, None)], map[], map[], map[name := revision],
                 map[], 1, [], map[]))
  }
}
