/** The control-plane store: per-tenant optimistic commits, effect leases, backups and restores. */
module Store {
  import opened Wrappers
  import opened Decimal
  import opened JsonPatch
  import Outbox

  type Id = string
  type Time = Outbox.Time

  datatype Revision = Revision(actorId: Id, committedAt: Time, document: map<string, Json>, objectId: Id, parentRevision: Option<Id>,
                               revision: Id, tenantId: Id)
  datatype EffectResult = Completed(effectId: Id, objectId: Id, output: Json, completedAt: Time) | EffectFailed
  datatype StoredEffect = StoredEffect(fingerprint: string, pending: bool, result: Option<EffectResult>)
  datatype Action = DocumentCommitted | EffectInvoked | BackupCreated | BackupRestored | Other(name: string)
  datatype AuditOutcome = AuditSucceeded | AuditFailed | AuditDenied
  datatype Audit = Audit(action: Action, actorId: Id, correlationId: Id, details: map<string, Id>, occurredAt: Time, outcome: AuditOutcome)

  datatype Tenant = Tenant(audits: seq<Audit>, documents: map<Id, Revision>, effects: map<Id, StoredEffect>, nextRevision: nat,
                           outbox: Outbox.State)
  datatype Backup = Backup(digest: string, documents: map<Id, Revision>, effects: map<Id, StoredEffect>, tenantId: Id)
  datatype State = State(tenants: map<Id, Tenant>, backups: map<Id, Backup>, nextBackup: nat)

  /** The fingerprint of a backup's content is a function the host supplies. */
  datatype Config = Config(maxDocuments: nat, digest: (Id, map<Id, Revision>, map<Id, StoredEffect>) -> string)

  datatype Meta = Meta(tenantId: Id, actorId: Id, at: Time, correlationId: Id)

  datatype Command =
    | Commit(meta: Meta, objectId: Id, expected: Option<Id>, document: map<string, Json>)
    | Begin(meta: Meta, key: Id, fingerprint: string)
    | Finish(meta: Meta, key: Id, effectId: Id, objectId: Id, result: EffectResult)
    | CreateBackup(meta: Meta)
    | RestoreBackup(meta: Meta, backupId: Id)
    | AppendAudit(meta: Meta, entry: Audit)
    | Deliver(meta: Meta, command: Outbox.Command)

  datatype LeaseStatus = Acquired | LeaseConflict | InProgress | Replay(result: EffectResult)

  datatype Outcome =
    | Committed(revision: Revision)
    | DocumentConflict
    | TenantQuotaExceeded
    | Leased(status: LeaseStatus)
    | Finished
    | NoLease
    | BackedUp(backupId: Id)
    | BackupNotFound
    | BackupIntegrityFailed
    | Restored
    | Done

  const EMPTY_TENANT := Tenant([], map[], map[], 1, Outbox.State([], map[], []))

  function TenantOf(s: State, tenantId: Id): Tenant {
    if tenantId in s.tenants then s.tenants[tenantId] else EMPTY_TENANT
  }

  function With(s: State, tenantId: Id, tenant: Tenant): State {
    s.(tenants := s.tenants[tenantId := tenant])
  }

  const REVISION_PREFIX := "revision-"
  const BACKUP_PREFIX := "backup-"

  function RevisionName(n: nat): Id {
    REVISION_PREFIX + Numeral(n)
  }

  function BackupName(n: nat): Id {
    BACKUP_PREFIX + Numeral(n)
  }

  /** The number in a generated name. */
  function NumberIn(prefix: string, name: Id): nat {
    if prefix <= name && AllDigits(name[|prefix|..]) then ToNat(name[|prefix|..]) else 0
  }

  lemma NamesCarryTheirNumber(n: nat)
    ensures NumberIn(REVISION_PREFIX, RevisionName(n)) == n && NumberIn(BACKUP_PREFIX, BackupName(n)) == n
  {
    ToNatNumeral(n);
    assert RevisionName(n)[|REVISION_PREFIX|..] == Numeral(n) && BackupName(n)[|BACKUP_PREFIX|..] == Numeral(n);
  }

  // ---------------------------------------------------------------------------------------------
  // Commits.

  function Current(tenant: Tenant, objectId: Id): Option<Revision> {
    if objectId in tenant.documents then Some(tenant.documents[objectId]) else None
  }

  function RevisionOf(current: Option<Revision>): Option<Id> {
    if current.None? then None else Some(current.value.revision)
  }

  predicate MatchesExpected(current: Option<Revision>, expected: Option<Id>) {
    if current.None? then expected.None? else expected == Some(current.value.revision)
  }

  predicate QuotaExceeded(current: Option<Revision>, count: nat, maximum: nat) {
    current.None? && count >= maximum
  }

  function Record(command: Command, revision: Id, parent: Option<Id>): Revision
    requires command.Commit?
  {
    Revision(command.meta.actorId, command.meta.at, command.document["revision" := Str(revision)], command.objectId, parent, revision,
             command.meta.tenantId)
  }

  function Publish(tenant: Tenant, meta: Meta, payload: map<string, string>, kind: string): Tenant {
    tenant.(outbox := Outbox.Step(tenant.outbox, Outbox.Publish(Outbox.Draft(meta.correlationId, meta.at, payload, meta.tenantId, kind))))
  }

  function Audited(tenant: Tenant, meta: Meta, action: Action, outcome: AuditOutcome, details: map<string, Id>): Tenant {
    tenant.(audits := tenant.audits + [Audit(action, meta.actorId, meta.correlationId, details, meta.at, outcome)])
  }

  function CommitOutcome(config: Config, tenant: Tenant, command: Command): Outcome
    requires command.Commit?
  {
    var current := Current(tenant, command.objectId);
    if !MatchesExpected(current, command.expected) then DocumentConflict
    else if QuotaExceeded(current, |tenant.documents|, config.maxDocuments) then TenantQuotaExceeded
    else Committed(Record(command, RevisionName(tenant.nextRevision), RevisionOf(current)))
  }

  function AfterCommit(config: Config, tenant: Tenant, command: Command): Tenant
    requires command.Commit?
  {
    match CommitOutcome(config, tenant, command)
    case Committed(record) =>
      var stored := tenant.(documents := tenant.documents[command.objectId := record], nextRevision := tenant.nextRevision + 1);
      var details := map["objectId" := command.objectId, "revision" := record.revision];
      Audited(Publish(stored, command.meta, details, "document-committed"), command.meta, DocumentCommitted, AuditSucceeded, details)
    case TenantQuotaExceeded => Audited(tenant, command.meta, DocumentCommitted, AuditDenied, map["objectId" := command.objectId])
    case _ => Audited(tenant, command.meta, DocumentCommitted, AuditFailed, map["objectId" := command.objectId])
  }

  // ---------------------------------------------------------------------------------------------
  // Effects.

  function LeaseOf(tenant: Tenant, key: Id, fingerprint: string): LeaseStatus {
    if key !in tenant.effects then Acquired
    else
      var stored := tenant.effects[key];
      if stored.fingerprint != fingerprint then LeaseConflict
      else if stored.pending || stored.result.None? then InProgress
      else Replay(stored.result.value)
  }

  function AfterBegin(tenant: Tenant, key: Id, fingerprint: string): Tenant {
    if key in tenant.effects then tenant
    else tenant.(effects := tenant.effects[key := StoredEffect(fingerprint, true, None)])
  }

  function StatusOf(result: EffectResult): string {
    if result.Completed? then "succeeded" else "failed"
  }

  function AfterFinish(tenant: Tenant, command: Command): Tenant
    requires command.Finish? && command.key in tenant.effects
  {
    var stored := tenant.effects[command.key].(pending := false, result := Some(command.result));
    var details := map["effectId" := command.effectId, "objectId" := command.objectId];
    var finished := Publish(tenant.(effects := tenant.effects[command.key := stored]), command.meta,
                            details["status" := StatusOf(command.result)], "effect-completed");
    Audited(finished, command.meta, EffectInvoked, if command.result.Completed? then AuditSucceeded else AuditFailed, details)
  }

  // ---------------------------------------------------------------------------------------------
  // Recovery.

  function Owned(s: State, backupId: Id, tenantId: Id): Option<Backup> {
    if backupId in s.backups && s.backups[backupId].tenantId == tenantId then Some(s.backups[backupId]) else None
  }

  predicate Intact(config: Config, backup: Backup) {
    backup.digest == config.digest(backup.tenantId, backup.documents, backup.effects)
  }

  function AfterRestore(tenant: Tenant, backup: Backup, meta: Meta, backupId: Id): Tenant {
    var details := map["backupId" := backupId];
    Audited(Publish(tenant.(documents := backup.documents, effects := backup.effects), meta, details, "tenant-restored"),
            meta, BackupRestored, AuditSucceeded, details)
  }

  // ---------------------------------------------------------------------------------------------
  // Steps.

  function OutcomeOf(config: Config, s: State, command: Command): Outcome {
    var tenant := TenantOf(s, command.meta.tenantId);
    match command
    case Commit(_, _, _, _) => CommitOutcome(config, tenant, command)
    case Begin(_, key, fingerprint) => Leased(LeaseOf(tenant, key, fingerprint))
    case Finish(_, key, _, _, _) => if key in tenant.effects then Finished else NoLease
    case CreateBackup(_) => BackedUp(BackupName(s.nextBackup))
    case RestoreBackup(meta, backupId) =>
      var backup := Owned(s, backupId, meta.tenantId);
      if backup.None? then BackupNotFound else if Intact(config, backup.value) then Restored else BackupIntegrityFailed
    case AppendAudit(_, _) => Done
    case Deliver(_, _) => Done
  }

  /** The backup a command restores, when it is its tenant's own and intact. */
  function Restorable(config: Config, s: State, command: Command): Option<Backup> {
    if command.RestoreBackup? then
      var backup := Owned(s, command.backupId, command.meta.tenantId);
      if backup.Some? && Intact(config, backup.value) then backup else None
    else None
  }

  /** What a command makes of its tenant. Publishing is not a command of its own: messages come from commits, effects
      and restores. */
  function Next(config: Config, tenant: Tenant, command: Command, backupId: Id, restorable: Option<Backup>): Tenant {
    match command
    case Commit(_, _, _, _) => AfterCommit(config, tenant, command)
    case Begin(_, key, fingerprint) => AfterBegin(tenant, key, fingerprint)
    case Finish(_, key, _, _, _) => if key in tenant.effects then AfterFinish(tenant, command) else tenant
    case CreateBackup(meta) => Audited(tenant, meta, BackupCreated, AuditSucceeded, map["backupId" := backupId])
    case RestoreBackup(meta, id) => if restorable.Some? then AfterRestore(tenant, restorable.value, meta, id) else tenant
    case AppendAudit(_, entry) => tenant.(audits := tenant.audits + [entry])
    case Deliver(_, delivery) =>
      if delivery.Publish? then tenant else tenant.(outbox := Outbox.Step(tenant.outbox, delivery))
  }

  function BackupOf(config: Config, tenant: Tenant, tenantId: Id): Backup {
    Backup(config.digest(tenantId, tenant.documents, tenant.effects), tenant.documents, tenant.effects, tenantId)
  }

  /** Naming a tenant brings its state into being; a restore that finds nothing does not come that far. */
  function Step(config: Config, s: State, command: Command): State {
    var tenantId := command.meta.tenantId;
    var tenant := TenantOf(s, tenantId);
    var backupId, restorable := BackupName(s.nextBackup), Restorable(config, s, command);
    if command.RestoreBackup? && restorable.None? then s
    else
      var next := With(s, tenantId, Next(config, tenant, command, backupId, restorable));
      if command.CreateBackup?
      then next.(backups := s.backups[backupId := BackupOf(config, tenant, tenantId)], nextBackup := s.nextBackup + 1)
      else next
  }

  lemma StepIsNext(config: Config, s: State, command: Command)
    ensures TenantOf(Step(config, s, command), command.meta.tenantId) ==
            Next(config, TenantOf(s, command.meta.tenantId), command, BackupName(s.nextBackup), Restorable(config, s, command))
  {
  }

  function Run(config: Config, s: State, commands: seq<Command>): State
    decreases |commands|
  {
    if commands == [] then s else Run(config, Step(config, s, commands[0]), commands[1..])
  }

  const INITIAL := State(map[], map[], 1)
}
