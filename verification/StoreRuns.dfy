/** What the store keeps over every run: names never come back, quotas hold, restores are exact, tenants are isolated. */
module StoreRuns {
  import opened Wrappers
  import opened JsonPatch
  import opened Store

  // ---------------------------------------------------------------------------------------------
  // Invariant.

  /** A stored revision carries its own name, object and tenant, and its number is already spent. */
  predicate RecordOk(record: Revision, objectId: Id, tenantId: Id, nextRevision: nat) {
    && record.objectId == objectId && record.tenantId == tenantId
    && "revision" in record.document && record.document["revision"] == Str(record.revision)
    && NumberIn(REVISION_PREFIX, record.revision) < nextRevision
  }

  predicate EffectOk(effect: StoredEffect) {
    effect.pending == effect.result.None?
  }

  predicate ContentOk(config: Config, documents: map<Id, Revision>, effects: map<Id, StoredEffect>, tenantId: Id, nextRevision: nat) {
    && |documents| <= config.maxDocuments
    && (forall o :: o in documents ==> RecordOk(documents[o], o, tenantId, nextRevision))
    && (forall key :: key in effects ==> EffectOk(effects[key]))
  }

  ghost predicate TenantOk(config: Config, tenant: Tenant, tenantId: Id) {
    && tenant.nextRevision >= 1 && Outbox.Conserved(tenant.outbox)
    && ContentOk(config, tenant.documents, tenant.effects, tenantId, tenant.nextRevision)
  }

  predicate BackupOk(config: Config, s: State, backupId: Id)
    requires backupId in s.backups
  {
    var backup := s.backups[backupId];
    && Intact(config, backup) && NumberIn(BACKUP_PREFIX, backupId) < s.nextBackup
    && ContentOk(config, backup.documents, backup.effects, backup.tenantId, TenantOf(s, backup.tenantId).nextRevision)
  }

  ghost predicate Inv(config: Config, s: State) {
    && (forall t :: t in s.tenants ==> TenantOk(config, s.tenants[t], t))
    && (forall b {:trigger BackupOk(config, s, b)} :: b in s.backups ==> BackupOk(config, s, b))
  }

  lemma InitialInv(config: Config)
    ensures Inv(config, INITIAL)
  {
  }

  lemma TenantIsOk(config: Config, s: State, tenantId: Id)
    requires Inv(config, s)
    ensures TenantOk(config, TenantOf(s, tenantId), tenantId)
  {
  }

  lemma ContentStaysOk(config: Config, documents: map<Id, Revision>, effects: map<Id, StoredEffect>, tenantId: Id, before: nat, after: nat)
    requires ContentOk(config, documents, effects, tenantId, before) && before <= after
    ensures ContentOk(config, documents, effects, tenantId, after)
  {
  }

  lemma PublishKeeps(config: Config, tenant: Tenant, tenantId: Id, meta: Meta, payload: map<string, string>, kind: string)
    requires TenantOk(config, tenant, tenantId)
    ensures TenantOk(config, Publish(tenant, meta, payload, kind), tenantId)
  {
    Outbox.StepConserves(tenant.outbox, Outbox.Publish(Outbox.Draft(meta.correlationId, meta.at, payload, meta.tenantId, kind)));
  }

  lemma OneMoreDocument(documents: map<Id, Revision>, objectId: Id, record: Revision)
    ensures |documents[objectId := record]| == |documents| + if objectId in documents then 0 else 1
  {
    var grown := documents[objectId := record];
    assert grown.Keys == documents.Keys + {objectId};
  }

  lemma StoredKeeps(config: Config, tenant: Tenant, tenantId: Id, record: Revision)
    requires TenantOk(config, tenant, tenantId) && RecordOk(record, record.objectId, tenantId, tenant.nextRevision + 1)
    requires record.objectId in tenant.documents || |tenant.documents| < config.maxDocuments
    ensures var after := tenant.(documents := tenant.documents[record.objectId := record], nextRevision := tenant.nextRevision + 1);
            TenantOk(config, after, tenantId)
  {
    OneMoreDocument(tenant.documents, record.objectId, record);
  }

  lemma CommitKeeps(config: Config, tenant: Tenant, tenantId: Id, command: Command)
    requires TenantOk(config, tenant, tenantId) && command.Commit? && command.meta.tenantId == tenantId
    ensures TenantOk(config, AfterCommit(config, tenant, command), tenantId)
  {
    var outcome := CommitOutcome(config, tenant, command);
    if outcome.Committed? {
      var record := outcome.revision;
      NamesCarryTheirNumber(tenant.nextRevision);
      StoredKeeps(config, tenant, tenantId, record);
      PublishKeeps(config, tenant.(documents := tenant.documents[command.objectId := record], nextRevision := tenant.nextRevision + 1),
                   tenantId, command.meta,
                   map["objectId" := command.objectId, "revision" := record.revision], "document-committed");
    }
  }

  lemma FinishKeeps(config: Config, tenant: Tenant, tenantId: Id, command: Command)
    requires TenantOk(config, tenant, tenantId) && command.Finish? && command.key in tenant.effects
    ensures TenantOk(config, AfterFinish(tenant, command), tenantId)
  {
    var stored := tenant.effects[command.key].(pending := false, result := Some(command.result));
    PublishKeeps(config, tenant.(effects := tenant.effects[command.key := stored]), tenantId, command.meta,
                 map["effectId" := command.effectId, "objectId" := command.objectId, "status" := StatusOf(command.result)], "effect-completed");
  }

  lemma RestoreKeeps(config: Config, tenant: Tenant, backup: Backup, meta: Meta, backupId: Id)
    requires TenantOk(config, tenant, meta.tenantId)
    requires ContentOk(config, backup.documents, backup.effects, meta.tenantId, tenant.nextRevision)
    ensures TenantOk(config, AfterRestore(tenant, backup, meta, backupId), meta.tenantId)
  {
    PublishKeeps(config, tenant.(documents := backup.documents, effects := backup.effects), meta.tenantId, meta,
                 map["backupId" := backupId], "tenant-restored");
  }

  lemma NextKeeps(config: Config, tenant: Tenant, command: Command, backupId: Id, restorable: Option<Backup>)
    requires TenantOk(config, tenant, command.meta.tenantId)
    requires restorable.Some? ==>
               ContentOk(config, restorable.value.documents, restorable.value.effects, command.meta.tenantId, tenant.nextRevision)
    ensures TenantOk(config, Next(config, tenant, command, backupId, restorable), command.meta.tenantId)
  {
    match command
    case Commit(meta, _, _, _) => CommitKeeps(config, tenant, meta.tenantId, command);
    case Finish(meta, key, _, _, _) => if key in tenant.effects { FinishKeeps(config, tenant, meta.tenantId, command); }
    case RestoreBackup(meta, id) => if restorable.Some? { RestoreKeeps(config, tenant, restorable.value, meta, id); }
    case Deliver(_, delivery) => Outbox.StepConserves(tenant.outbox, delivery);
    case Begin(_, _, _) =>
    case CreateBackup(_) =>
    case AppendAudit(_, _) =>
  }

  lemma NumbersOnlyGrow(config: Config, tenant: Tenant, command: Command, backupId: Id, restorable: Option<Backup>)
    ensures Next(config, tenant, command, backupId, restorable).nextRevision ==
            tenant.nextRevision + if command.Commit? && CommitOutcome(config, tenant, command).Committed? then 1 else 0
  {
  }

  /** The tenant a command works on afterwards. */
  lemma OwnTenantKeeps(config: Config, s: State, command: Command)
    requires Inv(config, s)
    ensures TenantOk(config, TenantOf(Step(config, s, command), command.meta.tenantId), command.meta.tenantId)
    ensures TenantOf(Step(config, s, command), command.meta.tenantId).nextRevision ==
            TenantOf(s, command.meta.tenantId).nextRevision + if OutcomeOf(config, s, command).Committed? then 1 else 0
  {
    var tenant, restorable := TenantOf(s, command.meta.tenantId), Restorable(config, s, command);
    TenantIsOk(config, s, command.meta.tenantId);
    if restorable.Some? {
      assert BackupOk(config, s, command.backupId);
    }
    StepIsNext(config, s, command);
    NextKeeps(config, tenant, command, BackupName(s.nextBackup), restorable);
    NumbersOnlyGrow(config, tenant, command, BackupName(s.nextBackup), restorable);
  }

  /** No command reads or writes the state of a tenant it does not name. */
  lemma TenantsAreIsolated(config: Config, s: State, command: Command, other: Id)
    requires other != command.meta.tenantId
    ensures TenantOf(Step(config, s, command), other) == TenantOf(s, other)
    ensures forall b :: b in s.backups && s.backups[b].tenantId == other && NumberIn(BACKUP_PREFIX, b) < s.nextBackup ==>
              b in Step(config, s, command).backups && Step(config, s, command).backups[b] == s.backups[b]
  {
    NamesCarryTheirNumber(s.nextBackup);
  }

  lemma EveryTenantKeeps(config: Config, s: State, command: Command, id: Id)
    requires Inv(config, s) && id in Step(config, s, command).tenants
    ensures TenantOk(config, Step(config, s, command).tenants[id], id)
  {
    var t := Step(config, s, command);
    assert t.tenants[id] == TenantOf(t, id);
    if id == command.meta.tenantId {
      OwnTenantKeeps(config, s, command);
    } else {
      TenantsAreIsolated(config, s, command, id);
      TenantIsOk(config, s, id);
    }
  }

  lemma StepKeeps(config: Config, s: State, command: Command)
    requires Inv(config, s)
    ensures Inv(config, Step(config, s, command))
  {
    var t := Step(config, s, command);
    forall id | id in t.tenants ensures TenantOk(config, t.tenants[id], id) {
      EveryTenantKeeps(config, s, command, id);
    }
    forall b | b in t.backups ensures BackupOk(config, t, b) {
      BackupKeeps(config, s, command, b);
    }
  }

  lemma BackupKeeps(config: Config, s: State, command: Command, b: Id)
    requires Inv(config, s) && b in Step(config, s, command).backups
    ensures BackupOk(config, Step(config, s, command), b)
  {
    var t := Step(config, s, command);
    var backup := t.backups[b];
    OwnTenantKeeps(config, s, command);
    if backup.tenantId != command.meta.tenantId {
      TenantsAreIsolated(config, s, command, backup.tenantId);
    }
    if command.CreateBackup? && b == BackupName(s.nextBackup) {
      NamesCarryTheirNumber(s.nextBackup);
      TenantIsOk(config, s, command.meta.tenantId);
    } else {
      assert BackupOk(config, s, b);
      ContentStaysOk(config, backup.documents, backup.effects, backup.tenantId, TenantOf(s, backup.tenantId).nextRevision,
                     TenantOf(t, backup.tenantId).nextRevision);
    }
  }

  lemma {:induction false} RunKeeps(config: Config, s: State, commands: seq<Command>)
    requires Inv(config, s)
    ensures Inv(config, Run(config, s, commands))
    decreases |commands|
  {
    if commands != [] {
      StepKeeps(config, s, commands[0]);
      RunKeeps(config, Step(config, s, commands[0]), commands[1..]);
    }
  }

  // ---------------------------------------------------------------------------------------------
  // Names.

  function CommittedName(config: Config, s: State, command: Command, tenantId: Id): seq<Id> {
    var outcome := OutcomeOf(config, s, command);
    if command.meta.tenantId == tenantId && outcome.Committed? then [outcome.revision.revision] else []
  }

  /** The names a tenant's commits are given over a run, in order. */
  function CommittedNames(config: Config, s: State, commands: seq<Command>, tenantId: Id): seq<Id>
    decreases |commands|
  {
    if commands == [] then []
    else CommittedName(config, s, commands[0], tenantId) + CommittedNames(config, Step(config, s, commands[0]), commands[1..], tenantId)
  }

  lemma NamesComeInOrder(config: Config, s: State, command: Command, tenantId: Id)
    requires Inv(config, s)
    ensures var name := CommittedName(config, s, command, tenantId);
            && TenantOf(Step(config, s, command), tenantId).nextRevision == TenantOf(s, tenantId).nextRevision + |name|
            && (name == [] || name == [RevisionName(TenantOf(s, tenantId).nextRevision)])
  {
    if command.meta.tenantId == tenantId {
      OwnTenantKeeps(config, s, command);
    } else {
      TenantsAreIsolated(config, s, command, tenantId);
    }
  }

  /** Revision numbers that start at some number and go up. */
  predicate Ascending(names: seq<Id>, start: nat) {
    && (forall k :: 0 <= k < |names| ==> NumberIn(REVISION_PREFIX, names[k]) >= start)
    && (forall i, j :: 0 <= i < j < |names| ==> NumberIn(REVISION_PREFIX, names[i]) < NumberIn(REVISION_PREFIX, names[j]))
  }

  lemma OneBefore(n: nat, names: seq<Id>)
    requires Ascending(names, n + 1)
    ensures Ascending([RevisionName(n)] + names, n)
  {
    NamesCarryTheirNumber(n);
  }

  /** A tenant's revision numbers go up and are never given twice, backups and restores included. */
  lemma {:induction false} NamesAreNeverReused(config: Config, s: State, commands: seq<Command>, tenantId: Id)
    requires Inv(config, s)
    ensures Ascending(CommittedNames(config, s, commands, tenantId), TenantOf(s, tenantId).nextRevision)
    decreases |commands|
  {
    if commands != [] {
      var t := Step(config, s, commands[0]);
      StepKeeps(config, s, commands[0]);
      NamesAreNeverReused(config, t, commands[1..], tenantId);
      NamesComeInOrder(config, s, commands[0], tenantId);
      if CommittedName(config, s, commands[0], tenantId) != [] {
        OneBefore(TenantOf(s, tenantId).nextRevision, CommittedNames(config, t, commands[1..], tenantId));
      }
    }
  }

  /** Every revision a tenant has in a document or a backup is the one recorded under its number. */
  ghost predicate Agrees(s: State, tenantId: Id, history: map<nat, Revision>) {
    && AllRecorded(TenantOf(s, tenantId).documents, history)
    && (forall b :: b in s.backups && s.backups[b].tenantId == tenantId ==> AllRecorded(s.backups[b].documents, history))
  }

  predicate Recorded(record: Revision, history: map<nat, Revision>) {
    var n := NumberIn(REVISION_PREFIX, record.revision);
    n in history && history[n] == record
  }

  predicate Within(history: map<nat, Revision>, bound: nat) {
    forall n :: n in history ==> n < bound
  }

  function Extended(config: Config, s: State, command: Command, tenantId: Id, history: map<nat, Revision>): map<nat, Revision> {
    var outcome := OutcomeOf(config, s, command);
    if command.meta.tenantId == tenantId && outcome.Committed?
    then history[TenantOf(s, tenantId).nextRevision := outcome.revision] else history
  }

  predicate AllRecorded(documents: map<Id, Revision>, history: map<nat, Revision>) {
    forall o :: o in documents ==> Recorded(documents[o], history)
  }

  lemma AllRecordedStays(documents: map<Id, Revision>, history: map<nat, Revision>, bound: nat, n: nat, added: Revision)
    requires AllRecorded(documents, history) && Within(history, bound) && n >= bound
    ensures AllRecorded(documents, history[n := added])
  {
  }

  lemma NextIsRecorded(config: Config, tenant: Tenant, command: Command, backupId: Id, restorable: Option<Backup>, history: map<nat, Revision>)
    requires AllRecorded(tenant.documents, history) && Within(history, tenant.nextRevision)
    requires restorable.Some? ==> AllRecorded(restorable.value.documents, history)
    ensures var after := Next(config, tenant, command, backupId, restorable).documents;
            if command.Commit? && CommitOutcome(config, tenant, command).Committed?
            then AllRecorded(after, history[tenant.nextRevision := CommitOutcome(config, tenant, command).revision])
            else AllRecorded(after, history)
  {
    if command.Commit? {
      NamesCarryTheirNumber(tenant.nextRevision);
      var outcome := CommitOutcome(config, tenant, command);
      if outcome.Committed? {
        var grown := history[tenant.nextRevision := outcome.revision];
        assert Recorded(outcome.revision, grown);
        AllRecordedStays(tenant.documents, history, tenant.nextRevision, tenant.nextRevision, outcome.revision);
        assert AfterCommit(config, tenant, command).documents == tenant.documents[command.objectId := outcome.revision];
      }
    }
  }

  lemma HistoryGrows(config: Config, s: State, command: Command, tenantId: Id, history: map<nat, Revision>)
    requires Inv(config, s) && Agrees(s, tenantId, history) && Within(history, TenantOf(s, tenantId).nextRevision)
    ensures var t, grown := Step(config, s, command), Extended(config, s, command, tenantId, history);
            && Agrees(t, tenantId, grown) && Within(grown, TenantOf(t, tenantId).nextRevision)
            && forall n :: n in history ==> n in grown && grown[n] == history[n]
  {
    var t, grown, bound := Step(config, s, command), Extended(config, s, command, tenantId, history), TenantOf(s, tenantId).nextRevision;
    DocumentsStayRecorded(config, s, command, tenantId, history);
    forall b | b in t.backups && t.backups[b].tenantId == tenantId ensures AllRecorded(t.backups[b].documents, grown) {
      BackupSource(config, s, command, b);
      if grown != history {
        AllRecordedStays(t.backups[b].documents, history, bound, bound, OutcomeOf(config, s, command).revision);
      }
    }
  }

  lemma DocumentsStayRecorded(config: Config, s: State, command: Command, tenantId: Id, history: map<nat, Revision>)
    requires Inv(config, s) && Agrees(s, tenantId, history) && Within(history, TenantOf(s, tenantId).nextRevision)
    ensures var t, grown := Step(config, s, command), Extended(config, s, command, tenantId, history);
            AllRecorded(TenantOf(t, tenantId).documents, grown) && Within(grown, TenantOf(t, tenantId).nextRevision)
  {
    if command.meta.tenantId != tenantId {
      TenantsAreIsolated(config, s, command, tenantId);
    } else {
      OwnTenantKeeps(config, s, command);
      StepIsNext(config, s, command);
      NextIsRecorded(config, TenantOf(s, tenantId), command, BackupName(s.nextBackup), Restorable(config, s, command), history);
    }
  }

  /** A backup is an old one or what its tenant holds. */
  lemma BackupSource(config: Config, s: State, command: Command, b: Id)
    requires b in Step(config, s, command).backups
    ensures var backup := Step(config, s, command).backups[b];
            || (b in s.backups && backup == s.backups[b])
            || (command.CreateBackup? && backup == BackupOf(config, TenantOf(s, backup.tenantId), backup.tenantId))
  {
  }

  lemma {:induction false} HistoryCovers(config: Config, s: State, commands: seq<Command>, tenantId: Id, history: map<nat, Revision>)
    returns (grown: map<nat, Revision>)
    requires Inv(config, s) && Agrees(s, tenantId, history) && Within(history, TenantOf(s, tenantId).nextRevision)
    ensures Agrees(Run(config, s, commands), tenantId, grown)
    ensures Within(grown, TenantOf(Run(config, s, commands), tenantId).nextRevision)
    ensures forall n :: n in history ==> n in grown && grown[n] == history[n]
    decreases |commands|
  {
    if commands == [] {
      grown := history;
    } else {
      StepKeeps(config, s, commands[0]);
      HistoryGrows(config, s, commands[0], tenantId, history);
      grown := HistoryCovers(config, Step(config, s, commands[0]), commands[1..], tenantId,
                             Extended(config, s, commands[0], tenantId, history));
    }
  }

  /** A revision name stands for one document for ever: if a tenant's object has the same revision at two moments of a
      run, restores in between or not, it has the same content. A commit that names the revision it read therefore
      replaces what was read. */
  lemma RevisionNamesIdentifyContent(config: Config, before: seq<Command>, after: seq<Command>, tenantId: Id, o: Id, p: Id)
    requires var s := Run(config, INITIAL, before);
             var t := Run(config, s, after);
             && o in TenantOf(s, tenantId).documents && p in TenantOf(t, tenantId).documents
             && TenantOf(s, tenantId).documents[o].revision == TenantOf(t, tenantId).documents[p].revision
    ensures var s := Run(config, INITIAL, before);
            TenantOf(s, tenantId).documents[o] == TenantOf(Run(config, s, after), tenantId).documents[p]
  {
    var s := Run(config, INITIAL, before);
    RunKeeps(config, INITIAL, before);
    var early := HistoryCovers(config, INITIAL, before, tenantId, map[]);
    var late := HistoryCovers(config, s, after, tenantId, early);
  }

  // ---------------------------------------------------------------------------------------------
  // Commits.

  /** The record holds what was submitted: every member with its value and no other beside the revision, for this object,
      by this actor and at this time. */
  predicate Submitted(command: Command, record: Revision)
    requires command.Commit?
  {
    && record.actorId == command.meta.actorId && record.committedAt == command.meta.at && record.tenantId == command.meta.tenantId
    && record.objectId == command.objectId && record.parentRevision == command.expected
    && record.document.Keys == command.document.Keys + {"revision"} && record.document["revision"] == Str(record.revision)
    && forall key :: key in command.document && key != "revision" ==> record.document[key] == command.document[key]
  }

  /** A commit goes through exactly when it names the current revision, or none for a new object within the quota; it then
      stores what was submitted, following the current revision, and nothing else of the tenant's documents changes. */
  lemma CommitIsOptimistic(config: Config, tenant: Tenant, command: Command)
    requires command.Commit? && TenantOk(config, tenant, command.meta.tenantId)
    ensures var current, outcome := Current(tenant, command.objectId), CommitOutcome(config, tenant, command);
            outcome.Committed? <==>
            RevisionOf(current) == command.expected && (current.Some? || |tenant.documents| < config.maxDocuments)
    ensures CommitOutcome(config, tenant, command).DocumentConflict? <==>
            RevisionOf(Current(tenant, command.objectId)) != command.expected
    ensures CommitOutcome(config, tenant, command) in [DocumentConflict, TenantQuotaExceeded]
            || CommitOutcome(config, tenant, command).Committed?
    ensures var current, outcome := Current(tenant, command.objectId), CommitOutcome(config, tenant, command);
            outcome.Committed? ==>
              && Submitted(command, outcome.revision) && RevisionOf(current) != Some(outcome.revision.revision)
              && AfterCommit(config, tenant, command).documents == tenant.documents[command.objectId := outcome.revision]
    ensures !CommitOutcome(config, tenant, command).Committed? ==>
              AfterCommit(config, tenant, command) == tenant.(audits := AfterCommit(config, tenant, command).audits)
  {
    SpentName(config, tenant, command.objectId, command.meta.tenantId);
    assert MatchesExpected(Current(tenant, command.objectId), command.expected) <==>
           RevisionOf(Current(tenant, command.objectId)) == command.expected;
    RecordIsSubmitted(command, RevisionName(tenant.nextRevision));
    CommitMoves(config, tenant, command);
  }

  lemma CommitMoves(config: Config, tenant: Tenant, command: Command)
    requires command.Commit?
    ensures var outcome, after := CommitOutcome(config, tenant, command), AfterCommit(config, tenant, command);
            && (outcome.Committed? ==> after.documents == tenant.documents[command.objectId := outcome.revision])
            && (!outcome.Committed? ==> after == tenant.(audits := after.audits))
  {
  }

  lemma RecordIsSubmitted(command: Command, name: Id)
    requires command.Commit?
    ensures Submitted(command, Record(command, name, command.expected)) && Record(command, name, command.expected).revision == name
  {
  }

  /** The next name is not the current one. */
  lemma SpentName(config: Config, tenant: Tenant, objectId: Id, tenantId: Id)
    requires TenantOk(config, tenant, tenantId)
    ensures RevisionOf(Current(tenant, objectId)) != Some(RevisionName(tenant.nextRevision))
  {
    NamesCarryTheirNumber(tenant.nextRevision);
    if objectId in tenant.documents {
      assert RecordOk(tenant.documents[objectId], objectId, tenantId, tenant.nextRevision);
    }
  }

  // ---------------------------------------------------------------------------------------------
  // Backups.

  lemma {:induction false} BackupsStay(config: Config, s: State, commands: seq<Command>, backupId: Id)
    requires Inv(config, s) && backupId in s.backups
    ensures var t := Run(config, s, commands);
            backupId in t.backups && t.backups[backupId] == s.backups[backupId]
    decreases |commands|
  {
    if commands != [] {
      assert BackupOk(config, s, backupId);
      NamesCarryTheirNumber(s.nextBackup);
      StepKeeps(config, s, commands[0]);
      BackupsStay(config, Step(config, s, commands[0]), commands[1..], backupId);
    }
  }

  /** Whatever happens after a backup, restoring it succeeds and puts back exactly the documents and effects of that moment;
      the revision counter is not put back. */
  lemma RestoreIsExact(config: Config, s: State, backup: Meta, commands: seq<Command>, restore: Meta)
    requires Inv(config, s) && backup.tenantId == restore.tenantId
    ensures var backedUp := Step(config, s, CreateBackup(backup));
            var later := Run(config, backedUp, commands);
            var command := RestoreBackup(restore, BackupName(s.nextBackup));
            var restored := TenantOf(Step(config, later, command), restore.tenantId);
            && OutcomeOf(config, s, CreateBackup(backup)) == BackedUp(BackupName(s.nextBackup))
            && OutcomeOf(config, later, command) == Restored
            && restored.documents == TenantOf(s, restore.tenantId).documents && restored.effects == TenantOf(s, restore.tenantId).effects
            && restored.nextRevision == TenantOf(later, restore.tenantId).nextRevision
  {
    var backedUp := Step(config, s, CreateBackup(backup));
    var later := Run(config, backedUp, commands);
    var command := RestoreBackup(restore, BackupName(s.nextBackup));
    StepKeeps(config, s, CreateBackup(backup));
    BackupsStay(config, backedUp, commands, BackupName(s.nextBackup));
    assert Restorable(config, later, command) == Some(BackupOf(config, TenantOf(s, restore.tenantId), restore.tenantId));
    StepIsNext(config, later, command);
  }

  lemma StoredBackup(config: Config, s: State, meta: Meta, backupId: Id)
    requires backupId in s.backups && Intact(config, s.backups[backupId])
    ensures OutcomeOf(config, s, RestoreBackup(meta, backupId)) ==
            if s.backups[backupId].tenantId == meta.tenantId then Restored else BackupNotFound
    ensures s.backups[backupId].tenantId != meta.tenantId ==> Step(config, s, RestoreBackup(meta, backupId)) == s
  {
  }

  /** Whatever happens after a backup, the tenant that made it can restore it and no other: for everybody else it does not
      exist, and the attempt leaves no trace. */
  lemma OnlyTheOwnerRestores(config: Config, s: State, backup: Meta, commands: seq<Command>, restore: Meta)
    requires Inv(config, s)
    ensures var later := Run(config, Step(config, s, CreateBackup(backup)), commands);
            var command := RestoreBackup(restore, BackupName(s.nextBackup));
            && (OutcomeOf(config, later, command) == Restored <==> restore.tenantId == backup.tenantId)
            && (restore.tenantId != backup.tenantId ==>
                  OutcomeOf(config, later, command) == BackupNotFound && Step(config, later, command) == later)
  {
    var backedUp := Step(config, s, CreateBackup(backup));
    assert backedUp.backups[BackupName(s.nextBackup)] == BackupOf(config, TenantOf(s, backup.tenantId), backup.tenantId);
    StepKeeps(config, s, CreateBackup(backup));
    BackupsStay(config, backedUp, commands, BackupName(s.nextBackup));
    StoredBackup(config, Run(config, backedUp, commands), restore, BackupName(s.nextBackup));
  }

  // ---------------------------------------------------------------------------------------------
  // Effects.

  predicate Grants(config: Config, s: State, command: Command, tenantId: Id, key: Id) {
    command.Begin? && command.meta.tenantId == tenantId && command.key == key && OutcomeOf(config, s, command) == Leased(Acquired)
  }

  /** How often a key's lease is granted over a run. */
  function Granted(config: Config, s: State, commands: seq<Command>, tenantId: Id, key: Id): nat
    decreases |commands|
  {
    if commands == [] then 0
    else (if Grants(config, s, commands[0], tenantId, key) then 1 else 0)
         + Granted(config, Step(config, s, commands[0]), commands[1..], tenantId, key)
  }

  predicate Restores(command: Command, tenantId: Id) {
    command.RestoreBackup? && command.meta.tenantId == tenantId
  }

  /** Between restores of its tenant an effect key is granted at most once, and never again once it is known. */
  lemma {:induction false} GrantedAtMostOnce(config: Config, s: State, commands: seq<Command>, tenantId: Id, key: Id)
    requires forall k :: 0 <= k < |commands| ==> !Restores(commands[k], tenantId)
    ensures Granted(config, s, commands, tenantId, key) <= if key in TenantOf(s, tenantId).effects then 0 else 1
    decreases |commands|
  {
    if commands != [] {
      var t := Step(config, s, commands[0]);
      assert !Restores(commands[0], tenantId);
      GrantedAtMostOnce(config, t, commands[1..], tenantId, key);
      KeysStay(config, s, commands[0], tenantId, key);
    }
  }

  lemma KeysStay(config: Config, s: State, command: Command, tenantId: Id, key: Id)
    requires !Restores(command, tenantId)
    ensures key in TenantOf(s, tenantId).effects ==> key in TenantOf(Step(config, s, command), tenantId).effects
    ensures Grants(config, s, command, tenantId, key) ==>
              key !in TenantOf(s, tenantId).effects && key in TenantOf(Step(config, s, command), tenantId).effects
  {
    if command.meta.tenantId != tenantId {
      TenantsAreIsolated(config, s, command, tenantId);
    }
  }

  // ---------------------------------------------------------------------------------------------
  // Completed effects.

  predicate Finishes(command: Command, tenantId: Id, key: Id) {
    command.Finish? && command.meta.tenantId == tenantId && command.key == key
  }

  /** The result that the last completion of a key carries, or what was there before. */
  function LastResult(commands: seq<Command>, tenantId: Id, key: Id, result: Option<EffectResult>): Option<EffectResult> {
    if commands == [] then result else LastResult(commands[1..], tenantId, key, ResultAfter(commands[0], tenantId, key, result))
  }

  function ResultAfter(command: Command, tenantId: Id, key: Id, result: Option<EffectResult>): Option<EffectResult> {
    if Finishes(command, tenantId, key) then Some(command.result) else result
  }

  predicate Holds(s: State, tenantId: Id, key: Id, fingerprint: string, result: Option<EffectResult>) {
    key in TenantOf(s, tenantId).effects && TenantOf(s, tenantId).effects[key] == StoredEffect(fingerprint, result.None?, result)
  }

  lemma StepHolds(config: Config, s: State, command: Command, tenantId: Id, key: Id, fingerprint: string, result: Option<EffectResult>)
    requires Holds(s, tenantId, key, fingerprint, result) && !Restores(command, tenantId)
    ensures Holds(Step(config, s, command), tenantId, key, fingerprint, ResultAfter(command, tenantId, key, result))
  {
    if command.meta.tenantId != tenantId {
      TenantsAreIsolated(config, s, command, tenantId);
    }
  }

  lemma {:induction false} RunHolds(config: Config, s: State, commands: seq<Command>, tenantId: Id, key: Id, fingerprint: string,
                                    result: Option<EffectResult>)
    requires Holds(s, tenantId, key, fingerprint, result)
    requires forall k :: 0 <= k < |commands| ==> !Restores(commands[k], tenantId)
    ensures Holds(Run(config, s, commands), tenantId, key, fingerprint, LastResult(commands, tenantId, key, result))
    decreases |commands|
  {
    if commands != [] {
      assert !Restores(commands[0], tenantId);
      StepHolds(config, s, commands[0], tenantId, key, fingerprint, result);
      RunHolds(config, Step(config, s, commands[0]), commands[1..], tenantId, key, fingerprint,
               ResultAfter(commands[0], tenantId, key, result));
    }
  }

  /** A known key never runs again: after any run without a restore of its tenant, another fingerprint is a conflict, and the
      same one waits until the first completion and then replays the last; nothing changes. */
  lemma RepeatedKeysReplay(config: Config, s: State, commands: seq<Command>, again: Command)
    requires Inv(config, s) && again.Begin? && again.key in TenantOf(s, again.meta.tenantId).effects
    requires forall k :: 0 <= k < |commands| ==> !Restores(commands[k], again.meta.tenantId)
    ensures var tenantId, t := again.meta.tenantId, Run(config, s, commands);
            var stored := TenantOf(s, tenantId).effects[again.key];
            var last := LastResult(commands, tenantId, again.key, stored.result);
            && OutcomeOf(config, t, again) == Leased(
                 if stored.fingerprint != again.fingerprint then LeaseConflict else if last.None? then InProgress else Replay(last.value))
            && TenantOf(Step(config, t, again), tenantId) == TenantOf(t, tenantId)
  {
    var stored := TenantOf(s, again.meta.tenantId).effects[again.key];
    TenantIsOk(config, s, again.meta.tenantId);
    assert EffectOk(stored);
    RunHolds(config, s, commands, again.meta.tenantId, again.key, stored.fingerprint, stored.result);
    AnswerFor(config, Run(config, s, commands), again, stored.fingerprint, LastResult(commands, again.meta.tenantId, again.key, stored.result));
  }

  lemma AnswerFor(config: Config, t: State, again: Command, fingerprint: string, result: Option<EffectResult>)
    requires again.Begin? && Holds(t, again.meta.tenantId, again.key, fingerprint, result)
    ensures OutcomeOf(config, t, again) == Leased(
              if fingerprint != again.fingerprint then LeaseConflict else if result.None? then InProgress else Replay(result.value))
    ensures TenantOf(Step(config, t, again), again.meta.tenantId) == TenantOf(t, again.meta.tenantId)
  {
  }

  /** After a completion the same request is answered with the result completed last, over any run without a restore, and any
      other is a conflict. The first result is replayed exactly when no later completion carries another one last. */
  lemma LastCompletionIsReplayed(config: Config, s: State, finish: Command, commands: seq<Command>, again: Command)
    requires Inv(config, s) && finish.Finish? && finish.key in TenantOf(s, finish.meta.tenantId).effects
    requires forall k :: 0 <= k < |commands| ==> !Restores(commands[k], finish.meta.tenantId)
    requires again.Begin? && again.meta.tenantId == finish.meta.tenantId && again.key == finish.key
    ensures var fingerprint := TenantOf(s, finish.meta.tenantId).effects[finish.key].fingerprint;
            var t := Run(config, Step(config, s, finish), commands);
            var last := LastResult(commands, finish.meta.tenantId, finish.key, Some(finish.result));
            && last.Some?
            && OutcomeOf(config, t, again) == Leased(if again.fingerprint == fingerprint then Replay(last.value) else LeaseConflict)
            && (OutcomeOf(config, t, again) == Leased(Replay(finish.result)) <==>
                again.fingerprint == fingerprint && last.value == finish.result)
  {
    var stored := TenantOf(s, finish.meta.tenantId).effects[finish.key];
    var done := Step(config, s, finish);
    TenantIsOk(config, s, finish.meta.tenantId);
    assert EffectOk(stored);
    StepHolds(config, s, finish, finish.meta.tenantId, finish.key, stored.fingerprint, stored.result);
    StepKeeps(config, s, finish);
    RepeatedKeysReplay(config, done, commands, again);
    CompletedStays(commands, finish.meta.tenantId, finish.key, finish.result);
  }

  lemma {:induction false} CompletedStays(commands: seq<Command>, tenantId: Id, key: Id, result: EffectResult)
    ensures LastResult(commands, tenantId, key, Some(result)).Some?
  {
    if commands != [] {
      CompletedStays(commands[1..], tenantId, key, ResultAfter(commands[0], tenantId, key, Some(result)).value);
    }
  }

  /** The witness: completing a second time replaces the result that was replayed before. */
  lemma SecondCompletionOverwrites(config: Config, meta: Meta, key: Id, fingerprint: string, effectId: Id, objectId: Id,
                                   first: EffectResult, second: EffectResult)
    requires first != second
    ensures var begun := Step(config, INITIAL, Begin(meta, key, fingerprint));
            var once := Step(config, begun, Finish(meta, key, effectId, objectId, first));
            var twice := Step(config, once, Finish(meta, key, effectId, objectId, second));
            && OutcomeOf(config, INITIAL, Begin(meta, key, fingerprint)) == Leased(Acquired)
            && OutcomeOf(config, once, Begin(meta, key, fingerprint)) == Leased(Replay(first))
            && OutcomeOf(config, once, Finish(meta, key, effectId, objectId, second)) == Finished
            && OutcomeOf(config, twice, Begin(meta, key, fingerprint)) == Leased(Replay(second))
  {
    var begin, finish := Begin(meta, key, fingerprint), Finish(meta, key, effectId, objectId, first);
    var begun := Step(config, INITIAL, begin);
    InitialInv(config);
    StepKeeps(config, INITIAL, begin);
    StepKeeps(config, begun, finish);
    LastCompletionIsReplayed(config, begun, finish, [], begin);
    LastCompletionIsReplayed(config, Step(config, begun, finish), Finish(meta, key, effectId, objectId, second), [], begin);
  }

  // ---------------------------------------------------------------------------------------------
  // Isolation over runs.

  predicate SameContent(a: Tenant, b: Tenant) {
    a.documents == b.documents && a.effects == b.effects && a.nextRevision == b.nextRevision
  }

  /** The tenant's own commands, with its backups under the names they get in a store it has for itself. */
  function Alone(config: Config, s: State, commands: seq<Command>, tenantId: Id, names: map<Id, Id>, next: nat): seq<Command>
    decreases |commands|
  {
    if commands == [] then []
    else
      var command, after := commands[0], Step(config, s, commands[0]);
      if command.meta.tenantId != tenantId then Alone(config, after, commands[1..], tenantId, names, next)
      else if command.CreateBackup? then
        [command] + Alone(config, after, commands[1..], tenantId, names[BackupName(s.nextBackup) := BackupName(next)], next + 1)
      else [Renamed(command, names)] + Alone(config, after, commands[1..], tenantId, names, next)
  }

  function Renamed(command: Command, names: map<Id, Id>): Command {
    if command.RestoreBackup? then command.(backupId := if command.backupId in names then names[command.backupId] else "") else command
  }

  /** The tenant finds the same in both stores: its content, and its backups under their names. */
  ghost predicate Alike(s: State, t: State, tenantId: Id, names: map<Id, Id>) {
    && SameContent(TenantOf(s, tenantId), TenantOf(t, tenantId))
    && SameBackups(s.backups, t.backups, tenantId, names)
  }

  ghost predicate SameBackups(ours: map<Id, Backup>, theirs: map<Id, Backup>, tenantId: Id, names: map<Id, Id>) {
    && (forall b :: b in names <==> b in ours && ours[b].tenantId == tenantId)
    && (forall b :: b in names ==> names[b] in theirs && theirs[names[b]] == ours[b])
  }

  lemma OneMoreBackup(ours: map<Id, Backup>, theirs: map<Id, Backup>, tenantId: Id, names: map<Id, Id>, b: Id, c: Id, backup: Backup)
    requires SameBackups(ours, theirs, tenantId, names) && b !in ours && c !in theirs && backup.tenantId == tenantId
    ensures SameBackups(ours[b := backup], theirs[c := backup], tenantId, names[b := c])
  {
  }

  lemma SameNext(config: Config, a: Tenant, b: Tenant, command: Command, id: Id, other: Id, restorable: Option<Backup>, own: Command)
    requires SameContent(a, b) && own.meta.tenantId == command.meta.tenantId
    requires own == command || (own.RestoreBackup? && command.RestoreBackup?)
    ensures SameContent(Next(config, a, command, id, restorable), Next(config, b, own, other, restorable))
  {
  }

  lemma OwnStepAlike(config: Config, s: State, t: State, command: Command, names: map<Id, Id>)
    requires Inv(config, s) && Inv(config, t) && Alike(s, t, command.meta.tenantId, names) && !command.CreateBackup?
    requires "" !in t.backups
    ensures Alike(Step(config, s, command), Step(config, t, Renamed(command, names)), command.meta.tenantId, names)
    ensures Step(config, t, Renamed(command, names)).backups == t.backups
    ensures Step(config, t, Renamed(command, names)).nextBackup == t.nextBackup
  {
    var tenantId, own := command.meta.tenantId, Renamed(command, names);
    assert Restorable(config, s, command) == Restorable(config, t, own);
    StepIsNext(config, s, command);
    StepIsNext(config, t, own);
    SameNext(config, TenantOf(s, tenantId), TenantOf(t, tenantId), command, BackupName(s.nextBackup), BackupName(t.nextBackup),
             Restorable(config, s, command), own);
  }

  lemma BackupNameIsFree(config: Config, s: State)
    requires Inv(config, s)
    ensures BackupName(s.nextBackup) !in s.backups
  {
    NamesCarryTheirNumber(s.nextBackup);
    assert BackupName(s.nextBackup) in s.backups ==> BackupOk(config, s, BackupName(s.nextBackup));
  }

  lemma BackupStepAlike(config: Config, s: State, t: State, meta: Meta, names: map<Id, Id>)
    requires Inv(config, s) && Inv(config, t) && Alike(s, t, meta.tenantId, names)
    ensures Alike(Step(config, s, CreateBackup(meta)), Step(config, t, CreateBackup(meta)), meta.tenantId,
                  names[BackupName(s.nextBackup) := BackupName(t.nextBackup)])
  {
    var command, b, c := CreateBackup(meta), BackupName(s.nextBackup), BackupName(t.nextBackup);
    BackupNameIsFree(config, s);
    BackupNameIsFree(config, t);
    OneMoreBackup(s.backups, t.backups, meta.tenantId, names, b, c, BackupOf(config, TenantOf(s, meta.tenantId), meta.tenantId));
    StepIsNext(config, s, command);
    StepIsNext(config, t, command);
    SameNext(config, TenantOf(s, meta.tenantId), TenantOf(t, meta.tenantId), command, b, c, None, command);
  }

  lemma OtherStepAlike(config: Config, s: State, t: State, command: Command, tenantId: Id, names: map<Id, Id>)
    requires Inv(config, s) && Alike(s, t, tenantId, names) && command.meta.tenantId != tenantId
    ensures Inv(config, Step(config, s, command)) && Alike(Step(config, s, command), t, tenantId, names)
  {
    StepKeeps(config, s, command);
    TenantsAreIsolated(config, s, command, tenantId);
    NamesCarryTheirNumber(s.nextBackup);
    forall b | b in s.backups ensures NumberIn(BACKUP_PREFIX, b) < s.nextBackup {
      assert BackupOk(config, s, b);
    }
  }

  lemma OwnStep(config: Config, s: State, t: State, command: Command, names: map<Id, Id>) returns (own: Command, renamed: map<Id, Id>)
    requires Inv(config, s) && Inv(config, t) && Alike(s, t, command.meta.tenantId, names) && "" !in t.backups
    ensures own == if command.CreateBackup? then command else Renamed(command, names)
    ensures renamed == if command.CreateBackup? then names[BackupName(s.nextBackup) := BackupName(t.nextBackup)] else names
    ensures Inv(config, Step(config, s, command)) && Inv(config, Step(config, t, own)) && "" !in Step(config, t, own).backups
    ensures Alike(Step(config, s, command), Step(config, t, own), command.meta.tenantId, renamed)
    ensures Step(config, t, own).nextBackup == if command.CreateBackup? then t.nextBackup + 1 else t.nextBackup
  {
    if command.CreateBackup? {
      own, renamed := command, names[BackupName(s.nextBackup) := BackupName(t.nextBackup)];
      BackupStepAlike(config, s, t, command.meta, names);
    } else {
      own, renamed := Renamed(command, names), names;
      OwnStepAlike(config, s, t, command, names);
    }
    StepKeeps(config, s, command);
    StepKeeps(config, t, own);
  }

  lemma RunFirst(config: Config, s: State, command: Command, rest: seq<Command>)
    ensures Run(config, s, [command] + rest) == Run(config, Step(config, s, command), rest)
  {
    assert ([command] + rest)[1..] == rest;
  }

  /** Noninterference, backups and restores included: what a tenant's documents, effects and revision counter are after a run
      is what its own commands alone make of them in a store it has for itself, up to the names of its backups. */
  lemma {:induction false} OthersDoNotInterfere(config: Config, s: State, t: State, commands: seq<Command>, tenantId: Id,
                                                names: map<Id, Id>)
    requires Inv(config, s) && Inv(config, t) && Alike(s, t, tenantId, names) && "" !in t.backups
    ensures SameContent(TenantOf(Run(config, s, commands), tenantId),
                        TenantOf(Run(config, t, Alone(config, s, commands, tenantId, names, t.nextBackup)), tenantId))
    decreases |commands|
  {
    if commands != [] {
      if commands[0].meta.tenantId != tenantId {
        OtherStepAlike(config, s, t, commands[0], tenantId, names);
        OthersDoNotInterfere(config, Step(config, s, commands[0]), t, commands[1..], tenantId, names);
      } else {
        var after, next, renamed := OwnRuns(config, s, t, commands, names);
        OthersDoNotInterfere(config, after, next, commands[1..], tenantId, renamed);
      }
    }
  }

  /** Where the two stores are after the tenant's own first command. */
  lemma OwnRuns(config: Config, s: State, t: State, commands: seq<Command>, names: map<Id, Id>)
    returns (after: State, next: State, renamed: map<Id, Id>)
    requires commands != []
    requires Inv(config, s) && Inv(config, t) && Alike(s, t, commands[0].meta.tenantId, names) && "" !in t.backups
    ensures Inv(config, after) && Inv(config, next) && Alike(after, next, commands[0].meta.tenantId, renamed) && "" !in next.backups
    ensures Run(config, s, commands) == Run(config, after, commands[1..])
    ensures Run(config, t, Alone(config, s, commands, commands[0].meta.tenantId, names, t.nextBackup)) ==
            Run(config, next, Alone(config, after, commands[1..], commands[0].meta.tenantId, renamed, next.nextBackup))
  {
    var own;
    own, renamed := OwnStep(config, s, t, commands[0], names);
    after, next := Step(config, s, commands[0]), Step(config, t, own);
    OwnEquations(config, s, t, commands, names, own, renamed, after, next);
  }

  lemma OwnEquations(config: Config, s: State, t: State, commands: seq<Command>, names: map<Id, Id>, own: Command,
                     renamed: map<Id, Id>, after: State, next: State)
    requires commands != [] && after == Step(config, s, commands[0]) && next == Step(config, t, own)
    requires own == if commands[0].CreateBackup? then commands[0] else Renamed(commands[0], names)
    requires renamed == if commands[0].CreateBackup? then names[BackupName(s.nextBackup) := BackupName(t.nextBackup)] else names
    requires next.nextBackup == if commands[0].CreateBackup? then t.nextBackup + 1 else t.nextBackup
    ensures Run(config, s, commands) == Run(config, after, commands[1..])
    ensures Run(config, t, Alone(config, s, commands, commands[0].meta.tenantId, names, t.nextBackup)) ==
            Run(config, next, Alone(config, after, commands[1..], commands[0].meta.tenantId, renamed, next.nextBackup))
  {
    var rest := Alone(config, after, commands[1..], commands[0].meta.tenantId, renamed, next.nextBackup);
    AloneFirst(config, s, commands, names, t.nextBackup);
    assert Alone(config, s, commands, commands[0].meta.tenantId, names, t.nextBackup) == [own] + rest;
    RunFirst(config, t, own, rest);
  }

  lemma AloneFirst(config: Config, s: State, commands: seq<Command>, names: map<Id, Id>, next: nat)
    requires commands != []
    ensures var command, after, rest := commands[0], Step(config, s, commands[0]), commands[1..];
            Alone(config, s, commands, command.meta.tenantId, names, next) ==
            if command.CreateBackup?
            then [command] + Alone(config, after, rest, command.meta.tenantId, names[BackupName(s.nextBackup) := BackupName(next)], next + 1)
            else [Renamed(command, names)] + Alone(config, after, rest, command.meta.tenantId, names, next)
  {
  }
}
