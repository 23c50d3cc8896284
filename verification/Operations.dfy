/** The operations on one source: acquisition, delivery drain, source and measurement reset. */
module Operations {
  import opened Basics
  import opened Identifiers
  import opened Outbox
  import opened Delivery
  import opened StoreTypes
  import opened CommitManifests
  import opened Commit
  import opened Gate
  import opened Recovery

  // ---------------------------------------------------------------- delivery

  /** `validate_owner`: the record belongs to this source and to this emitter. */
  predicate OwnerMatches(owner: Owner, record: DeliveryRecord, sid: NodeId) {
    && record.envelope.sourceId == sid
    && match owner
       case SourceOwner => record.envelope.measurement.None?
       case MeasurementOwner(m) => record.envelope.measurement.Some? && record.envelope.measurement.value.id == m
  }

  /** The measurement instances a delivery commit must find unchanged. */
  function Touched(disk: Disk, owner: Owner): Result<map<NodeId, InstanceId>> {
    match owner
    case SourceOwner => Ok(map[])
    case MeasurementOwner(m) =>
      if disk.identity.Present? && m in disk.identity.value.measurements
      then Ok(map[m := disk.identity.value.measurements[m].instance]) else Err
  }

  function ConcludeDelivery(
    disk: Disk, sid: NodeId, next: SourceState, owner: Owner, entries: seq<Operation>, fault: Fault): Run
  {
    var touched := Touched(disk, owner);
    if touched.Err? then Stop(disk, fault)
    else
      var m := CommitManifest(sid, next.instance, next.generation, touched.value, map[], DeliveryResult, entries);
      ApplyCommit(disk, sid, m, fault)
  }

  function SourceInstall(files: Files, token: nat, next: SourceState): Operation {
    Install(SourceStateFile, StagedFile(token), Get(files, SourceStateFile), SourceStateDoc(next))
  }

  /** The outbox operations of one outcome; a dead letter is installed before its record goes. */
  function OutcomeEntries(
    owner: Owner, prior: DeliveryRecord, pending: Doc, execution: Execution, token: nat): seq<Operation>
  {
    var path := PendingFile(owner, prior.Key());
    match execution
    case Delivered => [Remove(path, pending)]
    case Retry(record) => [Install(path, StagedFile(token), Some(pending), RecordDoc(record))]
    case Dead(letter) =>
      [Install(DeadLetterFile(owner, prior.Key()), StagedFile(token), None, LetterDoc(letter)), Remove(path, pending)]
  }

  /** The second staged document of an outcome, when it has one. */
  function OutcomeDoc(execution: Execution): Option<Doc> {
    match execution
    case Delivered => None
    case Retry(record) => Some(RecordDoc(record))
    case Dead(letter) => Some(LetterDoc(letter))
  }

  predicate OutcomeFollows(prior: DeliveryRecord, execution: Execution) {
    match execution
    case Delivered => true
    case Retry(record) => record.SuccessorOf(prior)
    case Dead(letter) => letter.Valid() && letter.record.SuccessorOf(prior)
  }

  /** `commit_delivery_result`; `token` and `token + 1` are the two minted staging names. */
  function CommitDelivery(
    disk: Disk, sid: NodeId, state: SourceState, owner: Owner, prior: DeliveryRecord, execution: Execution,
    token: nat, fault: Fault): Run
    requires disk.storage.Present?
  {
    if !prior.ValidPending() || !OwnerMatches(owner, prior, sid) || prior.envelope.sourceInstance != state.instance
       || CheckedSucc(state.generation).None?
    then Stop(disk, fault)
    else
      var next := state.(generation := CheckedSucc(state.generation).value);
      var first := Stage(disk, token, SourceStateDoc(next), fault);
      if !first.outcome.Done? then first
      else
        var pending := Get(first.disk.Files(), PendingFile(owner, prior.Key()));
        if pending.None? || !OutcomeFollows(prior, execution) then Stop(first.disk, first.fault)
        else
          var second := StageOutcome(first.disk, execution, token + 1, first.fault);
          if !second.outcome.Done? then second
          else
            var entries := [SourceInstall(disk.Files(), token, next)]
                           + OutcomeEntries(owner, prior, pending.value, execution, token + 1);
            ConcludeDelivery(second.disk, sid, next, owner, entries, second.fault)
  }

  /** The outcome's own document, when it has one. */
  function StageOutcome(disk: Disk, execution: Execution, token: nat, fault: Fault): (r: Run)
    requires disk.storage.Present?
    ensures r.disk.storage.Present?
  {
    if OutcomeDoc(execution).None? then Finish(disk, fault) else Stage(disk, token, OutcomeDoc(execution).value, fault)
  }

  /**
    `drain_source_outbox_once` and `drain_measurement_outbox_once` for one due record. `key` says
    which due record is taken, so every choice of a due record is covered.
   */
  function Drain(
    disk: Disk, sid: NodeId, owner: Owner, key: RecordKey, facts: AttemptFacts, token: nat, fault: Fault): Run
  {
    var turn := TurnEntry(disk, sid, fault);
    if !turn.run.outcome.Done? || turn.verdict != ReadyTurn then turn.run
    else
      var disk1, fault1 := turn.run.disk, turn.run.fault;
      var declared := if owner.MeasurementOwner? then {owner.id} else {};
      var inspection := Inspect(disk1, sid, declared);
      if !inspection.source.ReadySource? then Finish(disk1, fault1)
      else if owner.MeasurementOwner?
        && !(owner.id in inspection.measurements && inspection.measurements[owner.id].ReadyMeasurement?)
      then Finish(disk1, fault1)
      else if !disk1.storage.Present? then Stop(disk1, fault1)
      else
        var pending := Get(disk1.Files(), PendingFile(owner, key));
        if !(pending.Some? && pending.value.RecordDoc?) || pending.value.record.nextRetryAt > facts.at
          then Finish(disk1, fault1)
        else
          var execution := Executed(pending.value.record, facts);
          if execution.Err? then Stop(disk1, fault1)
          else CommitDelivery(disk1, sid, inspection.source.state, owner, pending.value.record, execution.value, token,
            fault1)
  }

  // ---------------------------------------------------------------- one commit, from a quiet store

  /**
    The commit point. From a quiet store whose files satisfy the manifest's guards, the commit is
    never refused; cut before the manifest write it has not happened, cut anywhere later it will
    happen in full.
   */
  lemma ApplyCommitAtomic(disk: Disk, sid: NodeId, m: CommitManifest, fault: Fault)
    requires Quiet(disk, sid) && disk.identity.Present? && disk.storage.Present?
    requires CommitPending(disk, m, sid) && Coherent(CommitGoal(disk, m), sid)
    ensures
      var r := ApplyCommit(disk, sid, m, fault);
      && r.outcome != Failed
      && Recoverable(r.disk, sid)
      && (fault.budget == 0 ==> r.disk == disk && r.outcome == Crashed)
      && (fault.budget > 0 ==> Goal(r.disk, sid) == CommitGoal(disk, m))
      && (r.outcome.Done? ==> View(r.disk) == CommitGoal(disk, m))
  {
    if fault.budget > 0 {
      var committing := disk.WithCommit(Present(m));
      assert Committing(committing, sid);
      RecoverCommitConverges(committing, sid, fault.(budget := fault.budget - 1));
      var r := RecoverCommit(committing, sid, fault.(budget := fault.budget - 1));
      if r.outcome.Done? {
        QuietUpToStaging(r.disk, CommitGoal(disk, m), sid);
      }
    }
  }

  /** With one step per entry and three more, a commit is not cut. */
  lemma ApplyCommitIsNotCut(disk: Disk, sid: NodeId, m: CommitManifest, fault: Fault)
    requires disk.storage.Present? && fault.budget >= |m.entries| + 3
    ensures !ApplyCommit(disk, sid, m, fault).outcome.Crashed?
  {
    RecoverCommitCompletes(disk.WithCommit(Present(m)), sid, fault.(budget := fault.budget - 1));
  }

  /** Recovery of a commit keeps its manifest or removes it. */
  lemma RecoveryKeepsManifest(disk: Disk, sid: NodeId, fault: Fault)
    requires disk.storage.Present?
    ensures
      var r := RecoverCommit(disk, sid, fault).disk;
      r.storage.Present? && (r.storage.value.commit == disk.storage.value.commit || r.storage.value.commit == Absent)
  {
  }

  /** A commit leaves no other manifest than its own. */
  lemma CommitLeavesManifest(disk: Disk, sid: NodeId, m: CommitManifest, fault: Fault)
    requires disk.storage.Present? && disk.storage.value.commit.Absent?
    ensures
      var r := ApplyCommit(disk, sid, m, fault).disk;
      r.storage.Present? && (r.storage.value.commit == Present(m) || r.storage.value.commit == Absent)
  {
    if fault.budget > 0 {
      RecoveryKeepsManifest(disk.WithCommit(Present(m)), sid, fault.(budget := fault.budget - 1));
    }
  }

  /** The files a delivery outcome leads to. */
  function OutcomeFiles(files: Files, owner: Owner, key: RecordKey, next: SourceState, execution: Execution): Files {
    var advanced := Durable(files)[SourceStateFile := SourceStateDoc(next)];
    match execution
    case Delivered => advanced - {PendingFile(owner, key)}
    case Retry(record) => advanced[PendingFile(owner, key) := RecordDoc(record)]
    case Dead(letter) => advanced[DeadLetterFile(owner, key) := LetterDoc(letter)] - {PendingFile(owner, key)}
  }

  /** The outcome is one the attempt itself can produce for this record. */
  predicate OutcomeSound(prior: DeliveryRecord, execution: Execution) {
    && OutcomeFollows(prior, execution)
    && (execution.Retry? ==> execution.record.ValidPending())
  }

  /** A quiet store, its record pending, and an outcome that follows. */
  ghost predicate DeliveryDue(
    disk: Disk, sid: NodeId, state: SourceState, owner: Owner, prior: DeliveryRecord, execution: Execution)
  {
    && Quiet(disk, sid) && disk.identity.Present? && disk.storage.Present?
    && ReadSourceState(disk.Files()) == Present(state) && state.generation < U64_MAX
    && Get(disk.Files(), PendingFile(owner, prior.Key())) == Some(RecordDoc(prior))
    && OutcomeSound(prior, execution)
  }

  /** What a delivery commit relies on: it is due, and a dead letter finds its place. */
  ghost predicate DeliverySound(
    disk: Disk, sid: NodeId, state: SourceState, owner: Owner, prior: DeliveryRecord, execution: Execution)
  {
    DeliveryDue(disk, sid, state, owner, prior, execution) && FindsPlace(disk.Files(), owner, execution)
  }

  /** The place of a dead letter is free, or holds this very letter already. */
  predicate PlaceFree(files: Files, owner: Owner, letter: DeadLetter) {
    var there := Get(files, DeadLetterFile(owner, letter.record.Key()));
    there == None || there == Some(LetterDoc(letter))
  }

  predicate FindsPlace(files: Files, owner: Owner, execution: Execution) {
    execution.Dead? ==> PlaceFree(files, owner, execution.letter)
  }

  function Advanced(state: SourceState): SourceState {
    state.(generation := state.generation + 1)
  }

  /** In a quiet store a pending record passes every check its delivery makes. */
  lemma PendingPassesChecks(
    disk: Disk, sid: NodeId, state: SourceState, owner: Owner, prior: DeliveryRecord, execution: Execution)
    requires DeliveryDue(disk, sid, state, owner, prior, execution)
    ensures prior.ValidPending() && OwnerMatches(owner, prior, sid)
    ensures prior.envelope.sourceInstance == state.instance == disk.identity.value.instance
    ensures Touched(disk, owner).Ok?
  {
    var files, identity := disk.Files(), disk.identity.value;
    assert FileFits(SourceStateFile, files[SourceStateFile], identity, sid);
    assert FileFits(PendingFile(owner, prior.Key()), files[PendingFile(owner, prior.Key())], identity, sid);
  }

  predicate StagedClear(files: Files, token: nat) {
    StagedFile(token) !in files && StagedFile(token + 1) !in files
  }

  /** The entries of a delivery manifest settle to the outcome's files. */
  lemma DeliveryEntriesSettle(
    files: Files, staged: Files, owner: Owner, prior: DeliveryRecord, next: SourceState, execution: Execution,
    token: nat)
    requires Durable(staged) == Durable(files)
    requires PendingFile(owner, prior.Key()) in files
    ensures
      var entries := [SourceInstall(files, token, next)]
                     + OutcomeEntries(owner, prior, files[PendingFile(owner, prior.Key())], execution, token + 1);
      Committed(staged, entries) == OutcomeFiles(files, owner, prior.Key(), next, execution)
  {
    var key := prior.Key();
    var path := PendingFile(owner, key);
    var entries := [SourceInstall(files, token, next)]
      + OutcomeEntries(owner, prior, files[path], execution, token + 1);
    var after := OutcomeFiles(files, owner, key, next, execution);
    assert DistinctFinals(entries) && EachValid(entries);
    CommittedExact(staged, entries);
    forall p ensures Get(Committed(staged, entries), p) == Get(after, p) {
      CommittedAt(staged, entries, p);
      assert Get(Durable(staged), p) == Get(Durable(files), p);
      if p in Finals(entries) {
        var i :| 0 <= i < |entries| && entries[i].final == p;
        assert Get(Committed(staged, entries), p) == entries[i].Effect();
        assert i == 0 || i == 1 || i == 2;
      } else {
        assert entries[0].final in Finals(entries) && entries[1].final in Finals(entries);
        assert execution.Dead? ==> entries[2].final in Finals(entries);
      }
    }
    SameFiles(Committed(staged, entries), after);
  }

  /** What every outcome keeps: each remaining file still fits. */
  lemma OutcomeFilesSound(
    disk: Disk, sid: NodeId, owner: Owner, prior: DeliveryRecord, next: SourceState, execution: Execution)
    requires Quiet(disk, sid) && disk.identity.Present? && disk.storage.Present?
    requires Get(disk.Files(), PendingFile(owner, prior.Key())) == Some(RecordDoc(prior))
    requires OutcomeSound(prior, execution)
    requires next.generation > 0 && next.instance == disk.identity.value.instance
    ensures FilesCoherent(OutcomeFiles(disk.Files(), owner, prior.Key(), next, execution), disk.identity.value, sid)
  {
    var files, identity, key := disk.Files(), disk.identity.value, prior.Key();
    var after := OutcomeFiles(files, owner, key, next, execution);
    forall p | p in after ensures FileFits(p, after[p], identity, sid) {
      OutcomeFileFits(files, identity, sid, owner, prior, next, execution, p);
    }
  }

  lemma OutcomeFileFits(
    files: Files, identity: SourceIdentity, sid: NodeId, owner: Owner, prior: DeliveryRecord, next: SourceState,
    execution: Execution, p: Path)
    requires FilesCoherent(files, identity, sid)
    requires Get(files, PendingFile(owner, prior.Key())) == Some(RecordDoc(prior))
    requires OutcomeSound(prior, execution)
    requires next.generation > 0 && next.instance == identity.instance
    requires p in OutcomeFiles(files, owner, prior.Key(), next, execution)
    ensures FileFits(p, OutcomeFiles(files, owner, prior.Key(), next, execution)[p], identity, sid)
  {
    assert FileFits(PendingFile(owner, prior.Key()), files[PendingFile(owner, prior.Key())], identity, sid);
    assert p in files ==> FileFits(p, files[p], identity, sid);
  }

  /** The disk a completed delivery outcome leaves, staging aside. */
  function OutcomeDisk(disk: Disk, owner: Owner, key: RecordKey, next: SourceState, execution: Execution): Disk
    requires disk.storage.Present?
  {
    Disk(disk.identity, Present(Storage(OutcomeFiles(disk.Files(), owner, key, next, execution), Absent)), false,
      Absent)
  }

  function DeliveryManifest(
    disk: Disk, sid: NodeId, next: SourceState, owner: Owner, prior: DeliveryRecord, execution: Execution, token: nat,
    touched: map<NodeId, InstanceId>): CommitManifest
    requires disk.storage.Present? && PendingFile(owner, prior.Key()) in disk.Files()
  {
    CommitManifest(sid, next.instance, next.generation, touched, map[], DeliveryResult,
      [SourceInstall(disk.Files(), token, next)]
      + OutcomeEntries(owner, prior, disk.Files()[PendingFile(owner, prior.Key())], execution, token + 1))
  }

  /** The staged disk: the quiet store plus the documents a delivery manifest installs. */
  ghost predicate DeliveryStaged(disk: Disk, staged: Disk, next: SourceState, execution: Execution, token: nat)
    requires disk.storage.Present?
  {
    && staged.storage.Present? && staged == disk.WithFiles(staged.Files())
    && (forall p: Path :: !p.StagedFile? ==> Get(staged.Files(), p) == Get(disk.Files(), p))
    && Get(staged.Files(), StagedFile(token)) == Some(SourceStateDoc(next))
    && (OutcomeDoc(execution).Some? ==> Get(staged.Files(), StagedFile(token + 1)) == OutcomeDoc(execution))
  }

  /** Every guard of a delivery manifest holds, and its record is still there to be handed over. */
  lemma DeliveryReady(
    disk: Disk, staged: Disk, sid: NodeId, next: SourceState, owner: Owner, prior: DeliveryRecord, execution: Execution,
    token: nat, touched: map<NodeId, InstanceId>)
    requires disk.storage.Present? && DeliveryStaged(disk, staged, next, execution, token)
    requires OutcomeSound(prior, execution) && FindsPlace(disk.Files(), owner, execution)
    requires Get(disk.Files(), PendingFile(owner, prior.Key())) == Some(RecordDoc(prior))
    ensures AllReady(staged.Files(), DeliveryManifest(disk, sid, next, owner, prior, execution, token, touched).entries)
    ensures HandedOver(staged.Files(),
      DeliveryManifest(disk, sid, next, owner, prior, execution, token, touched).entries)
  {
    var place := DeadLetterFile(owner, prior.Key());
    assert Get(staged.Files(), place) == Get(disk.Files(), place);
    assert Get(staged.Files(), PendingFile(owner, prior.Key())) == Some(RecordDoc(prior));
  }

  /** With its documents staged, a delivery manifest is pending. */
  lemma DeliveryManifestPending(
    disk: Disk, staged: Disk, sid: NodeId, state: SourceState, owner: Owner, prior: DeliveryRecord,
    execution: Execution,
    token: nat, touched: map<NodeId, InstanceId>)
    requires DeliverySound(disk, sid, state, owner, prior, execution)
    requires DeliveryStaged(disk, staged, Advanced(state), execution, token)
    requires Touched(disk, owner) == Ok(touched)
    ensures CommitPending(staged, DeliveryManifest(disk, sid, Advanced(state), owner, prior, execution, token, touched),
      sid)
  {
    PendingPassesChecks(disk, sid, state, owner, prior, execution);
    assert Get(staged.Files(), SourceStateFile) == Get(disk.Files(), SourceStateFile);
    DeliveryManifestValid(disk, sid, Advanced(state), owner, prior, execution, token, touched);
    DeliveryReady(disk, staged, sid, Advanced(state), owner, prior, execution, token, touched);
  }

  lemma StagedEntriesSettle(
    disk: Disk, staged: Disk, owner: Owner, prior: DeliveryRecord, next: SourceState, execution: Execution, token: nat)
    requires disk.storage.Present? && PendingFile(owner, prior.Key()) in disk.Files()
    requires DeliveryStaged(disk, staged, next, execution, token)
    ensures
      var entries := [SourceInstall(disk.Files(), token, next)]
        + OutcomeEntries(owner, prior, disk.Files()[PendingFile(owner, prior.Key())], execution, token + 1);
      Committed(staged.Files(), entries) == OutcomeFiles(disk.Files(), owner, prior.Key(), next, execution)
  {
    SameFilesDurable(staged.Files(), disk.Files());
    DeliveryEntriesSettle(disk.Files(), staged.Files(), owner, prior, next, execution, token);
  }

  /** It aims at the outcome. */
  lemma DeliveryManifestAims(
    disk: Disk, staged: Disk, sid: NodeId, state: SourceState, owner: Owner, prior: DeliveryRecord,
    execution: Execution,
    token: nat, touched: map<NodeId, InstanceId>)
    requires DeliverySound(disk, sid, state, owner, prior, execution)
    requires DeliveryStaged(disk, staged, Advanced(state), execution, token)
    requires Touched(disk, owner) == Ok(touched)
    ensures CommitGoal(staged, DeliveryManifest(disk, sid, Advanced(state), owner, prior, execution, token, touched))
            == OutcomeDisk(disk, owner, prior.Key(), Advanced(state), execution)
  {
    StagedEntriesSettle(disk, staged, owner, prior, Advanced(state), execution, token);
    assert Registered(disk.identity.value, map[]) == disk.identity.value;
  }

  lemma SameFilesDurable(a: Files, b: Files)
    requires forall p: Path :: !p.StagedFile? ==> Get(a, p) == Get(b, p)
    ensures Durable(a) == Durable(b)
  {
    forall p ensures Get(Durable(a), p) == Get(Durable(b), p) {
      assert !p.StagedFile? ==> Get(a, p) == Get(b, p);
    }
    SameFiles(Durable(a), Durable(b));
  }

  lemma DeliveryManifestValid(
    disk: Disk, sid: NodeId, next: SourceState, owner: Owner, prior: DeliveryRecord, execution: Execution, token: nat,
    touched: map<NodeId, InstanceId>)
    requires disk.storage.Present? && PendingFile(owner, prior.Key()) in disk.Files() && next.generation > 0
    ensures
      var m := DeliveryManifest(disk, sid, next, owner, prior, execution, token, touched);
      Valid(m) && InstallsSuccessor(m) && HandsOver(m.entries)
  {
    var m := DeliveryManifest(disk, sid, next, owner, prior, execution, token, touched);
    assert m.entries[0] == SourceInstall(disk.Files(), token, next);
  }

  /** The durable steps before a delivery's commit point: its staged documents. */
  function StagingSteps(execution: Execution): nat {
    if execution.Delivered? then 1 else 2
  }

  /** The two staged documents of a delivery, in order; staging never shows. */
  function StageDelivery(disk: Disk, state: SourceState, execution: Execution, token: nat, fault: Fault): (r: Run)
    requires disk.storage.Present?
    ensures r.disk.storage.Present?
  {
    var first := Stage(disk, token, SourceStateDoc(Advanced(state)), fault);
    if !first.outcome.Done? then first else StageOutcome(first.disk, execution, token + 1, first.fault)
  }

  lemma DeliveryStages(disk: Disk, sid: NodeId, state: SourceState, execution: Execution, token: nat, fault: Fault)
    requires Quiet(disk, sid) && disk.storage.Present?
    ensures
      var r := StageDelivery(disk, state, execution, token, fault);
      && Quiet(r.disk, sid) && Goal(r.disk, sid) == View(disk)
      && (r.outcome.Done? ==>
            && DeliveryStaged(disk, r.disk, Advanced(state), execution, token)
            && r.fault.budget == fault.budget - StagingSteps(execution))
      && (StagedClear(disk.Files(), token) ==> r.outcome == if fault.budget < StagingSteps(execution) then Crashed
            else Done)
  {
    StagingInvisible(disk, sid, token, SourceStateDoc(Advanced(state)), fault);
    var first := Stage(disk, token, SourceStateDoc(Advanced(state)), fault);
    if first.outcome.Done? {
      assert Get(first.disk.Files(), StagedFile(token + 1)) == Get(disk.Files(), StagedFile(token + 1));
      OutcomeStagingInvisible(first.disk, sid, execution, token + 1, first.fault);
    }
  }

  /** Past its checks, a delivery commit stages and concludes. */
  lemma CommitDeliveryUnfolds(
    disk: Disk, sid: NodeId, state: SourceState, owner: Owner, prior: DeliveryRecord, execution: Execution, token: nat,
    fault: Fault)
    requires DeliveryDue(disk, sid, state, owner, prior, execution)
    ensures
      var staged := StageDelivery(disk, state, execution, token, fault);
      var entries := [SourceInstall(disk.Files(), token, Advanced(state))]
        + OutcomeEntries(owner, prior, RecordDoc(prior), execution, token + 1);
      CommitDelivery(disk, sid, state, owner, prior, execution, token, fault) ==
      if !staged.outcome.Done? then staged
        else ConcludeDelivery(staged.disk, sid, Advanced(state), owner, entries, staged.fault)
  {
    PendingPassesChecks(disk, sid, state, owner, prior, execution);
    var first := Stage(disk, token, SourceStateDoc(Advanced(state)), fault);
    if first.outcome.Done? {
      assert Get(first.disk.Files(), PendingFile(owner, prior.Key())) == Some(RecordDoc(prior));
    }
  }

  /**
    Crash atomicity of a delivery commit, step by step: cut while staging or before the manifest
    write, the old state stands; cut at any later step, the outcome stands in full, with the
    generation up by one. The minted staging names only have to be unused for it to be reached.
   */
  lemma DeliveryCommitAtomic(
    disk: Disk, sid: NodeId, state: SourceState, owner: Owner, prior: DeliveryRecord, execution: Execution, token: nat,
    fault: Fault)
    requires DeliverySound(disk, sid, state, owner, prior, execution)
    ensures
      var r := CommitDelivery(disk, sid, state, owner, prior, execution, token, fault);
      var outcome := OutcomeDisk(disk, owner, prior.Key(), Advanced(state), execution);
      && Recoverable(r.disk, sid)
      && (Goal(r.disk, sid) == View(disk) || Goal(r.disk, sid) == outcome)
      && (r.outcome.Done? ==> Goal(r.disk, sid) == outcome && View(r.disk) == outcome)
      && (StagedClear(disk.Files(), token) ==>
            && r.outcome != Failed
            && Goal(r.disk, sid) == (if fault.budget <= StagingSteps(execution) then View(disk) else outcome))
  {
    CommitDeliveryUnfolds(disk, sid, state, owner, prior, execution, token, fault);
    DeliveryStages(disk, sid, state, execution, token, fault);
    var staged := StageDelivery(disk, state, execution, token, fault);
    if staged.outcome.Done? {
      ConclusionAtomic(disk, staged.disk, sid, state, owner, prior, execution, token, staged.fault);
    }
  }

  lemma OutcomeStagingInvisible(disk: Disk, sid: NodeId, execution: Execution, token: nat, fault: Fault)
    requires Quiet(disk, sid) && disk.storage.Present?
    ensures
      var r := StageOutcome(disk, execution, token, fault);
      && Quiet(r.disk, sid) && Goal(r.disk, sid) == View(disk)
      && r.disk == disk.WithFiles(r.disk.Files())
      && (r.outcome.Done? ==>
            && (OutcomeDoc(execution).Some? ==> Get(r.disk.Files(), StagedFile(token)) == OutcomeDoc(execution))
            && forall p :: p != StagedFile(token) ==> Get(r.disk.Files(), p) == Get(disk.Files(), p))
  {
    if OutcomeDoc(execution).Some? {
      StagingInvisible(disk, sid, token, OutcomeDoc(execution).value, fault);
    }
  }

  /** Once its documents are staged, concluding a delivery is one normal commit, of this manifest. */
  function ConclusionManifest(
    disk: Disk, sid: NodeId, state: SourceState, owner: Owner, prior: DeliveryRecord, execution: Execution, token: nat)
    : CommitManifest
    requires DeliveryDue(disk, sid, state, owner, prior, execution) && Touched(disk, owner).Ok?
  {
    DeliveryManifest(disk, sid, Advanced(state), owner, prior, execution, token, Touched(disk, owner).value)
  }

  lemma ConclusionIsCommit(
    disk: Disk, staged: Disk, sid: NodeId, state: SourceState, owner: Owner, prior: DeliveryRecord,
    execution: Execution, token: nat, fault: Fault)
    requires DeliverySound(disk, sid, state, owner, prior, execution)
    requires DeliveryStaged(disk, staged, Advanced(state), execution, token)
    ensures
      var entries := [SourceInstall(disk.Files(), token, Advanced(state))]
        + OutcomeEntries(owner, prior, RecordDoc(prior), execution, token + 1);
      && Touched(disk, owner).Ok?
      && ConcludeDelivery(staged, sid, Advanced(state), owner, entries, fault)
         == ApplyCommit(staged, sid, ConclusionManifest(disk, sid, state, owner, prior, execution, token), fault)
  {
    PendingPassesChecks(disk, sid, state, owner, prior, execution);
  }

  lemma ConclusionPending(
    disk: Disk, staged: Disk, sid: NodeId, state: SourceState, owner: Owner, prior: DeliveryRecord,
    execution: Execution, token: nat)
    requires DeliverySound(disk, sid, state, owner, prior, execution) && Touched(disk, owner).Ok?
    requires DeliveryStaged(disk, staged, Advanced(state), execution, token)
    ensures
      var m := ConclusionManifest(disk, sid, state, owner, prior, execution, token);
      && CommitPending(staged, m, sid)
      && CommitGoal(staged, m) == OutcomeDisk(disk, owner, prior.Key(), Advanced(state), execution)
      && Coherent(CommitGoal(staged, m), sid)
  {
    var touched := Touched(disk, owner).value;
    DeliveryManifestPending(disk, staged, sid, state, owner, prior, execution, token, touched);
    DeliveryManifestAims(disk, staged, sid, state, owner, prior, execution, token, touched);
    OutcomeFilesSound(disk, sid, owner, prior, Advanced(state), execution);
  }

  /** From the staged disk on, one durable step decides. */
  lemma ConclusionAtomic(
    disk: Disk, staged: Disk, sid: NodeId, state: SourceState, owner: Owner, prior: DeliveryRecord,
    execution: Execution,
    token: nat, fault: Fault)
    requires DeliverySound(disk, sid, state, owner, prior, execution)
    requires Quiet(staged, sid) && DeliveryStaged(disk, staged, Advanced(state), execution, token)
    ensures
      var entries := [SourceInstall(disk.Files(), token, Advanced(state))]
        + OutcomeEntries(owner, prior, RecordDoc(prior), execution, token + 1);
      var r := ConcludeDelivery(staged, sid, Advanced(state), owner, entries, fault);
      var outcome := OutcomeDisk(disk, owner, prior.Key(), Advanced(state), execution);
      && r.outcome != Failed && Recoverable(r.disk, sid)
      && (fault.budget == 0 ==> r.disk == staged && r.outcome == Crashed)
      && (fault.budget > 0 ==> Goal(r.disk, sid) == outcome)
      && (r.outcome.Done? ==> View(r.disk) == outcome)
  {
    ConclusionIsCommit(disk, staged, sid, state, owner, prior, execution, token, fault);
    ConclusionPending(disk, staged, sid, state, owner, prior, execution, token);
    ApplyCommitAtomic(staged, sid, ConclusionManifest(disk, sid, state, owner, prior, execution, token), fault);
  }

  /** Staging, torn or not, never shows. */
  lemma StagingInvisible(disk: Disk, sid: NodeId, token: nat, doc: Doc, fault: Fault)
    requires Quiet(disk, sid) && disk.storage.Present?
    ensures
      var r := Stage(disk, token, doc, fault);
      && Quiet(r.disk, sid) && View(r.disk) == View(disk) && Goal(r.disk, sid) == View(disk)
      && r.disk == disk.WithFiles(r.disk.Files())
      && (r.outcome.Done? ==>
            && Get(r.disk.Files(), StagedFile(token)) == Some(doc)
            && forall p :: p != StagedFile(token) ==> Get(r.disk.Files(), p) == Get(disk.Files(), p))
  {
    var r := Stage(disk, token, doc, fault);
    assert Durable(r.disk.Files()) == Durable(disk.Files());
    ViewKeepsCoherence(disk, sid);
    QuietUpToStaging(r.disk, View(disk), sid);
  }
}
