/**
  Record conservation, one step at a time: what a commit aims to hold is on disk or about to be, and what
  is on disk stays there as long as the aim keeps it, wherever the step is cut.
 */
module Conservation {
  import opened Basics
  import opened Identifiers
  import opened Outbox
  import opened Delivery
  import opened StoreTypes
  import opened CommitManifests
  import opened Commit
  import opened Gate
  import opened Lineage
  import opened Recovery
  import opened Operations
  import opened Acquisition
  import opened Cycle
  import opened Resets
  import opened Stuck
  import opened Runs

  datatype Ref = Ref(owner: Owner, key: RecordKey)

  predicate HasRecord(files: Files, ref: Ref) {
    PendingFile(ref.owner, ref.key) in files
  }

  predicate HasLetter(files: Files, ref: Ref) {
    DeadLetterFile(ref.owner, ref.key) in files
  }

  /** The key is in at least one of its emitter's queues. */
  predicate Queued(files: Files, ref: Ref) {
    HasRecord(files, ref) || HasLetter(files, ref)
  }

  predicate SameQueues(a: Files, b: Files, ref: Ref) {
    (HasRecord(a, ref) <==> HasRecord(b, ref)) && (HasLetter(a, ref) <==> HasLetter(b, ref))
  }

  function FilesOf(disk: Disk): Files {
    if disk.storage.Present? then disk.Files() else map[]
  }

  lemma ViewHolds(a: Disk, b: Disk, ref: Ref)
    requires View(a) == View(b)
    ensures SameQueues(FilesOf(a), FilesOf(b), ref) && SameQueues(FilesOf(View(a)), FilesOf(a), ref)
  {
    if a.storage.Present? {
      assert b.storage.Present?;
      assert View(a).Files() == Durable(a.Files()) && View(b).Files() == Durable(b.Files());
      DurableGet(a.Files(), b.Files(), PendingFile(ref.owner, ref.key));
      DurableGet(a.Files(), b.Files(), DeadLetterFile(ref.owner, ref.key));
    }
  }

  // ---------------------------------------------------------------- queued, or about to be

  predicate Arrives(files: Files, op: Operation, ref: Ref) {
    op.Install? && op.final == PendingFile(ref.owner, ref.key) && Get(files, op.staged) == Some(op.result)
  }

  /** The durable commit manifest still installs the pending record, and its staged file holds it. */
  predicate Arriving(disk: Disk, ref: Ref) {
    && disk.storage.Present? && disk.storage.value.commit.Present?
    && exists i :: 0 <= i < |disk.storage.value.commit.value.entries|
                   && Arrives(disk.Files(), disk.storage.value.commit.value.entries[i], ref)
  }

  /** A committed pending record is installed already, or its staged file is still there to be installed. */
  lemma PendingInstalledOrStaged(files: Files, ops: seq<Operation>, ref: Ref)
    requires DistinctFinals(ops) && EachValid(ops) && AllReady(files, ops)
    requires PendingFile(ref.owner, ref.key) in Committed(files, ops)
    ensures PendingFile(ref.owner, ref.key) in files || exists i :: 0 <= i < |ops| && Arrives(files, ops[i], ref)
  {
    var pending := PendingFile(ref.owner, ref.key);
    CommittedExact(files, ops);
    if pending in Finals(ops) {
      var k :| 0 <= k < |ops| && ops[k].final == pending;
      assert Get(Committed(files, ops), pending) == ops[k].Effect();
      assert Ready(files, ops[k]);
      assert pending in files || Arrives(files, ops[k], ref);
    } else {
      assert Get(Committed(files, ops), pending) == Get(files, pending);
    }
  }

  /** A committed dead letter is in place already, or the record it replaces still is. */
  lemma LetterInPlaceOrPending(files: Files, ops: seq<Operation>, ref: Ref)
    requires DistinctFinals(ops) && EachValid(ops) && HandedOver(files, ops)
    requires DeadLetterFile(ref.owner, ref.key) in Committed(files, ops)
    ensures Queued(files, ref)
  {
    var dead := DeadLetterFile(ref.owner, ref.key);
    CommittedExact(files, ops);
    if dead in Finals(ops) {
      var k :| 0 <= k < |ops| && ops[k].final == dead;
      assert ops[k].final in files || PendingFile(ops[k].final.owner, ops[k].final.key) in files;
    } else {
      assert Get(Committed(files, ops), dead) == Get(files, dead);
    }
  }

  /** On every recoverable disk, whatever the goal holds is queued on the disk itself or arriving there. */
  lemma GoalIsQueuedOrArriving(disk: Disk, sid: NodeId, ref: Ref)
    requires Recoverable(disk, sid) && Queued(FilesOf(Goal(disk, sid)), ref)
    ensures Queued(FilesOf(disk), ref) || Arriving(disk, ref)
  {
    if Quiet(disk, sid) {
      QuietHolds(disk, sid, ref);
    } else if Committing(disk, sid) {
      var ops := disk.storage.value.commit.value.entries;
      if PendingFile(ref.owner, ref.key) in Committed(disk.Files(), ops) {
        PendingInstalledOrStaged(disk.Files(), ops, ref);
      } else {
        LetterInPlaceOrPending(disk.Files(), ops, ref);
      }
    }
  }

  // ---------------------------------------------------------------- no crash point loses a record

  /** One replayed operation keeps a record that the committed files hold. */
  lemma ReplayStepHolds(files: Files, ops: seq<Operation>, i: nat, ref: Ref)
    requires i < |ops| && DistinctFinals(ops) && EachValid(ops) && HandsOver(ops)
    requires forall j :: 0 <= j < i ==> Get(files, ops[j].final) == ops[j].Effect()
    requires Queued(files, ref) && Queued(Committed(files, ops), ref)
    requires ReplayOne(files, ops[i]).Changed?
    ensures Queued(ReplayOne(files, ops[i]).files, ref)
  {
    var pending, dead := PendingFile(ref.owner, ref.key), DeadLetterFile(ref.owner, ref.key);
    if ops[i].Remove? && ops[i].final == pending {
      CommittedExact(files, ops);
      assert Get(Committed(files, ops), pending) == None;
      assert dead in Committed(files, ops);
      if dead in Finals(ops) {
        var k :| 0 <= k < |ops| && ops[k].final == dead;
        assert Replaces(ops[k], ops[i]);
        assert Get(files, dead) == ops[k].Effect();
        assert Get(Committed(files, ops), dead) == ops[k].Effect();
      } else {
        assert Get(Committed(files, ops), dead) == Get(files, dead);
      }
    }
  }

  predicate AppliedBefore(files: Files, ops: seq<Operation>, i: nat)
    requires i <= |ops|
  {
    forall j :: 0 <= j < i ==> Get(files, ops[j].final) == ops[j].Effect()
  }

  lemma AppliedOneMore(files: Files, ops: seq<Operation>, i: nat)
    requires i < |ops| && DistinctFinals(ops) && EachValid(ops) && AppliedBefore(files, ops, i)
    ensures ReplayOne(files, ops[i]).Unchanged? ==> AppliedBefore(files, ops, i + 1)
    ensures ReplayOne(files, ops[i]).Changed? ==> AppliedBefore(ReplayOne(files, ops[i]).files, ops, i + 1)
  {
    ReplayOneExact(files, ops[i]);
  }

  /** Replay, cut anywhere, keeps a record that the committed files hold. */
  lemma {:induction false} ReplayHolds(files: Files, ops: seq<Operation>, i: nat, fault: Fault, ref: Ref)
    requires i <= |ops| && DistinctFinals(ops) && EachValid(ops) && HandsOver(ops) && AppliedBefore(files, ops, i)
    requires Queued(files, ref) && Queued(Committed(files, ops), ref)
    ensures Queued(Replay(files, ops, i, fault).files, ref)
    decreases |ops| - i
  {
    if i < |ops| {
      AppliedOneMore(files, ops, i);
      match ReplayOne(files, ops[i]) {
        case Refused =>
        case Unchanged => ReplayHolds(files, ops, i + 1, fault, ref);
        case Changed(next) =>
          if fault.budget > 0 {
            ReplayStepHolds(files, ops, i, ref);
            UntouchedByStep(files, ops, i);
            ReplayHolds(next, ops, i + 1, fault.(budget := fault.budget - 1), ref);
          }
      }
    }
  }

  lemma UntouchedByStep(files: Files, ops: seq<Operation>, i: nat)
    requires i < |ops| && DistinctFinals(ops) && EachValid(ops)
    requires ReplayOne(files, ops[i]).Changed?
    ensures Committed(ReplayOne(files, ops[i]).files, ops) == Committed(files, ops)
  {
    ReplayOneExact(files, ops[i]);
    assert ops[i].final in Finals(ops);
    CommittedDependsOnUntouched(ReplayOne(files, ops[i]).files, files, ops);
  }

  lemma ReplayManifestFiles(disk: Disk, m: CommitManifest, fault: Fault)
    requires disk.storage.Present?
    ensures FilesOf(ReplayManifest(disk, m, fault).disk) == Replay(disk.Files(), m.entries, 0, fault).files
  {
  }

  lemma RecoverCommitHolds(disk: Disk, sid: NodeId, fault: Fault, ref: Ref)
    requires Committing(disk, sid)
    requires Queued(FilesOf(disk), ref) && Queued(FilesOf(Goal(disk, sid)), ref)
    ensures Queued(FilesOf(RecoverCommit(disk, sid, fault).disk), ref)
  {
    RecoverCommitOpens(disk, sid, fault);
    if fault.budget > 0 {
      var m := disk.storage.value.commit.value;
      ReplayManifestFiles(WithAdditions(disk, m), m, fault.(budget := fault.budget - 1));
      ReplayHolds(disk.Files(), disk.storage.value.commit.value.entries, 0, fault.(budget := fault.budget - 1), ref);
    }
  }

  /** A measurement swap touches nothing outside its subtree. */
  lemma SwapMeasurementFrame(disk: Disk, target: SourceIdentity, m: NodeId, fault: Fault, p: Path)
    requires disk.storage.Present? && m in target.measurements && p.Subtree() != Some(m)
    ensures Get(FilesOf(SwapMeasurement(disk, target, m, fault).disk), p) == Get(disk.Files(), p)
  {
  }

  lemma FinishResetFrame(disk: Disk, lm: LineageManifest, fault: Fault, p: Path)
    requires lm.scope.MeasurementReset? && disk.storage.Present? && lm.scope.id in lm.target.measurements
    requires p.Subtree() != Some(lm.scope.id)
    ensures Get(FilesOf(FinishLineage(disk, lm, fault).disk), p) == Get(disk.Files(), p)
  {
    SwapMeasurementFrame(disk, lm.target, lm.scope.id, fault, p);
  }

  lemma FinishResetQueues(disk: Disk, lm: LineageManifest, fault: Fault, ref: Ref)
    requires lm.scope.MeasurementReset? && disk.storage.Present? && lm.scope.id in lm.target.measurements
    requires ref.owner != MeasurementOwner(lm.scope.id)
    ensures SameQueues(FilesOf(FinishLineage(disk, lm, fault).disk), disk.Files(), ref)
  {
    FinishResetFrame(disk, lm, fault, PendingFile(ref.owner, ref.key));
    FinishResetFrame(disk, lm, fault, DeadLetterFile(ref.owner, ref.key));
  }

  /** Only the reset of another measurement still aims to hold a record. */
  lemma TransitionAimsBeside(disk: Disk, sid: NodeId, ref: Ref)
    requires Transitioning(disk, sid) && Queued(FilesOf(LineageGoal(disk, disk.lineage.value)), ref)
    ensures
      var lm := disk.lineage.value;
      lm.scope.MeasurementReset? && disk.storage.Present? && lm.scope.id in lm.target.measurements
        && ref.owner != MeasurementOwner(lm.scope.id)
  {
  }

  lemma FinishLineageHolds(disk: Disk, sid: NodeId, fault: Fault, ref: Ref)
    requires Transitioning(disk, sid)
    requires Queued(FilesOf(disk), ref) && Queued(FilesOf(Goal(disk, sid)), ref)
    ensures Queued(FilesOf(FinishLineage(disk, disk.lineage.value, fault).disk), ref)
  {
    TransitionAimsBeside(disk, sid, ref);
    FinishResetQueues(disk, disk.lineage.value, fault, ref);
  }

  lemma RecoverLineageHolds(disk: Disk, sid: NodeId, fault: Fault, ref: Ref)
    requires Transitioning(disk, sid)
    requires Queued(FilesOf(disk), ref) && Queued(FilesOf(Goal(disk, sid)), ref)
    ensures Queued(FilesOf(RecoverLineage(disk, sid, fault).disk), ref)
  {
    AuthorityKeepsGoal(disk, sid, fault);
    var a := ApplyAuthority(disk, disk.lineage.value, fault);
    if a.outcome.Done? {
      FinishLineageHolds(a.disk, sid, a.fault, ref);
    }
  }

  /** Turn entry, cut anywhere, keeps every record its goal holds. */
  /** A turn entry that is finishing a lineage transition, cut during it or in the discard that follows. */
  lemma LineageEntryHolds(disk: Disk, sid: NodeId, fault: Fault, ref: Ref)
    requires Transitioning(disk, sid)
    requires Queued(FilesOf(disk), ref) && Queued(FilesOf(Goal(disk, sid)), ref)
    ensures Queued(FilesOf(TurnEntry(disk, sid, fault).run.disk), ref)
  {
    RecoverLineageConverges(disk, sid, fault);
    var lineage := RecoverLineage(disk, sid, fault);
    if lineage.outcome.Done? {
      GoalIsQuiet(disk, sid);
      QuietUpToStaging(lineage.disk, Goal(disk, sid), sid);
      RecoverCommitQuiet(lineage.disk, sid, lineage.fault);
      QuietHolds(lineage.disk, sid, ref);
      ViewHolds(TurnEntry(disk, sid, fault).run.disk, lineage.disk, ref);
    } else {
      RecoverLineageHolds(disk, sid, fault, ref);
    }
  }

  /** Without a lineage manifest a turn entry is commit recovery. */
  lemma EntryWithoutLineage(disk: Disk, sid: NodeId, fault: Fault)
    requires disk.lineage.Absent?
    ensures TurnEntry(disk, sid, fault).run.disk
            == if disk.storage.Present? then RecoverCommit(disk, sid, fault).disk else disk
  {
  }

  lemma TurnEntryHolds(disk: Disk, sid: NodeId, fault: Fault, ref: Ref)
    requires Recoverable(disk, sid)
    requires Queued(FilesOf(disk), ref) && Queued(FilesOf(Goal(disk, sid)), ref)
    ensures Queued(FilesOf(TurnEntry(disk, sid, fault).run.disk), ref)
  {
    if Transitioning(disk, sid) {
      LineageEntryHolds(disk, sid, fault, ref);
    } else {
      EntryWithoutLineage(disk, sid, fault);
      if Committing(disk, sid) {
        RecoverCommitHolds(disk, sid, fault, ref);
      } else if disk.storage.Present? {
        RecoverCommitQuiet(disk, sid, fault);
        ViewHolds(RecoverCommit(disk, sid, fault).disk, disk, ref);
      }
    }
  }

  lemma QuietHolds(disk: Disk, sid: NodeId, ref: Ref)
    requires Quiet(disk, sid)
    ensures SameQueues(FilesOf(disk), FilesOf(Goal(disk, sid)), ref)
  {
    ViewHolds(disk, disk, ref);
  }

  /** A commit from a quiet store keeps every record that both the store and its aim hold. */
  lemma ApplyCommitHolds(disk: Disk, sid: NodeId, m: CommitManifest, fault: Fault, ref: Ref)
    requires Quiet(disk, sid) && disk.identity.Present? && disk.storage.Present?
    requires CommitPending(disk, m, sid) && Coherent(CommitGoal(disk, m), sid)
    requires Queued(FilesOf(disk), ref) && Queued(FilesOf(CommitGoal(disk, m)), ref)
    ensures Queued(FilesOf(ApplyCommit(disk, sid, m, fault).disk), ref)
  {
    if fault.budget > 0 {
      var committing := disk.WithCommit(Present(m));
      assert Committing(committing, sid) && Goal(committing, sid) == CommitGoal(disk, m);
      RecoverCommitHolds(committing, sid, fault.(budget := fault.budget - 1), ref);
    }
  }

  /** Staging a quiet store keeps everything it holds. */
  lemma StagedHolds(disk: Disk, staged: Disk, sid: NodeId, ref: Ref)
    requires Quiet(disk, sid) && Quiet(staged, sid) && Goal(staged, sid) == View(disk) && Queued(FilesOf(disk), ref)
    ensures Queued(FilesOf(staged), ref)
  {
    ViewHolds(staged, disk, ref);
  }

  lemma AttemptHolds(
    disk: Disk, sid: NodeId, owner: Owner, key: RecordKey, a: Attempted, token: nat, fault: Fault, ref: Ref)
    requires a.Attempted? && a.prior.Key() == key && disk.storage.Present?
    requires DeliverySound(disk, sid, a.state, owner, a.prior, a.execution)
    requires Queued(FilesOf(disk), ref) && Queued(FilesOf(AttemptDisk(disk, owner, key, a)), ref)
    ensures Queued(FilesOf(CommitDelivery(disk, sid, a.state, owner, a.prior, a.execution, token, fault).disk), ref)
  {
    CommitDeliveryUnfolds(disk, sid, a.state, owner, a.prior, a.execution, token, fault);
    DeliveryStages(disk, sid, a.state, a.execution, token, fault);
    var staged := StageDelivery(disk, a.state, a.execution, token, fault);
    StagedHolds(disk, staged.disk, sid, ref);
    if staged.outcome.Done? {
      ConcludeHolds(disk, staged.disk, sid, owner, key, a, token, staged.fault, ref);
    }
  }

  lemma ConcludeHolds(
    disk: Disk, staged: Disk, sid: NodeId, owner: Owner, key: RecordKey, a: Attempted, token: nat, fault: Fault,
    ref: Ref)
    requires a.Attempted? && a.prior.Key() == key && disk.storage.Present?
    requires DeliverySound(disk, sid, a.state, owner, a.prior, a.execution)
    requires Quiet(staged, sid) && DeliveryStaged(disk, staged, Advanced(a.state), a.execution, token)
    requires Queued(FilesOf(staged), ref) && Queued(FilesOf(AttemptDisk(disk, owner, key, a)), ref)
    ensures
      var entries := [SourceInstall(disk.Files(), token, Advanced(a.state))]
        + OutcomeEntries(owner, a.prior, RecordDoc(a.prior), a.execution, token + 1);
      Queued(FilesOf(ConcludeDelivery(staged, sid, Advanced(a.state), owner, entries, fault).disk), ref)
  {
    ConclusionIsCommit(disk, staged, sid, a.state, owner, a.prior, a.execution, token, fault);
    ConclusionPending(disk, staged, sid, a.state, owner, a.prior, a.execution, token);
    ApplyCommitHolds(staged, sid,
      ConclusionManifest(disk, sid, a.state, owner, a.prior, a.execution, token), fault, ref);
  }

  /** A drain that commits keeps every record its outcome holds. */
  lemma DrainHolds(
    disk: Disk, sid: NodeId, owner: Owner, key: RecordKey, facts: AttemptFacts, token: nat, fault: Fault, ref: Ref)
    requires Recoverable(disk, sid) && Queued(FilesOf(disk), ref) && Queued(FilesOf(Goal(disk, sid)), ref)
    requires Recoverable(Drain(disk, sid, owner, key, facts, token, fault).disk, sid)
    requires Queued(FilesOf(Goal(Drain(disk, sid, owner, key, facts, token, fault).disk, sid)), ref)
    ensures Queued(FilesOf(Drain(disk, sid, owner, key, facts, token, fault).disk), ref)
  {
    TurnEntryConverges(disk, sid, fault);
    TurnEntryHolds(disk, sid, fault, ref);
    var before := TurnEntry(disk, sid, fault).run;
    if before.outcome.Done? {
      DrainIsAttempt(disk, sid, owner, key, facts, token, fault);
      var a := AttemptOf(before.disk, sid, owner, key, facts);
      if a.Attempted? {
        DrainCommitHolds(before.disk, sid, owner, key, facts, token, before.fault, ref);
      }
    }
  }

  lemma DrainCommitHolds(
    disk: Disk, sid: NodeId, owner: Owner, key: RecordKey, facts: AttemptFacts, token: nat, fault: Fault, ref: Ref)
    requires Quiet(disk, sid) && AttemptOf(disk, sid, owner, key, facts).Attempted? && disk.storage.Present?
    requires Queued(FilesOf(disk), ref)
    requires
      var a := AttemptOf(disk, sid, owner, key, facts);
      var r := CommitDelivery(disk, sid, a.state, owner, a.prior, a.execution, token, fault);
      Recoverable(r.disk, sid) && Queued(FilesOf(Goal(r.disk, sid)), ref)
    ensures
      var a := AttemptOf(disk, sid, owner, key, facts);
      Queued(FilesOf(CommitDelivery(disk, sid, a.state, owner, a.prior, a.execution, token, fault).disk), ref)
  {
    var a := AttemptOf(disk, sid, owner, key, facts);
    AttemptSound(disk, sid, owner, key, facts);
    if a.state.generation >= U64_MAX {
      ExhaustedGeneration(disk, sid, a.state, owner, a.prior, a.execution, token, fault);
    } else if !FindsPlace(disk.Files(), owner, a.execution) {
      CollisionHolds(disk, sid, a.state, owner, a.prior, a.execution.letter, token, fault, ref);
    } else {
      DeliveryCommitAtomic(disk, sid, a.state, owner, a.prior, a.execution, token, fault);
      if Queued(FilesOf(AttemptDisk(disk, owner, key, a)), ref) {
        AttemptHolds(disk, sid, owner, key, a, token, fault, ref);
      } else {
        CommitDeliveryStaysQuiet(disk, sid, owner, key, a, token, fault, ref);
      }
    }
  }

  /** A collision cut before its manifest write has moved nothing. */
  lemma CollisionHolds(
    disk: Disk, sid: NodeId, state: SourceState, owner: Owner, prior: DeliveryRecord, letter: DeadLetter, token: nat,
    fault: Fault, ref: Ref)
    requires DeliveryDue(disk, sid, state, owner, prior, Dead(letter)) && !PlaceFree(disk.Files(), owner, letter)
    requires
      var r := CommitDelivery(disk, sid, state, owner, prior, Dead(letter), token, fault);
      Recoverable(r.disk, sid) && Queued(FilesOf(disk), ref)
    ensures Queued(FilesOf(CommitDelivery(disk, sid, state, owner, prior, Dead(letter), token, fault).disk), ref)
  {
    CollisionExact(disk, sid, state, owner, prior, letter, token, fault);
    var r := CommitDelivery(disk, sid, state, owner, prior, Dead(letter), token, fault);
    if StuckAt(r.disk) {
      StuckIsNotRecoverable(r.disk, sid);
    } else {
      StagedHolds(disk, r.disk, sid, ref);
    }
  }

  /** If the outcome drops the record but the goal still holds it, the commit has not happened. */
  lemma CommitDeliveryStaysQuiet(
    disk: Disk, sid: NodeId, owner: Owner, key: RecordKey, a: Attempted, token: nat, fault: Fault, ref: Ref)
    requires a.Attempted? && a.prior.Key() == key && disk.storage.Present?
    requires DeliverySound(disk, sid, a.state, owner, a.prior, a.execution)
    requires Queued(FilesOf(disk), ref) && !Queued(FilesOf(AttemptDisk(disk, owner, key, a)), ref)
    requires
      var r := CommitDelivery(disk, sid, a.state, owner, a.prior, a.execution, token, fault);
      Recoverable(r.disk, sid) && Queued(FilesOf(Goal(r.disk, sid)), ref)
    ensures Queued(FilesOf(CommitDelivery(disk, sid, a.state, owner, a.prior, a.execution, token, fault).disk), ref)
  {
    CommitDeliveryUnfolds(disk, sid, a.state, owner, a.prior, a.execution, token, fault);
    DeliveryStages(disk, sid, a.state, a.execution, token, fault);
    var staged := StageDelivery(disk, a.state, a.execution, token, fault);
    StagedHolds(disk, staged.disk, sid, ref);
    if staged.outcome.Done? {
      ConclusionAtomic(disk, staged.disk, sid, a.state, owner, a.prior, a.execution, token, staged.fault);
    }
  }

  /** The committed cycle adds its records and touches nothing else in the queues. */
  lemma ContentHolds(
    disk: Disk, sid: NodeId, state: SourceState, planned: Planned, ids: set<NodeId>, next: SourceState,
    writes: seq<Write>, ref: Ref)
    requires CycleSound(disk, sid, state, planned, ids, next, writes)
    ensures HasRecord(CycleDisk(disk, planned, writes).Files(), ref)
      <==> HasRecord(disk.Files(), ref) || ref in Refs(writes)
    ensures HasLetter(CycleDisk(disk, planned, writes).Files(), ref) <==> HasLetter(disk.Files(), ref)
  {
    CycleGoalSound(disk, sid, state, planned, ids, next, writes);
    var files, after := disk.Files(), CycleDisk(disk, planned, writes).Files();
    var pending, dead := PendingFile(ref.owner, ref.key), DeadLetterFile(ref.owner, ref.key);
    forall i | 0 <= i < |writes| ensures writes[i].final != dead {
      assert WriteFits(writes[i], files, Registered(disk.identity.value, planned.additions), sid);
    }
    assert Get(after, dead) == Get(files, dead);
    if i :| 0 <= i < |writes| && writes[i].final == pending {
      assert Get(after, writes[i].final) == Some(writes[i].doc);
      assert ref in Refs(writes);
    } else {
      assert Get(after, pending) == Get(files, pending);
    }
  }

  /** The keys whose pending records a cycle installs. */
  function Refs(writes: seq<Write>): set<Ref> {
    set i | 0 <= i < |writes| && writes[i].final.PendingFile? :: Ref(writes[i].final.owner, writes[i].final.key)
  }

  function ContentWrites(disk: Disk, c: Content): seq<Write>
    requires disk.storage.Present? && c.Content?
  {
    AcquisitionWrites(disk.Files(), c.next, c.planned, c.records)
  }

  /** An acquisition commit, cut anywhere, keeps everything the store held. */
  lemma CycleCommitHolds(disk: Disk, sid: NodeId, plan: Plan, fault: Fault, ref: Ref)
    requires Quiet(disk, sid) && disk.storage.Present? && DistinctIds(plan.measurements)
    requires Queued(FilesOf(disk), ref)
    ensures Queued(FilesOf(MeasureReady(disk, sid, Inspect(disk, sid, Declared(plan)), plan, fault).disk), ref)
  {
    MeasureReadyIsContent(disk, sid, plan, fault);
    var c := ContentOf(disk, sid, plan);
    if c.Content? {
      ContentSound(disk, sid, plan);
      StagedCycleHolds(disk, sid, c, IdsOf(plan.measurements), plan.token, fault, ref);
    }
  }

  lemma StagedCycleHolds(disk: Disk, sid: NodeId, c: Content, ids: set<NodeId>, token: nat, fault: Fault, ref: Ref)
    requires disk.storage.Present? && c.Content?
    requires CycleSound(disk, sid, c.state, c.planned, ids, c.next, ContentWrites(disk, c))
    requires Queued(FilesOf(disk), ref)
    ensures Queued(FilesOf(CommitAcquisition(disk, sid, c.next, c.planned, c.records, token, fault).disk), ref)
  {
    var writes := ContentWrites(disk, c);
    StageWritesInvisible(disk, sid, writes, 0, token, fault);
    var staged := StageWrites(disk, writes, 0, token, fault);
    StagedHolds(disk, staged.disk, sid, ref);
    if staged.outcome.Done? {
      ConcludeCycleHolds(disk, staged.disk, sid, c, ids, writes, token, staged.fault, ref);
    }
  }

  lemma ConcludeCycleHolds(
    disk: Disk, staged: Disk, sid: NodeId, c: Content, ids: set<NodeId>, writes: seq<Write>, token: nat, fault: Fault,
    ref: Ref)
    requires c.Content? && CycleSound(disk, sid, c.state, c.planned, ids, c.next, writes)
    requires Quiet(staged, sid) && staged.storage.Present? && Goal(staged, sid) == View(disk)
    requires staged == disk.WithFiles(staged.Files()) && StagedFrom(staged.Files(), writes, 0, token)
    requires Queued(FilesOf(disk), ref) && Queued(FilesOf(staged), ref)
    ensures Queued(FilesOf(ApplyCommit(staged, sid, AcquisitionManifest(sid, c.next, c.planned, writes, token),
      fault).disk), ref)
  {
    assert CycleStaged(disk, staged, writes, token) by {
      assert View(staged).Files() == View(disk).Files();
    }
    CycleManifestPending(disk, staged, sid, c.state, c.planned, ids, c.next, writes, token);
    CycleManifestAims(disk, staged, sid, c.state, c.planned, ids, c.next, writes, token);
    CycleGoalSound(disk, sid, c.state, c.planned, ids, c.next, writes);
    ContentHolds(disk, sid, c.state, c.planned, ids, c.next, writes, ref);
    ApplyCommitHolds(staged, sid, AcquisitionManifest(sid, c.next, c.planned, writes, token), fault, ref);
  }

  lemma MeasureHolds(disk: Disk, sid: NodeId, plan: Plan, fault: Fault, ref: Ref)
    requires Recoverable(disk, sid) && DistinctIds(plan.measurements)
    requires Queued(FilesOf(disk), ref) && Queued(FilesOf(Goal(disk, sid)), ref)
    ensures Queued(FilesOf(Measure(disk, sid, plan, fault).disk), ref)
  {
    StartConverges(disk, sid, plan, fault);
    GoalIsQuiet(disk, sid);
    TurnEntryConverges(disk, sid, fault);
    TurnEntryHolds(disk, sid, fault, ref);
    var turn := TurnEntry(disk, sid, fault);
    if turn.run.outcome.Done? {
      GateDecidesCoherence(turn.run.disk, sid, Declared(plan));
      assert CycleStart(disk, sid, plan, fault) == turn.run;
      CycleCommitHolds(turn.run.disk, sid, plan, turn.run.fault, ref);
    }
  }

  lemma TransitionHolds(disk: Disk, sid: NodeId, lm: LineageManifest, fault: Fault, ref: Ref)
    requires Quiet(disk, sid) && ValidLineage(lm) && lm.sourceId == sid
    requires lm.scope.MeasurementReset? && disk.storage.Present?
    requires !disk.identity.Unreadable? && Authority(lm, Observed(disk.identity)) != UnresolvableLineage
    requires Coherent(LineageGoal(disk, lm), sid)
    requires Queued(FilesOf(disk), ref) && Queued(FilesOf(LineageGoal(disk, lm)), ref)
    ensures Queued(FilesOf(ApplyTransition(disk, sid, lm, fault).disk), ref)
  {
    if fault.budget > 0 {
      var pending := disk.(lineage := Present(lm));
      assert Transitioning(pending, sid);
      RecoverLineageHolds(pending, sid, fault.(budget := fault.budget - 1), ref);
    }
  }

  /** A measurement reset drops that measurement's records and no others. */
  lemma ResetDrops(files: Files, m: NodeId, target: SourceIdentity, ref: Ref)
    requires m in target.measurements
    ensures
      if ref.owner == MeasurementOwner(m) then !Queued(ResetFiles(files, m, target), ref)
      else SameQueues(ResetFiles(files, m, target), files, ref)
  {
  }

  lemma ResetOneHolds(disk: Disk, sid: NodeId, m: NodeId, minted: InstanceId, fault: Fault, ref: Ref)
    requires Quiet(disk, sid) && disk.identity.Present? && disk.storage.Present?
    requires ResetIdentity(disk.identity.value, m, minted).Ok?
    requires Queued(FilesOf(disk), ref) && ref.owner != MeasurementOwner(m)
    ensures
      var target := ResetIdentity(disk.identity.value, m, minted).value;
      Queued(FilesOf(ApplyTransition(disk, sid, ResetManifest(sid, m, disk.identity.value, target), fault).disk), ref)
  {
    var identity := disk.identity.value;
    var target := ResetIdentity(identity, m, minted).value;
    if ValidReset(m, identity, target) {
      ResetFilesSound(disk.Files(), identity, target, m, sid);
      ResetDrops(disk.Files(), m, target, ref);
      TransitionHolds(disk, sid, ResetManifest(sid, m, identity, target), fault, ref);
    }
  }

  /** A measurement reset ends where its turn entry does, or where the transition it then makes does. */
  lemma ResetUnfolds(disk: Disk, sid: NodeId, m: NodeId, minted: InstanceId, fault: Fault)
    ensures
      var turn, r := TurnEntry(disk, sid, fault).run, ResetMeasurement(disk, sid, m, minted, fault);
      || r.disk == turn.disk
      || (turn.outcome.Done? && turn.disk.identity.Present?
          && var target := ResetIdentity(turn.disk.identity.value, m, minted);
             target.Ok? && r == ApplyTransition(
               turn.disk, sid, ResetManifest(sid, m, turn.disk.identity.value, target.value), turn.fault))
  {
  }

  lemma EntryIsQuiet(disk: Disk, sid: NodeId, fault: Fault)
    requires Recoverable(disk, sid) && TurnEntry(disk, sid, fault).run.outcome.Done?
    ensures
      var after := TurnEntry(disk, sid, fault).run.disk;
      Quiet(after, sid) && (after.identity.Present? ==> after.storage.Present?)
  {
    TurnEntryConverges(disk, sid, fault);
  }

  /** After turn entry, a measurement reset keeps every record of every other emitter on disk. */
  lemma MeasurementResetHolds(disk: Disk, sid: NodeId, m: NodeId, minted: InstanceId, fault: Fault, ref: Ref)
    requires Recoverable(disk, sid)
    requires Queued(FilesOf(disk), ref) && Queued(FilesOf(Goal(disk, sid)), ref) && ref.owner != MeasurementOwner(m)
    ensures Queued(FilesOf(ResetMeasurement(disk, sid, m, minted, fault).disk), ref)
  {
    TurnEntryHolds(disk, sid, fault, ref);
    ResetUnfolds(disk, sid, m, minted, fault);
    var turn := TurnEntry(disk, sid, fault).run;
    if ResetMeasurement(disk, sid, m, minted, fault).disk != turn.disk {
      EntryIsQuiet(disk, sid, fault);
      ResetOneHolds(turn.disk, sid, m, minted, turn.fault, ref);
    }
  }
}
