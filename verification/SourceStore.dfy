/**
  The source store as the engine works on it: one object whose identity, storage, tombstone and
  manifests change in place, one durable step at a time. Every method is the run it is specified by,
  and the operations say what that run keeps.
 */
module SourceStore {
  import opened Basics
  import opened Identifiers
  import opened Outbox
  import opened Delivery
  import opened StoreTypes
  import opened CommitManifests
  import opened Commit
  import opened Gate
  import opened Lineage
  import opened Recovery
  import opened Operations
  import opened Acquisition
  import opened Cycle
  import opened Resets
  import opened Stuck
  import opened Runs
  import opened CycleResults

  /** One addition: a known entry must agree, an unknown one is entered. */
  function RegisterEntry(identity: SourceIdentity, id: NodeId, instance: InstanceId): Result<SourceIdentity> {
    if id !in identity.measurements then
      Ok(identity.(measurements := identity.measurements[id := MeasurementIdentity(instance, 0)]))
    else if identity.measurements[id].instance == instance then Ok(identity)
    else Err
  }

  /** `next` has taken in every addition outside `left`, none of them conflicting. */
  ghost predicate Registering(
    prior: SourceIdentity, additions: map<NodeId, InstanceId>, left: set<NodeId>, next: SourceIdentity)
  {
    && left <= additions.Keys
    && next == Registered(prior, additions - left)
    && forall id :: id in additions && id !in left && id in prior.measurements ==>
        prior.measurements[id].instance == additions[id]
  }

  lemma NothingRegistered(prior: SourceIdentity, additions: map<NodeId, InstanceId>)
    ensures Registering(prior, additions, additions.Keys, prior)
  {
    assert Registered(prior, additions - additions.Keys).measurements == prior.measurements;
  }

  lemma AllRegistered(prior: SourceIdentity, additions: map<NodeId, InstanceId>, next: SourceIdentity)
    requires Registering(prior, additions, {}, next)
    ensures ApplyAdditions(prior, additions) == Ok(next)
  {
    assert additions - {} == additions;
  }

  lemma RegisterOneMore(
    prior: SourceIdentity, additions: map<NodeId, InstanceId>, left: set<NodeId>, next: SourceIdentity, id: NodeId)
    requires Registering(prior, additions, left, next) && id in left
    ensures
      match RegisterEntry(next, id, additions[id])
      case Ok(wider) => Registering(prior, additions, left - {id}, wider)
      case Err => ApplyAdditions(prior, additions).Err?
  {
    TakesInOneMore(prior, additions, left, id);
    assert id in next.measurements ==> id in prior.measurements && next.measurements[id] == prior.measurements[id];
  }

  lemma TakesInOneMore(prior: SourceIdentity, additions: map<NodeId, InstanceId>, left: set<NodeId>, id: NodeId)
    requires left <= additions.Keys && id in left
    ensures
      var before, after := Registered(prior, additions - left), Registered(prior, additions - (left - {id}));
      && (id in prior.measurements ==> after == before)
      && (id !in prior.measurements ==>
            id !in before.measurements && RegisterEntry(before, id, additions[id]) == Ok(after))
  {
    var before, after := Registered(prior, additions - left), Registered(prior, additions - (left - {id}));
    assert (additions - (left - {id})).Keys == (additions - left).Keys + {id};
    assert after.measurements == if id in prior.measurements then before.measurements
                                 else before.measurements[id := MeasurementIdentity(additions[id], 0)];
  }

  class Store {
    const sid: NodeId
    var identity: Slot<SourceIdentity>
    var storage: Slot<Storage>
    var tombstone: bool
    var lineage: Slot<LineageManifest>
    /** When this process is cut. */
    var fault: Fault

    function Content(): Disk
      reads this
    {
      Disk(identity, storage, tombstone, lineage)
    }

    /** The run that leaves the store as it is now. */
    function Now(outcome: Outcome): Run
      reads this
    {
      Run(Content(), fault, outcome)
    }

    constructor (sid: NodeId, fault: Fault)
      ensures this.sid == sid && Content() == NewSource && this.fault == fault
    {
      this.sid, this.fault := sid, fault;
      identity, storage, tombstone, lineage := Absent, Absent, false, Absent;
    }

    // -------------------------------------------------------------- durable steps

    /** One more durable step, unless the process is cut before it. */
    method Proceed() returns (ok: bool)
      modifies this`fault
      ensures ok <==> old(fault.budget) > 0
      ensures fault == if ok then old(fault).(budget := old(fault.budget) - 1) else old(fault)
    {
      if fault.budget == 0 {
        return false;
      }
      fault := fault.(budget := fault.budget - 1);
      return true;
    }

    method WriteIdentity(next: SourceIdentity) returns (outcome: Outcome)
      modifies this
      ensures Now(outcome) == Step(old(Content()), old(Content()).(identity := Present(next)), old(fault))
    {
      var ok := Proceed();
      if !ok {
        return Crashed;
      }
      identity := Present(next);
      return Done;
    }

    method WriteLineageManifest(manifest: LineageManifest) returns (outcome: Outcome)
      modifies this
      ensures Now(outcome) == Step(old(Content()), old(Content()).(lineage := Present(manifest)), old(fault))
    {
      var ok := Proceed();
      if !ok {
        return Crashed;
      }
      lineage := Present(manifest);
      return Done;
    }

    method RemoveLineageManifest() returns (outcome: Outcome)
      modifies this
      ensures Now(outcome) == Step(old(Content()), old(Content()).(lineage := Absent), old(fault))
    {
      var ok := Proceed();
      if !ok {
        return Crashed;
      }
      lineage := Absent;
      return Done;
    }

    method WriteCommitManifest(manifest: Slot<CommitManifest>) returns (outcome: Outcome)
      requires storage.Present?
      modifies this
      ensures Now(outcome) == Step(old(Content()), old(Content()).WithCommit(manifest), old(fault))
    {
      var ok := Proceed();
      if !ok {
        return Crashed;
      }
      storage := Present(storage.value.(commit := manifest));
      return Done;
    }

    method RemoveTombstoneDir() returns (outcome: Outcome)
      modifies this
      ensures Now(outcome) == RemoveTombstone(old(Content()), old(fault))
    {
      if !tombstone {
        return Done;
      }
      var ok := Proceed();
      if !ok {
        return Crashed;
      }
      tombstone := false;
      return Done;
    }

    // -------------------------------------------------------------- normal commits

    /** `stage_bytes`. */
    method StageBytes(token: nat, doc: Doc) returns (outcome: Outcome)
      requires storage.Present?
      modifies this
      ensures storage.Present?
      ensures Now(outcome) == Stage(old(Content()), token, doc, old(fault))
    {
      var files := storage.value.files;
      if StagedFile(token) in files {
        return Failed;
      }
      var ok := Proceed();
      if !ok {
        if fault.torn {
          storage := Present(storage.value.(files := files[StagedFile(token) := RawDoc(0)]));
        }
        return Crashed;
      }
      storage := Present(storage.value.(files := files[StagedFile(token) := doc]));
      return Done;
    }

    /** `discard_uncommitted_staging`. */
    method DiscardUncommittedStaging() returns (outcome: Outcome)
      requires storage.Present?
      modifies this
      ensures Now(outcome) == DiscardStaging(old(Content()), old(fault))
    {
      var files := storage.value.files;
      if !HasStaging(files) {
        return Done;
      }
      var ok := Proceed();
      if !ok {
        storage := Present(storage.value.(files := map p | p in files
          && (p.StagedFile? ==> p.token in fault.kept) :: files[p]));
        return Crashed;
      }
      storage := Present(storage.value.(files := Durable(files)));
      return Done;
    }

    /** `replay_install` and `replay_remove`: check, then at most one step. */
    method ReplayOperation(op: Operation) returns (outcome: Outcome)
      requires storage.Present?
      modifies this
      ensures storage.Present?
      ensures
        match ReplayOne(old(storage.value.files), op)
        case Refused => Now(outcome) == Stop(old(Content()), old(fault))
        case Unchanged => Now(outcome) == Finish(old(Content()), old(fault))
        case Changed(next) => Now(outcome) == Step(old(Content()), old(Content()).WithFiles(next), old(fault))
    {
      var files := storage.value.files;
      match op {
        case Install(final, staged, prior, result) =>
          if final in files {
            if files[final] == result {
              return Done;
            }
            if prior != Some(files[final]) {
              return Failed;
            }
          } else if prior.Some? {
            return Failed;
          }
          if !(staged in files) || files[staged] != result {
            return Failed;
          }
          var ok := Proceed();
          if !ok {
            return Crashed;
          }
          storage := Present(storage.value.(files := (files - {staged})[final := result]));
          return Done;
        case Remove(final, expected) =>
          if !(final in files) {
            return Done;
          }
          if files[final] != expected {
            return Failed;
          }
          var ok := Proceed();
          if !ok {
            return Crashed;
          }
          storage := Present(storage.value.(files := files - {final}));
          return Done;
      }
    }

    /** What is left of a replay, over the store as it is now. */
    ghost function ReplayRest(ops: seq<Operation>, i: nat): FilesRun
      requires storage.Present? && i <= |ops|
      reads this
    {
      Replay(storage.value.files, ops, i, fault)
    }

    /** `replay_commit_operations`: in order, stopping at the first refusal or cut. */
    method ReplayCommitOperations(ops: seq<Operation>) returns (outcome: Outcome)
      requires storage.Present?
      modifies this
      ensures storage.Present?
      ensures
        var replayed := Replay(old(storage.value.files), ops, 0, old(fault));
        Now(outcome) == Run(old(Content()).WithFiles(replayed.files), replayed.fault, replayed.outcome)
    {
      ghost var before := Content();
      for i := 0 to |ops|
        invariant storage.Present? && Content() == before.WithFiles(storage.value.files)
        invariant ReplayRest(ops, i) == Replay(old(storage.value.files), ops, 0, old(fault))
      {
        outcome := ReplayOperation(ops[i]);
        if !outcome.Done? {
          return;
        }
      }
      return Done;
    }

    /** `apply_identity_additions`: known entries must agree, unknown ones are registered. */
    method ApplyIdentityAdditions(
      prior: SourceIdentity, additions: map<NodeId, InstanceId>) returns (result: Result<SourceIdentity>)
      ensures result == ApplyAdditions(prior, additions)
    {
      var next := prior;
      var left := additions.Keys;
      NothingRegistered(prior, additions);
      while left != {}
        invariant Registering(prior, additions, left, next)
        decreases |left|
      {
        var id :| id in left;
        RegisterOneMore(prior, additions, left, next, id);
        var entry := RegisterEntry(next, id, additions[id]);
        if entry.Err? {
          return Err;
        }
        next := entry.value;
        left := left - {id};
      }
      AllRegistered(prior, additions, next);
      return Ok(next);
    }

    /** `recover_normal_commit`. */
    method RecoverNormalCommit() returns (outcome: Outcome)
      modifies this
      ensures Now(outcome) == RecoverCommit(old(Content()), sid, old(fault))
    {
      if !storage.Present? {
        return Failed;
      }
      match ReadCommit(storage.value.commit) {
        case Absent =>
          outcome := DiscardUncommittedStaging();
        case Unreadable =>
          return Failed;
        case Present(manifest) =>
          outcome := RecoverPresentManifest(manifest);
      }
    }

    method RecoverPresentManifest(manifest: CommitManifest) returns (outcome: Outcome)
      requires storage.Present?
      modifies this
      ensures Now(outcome) == RecoverManifest(old(Content()), sid, manifest, old(fault))
    {
      if manifest.sourceId != sid || !identity.Present? {
        return Failed;
      }
      var current := ReadSourceState(storage.value.files);
      if !current.Present? || RecoverAgainst(manifest, identity.value, current.value.generation) != Apply {
        return Failed;
      }
      var next := ApplyIdentityAdditions(identity.value, manifest.additions);
      if next.Err? {
        return Failed;
      }
      outcome := WriteIdentity(next.value);
      if !outcome.Done? {
        return;
      }
      outcome := InstallManifest(manifest);
    }

    method InstallManifest(manifest: CommitManifest) returns (outcome: Outcome)
      requires storage.Present?
      modifies this
      ensures Now(outcome) == ReplayManifest(old(Content()), manifest, old(fault))
    {
      outcome := ReplayCommitOperations(manifest.entries);
      if !outcome.Done? {
        return;
      }
      var installed := ReadSourceState(storage.value.files);
      if !installed.Present? || installed.value.generation != manifest.generation
        || installed.value.instance != manifest.sourceInstance {
        return Failed;
      }
      outcome := WriteCommitManifest(Absent);
    }

    /** `apply_normal_commit`. */
    method ApplyNormalCommit(manifest: CommitManifest) returns (outcome: Outcome)
      modifies this
      ensures Now(outcome) == ApplyCommit(old(Content()), sid, manifest, old(fault))
    {
      if manifest.sourceId != sid || !storage.Present? || !Valid(manifest) {
        return Failed;
      }
      outcome := WriteCommitManifest(Present(manifest));
      if !outcome.Done? {
        return;
      }
      outcome := RecoverNormalCommit();
    }

    // -------------------------------------------------------------- lineage transitions

    /** `swap_source_storage`. */
    method SwapSourceStorage(target: SourceIdentity) returns (outcome: Outcome)
      modifies this
      ensures Now(outcome) == SwapSource(old(Content()), target, old(fault))
    {
      outcome := RemoveTombstoneDir();
      if !outcome.Done? {
        return;
      }
      if !storage.Absent? {
        var moved := Proceed();
        if !moved {
          return Crashed;
        }
        storage, tombstone := Absent, true;
      }
      var created := Proceed();
      if !created {
        return Crashed;
      }
      storage := Present(Storage(map[], Absent));
      var written := Proceed();
      if !written {
        return Crashed;
      }
      storage := Present(FreshStorage(target));
      outcome := RemoveTombstoneDir();
    }

    /** `swap_measurement_storage`. */
    method SwapMeasurementStorage(target: SourceIdentity, m: NodeId) returns (outcome: Outcome)
      modifies this
      ensures Now(outcome) == SwapMeasurement(old(Content()), target, m, old(fault))
    {
      if m !in target.measurements || !storage.Present? {
        return Failed;
      }
      outcome := RemoveTombstoneDir();
      if !outcome.Done? {
        return;
      }
      var kept := WithoutSubtree(storage.value.files, m);
      if kept != storage.value.files {
        var moved := Proceed();
        if !moved {
          return Crashed;
        }
        storage, tombstone := Present(storage.value.(files := kept)), true;
      }
      var written := Proceed();
      if !written {
        return Crashed;
      }
      storage := Present(storage.value.(files := storage.value.files[MeasurementStateFile(m) := FreshStateDoc(target,
        m)]));
      outcome := RemoveTombstoneDir();
    }

    /** `apply_manifest_authority`. */
    method ApplyManifestAuthority(manifest: LineageManifest) returns (outcome: Outcome)
      modifies this
      ensures Now(outcome) == ApplyAuthority(old(Content()), manifest, old(fault))
    {
      if identity.Unreadable? {
        return Failed;
      }
      match Authority(manifest, Observed(identity)) {
        case ApplyTargetIdentity =>
          outcome := WriteIdentity(manifest.target);
        case ContinueScopeSwap =>
          return Done;
        case UnresolvableLineage =>
          return Failed;
      }
    }

    method SwapAndFinish(manifest: LineageManifest) returns (outcome: Outcome)
      modifies this
      ensures Now(outcome) == FinishLineage(old(Content()), manifest, old(fault))
    {
      match manifest.scope {
        case MeasurementReset(m) =>
          outcome := SwapMeasurementStorage(manifest.target, m);
        case _ =>
          outcome := SwapSourceStorage(manifest.target);
      }
      if !outcome.Done? {
        return;
      }
      outcome := RemoveLineageManifest();
    }

    /** `recover_lineage_transition`. */
    method RecoverLineageTransition() returns (outcome: Outcome)
      modifies this
      ensures Now(outcome) == RecoverLineage(old(Content()), sid, old(fault))
    {
      match ReadLineage(lineage) {
        case Absent =>
          return Done;
        case Unreadable =>
          return Failed;
        case Present(manifest) =>
          outcome := ApplyManifestAuthority(manifest);
          if !outcome.Done? {
            return;
          }
          if manifest.sourceId != sid {
            return Failed;
          }
          outcome := SwapAndFinish(manifest);
      }
    }

    /** `apply_source_transition` and `apply_measurement_transition`. */
    method ApplyLineageTransition(manifest: LineageManifest) returns (outcome: Outcome)
      modifies this
      ensures Now(outcome) == ApplyTransition(old(Content()), sid, manifest, old(fault))
    {
      if manifest.sourceId != sid || (manifest.scope.SourceReset? && manifest.from.None?) || !ValidLineage(manifest) {
        return Failed;
      }
      outcome := WriteLineageManifest(manifest);
      if !outcome.Done? {
        return;
      }
      outcome := RecoverLineageTransition();
    }

    /** `apply_blind_source_transition`. */
    method ApplyBlindSourceTransition(scope: Scope, minted: InstanceId) returns (outcome: Outcome)
      modifies this
      ensures Now(outcome) == ApplyBlind(old(Content()), sid, scope, minted, old(fault))
    {
      if scope.MeasurementReset? {
        return Failed;
      }
      var manifest := BlindManifest(sid, scope, minted);
      outcome := WriteLineageManifest(manifest);
      if !outcome.Done? {
        return;
      }
      outcome := WriteIdentity(manifest.target);
      if !outcome.Done? {
        return;
      }
      outcome := SwapSourceStorage(manifest.target);
      if !outcome.Done? {
        return;
      }
      outcome := RemoveLineageManifest();
    }

    // -------------------------------------------------------------- turns

    /** `recover_turn_entry`: lineage first, then commits; a refusal becomes a verdict. */
    method RecoverTurnEntry() returns (outcome: Outcome, verdict: Verdict)
      modifies this
      ensures Turn(Now(outcome), verdict) == TurnEntry(old(Content()), sid, old(fault))
      ensures outcome != Failed
      ensures Recoverable(old(Content()), sid) ==>
                && Recoverable(Content(), sid) && Goal(Content(), sid) == Goal(old(Content()), sid)
                && (outcome.Done? ==> verdict == ReadyTurn && View(Content()) == Goal(old(Content()), sid))
    {
      TurnEntryNeverFails(Content(), sid, fault);
      if Recoverable(Content(), sid) {
        TurnEntryConverges(Content(), sid, fault);
      }
      outcome := RecoverLineageTransition();
      if outcome.Failed? {
        return Done, UnresolvableTurn(LineageKind);
      }
      if outcome.Crashed? || !storage.Present? {
        return outcome, ReadyTurn;
      }
      outcome := RecoverNormalCommit();
      if outcome.Failed? {
        return Done, UnresolvableTurn(CommitKind);
      }
      return outcome, ReadyTurn;
    }

    /** `reset_source`. */
    method ResetSourceLineage(minted: InstanceId) returns (outcome: Outcome)
      modifies this
      ensures Now(outcome) == ResetSource(old(Content()), sid, minted, old(fault))
      ensures outcome != Failed
      ensures outcome.Done? ==> Content() == FreshDisk(minted)
      ensures outcome.Crashed? ==>
                var before := TurnEntry(old(Content()), sid, old(fault)).run.disk;
                || Content() == before
                || (Blind(Content(), sid) && identity == before.identity && storage == before.storage)
                || (Recoverable(Content(), sid) && Goal(Content(), sid) == FreshDisk(minted))
    {
      BlindResetWins(Content(), sid, minted, fault);
      var verdict;
      outcome, verdict := RecoverTurnEntry();
      if !outcome.Done? {
        return;
      }
      outcome := ApplyBlindSourceTransition(if identity.Absent? then Init else SourceReset, minted);
    }

    /** `reset_measurement`. */
    method ResetMeasurementLineage(m: NodeId, minted: InstanceId) returns (outcome: Outcome)
      modifies this
      ensures Now(outcome) == ResetMeasurement(old(Content()), sid, m, minted, old(fault))
      ensures Recoverable(old(Content()), sid) ==>
                var goal := Goal(old(Content()), sid);
                && Recoverable(Content(), sid)
                && (Goal(Content(), sid) == goal || MeasurementRenewed(goal, Goal(Content(), sid), m, minted))
                && (outcome.Done? ==> MeasurementRenewed(goal, View(Content()), m, minted))
    {
      if Recoverable(Content(), sid) {
        MeasurementResetExact(Content(), sid, m, minted, fault);
      }
      var verdict;
      outcome, verdict := RecoverTurnEntry();
      if !outcome.Done? {
        return;
      }
      if verdict != ReadyTurn || !identity.Present? {
        return Failed;
      }
      var target := ResetIdentity(identity.value, m, minted);
      if target.Err? {
        return Failed;
      }
      outcome := ApplyLineageTransition(ResetManifest(sid, m, identity.value, target.value));
    }

    /** `commit_delivery_result`: the entries grow as the outcome's documents are staged. */
    method CommitDeliveryResult(
      state: SourceState, owner: Owner, prior: DeliveryRecord, execution: Execution, token: nat)
      returns (outcome: Outcome)
      requires storage.Present?
      modifies this
      ensures Now(outcome) == CommitDelivery(old(Content()), sid, state, owner, prior, execution, token, old(fault))
      ensures DeliverySound(old(Content()), sid, state, owner, prior, execution) ==>
                var after := OutcomeDisk(old(Content()), owner, prior.Key(), Advanced(state), execution);
                && Recoverable(Content(), sid)
                && (Goal(Content(), sid) == View(old(Content())) || Goal(Content(), sid) == after)
                && (outcome.Done? ==> View(Content()) == after)
    {
      if DeliverySound(Content(), sid, state, owner, prior, execution) {
        DeliveryCommitAtomic(Content(), sid, state, owner, prior, execution, token, fault);
      }
      if !prior.ValidPending() || !OwnerMatches(owner, prior, sid) || prior.envelope.sourceInstance != state.instance
         || CheckedSucc(state.generation).None? {
        return Failed;
      }
      var next := state.(generation := CheckedSucc(state.generation).value);
      var entries := [SourceInstall(storage.value.files, token, next)];
      outcome := StageBytes(token, SourceStateDoc(next));
      if !outcome.Done? {
        return;
      }
      var pending := Get(storage.value.files, PendingFile(owner, prior.Key()));
      if pending.None? || !OutcomeFollows(prior, execution) {
        return Failed;
      }
      outcome := StageOutcomeDoc(execution, token + 1);
      if !outcome.Done? {
        return;
      }
      entries := entries + OutcomeEntries(owner, prior, pending.value, execution, token + 1);
      outcome := ConcludeDeliveryResult(next, owner, entries);
    }

    method StageOutcomeDoc(execution: Execution, token: nat) returns (outcome: Outcome)
      requires storage.Present?
      modifies this
      ensures storage.Present?
      ensures Now(outcome) == StageOutcome(old(Content()), execution, token, old(fault))
    {
      if OutcomeDoc(execution).None? {
        return Done;
      }
      outcome := StageBytes(token, OutcomeDoc(execution).value);
    }

    method ConcludeDeliveryResult(next: SourceState, owner: Owner, entries: seq<Operation>) returns (outcome: Outcome)
      modifies this
      ensures Now(outcome) == ConcludeDelivery(old(Content()), sid, next, owner, entries, old(fault))
    {
      var touched := Touched(Content(), owner);
      if touched.Err? {
        return Failed;
      }
      outcome := ApplyNormalCommit(
        CommitManifest(sid, next.instance, next.generation, touched.value, map[], DeliveryResult, entries));
    }

    // -------------------------------------------------------------- operations

    /** `drain_source_outbox_once` and `drain_measurement_outbox_once`, for one due record. */
    method DrainOutboxOnce(owner: Owner, key: RecordKey, facts: AttemptFacts, token: nat) returns (outcome: Outcome)
      modifies this
      ensures Now(outcome) == Drain(old(Content()), sid, owner, key, facts, token, old(fault))
      ensures Recoverable(old(Content()), sid) ==>
                if DrainCollides(old(Content()), sid, owner, key, facts, token, old(fault)) then StuckAt(Content())
                else
                  var before := TurnEntry(old(Content()), sid, old(fault)).run.disk;
                  var a := AttemptOf(before, sid, owner, key, facts);
                  && Recoverable(Content(), sid)
                  && (Goal(Content(), sid) == Goal(old(Content()), sid)
                      || (a.Attempted? && before.storage.Present?
                        && Goal(Content(), sid) == AttemptDisk(before, owner, key, a)))
    {
      if Recoverable(Content(), sid) {
        DrainAtomic(Content(), sid, owner, key, facts, token, fault);
      }
      var verdict;
      outcome, verdict := RecoverTurnEntry();
      if !outcome.Done? || verdict != ReadyTurn {
        return;
      }
      var inspection := Inspect(Content(), sid, if owner.MeasurementOwner? then {owner.id} else {});
      if !inspection.source.ReadySource? {
        return Done;
      }
      if owner.MeasurementOwner?
        && !(owner.id in inspection.measurements && inspection.measurements[owner.id].ReadyMeasurement?) {
        return Done;
      }
      if !storage.Present? {
        return Failed;
      }
      var pending := Get(storage.value.files, PendingFile(owner, key));
      if !(pending.Some? && pending.value.RecordDoc?) || pending.value.record.nextRetryAt > facts.at {
        return Done;
      }
      var execution := ExecuteDeliveryAttempt(pending.value.record, facts);
      if execution.Err? {
        return Failed;
      }
      outcome := CommitDeliveryResult(inspection.source.state, owner, pending.value.record, execution.value, token);
    }

    /** The staging half of `commit_acquisition`: one minted file per document, in order. */
    method StageEach(writes: seq<Write>, token: nat) returns (outcome: Outcome)
      requires storage.Present?
      modifies this
      ensures storage.Present?
      ensures Now(outcome) == StageWrites(old(Content()), writes, 0, token, old(fault))
    {
      for i := 0 to |writes|
        invariant storage.Present?
        invariant StageWrites(Content(), writes, i, token, fault)
          == StageWrites(old(Content()), writes, 0, token, old(fault))
      {
        outcome := StageBytes(token + i, writes[i].doc);
        if !outcome.Done? {
          return;
        }
      }
      return Done;
    }

    /** `commit_acquisition`. */
    method CommitCycle(
      next: SourceState, planned: Planned, sourceRecords: seq<Write>, token: nat) returns (outcome: Outcome)
      requires storage.Present?
      modifies this
      ensures Now(outcome) == CommitAcquisition(old(Content()), sid, next, planned, sourceRecords, token, old(fault))
      ensures
        var writes := AcquisitionWrites(old(storage.value.files), next, planned, sourceRecords);
        SoundCycle(old(Content()), sid, planned, next, writes) ==>
          && old(identity.Present?) && Recoverable(Content(), sid)
          && (Goal(Content(), sid) == View(old(Content()))
                || Goal(Content(), sid) == CycleDisk(old(Content()), planned, writes))
          && (outcome.Done? ==> View(Content()) == CycleDisk(old(Content()), planned, writes))
    {
      if SoundCycle(Content(), sid, planned, next,
        AcquisitionWrites(storage.value.files, next, planned, sourceRecords)) {
        SoundCycleAtomic(Content(), sid, planned, next, sourceRecords, token, fault);
      }
      var writes := AcquisitionWrites(storage.value.files, next, planned, sourceRecords);
      outcome := StageEach(writes, token);
      if !outcome.Done? {
        return;
      }
      outcome := ApplyNormalCommit(AcquisitionManifest(sid, next, planned, writes, token));
    }

    /** The cycle after its inspection: plan everything, then commit the successor generation. */
    method CommitReadyCycle(inspection: Inspection, plan: Plan) returns (outcome: Outcome)
      modifies this
      ensures Now(outcome) == MeasureReady(old(Content()), sid, inspection, plan, old(fault))
    {
      if !inspection.source.ReadySource? {
        return Done;
      }
      if !storage.Present? {
        return Failed;
      }
      var state := inspection.source.state;
      var cycle := PlanCycle(storage.value.files, inspection, inspection.source.identity, sid, plan);
      if cycle.Err? || CheckedSucc(state.generation).None? {
        return Failed;
      }
      var next := state.(generation := CheckedSucc(state.generation).value, facts := plan.facts);
      outcome := CommitCycle(next, cycle.value.0, cycle.value.1, plan.token);
    }

    /** `measure_locked` with a writer's lease: recover, inspect, initialise a new source, commit. */
    method MeasureOnce(plan: Plan) returns (outcome: Outcome)
      modifies this
      ensures Now(outcome) == Measure(old(Content()), sid, plan, old(fault))
      ensures Recoverable(old(Content()), sid) && DistinctIds(plan.measurements) ==>
                var goal, from := Goal(old(Content()), sid), CycleFrom(old(Content()), sid, plan);
                && Recoverable(Content(), sid)
                && (|| Goal(Content(), sid) == goal
                    || Goal(Content(), sid) == from
                    || Cycled(from, Goal(Content(), sid), sid, plan))
                && (outcome.Done? ==> Cycled(from, View(Content()), sid, plan))
    {
      if Recoverable(Content(), sid) && DistinctIds(plan.measurements) {
        MeasureExact(Content(), sid, plan, fault);
      }
      var verdict;
      outcome, verdict := RecoverTurnEntry();
      if !outcome.Done? || verdict != ReadyTurn {
        return;
      }
      var inspection := Inspect(Content(), sid, Declared(plan));
      if inspection.source.NeedsInitialization? {
        outcome := ApplyLineageTransition(InitManifest(sid, plan.minted));
        if !outcome.Done? {
          return;
        }
        inspection := Inspect(Content(), sid, Declared(plan));
      }
      outcome := CommitReadyCycle(inspection, plan);
    }
  }
}
