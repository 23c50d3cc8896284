/**
  What happens when a retired key is admitted again and dies again. Admission looks at pending records
  only, so a key whose dead letter is still there can become pending a second time; if that record dies
  with another history, its commit cannot pass the guard "the dead letter must be absent", and the
  source is stuck.
 */
module Stuck {
  import opened Basics
  import opened Identifiers
  import opened Outbox
  import opened Delivery
  import opened StoreTypes
  import opened CommitManifests
  import opened Commit
  import opened Recovery
  import opened Operations

  /** The operation's destination holds neither what it expects nor what it installs. */
  predicate Blocked(files: Files, op: Operation) {
    op.Install? && Get(files, op.final) != op.prior && Get(files, op.final) != Some(op.result)
  }

  /** A blocked operation stays blocked: replay neither completes nor touches its destination. */
  lemma {:induction false} ReplayBlocked(files: Files, ops: seq<Operation>, i: nat, fault: Fault, k: nat)
    requires i <= k < |ops| && DistinctFinals(ops) && EachValid(ops) && Blocked(files, ops[k])
    ensures
      var r := Replay(files, ops, i, fault);
      && !r.outcome.Done? && Blocked(r.files, ops[k])
      && (fault.budget >= k - i ==> r.outcome.Failed?)
      && forall p: Path :: !p.StagedFile? && (forall j :: i <= j < k ==> ops[j].final != p) ==>
          Get(r.files, p) == Get(files, p)
    decreases |ops| - i
  {
    ReplayOneExact(files, ops[i]);
    if i < k {
      assert ops[i].final != ops[k].final;
      match ReplayOne(files, ops[i]) {
        case Refused =>
        case Unchanged => ReplayBlocked(files, ops, i + 1, fault, k);
        case Changed(next) =>
          if fault.budget > 0 {
            ReplayBlocked(next, ops, i + 1, fault.(budget := fault.budget - 1), k);
          }
      }
    }
  }

  /** A durable commit manifest that installs the source state and is blocked right after it. */
  ghost predicate StuckAt(disk: Disk) {
    && disk.lineage.Absent? && disk.storage.Present? && disk.storage.value.commit.Present?
    && Valid(disk.storage.value.commit.value)
    && |disk.storage.value.commit.value.entries| >= 2
    && disk.storage.value.commit.value.entries[0].final == SourceStateFile
    && Blocked(disk.Files(), disk.storage.value.commit.value.entries[1])
  }

  /** Everything but the source state and staging is as it was. */
  ghost predicate SameBeside(files: Files, after: Files) {
    forall p: Path :: !p.StagedFile? && p != SourceStateFile ==> Get(after, p) == Get(files, p)
  }

  lemma ReplayStuck(files: Files, ops: seq<Operation>, fault: Fault)
    requires |ops| >= 2 && DistinctFinals(ops) && EachValid(ops) && ops[0].final == SourceStateFile
      && Blocked(files, ops[1])
    ensures
      var r := Replay(files, ops, 0, fault);
      !r.outcome.Done? && Blocked(r.files, ops[1]) && SameBeside(files, r.files)
  {
    ReplayBlocked(files, ops, 0, fault, 1);
  }

  lemma RecoverStuckCommit(disk: Disk, sid: NodeId, fault: Fault)
    requires StuckAt(disk)
    ensures
      var r := RecoverCommit(disk, sid, fault);
      !r.outcome.Done? && StuckAt(r.disk) && SameBeside(disk.Files(), r.disk.Files())
  {
    if fault.budget > 0 {
      ReplayStuck(disk.Files(), disk.storage.value.commit.value.entries, fault.(budget := fault.budget - 1));
    }
  }

  /** Every uninterrupted turn entry on a stuck source reports its commit unresolvable. */
  lemma StuckTurnEntry(disk: Disk, sid: NodeId, fault: Fault)
    requires StuckAt(disk)
    ensures
      var turn := TurnEntry(disk, sid, fault);
      && StuckAt(turn.run.disk) && SameBeside(disk.Files(), turn.run.disk.Files())
      && (turn.run.outcome.Done? ==> turn.verdict == UnresolvableTurn(CommitKind))
  {
    RecoverStuckCommit(disk, sid, fault);
  }

  /** A stuck source is in none of the phases that recovery finishes, nor in the blind window. */
  lemma StuckIsNotRecoverable(disk: Disk, sid: NodeId)
    requires StuckAt(disk)
    ensures !Recoverable(disk, sid) && !Blind(disk, sid)
  {
    var entries := disk.storage.value.commit.value.entries;
    assert !Ready(disk.Files(), entries[1]);
  }

  // ---------------------------------------------------------------- a death at a taken place

  /** With its manifest durable, a delivery whose dead-letter place is taken leaves the source stuck. */
  lemma CollisionBlocks(
    disk: Disk, staged: Disk, sid: NodeId, state: SourceState, owner: Owner, prior: DeliveryRecord, letter: DeadLetter,
    token: nat, touched: map<NodeId, InstanceId>)
    requires DeliveryDue(disk, sid, state, owner, prior, Dead(letter)) && !PlaceFree(disk.Files(), owner, letter)
    requires DeliveryStaged(disk, staged, Advanced(state), Dead(letter), token)
    ensures
      var m := DeliveryManifest(disk, sid, Advanced(state), owner, prior, Dead(letter), token, touched);
      Valid(m) && m.sourceId == sid && StuckAt(staged.WithCommit(Present(m)))
  {
    var m := DeliveryManifest(disk, sid, Advanced(state), owner, prior, Dead(letter), token, touched);
    DeliveryManifestValid(disk, sid, Advanced(state), owner, prior, Dead(letter), token, touched);
    assert Get(staged.Files(), m.entries[1].final) == Get(disk.Files(), m.entries[1].final);
  }

  /** A stuck manifest, once written, replays into nothing but the source state. */
  lemma StuckApply(disk: Disk, sid: NodeId, m: CommitManifest, fault: Fault)
    requires disk.storage.Present? && Valid(m) && m.sourceId == sid && StuckAt(disk.WithCommit(Present(m)))
    ensures
      var r := ApplyCommit(disk, sid, m, fault);
      if fault.budget == 0 then r == Run(disk, fault, Crashed)
      else !r.outcome.Done? && StuckAt(r.disk) && SameBeside(disk.Files(), r.disk.Files())
  {
    if fault.budget > 0 {
      RecoverStuckCommit(disk.WithCommit(Present(m)), sid, fault.(budget := fault.budget - 1));
    }
  }

  lemma ConclusionCollides(
    disk: Disk, staged: Disk, sid: NodeId, state: SourceState, owner: Owner, prior: DeliveryRecord, letter: DeadLetter,
    token: nat, fault: Fault)
    requires DeliveryDue(disk, sid, state, owner, prior, Dead(letter)) && !PlaceFree(disk.Files(), owner, letter)
    requires DeliveryStaged(disk, staged, Advanced(state), Dead(letter), token)
    ensures
      var entries := [SourceInstall(disk.Files(), token, Advanced(state))]
        + OutcomeEntries(owner, prior, RecordDoc(prior), Dead(letter), token + 1);
      var r := ConcludeDelivery(staged, sid, Advanced(state), owner, entries, fault);
      if fault.budget == 0 then r == Run(staged, fault, Crashed)
      else !r.outcome.Done? && StuckAt(r.disk) && SameBeside(disk.Files(), r.disk.Files())
  {
    PendingPassesChecks(disk, sid, state, owner, prior, Dead(letter));
    var touched := Touched(disk, owner).value;
    CollisionBlocks(disk, staged, sid, state, owner, prior, letter, token, touched);
    var m := DeliveryManifest(disk, sid, Advanced(state), owner, prior, Dead(letter), token, touched);
    assert ConcludeDelivery(staged, sid, Advanced(state), owner, m.entries, fault)
      == ApplyCommit(staged, sid, m, fault);
    StuckApply(staged, sid, m, fault);
  }

  /** The commit of a death reaches its manifest write. */
  ghost predicate ReachesCommitPoint(disk: Disk, state: SourceState, execution: Execution, token: nat, fault: Fault)
    requires disk.storage.Present?
  {
    var staged := StageDelivery(disk, state, execution, token, fault);
    staged.outcome.Done? && staged.fault.budget > 0
  }

  /**
    A death at a taken place, exactly: up to its manifest write nothing has happened; from the manifest
    write on, wherever it is cut, the source is stuck and nothing but the source state has changed.
   */
  lemma CollisionExact(
    disk: Disk, sid: NodeId, state: SourceState, owner: Owner, prior: DeliveryRecord, letter: DeadLetter, token: nat,
    fault: Fault)
    requires DeliveryDue(disk, sid, state, owner, prior, Dead(letter)) && !PlaceFree(disk.Files(), owner, letter)
    ensures
      var r := CommitDelivery(disk, sid, state, owner, prior, Dead(letter), token, fault);
      && !r.outcome.Done?
      && if ReachesCommitPoint(disk, state, Dead(letter), token, fault)
         then StuckAt(r.disk) && SameBeside(disk.Files(), r.disk.Files())
         else Quiet(r.disk, sid) && Goal(r.disk, sid) == View(disk)
  {
    CommitDeliveryUnfolds(disk, sid, state, owner, prior, Dead(letter), token, fault);
    DeliveryStages(disk, sid, state, Dead(letter), token, fault);
    var staged := StageDelivery(disk, state, Dead(letter), token, fault);
    if staged.outcome.Done? {
      ConclusionCollides(disk, staged.disk, sid, state, owner, prior, letter, token, staged.fault);
    }
  }

  // ---------------------------------------------------------------- dead-lettering, exactly

  /** A delivery commit with unused staging names and nine steps is not cut. */
  lemma DeliveryIsNotCut(
    disk: Disk, sid: NodeId, state: SourceState, owner: Owner, prior: DeliveryRecord, execution: Execution, token: nat,
    fault: Fault)
    requires DeliveryDue(disk, sid, state, owner, prior, execution) && StagedClear(disk.Files(), token)
      && fault.budget >= 9
    ensures !CommitDelivery(disk, sid, state, owner, prior, execution, token, fault).outcome.Crashed?
  {
    CommitDeliveryUnfolds(disk, sid, state, owner, prior, execution, token, fault);
    DeliveryStages(disk, sid, state, execution, token, fault);
    var staged := StageDelivery(disk, state, execution, token, fault);
    var entries := [SourceInstall(disk.Files(), token, Advanced(state))]
      + OutcomeEntries(owner, prior, RecordDoc(prior), execution, token + 1);
    ConclusionIsNotCut(staged.disk, sid, Advanced(state), owner, entries, staged.fault);
  }

  lemma ConclusionIsNotCut(
    disk: Disk, sid: NodeId, next: SourceState, owner: Owner, entries: seq<Operation>, fault: Fault)
    requires disk.storage.Present? && |entries| <= 3 && fault.budget >= 6
    ensures !ConcludeDelivery(disk, sid, next, owner, entries, fault).outcome.Crashed?
  {
    var touched := Touched(disk, owner);
    if touched.Ok? {
      var m := CommitManifest(sid, next.instance, next.generation, touched.value, map[], DeliveryResult, entries);
      ApplyCommitIsNotCut(disk, sid, m, fault);
    }
  }

  /**
    Dead-lettering, exactly: given steps enough and unused staging names, it completes if and only if
    its place is free or holds the same letter; otherwise it leaves the source stuck.
   */
  lemma DeadLetteringCompletesIffPlaceFree(
    disk: Disk, sid: NodeId, state: SourceState, owner: Owner, prior: DeliveryRecord, letter: DeadLetter, token: nat,
    fault: Fault)
    requires DeliveryDue(disk, sid, state, owner, prior, Dead(letter)) && StagedClear(disk.Files(), token)
      && fault.budget >= 9
    ensures
      var r := CommitDelivery(disk, sid, state, owner, prior, Dead(letter), token, fault);
      && (r.outcome.Done? <==> PlaceFree(disk.Files(), owner, letter))
      && (!PlaceFree(disk.Files(), owner, letter) ==> StuckAt(r.disk))
  {
    if PlaceFree(disk.Files(), owner, letter) {
      DeliveryIsNotCut(disk, sid, state, owner, prior, Dead(letter), token, fault);
      DeliveryCommitAtomic(disk, sid, state, owner, prior, Dead(letter), token, fault);
    } else {
      CollisionExact(disk, sid, state, owner, prior, letter, token, fault);
      DeliveryStages(disk, sid, state, Dead(letter), token, fault);
    }
  }
}
