/**
  Turn entry: lineage recovery, then commit recovery, before every operation.

  Every reachable disk has a `Goal`: the disk its recovery stands for. Crashing inside recovery,
  any number of times, never moves the goal, and recovery that completes arrives there.
 */
module Recovery {
  import opened Basics
  import opened Identifiers
  import opened Outbox
  import opened StoreTypes
  import opened CommitManifests
  import opened Commit
  import opened Gate
  import opened Lineage

  datatype ManifestKind = LineageKind | CommitKind

  datatype Verdict = ReadyTurn | UnresolvableTurn(kind: ManifestKind)

  /** The verdict is meaningful only when the run was not interrupted. */
  datatype Turn = Turn(run: Run, verdict: Verdict)

  /** `recover_turn_entry`. */
  function TurnEntry(disk: Disk, sid: NodeId, fault: Fault): Turn {
    var lineage := RecoverLineage(disk, sid, fault);
    if lineage.outcome.Failed? then Turn(Finish(lineage.disk, lineage.fault), UnresolvableTurn(LineageKind))
    else if lineage.outcome.Crashed? || !lineage.disk.storage.Present? then Turn(lineage, ReadyTurn)
    else
      var commit := RecoverCommit(lineage.disk, sid, lineage.fault);
      if commit.outcome.Failed? then Turn(Finish(commit.disk, commit.fault), UnresolvableTurn(CommitKind))
      else Turn(commit, ReadyTurn)
  }

  // ---------------------------------------------------------------- reachable phases

  /** No manifest is durable. */
  ghost predicate Quiet(disk: Disk, sid: NodeId) {
    && disk.lineage.Absent? && !disk.tombstone
    && (disk.storage.Present? ==> disk.storage.value.commit.Absent?)
    && Coherent(disk, sid)
  }

  /** A commit manifest is durable and its operations are applied or still guarded. */
  ghost predicate Committing(disk: Disk, sid: NodeId) {
    && disk.lineage.Absent? && !disk.tombstone
    && disk.identity.Present? && disk.storage.Present? && disk.storage.value.commit.Present?
    && CommitPending(disk, disk.storage.value.commit.value, sid)
    && Coherent(CommitGoal(disk, disk.storage.value.commit.value), sid)
  }

  /** The installed source state is the manifest's successor generation. */
  predicate InstallsSuccessor(m: CommitManifest) {
    forall i :: 0 <= i < |m.entries| && m.entries[i].final == SourceStateFile ==>
      && m.entries[i].Install? && m.entries[i].result.SourceStateDoc?
      && m.entries[i].result.source.generation == m.generation
      && m.entries[i].result.source.instance == m.sourceInstance
  }

  predicate Replaces(install: Operation, remove: Operation) {
    && install.final.DeadLetterFile? && remove.Remove? && remove.final.PendingFile?
    && install.final.owner == remove.final.owner && install.final.key == remove.final.key
  }

  /** Only pending records are removed, and never before the dead letter that replaces them. */
  predicate HandsOver(ops: seq<Operation>) {
    && (forall j :: 0 <= j < |ops| && ops[j].Remove? ==> ops[j].final.PendingFile?)
    && (forall i, j :: 0 <= i < |ops| && 0 <= j < |ops| && Replaces(ops[i], ops[j]) ==> i < j)
  }

  /** Until a dead letter is in place, the record it replaces still is. */
  predicate HandedOver(files: Files, ops: seq<Operation>) {
    forall i :: 0 <= i < |ops| && ops[i].final.DeadLetterFile? ==>
      ops[i].final in files || PendingFile(ops[i].final.owner, ops[i].final.key) in files
  }

  predicate CommitPending(disk: Disk, m: CommitManifest, sid: NodeId)
    requires disk.identity.Present? && disk.storage.Present?
  {
    && Valid(m) && m.sourceId == sid && InstallsSuccessor(m) && HandsOver(m.entries)
    && AllReady(disk.Files(), m.entries) && HandedOver(disk.Files(), m.entries)
    && ReadSourceState(disk.Files()).Present?
    && RecoverAgainst(m, disk.identity.value, ReadSourceState(disk.Files()).value.generation) == Apply
  }

  function CommitGoal(disk: Disk, m: CommitManifest): Disk
    requires disk.identity.Present? && disk.storage.Present?
  {
    Disk(Present(Registered(disk.identity.value, m.additions)),
         Present(Storage(Committed(disk.Files(), m.entries), Absent)), false, Absent)
  }

  /** A lineage manifest is durable and turn entry can finish it. */
  ghost predicate Transitioning(disk: Disk, sid: NodeId) {
    && disk.lineage.Present?
    && Resumable(disk, disk.lineage.value, sid)
    && Coherent(LineageGoal(disk, disk.lineage.value), sid)
  }

  predicate Resumable(disk: Disk, lm: LineageManifest, sid: NodeId) {
    && ValidLineage(lm) && lm.sourceId == sid
    && !disk.identity.Unreadable?
    && Authority(lm, Observed(disk.identity)) != UnresolvableLineage
    && (lm.scope.MeasurementReset? ==> disk.storage.Present? && disk.storage.value.commit.Absent?)
  }

  function LineageGoal(disk: Disk, lm: LineageManifest): Disk
    requires ValidLineage(lm) && (lm.scope.MeasurementReset? ==> disk.storage.Present?)
  {
    var storage :=
      match lm.scope
      case MeasurementReset(m) => Storage(ResetFiles(disk.Files(), m, lm.target), Absent)
      case _ => FreshStorage(lm.target);
    Disk(Present(lm.target), Present(storage), false, Absent)
  }

  /** A blind source reset is durable but its fresh authority is not: only another reset proceeds. */
  predicate Blind(disk: Disk, sid: NodeId) {
    && disk.lineage.Present?
    && ValidLineage(disk.lineage.value) && disk.lineage.value.sourceId == sid
    && disk.lineage.value.scope.SourceReset? && disk.lineage.value.from.None?
    && !disk.identity.Absent? && disk.identity != Present(disk.lineage.value.target)
  }

  ghost predicate Recoverable(disk: Disk, sid: NodeId) {
    Quiet(disk, sid) || Committing(disk, sid) || Transitioning(disk, sid)
  }

  /** Where recovery of a recoverable disk arrives, with staging left out of view. */
  ghost function Goal(disk: Disk, sid: NodeId): Disk
    requires Recoverable(disk, sid)
  {
    if disk.lineage.Present? then LineageGoal(disk, disk.lineage.value)
    else if disk.storage.Present? && disk.storage.value.commit.Present?
      then CommitGoal(disk, disk.storage.value.commit.value)
    else View(disk)
  }

  // ---------------------------------------------------------------- views

  lemma ViewKeepsCoherence(disk: Disk, sid: NodeId)
    ensures Coherent(View(disk), sid) <==> Coherent(disk, sid)
  {
    if disk.storage.Present? && disk.identity.Present? {
      var files, shown, identity := disk.Files(), View(disk).Files(), disk.identity.value;
      if FilesCoherent(files, identity, sid) {
        forall p | p in shown ensures FileFits(p, shown[p], identity, sid) {
          assert FileFits(p, files[p], identity, sid);
        }
      }
      if FilesCoherent(shown, identity, sid) {
        forall p | p in files ensures FileFits(p, files[p], identity, sid) {
          if !p.StagedFile? { assert FileFits(p, shown[p], identity, sid); }
        }
      }
    }
  }

  /** Disks that differ in staging alone are quiet together. */
  lemma QuietUpToStaging(disk: Disk, goal: Disk, sid: NodeId)
    requires View(disk) == goal && Coherent(goal, sid)
    requires goal.lineage.Absent? && !goal.tombstone && (goal.storage.Present? ==> goal.storage.value.commit.Absent?)
    ensures Quiet(disk, sid) && Goal(disk, sid) == goal
  {
    ViewKeepsCoherence(disk, sid);
  }

  // ---------------------------------------------------------------- commit recovery

  lemma RegisteredTwice(identity: SourceIdentity, additions: map<NodeId, InstanceId>)
    ensures Registered(Registered(identity, additions), additions) == Registered(identity, additions)
  {
  }

  /** The gate keeps opening after the additions are registered and after any part of the replay. */
  lemma GateStaysOpen(m: CommitManifest, identity: SourceIdentity, generation: nat)
    requires Valid(m) && RecoverAgainst(m, identity, generation) == Apply
    ensures RecoverAgainst(m, Registered(identity, m.additions), generation) == Apply
    ensures RecoverAgainst(m, Registered(identity, m.additions), m.generation) == Apply
    ensures ApplyAdditions(identity, m.additions) == Ok(Registered(identity, m.additions))
  {
  }

  /** One replayed operation keeps the handover: a record goes only after its letter came. */
  lemma StepHandsOver(files: Files, ops: seq<Operation>, i: nat)
    requires i < |ops| && DistinctFinals(ops) && EachValid(ops) && HandsOver(ops) && HandedOver(files, ops)
    requires forall j :: 0 <= j < i ==> Get(files, ops[j].final) == ops[j].Effect()
    requires ReplayOne(files, ops[i]).Changed?
    ensures HandedOver(ReplayOne(files, ops[i]).files, ops)
  {
    var next := ReplayOne(files, ops[i]).files;
    forall k | 0 <= k < |ops| && ops[k].final.DeadLetterFile?
      ensures ops[k].final in next || PendingFile(ops[k].final.owner, ops[k].final.key) in next
    {
      assert ops[k].final in files || PendingFile(ops[k].final.owner, ops[k].final.key) in files;
      if ops[i].Remove? && ops[i].final == PendingFile(ops[k].final.owner, ops[k].final.key) {
        assert Replaces(ops[k], ops[i]);
        assert Get(files, ops[k].final) == ops[k].Effect();
      }
    }
  }

  lemma {:induction false} ReplayHandsOver(files: Files, ops: seq<Operation>, i: nat, fault: Fault)
    requires i <= |ops| && DistinctFinals(ops) && EachValid(ops) && HandsOver(ops) && HandedOver(files, ops)
    requires forall j :: 0 <= j < i ==> Get(files, ops[j].final) == ops[j].Effect()
    ensures HandedOver(Replay(files, ops, i, fault).files, ops)
    decreases |ops| - i
  {
    if i < |ops| {
      ReplayOneExact(files, ops[i]);
      match ReplayOne(files, ops[i]) {
        case Refused =>
        case Unchanged => ReplayHandsOver(files, ops, i + 1, fault);
        case Changed(next) =>
          if fault.budget > 0 {
            StepHandsOver(files, ops, i);
            ReplayHandsOver(next, ops, i + 1, fault.(budget := fault.budget - 1));
          }
      }
    }
  }

  lemma ReplayKeepsPending(disk: Disk, m: CommitManifest, sid: NodeId, fault: Fault)
    requires disk.identity.Present? && disk.storage.Present?
    requires CommitPending(disk, m, sid)
    ensures
      var r := Replay(disk.Files(), m.entries, 0, fault);
      var after := disk.WithFiles(r.files);
      && r.outcome != Failed
      && CommitPending(disk.(identity := Present(Registered(disk.identity.value, m.additions))).WithFiles(r.files), m,
          sid)
      && Committed(r.files, m.entries) == Committed(disk.Files(), m.entries)
      && (r.outcome.Done? ==>
            && Durable(r.files) == Committed(disk.Files(), m.entries)
            && ReadSourceState(r.files).value.generation == m.generation
            && ReadSourceState(r.files).value.instance == m.sourceInstance)
  {
    var files, ops := disk.Files(), m.entries;
    ReplayNeverRefused(files, ops, 0, fault);
    ReplayHandsOver(files, ops, 0, fault);
    ReplayAims(files, ops, fault);
    ReplaySound(files, ops, 0, fault);
    GateStaysOpen(m, disk.identity.value, ReadSourceState(files).value.generation);
    var k :| 0 <= k < |ops| && ops[k].Install? && ops[k].final == SourceStateFile;
    var r := Replay(files, ops, 0, fault);
    assert Get(r.files, ops[k].final) == Get(files, ops[k].final) || Get(r.files, ops[k].final) == ops[k].Effect();
  }

  /** The replay of a pending commit whose additions are registered. */
  lemma ReplayConverges(disk: Disk, sid: NodeId, fault: Fault)
    requires Committing(disk, sid)
    requires disk.identity == Present(Registered(disk.identity.value, disk.storage.value.commit.value.additions))
    ensures
      var r := ReplayManifest(disk, disk.storage.value.commit.value, fault);
      && r.outcome != Failed
      && (r.outcome.Crashed? ==> Committing(r.disk, sid) && Goal(r.disk, sid) == Goal(disk, sid))
      && (r.outcome.Done? ==> View(r.disk) == Goal(disk, sid))
  {
    var m := disk.storage.value.commit.value;
    ReplayKeepsPending(disk, m, sid, fault);
    var r := ReplayManifest(disk, m, fault);
    assert r.disk.storage.Present? && r.disk.identity == disk.identity;
  }

  /** The disk once the additions of its pending manifest are registered. */
  function WithAdditions(disk: Disk, m: CommitManifest): Disk
    requires disk.identity.Present?
  {
    disk.(identity := Present(Registered(disk.identity.value, m.additions)))
  }

  lemma RegistrationKeepsGoal(disk: Disk, sid: NodeId)
    requires Committing(disk, sid)
    ensures
      var m := disk.storage.value.commit.value;
      && Committing(WithAdditions(disk, m), sid)
      && Goal(WithAdditions(disk, m), sid) == Goal(disk, sid)
      && WithAdditions(WithAdditions(disk, m), m) == WithAdditions(disk, m)
  {
    var m := disk.storage.value.commit.value;
    GateStaysOpen(m, disk.identity.value, ReadSourceState(disk.Files()).value.generation);
    RegisteredTwice(disk.identity.value, m.additions);
  }

  /** Past the gate, recovery registers the additions in one step and replays. */
  lemma RecoverCommitOpens(disk: Disk, sid: NodeId, fault: Fault)
    requires Committing(disk, sid)
    ensures
      var m := disk.storage.value.commit.value;
      RecoverCommit(disk, sid, fault) ==
      if fault.budget == 0 then Run(disk, fault, Crashed)
      else ReplayManifest(WithAdditions(disk, m), m, fault.(budget := fault.budget - 1))
  {
    PendingManifestOpens(disk, disk.storage.value.commit.value, sid, fault);
  }

  lemma PendingManifestOpens(disk: Disk, m: CommitManifest, sid: NodeId, fault: Fault)
    requires disk.identity.Present? && disk.storage.Present? && CommitPending(disk, m, sid)
    ensures
      RecoverManifest(disk, sid, m, fault) ==
      if fault.budget == 0 then Run(disk, fault, Crashed)
      else ReplayManifest(WithAdditions(disk, m), m, fault.(budget := fault.budget - 1))
  {
    GateStaysOpen(m, disk.identity.value, ReadSourceState(disk.Files()).value.generation);
  }

  /** Commit recovery of a pending commit: never refused, crash-proof, and exact when it completes. */
  lemma RecoverCommitConverges(disk: Disk, sid: NodeId, fault: Fault)
    requires Committing(disk, sid)
    ensures
      var r := RecoverCommit(disk, sid, fault);
      && r.outcome != Failed
      && (r.outcome.Crashed? ==> Committing(r.disk, sid) && Goal(r.disk, sid) == Goal(disk, sid))
      && (r.outcome.Done? ==> View(r.disk) == Goal(disk, sid))
  {
    RecoverCommitOpens(disk, sid, fault);
    if fault.budget > 0 {
      RegistrationKeepsGoal(disk, sid);
      ReplayConverges(WithAdditions(disk, disk.storage.value.commit.value), sid, fault.(budget := fault.budget - 1));
    }
  }

  /** Commit recovery of a quiet store only discards staging. */
  lemma RecoverCommitQuiet(disk: Disk, sid: NodeId, fault: Fault)
    requires Quiet(disk, sid) && disk.storage.Present?
    ensures
      var r := RecoverCommit(disk, sid, fault);
      && r.outcome != Failed
      && View(r.disk) == View(disk)
      && (r.outcome.Done? ==> r.disk == View(disk))
  {
    var r := RecoverCommit(disk, sid, fault);
    if !HasStaging(disk.Files()) {
      assert Durable(disk.Files()) == disk.Files();
    }
    assert Durable(r.disk.Files()) == Durable(disk.Files());
  }

  // ---------------------------------------------------------------- lineage recovery

  /** Applying the authority keeps a transition resumable and its goal in place. */
  lemma AuthorityKeepsGoal(disk: Disk, sid: NodeId, fault: Fault)
    requires Transitioning(disk, sid)
    ensures
      var a := ApplyAuthority(disk, disk.lineage.value, fault);
      && a.outcome != Failed && a.disk.lineage == disk.lineage
      && Transitioning(a.disk, sid) && Goal(a.disk, sid) == Goal(disk, sid)
      && (a.outcome.Done? ==> a.disk.identity == Present(disk.lineage.value.target))
  {
  }

  /** The source swap under the target identity. */
  lemma SourceSwapFinishes(disk: Disk, sid: NodeId, fault: Fault)
    requires Transitioning(disk, sid) && disk.identity == Present(disk.lineage.value.target)
    requires !disk.lineage.value.scope.MeasurementReset?
    ensures
      var r := FinishLineage(disk, disk.lineage.value, fault);
      && r.outcome != Failed
      && (r.outcome.Crashed? ==> Transitioning(r.disk, sid) && Goal(r.disk, sid) == Goal(disk, sid))
      && (r.outcome.Done? ==> View(r.disk) == Goal(disk, sid))
  {
    var target := disk.lineage.value.target;
    SwapSourceConverges(disk, target, fault);
    assert Durable(FreshStorage(target).files) == FreshStorage(target).files;
  }

  /** The measurement swap under the target identity. */
  lemma MeasurementSwapFinishes(disk: Disk, sid: NodeId, fault: Fault)
    requires Transitioning(disk, sid) && disk.identity == Present(disk.lineage.value.target)
    requires disk.lineage.value.scope.MeasurementReset?
    ensures
      var r := FinishLineage(disk, disk.lineage.value, fault);
      && r.outcome != Failed
      && (r.outcome.Crashed? ==> Transitioning(r.disk, sid) && Goal(r.disk, sid) == Goal(disk, sid))
      && (r.outcome.Done? ==> View(r.disk) == Goal(disk, sid))
  {
    SwapMeasurementConverges(disk, disk.lineage.value.target, disk.lineage.value.scope.id, fault);
  }

  /** Lineage recovery of a durable transition: never refused, crash-proof, exact when it completes. */
  lemma RecoverLineageConverges(disk: Disk, sid: NodeId, fault: Fault)
    requires Transitioning(disk, sid)
    ensures
      var r := RecoverLineage(disk, sid, fault);
      && r.outcome != Failed
      && (r.outcome.Crashed? ==> Transitioning(r.disk, sid) && Goal(r.disk, sid) == Goal(disk, sid))
      && (r.outcome.Done? ==> View(r.disk) == Goal(disk, sid))
  {
    AuthorityKeepsGoal(disk, sid, fault);
    var a := ApplyAuthority(disk, disk.lineage.value, fault);
    if a.outcome.Done? {
      if disk.lineage.value.scope.MeasurementReset? {
        MeasurementSwapFinishes(a.disk, sid, a.fault);
      } else {
        SourceSwapFinishes(a.disk, sid, a.fault);
      }
    }
  }

  // ---------------------------------------------------------------- turn entry

  /**
    Turn entry from any recoverable disk. Interrupted at any durable step it leaves a recoverable
    disk with the same goal; completed, the turn is ready and the disk is exactly the goal.
   */
  lemma TurnEntryConverges(disk: Disk, sid: NodeId, fault: Fault)
    requires Recoverable(disk, sid)
    ensures
      var turn := TurnEntry(disk, sid, fault);
      && turn.run.outcome != Failed
      && Recoverable(turn.run.disk, sid) && Goal(turn.run.disk, sid) == Goal(disk, sid)
      && (turn.run.outcome.Done? ==>
            && turn.verdict == ReadyTurn
            && Quiet(turn.run.disk, sid) && View(turn.run.disk) == Goal(disk, sid)
            && (turn.run.disk.storage.Present? && !Committing(disk, sid) ==> turn.run.disk == Goal(disk, sid)))
  {
    var goal := Goal(disk, sid);
    GoalIsQuiet(disk, sid);
    var lineage := RecoverLineage(disk, sid, fault);
    if Transitioning(disk, sid) {
      RecoverLineageConverges(disk, sid, fault);
      if lineage.outcome.Done? {
        QuietUpToStaging(lineage.disk, goal, sid);
        RecoverCommitQuiet(lineage.disk, sid, lineage.fault);
        QuietUpToStaging(RecoverCommit(lineage.disk, sid, lineage.fault).disk, goal, sid);
      }
    } else if Committing(disk, sid) {
      RecoverCommitConverges(disk, sid, fault);
      var commit := RecoverCommit(disk, sid, fault);
      if commit.outcome.Done? {
        QuietUpToStaging(commit.disk, goal, sid);
      }
    } else if disk.storage.Present? {
      RecoverCommitQuiet(disk, sid, fault);
      QuietUpToStaging(RecoverCommit(disk, sid, fault).disk, goal, sid);
    }
  }

  lemma GoalIsQuiet(disk: Disk, sid: NodeId)
    requires Recoverable(disk, sid)
    ensures Quiet(Goal(disk, sid), sid)
  {
    ViewKeepsCoherence(disk, sid);
  }

  /** In the blind window turn entry refuses and writes nothing. */
  lemma BlindWindowRefused(disk: Disk, sid: NodeId, fault: Fault)
    requires Blind(disk, sid)
    ensures TurnEntry(disk, sid, fault) == Turn(Finish(disk, fault), UnresolvableTurn(LineageKind))
  {
  }

  /** Recoveries in sequence, each cut by its own fault. */
  function RecoverRepeatedly(disk: Disk, sid: NodeId, faults: seq<Fault>): Disk
    decreases |faults|
  {
    if faults == [] then disk else RecoverRepeatedly(TurnEntry(disk, sid, faults[0]).run.disk, sid, faults[1..])
  }

  /** Any number of interrupted recoveries followed by a completed one arrives exactly at the goal. */
  lemma {:induction false} RepeatedCrashesConverge(disk: Disk, sid: NodeId, faults: seq<Fault>, last: Fault)
    requires Recoverable(disk, sid)
    ensures
      var after := RecoverRepeatedly(disk, sid, faults);
      && Recoverable(after, sid) && Goal(after, sid) == Goal(disk, sid)
      && (TurnEntry(after, sid, last).run.outcome.Done? ==>
            && View(TurnEntry(after, sid, last).run.disk) == Goal(disk, sid)
            && TurnEntry(after, sid, last).verdict == ReadyTurn)
    decreases |faults|
  {
    if faults == [] {
      TurnEntryConverges(disk, sid, last);
    } else {
      TurnEntryConverges(disk, sid, faults[0]);
      RepeatedCrashesConverge(TurnEntry(disk, sid, faults[0]).run.disk, sid, faults[1..], last);
    }
  }

  // ---------------------------------------------------------------- completion

  /** The durable steps a turn entry can need: one per operation and a fixed number of others. */
  function StepBound(disk: Disk): nat {
    9 + Entries(disk)
  }

  function Entries(disk: Disk): nat {
    if disk.storage.Present? && disk.storage.value.commit.Present? then |disk.storage.value.commit.value.entries| else 0
  }

  lemma RecoverCommitCompletes(disk: Disk, sid: NodeId, fault: Fault)
    requires disk.storage.Present?
    requires fault.budget >= 2 + Entries(disk)
    ensures !RecoverCommit(disk, sid, fault).outcome.Crashed?
    ensures RecoverCommit(disk, sid, fault).fault.budget >= fault.budget - 2 - Entries(disk)
  {
    if disk.storage.value.commit.Present? {
      ReplaySteps(disk.Files(), disk.storage.value.commit.value.entries, 0, fault.(budget := fault.budget - 1));
    }
  }

  lemma SwapScopeSteps(disk: Disk, lm: LineageManifest, fault: Fault)
    requires fault.budget >= 5
    ensures
      var r := SwapScope(disk, lm, fault);
      && !r.outcome.Crashed?
      && r.fault.budget >= fault.budget - 5
      && (r.outcome.Done? && r.disk.storage.Present? && r.disk.storage.value.commit.Present? ==>
            disk.storage.Present? && r.disk.storage.value.commit == disk.storage.value.commit)
  {
    match lm.scope {
      case MeasurementReset(m) =>
        if m in lm.target.measurements && disk.storage.Present? {
          SwapMeasurementConverges(disk, lm.target, m, fault);
        }
      case _ => SwapSourceConverges(disk, lm.target, fault);
    }
  }

  lemma RecoverLineageSteps(disk: Disk, sid: NodeId, fault: Fault)
    requires fault.budget >= 7
    ensures
      var r := RecoverLineage(disk, sid, fault);
      && !r.outcome.Crashed?
      && r.fault.budget >= fault.budget - 7
      && (r.outcome.Done? && r.disk.storage.Present? && r.disk.storage.value.commit.Present? ==>
            disk.storage.Present? && r.disk.storage.value.commit == disk.storage.value.commit)
  {
    if ReadLineage(disk.lineage).Present? {
      var a := ApplyAuthority(disk, disk.lineage.value, fault);
      if a.outcome.Done? {
        SwapScopeSteps(a.disk, disk.lineage.value, a.fault);
      }
    }
  }

  /** From any disk at all, a turn entry that is not interrupted within its bound comes to a verdict. */
  lemma TurnEntryCompletes(disk: Disk, sid: NodeId, fault: Fault)
    requires fault.budget >= StepBound(disk)
    ensures TurnEntry(disk, sid, fault).run.outcome == Done
    ensures TurnEntry(disk, sid, fault).run.fault.budget >= fault.budget - StepBound(disk)
  {
    RecoverLineageSteps(disk, sid, fault);
    var lineage := RecoverLineage(disk, sid, fault);
    if lineage.outcome.Done? && lineage.disk.storage.Present? {
      RecoverCommitCompletes(lineage.disk, sid, lineage.fault);
    }
  }

  /** What a durable lineage manifest needs to be finished on this disk. */
  predicate Finishable(disk: Disk, sid: NodeId) {
    match disk.lineage
    case Absent => true
    case Unreadable => false
    case Present(lm) =>
      && ValidLineage(lm) && lm.sourceId == sid
      && (if disk.identity.Absent? then lm.scope.Init?
          else disk.identity.Present? && (lm.from == Some(disk.identity.value) || lm.target == disk.identity.value))
      && (lm.scope.MeasurementReset? ==> disk.storage.Present?)
  }

  /** Lineage recovery on any disk: with steps enough it completes if and only if it is finishable. */
  lemma LineageCompletesIff(disk: Disk, sid: NodeId, fault: Fault)
    requires fault.budget >= 7
    ensures RecoverLineage(disk, sid, fault).outcome.Done? <==> Finishable(disk, sid)
  {
    RecoverLineageSteps(disk, sid, fault);
    if disk.lineage.Present? && ValidLineage(disk.lineage.value) && !disk.identity.Unreadable? {
      var lm := disk.lineage.value;
      var a := ApplyAuthority(disk, lm, fault);
      if a.outcome.Done? && lm.sourceId == sid {
        ScopeCompletesIff(a.disk, lm, a.fault);
      }
    }
  }

  lemma ScopeCompletesIff(disk: Disk, lm: LineageManifest, fault: Fault)
    requires ValidLineage(lm) && fault.budget >= 6
    ensures FinishLineage(disk, lm, fault).outcome.Done? <==> (lm.scope.MeasurementReset? ==> disk.storage.Present?)
  {
    SwapScopeSteps(disk, lm, fault);
    match lm.scope {
      case MeasurementReset(m) =>
        if disk.storage.Present? {
          SwapMeasurementConverges(disk, lm.target, m, fault);
        }
      case _ => SwapSourceConverges(disk, lm.target, fault);
    }
  }

  /** What commit recovery needs after lineage recovery, whatever the storage is. */
  predicate Settleable(disk: Disk, sid: NodeId) {
    disk.storage.Present? ==>
      match disk.storage.value.commit
      case Absent => true
      case Unreadable => false
      case Present(m) => Completable(disk, sid, m)
  }

  /**
    The verdict of an uninterrupted turn entry, on any disk at all: ready if and only if the lineage
    manifest is finishable and then the commit manifest completable, and otherwise the first of the two
    that is not.
   */
  lemma VerdictExact(disk: Disk, sid: NodeId, fault: Fault)
    requires fault.budget >= StepBound(disk)
    ensures
      var turn, middle := TurnEntry(disk, sid, fault), RecoverLineage(disk, sid, fault).disk;
      && turn.run.outcome == Done
      && turn.verdict ==
         if !Finishable(disk, sid) then UnresolvableTurn(LineageKind)
         else if !Settleable(middle, sid) then UnresolvableTurn(CommitKind)
         else ReadyTurn
  {
    TurnEntryCompletes(disk, sid, fault);
    LineageCompletesIff(disk, sid, fault);
    RecoverLineageSteps(disk, sid, fault);
    var lineage := RecoverLineage(disk, sid, fault);
    if lineage.outcome.Done? && lineage.disk.storage.Present? {
      RecoverCommitCompletes(lineage.disk, sid, lineage.fault);
      if lineage.disk.storage.value.commit.Present? {
        RecoveryCompletesIff(lineage.disk, sid, lineage.disk.storage.value.commit.value, lineage.fault);
      }
    }
  }
}
