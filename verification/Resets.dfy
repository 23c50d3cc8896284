/** The two resets: mint-only, over the lineage-transition protocol. */
module Resets {
  import opened Basics
  import opened Identifiers
  import opened Outbox
  import opened StoreTypes
  import opened Gate
  import opened Lineage
  import opened Recovery

  /** `reset_source`: turn entry is attempted, its verdict ignored, and the scope replaced blindly. */
  function ResetSource(disk: Disk, sid: NodeId, minted: InstanceId, fault: Fault): Run {
    var turn := TurnEntry(disk, sid, fault);
    if !turn.run.outcome.Done? then turn.run
    else
      var scope := if turn.run.disk.identity.Absent? then Init else SourceReset;
      ApplyBlind(turn.run.disk, sid, scope, minted, turn.run.fault)
  }

  /** `reset_measurement`. */
  function ResetMeasurement(disk: Disk, sid: NodeId, m: NodeId, minted: InstanceId, fault: Fault): Run {
    var turn := TurnEntry(disk, sid, fault);
    if !turn.run.outcome.Done? then turn.run
    else
      var disk1, fault1 := turn.run.disk, turn.run.fault;
      if turn.verdict != ReadyTurn || !disk1.identity.Present? then Stop(disk1, fault1)
      else
        var target := ResetIdentity(disk1.identity.value, m, minted);
        if target.Err? then Stop(disk1, fault1)
        else ApplyTransition(disk1, sid, ResetManifest(sid, m, disk1.identity.value, target.value), fault1)
  }

  function ResetManifest(sid: NodeId, m: NodeId, from: SourceIdentity, target: SourceIdentity): LineageManifest {
    LineageManifest(sid, MeasurementReset(m), Some(from), target)
  }

  /** A source just born: one identity without measurements, one fresh state, nothing else. */
  function FreshDisk(minted: InstanceId): Disk {
    var identity := SourceIdentity(minted, map[]);
    Disk(Present(identity), Present(FreshStorage(identity)), false, Absent)
  }

  lemma FreshDiskQuiet(minted: InstanceId, sid: NodeId)
    ensures Quiet(FreshDisk(minted), sid) && View(FreshDisk(minted)) == FreshDisk(minted)
  {
    assert Durable(FreshDisk(minted).Files()) == FreshDisk(minted).Files();
  }

  // ---------------------------------------------------------------- transitions from a quiet store

  /** A transition is its manifest write followed by lineage recovery. */
  lemma ApplyTransitionSteps(disk: Disk, sid: NodeId, lm: LineageManifest, fault: Fault)
    requires ValidLineage(lm) && lm.sourceId == sid
    requires lm.scope.SourceReset? ==> lm.from.Some?
    ensures ApplyTransition(disk, sid, lm, fault)
            == if fault.budget == 0 then Run(disk, fault, Crashed)
               else RecoverLineage(disk.(lineage := Present(lm)), sid, fault.(budget := fault.budget - 1))
  {
    var started := Step(disk, disk.(lineage := Present(lm)), fault);
    if fault.budget == 0 {
      assert started.IsFailure() && started.PropagateFailure() == Run(disk, fault, Crashed);
    } else {
      assert !started.IsFailure();
      assert started.Extract() == (disk.(lineage := Present(lm)), fault.(budget := fault.budget - 1));
    }
  }

  /** Once the manifest is there, what the disk stands for is the manifest's goal. */
  lemma PendingTransition(disk: Disk, sid: NodeId, lm: LineageManifest)
    requires Quiet(disk, sid) && ValidLineage(lm) && lm.sourceId == sid
    requires !disk.identity.Unreadable? && Authority(lm, Observed(disk.identity)) != UnresolvableLineage
    requires lm.scope.MeasurementReset? ==> disk.storage.Present?
    requires Coherent(LineageGoal(disk, lm), sid)
    ensures
      var pending := disk.(lineage := Present(lm));
      Transitioning(pending, sid) && Goal(pending, sid) == LineageGoal(disk, lm)
  {
  }

  /** The manifest write decides a transition: before it nothing happened, from it on it will finish. */
  lemma TransitionAtomic(disk: Disk, sid: NodeId, lm: LineageManifest, fault: Fault)
    requires Quiet(disk, sid) && ValidLineage(lm) && lm.sourceId == sid
    requires lm.scope.SourceReset? ==> lm.from.Some?
    requires !disk.identity.Unreadable? && Authority(lm, Observed(disk.identity)) != UnresolvableLineage
    requires lm.scope.MeasurementReset? ==> disk.storage.Present?
    requires Coherent(LineageGoal(disk, lm), sid)
    ensures
      var r := ApplyTransition(disk, sid, lm, fault);
      && r.outcome != Failed && Recoverable(r.disk, sid)
      && (fault.budget == 0 ==> r.disk == disk && r.outcome == Crashed)
      && (fault.budget > 0 ==> Goal(r.disk, sid) == LineageGoal(disk, lm))
      && (r.outcome.Done? ==> View(r.disk) == LineageGoal(disk, lm))
  {
    ApplyTransitionSteps(disk, sid, lm, fault);
    if fault.budget > 0 {
      var pending := disk.(lineage := Present(lm));
      PendingTransition(disk, sid, lm);
      RecoverLineageConverges(pending, sid, fault.(budget := fault.budget - 1));
      var r := RecoverLineage(pending, sid, fault.(budget := fault.budget - 1));
      if r.outcome.Done? {
        QuietUpToStaging(r.disk, LineageGoal(disk, lm), sid);
      }
    }
  }

  lemma ResetFilesFit(files: Files, from: SourceIdentity, target: SourceIdentity, m: NodeId, sid: NodeId, p: Path)
    requires FilesCoherent(files, from, sid) && ValidReset(m, from, target)
    requires p in ResetFiles(files, m, target)
    ensures FileFits(p, ResetFiles(files, m, target)[p], target, sid)
  {
    if p != MeasurementStateFile(m) {
      assert FileFits(p, files[p], from, sid);
    }
  }

  /** A reset lineage is coherent again, and everything outside the named subtree is as it was. */
  lemma ResetFilesSound(files: Files, from: SourceIdentity, target: SourceIdentity, m: NodeId, sid: NodeId)
    requires FilesCoherent(files, from, sid) && ValidReset(m, from, target)
    ensures
      var after := ResetFiles(files, m, target);
      && FilesCoherent(after, target, sid)
      && (forall p: Path :: p.Subtree() != Some(m) && !p.StagedFile? ==> Get(after, p) == Get(files, p))
      && (forall p :: p in after && p.Subtree() == Some(m) ==> p == MeasurementStateFile(m))
      && Get(after, MeasurementStateFile(m)) == Some(FreshStateDoc(target, m))
  {
    var after := ResetFiles(files, m, target);
    forall p | p in after ensures FileFits(p, after[p], target, sid) {
      ResetFilesFit(files, from, target, m, sid, p);
    }
  }

  /** The disk a measurement reset leads to. */
  function MeasurementResetDisk(disk: Disk, m: NodeId, minted: InstanceId): Option<Disk>
    requires disk.identity.Present? && disk.storage.Present?
  {
    var target := ResetIdentity(disk.identity.value, m, minted);
    if target.Err? || !ValidReset(m, disk.identity.value, target.value) then None
    else Some(Disk(Present(target.value), Present(Storage(ResetFiles(disk.Files(), m, target.value), Absent)), false,
      Absent))
  }

  /** A measurement reset over a quiet store, after turn entry. */
  lemma ResetFromQuiet(disk: Disk, sid: NodeId, m: NodeId, minted: InstanceId, fault: Fault)
    requires Quiet(disk, sid) && disk.identity.Present? && disk.storage.Present?
    requires ResetIdentity(disk.identity.value, m, minted).Ok?
    ensures
      var target := ResetIdentity(disk.identity.value, m, minted).value;
      var r := ApplyTransition(disk, sid, ResetManifest(sid, m, disk.identity.value, target), fault);
      var reset := MeasurementResetDisk(disk, m, minted);
      && Recoverable(r.disk, sid)
      && (Goal(r.disk, sid) == View(disk) || (reset.Some? && Goal(r.disk, sid) == reset.value))
      && (r.outcome.Done? ==> reset.Some? && View(r.disk) == reset.value && Goal(r.disk, sid) == reset.value)
  {
    var identity := disk.identity.value;
    var target := ResetIdentity(identity, m, minted).value;
    if ValidReset(m, identity, target) {
      ResetFilesSound(disk.Files(), identity, target, m, sid);
      TransitionAtomic(disk, sid, ResetManifest(sid, m, identity, target), fault);
    }
  }

  /**
    Measurement reset from any recoverable store: interrupted anywhere it stands for the old lineage
    or the reset one, never for anything between.
   */
  lemma MeasurementResetAtomic(disk: Disk, sid: NodeId, m: NodeId, minted: InstanceId, fault: Fault)
    requires Recoverable(disk, sid)
    ensures
      var before := TurnEntry(disk, sid, fault).run.disk;
      var r := ResetMeasurement(disk, sid, m, minted, fault);
      && Recoverable(r.disk, sid)
      && (Goal(r.disk, sid) == Goal(disk, sid)
          || (before.identity.Present? && before.storage.Present?
            && MeasurementResetDisk(before, m, minted) == Some(Goal(r.disk, sid))))
      && (r.outcome.Done? ==>
            before.identity.Present? && before.storage.Present?
              && MeasurementResetDisk(before, m, minted) == Some(View(r.disk)))
  {
    TurnEntryConverges(disk, sid, fault);
    var turn := TurnEntry(disk, sid, fault);
    if turn.run.outcome.Done? && turn.run.disk.identity.Present? {
      if ResetIdentity(turn.run.disk.identity.value, m, minted).Ok? {
        ResetFromQuiet(turn.run.disk, sid, m, minted, turn.run.fault);
      }
    }
  }

  /** The reset does not see staging. */
  lemma ResetOfView(disk: Disk, m: NodeId, minted: InstanceId)
    requires disk.identity.Present? && disk.storage.Present?
    ensures MeasurementResetDisk(View(disk), m, minted) == MeasurementResetDisk(disk, m, minted)
  {
    assert Durable(Durable(disk.Files())) == Durable(disk.Files());
  }

  /** So an interrupted measurement reset moves the goal to its reset, or leaves it. */
  lemma MeasurementResetMovesGoal(disk: Disk, sid: NodeId, m: NodeId, minted: InstanceId, fault: Fault)
    requires Recoverable(disk, sid)
    ensures
      var goal, after := Goal(disk, sid), ResetMeasurement(disk, sid, m, minted, fault).disk;
      && Recoverable(after, sid)
      && (Goal(after, sid) == goal
          || (goal.identity.Present? && goal.storage.Present?
            && MeasurementResetDisk(goal, m, minted) == Some(Goal(after, sid))))
  {
    MeasurementResetAtomic(disk, sid, m, minted, fault);
    TurnEntryConverges(disk, sid, fault);
    var before := TurnEntry(disk, sid, fault).run.disk;
    if before.identity.Present? && before.storage.Present? {
      ResetOfView(before, m, minted);
    }
  }

  /**
    What a measurement reset does to a source, spelled out: the named entry gets the minted instance and the
    next reset count, its subtree holds one fresh state of that instance, and nothing else changes.
   */
  ghost predicate MeasurementRenewed(before: Disk, after: Disk, m: NodeId, minted: InstanceId) {
    && before.identity.Present? && before.storage.Present? && after.identity.Present? && after.storage.Present?
    && var from, to := before.identity.value, after.identity.value;
       var count := if m in from.measurements then from.measurements[m].resetCount + 1 else 1;
       && to.instance == from.instance
       && to.measurements == from.measurements[m := MeasurementIdentity(minted, count)]
       && Get(after.Files(), MeasurementStateFile(m))
          == Some(MeasurementStateDoc(MeasurementState(from.instance, minted, 0)))
       && (forall p :: p in after.Files() && p.Subtree() == Some(m) ==> p == MeasurementStateFile(m))
       && (forall p: Path :: p.Subtree() != Some(m) && !p.StagedFile? ==>
             Get(after.Files(), p) == Get(before.Files(), p))
       && after.storage.value.commit == Absent && after.lineage == Absent && !after.tombstone
  }

  /** The reset count has a successor. */
  predicate CountsOn(identity: SourceIdentity, m: NodeId) {
    m in identity.measurements ==> identity.measurements[m].resetCount < U64_MAX
  }

  /** The identity a reset aims at, and when there is one; it always differs from the old one. */
  lemma ResetIdentityExact(identity: SourceIdentity, m: NodeId, minted: InstanceId)
    ensures
      var count := if m in identity.measurements then identity.measurements[m].resetCount + 1 else 1;
      var target := identity.(measurements := identity.measurements[m := MeasurementIdentity(minted, count)]);
      && ResetIdentity(identity, m, minted) == (if CountsOn(identity, m) then Ok(target) else Err)
      && (CountsOn(identity, m) ==> ValidReset(m, identity, target))
  {
  }

  /** The target a reset computes is valid, and the disk it leads to is the reset source. */
  lemma ResetDiskExact(disk: Disk, sid: NodeId, m: NodeId, minted: InstanceId)
    requires Quiet(disk, sid) && disk.identity.Present? && disk.storage.Present?
    ensures MeasurementResetDisk(disk, m, minted).Some? <==> CountsOn(disk.identity.value, m)
    ensures ResetIdentity(disk.identity.value, m, minted).Ok? <==> CountsOn(disk.identity.value, m)
    ensures MeasurementResetDisk(disk, m, minted).Some? ==>
      MeasurementRenewed(disk, MeasurementResetDisk(disk, m, minted).value, m, minted)
  {
    ResetIdentityExact(disk.identity.value, m, minted);
    if CountsOn(disk.identity.value, m) {
      var target := ResetIdentity(disk.identity.value, m, minted).value;
      ResetFilesRenewed(disk.Files(), target, m);
    }
  }

  /** The files of a reset, whatever they were before. */
  lemma ResetFilesRenewed(files: Files, target: SourceIdentity, m: NodeId)
    requires m in target.measurements
    ensures
      var after := ResetFiles(files, m, target);
      && Get(after, MeasurementStateFile(m))
         == Some(MeasurementStateDoc(MeasurementState(target.instance, target.measurements[m].instance, 0)))
      && (forall p :: p in after && p.Subtree() == Some(m) ==> p == MeasurementStateFile(m))
      && (forall p: Path :: p.Subtree() != Some(m) && !p.StagedFile? ==> Get(after, p) == Get(files, p))
  {
  }

  /** Over a quiet store the transition of a reset takes at most eight steps and is never refused. */
  lemma ResetOverQuietCompletes(disk: Disk, sid: NodeId, m: NodeId, target: SourceIdentity, fault: Fault)
    requires Quiet(disk, sid) && disk.identity.Present? && disk.storage.Present?
    requires ValidReset(m, disk.identity.value, target) && fault.budget >= 8
    ensures ApplyTransition(disk, sid, ResetManifest(sid, m, disk.identity.value, target), fault).outcome == Done
  {
    var lm := ResetManifest(sid, m, disk.identity.value, target);
    ResetFilesSound(disk.Files(), disk.identity.value, target, m, sid);
    TransitionAtomic(disk, sid, lm, fault);
    ApplyTransitionSteps(disk, sid, lm, fault);
    RecoverLineageSteps(disk.(lineage := Present(lm)), sid, fault.(budget := fault.budget - 1));
  }

  /** After its turn entry, a reset is not cut in eight more steps, and refused for two reasons only. */
  lemma ResetFromTurnCompletes(disk: Disk, sid: NodeId, m: NodeId, minted: InstanceId, fault: Fault)
    requires Recoverable(disk, sid)
    requires TurnEntry(disk, sid, fault).run.outcome.Done? && TurnEntry(disk, sid, fault).run.fault.budget >= 8
    ensures
      var r, before := ResetMeasurement(disk, sid, m, minted, fault), TurnEntry(disk, sid, fault).run.disk;
      && !r.outcome.Crashed?
      && (r.outcome.Done? <==> before.identity.Present? && CountsOn(before.identity.value, m))
  {
    TurnEntryConverges(disk, sid, fault);
    var turn := TurnEntry(disk, sid, fault).run;
    if turn.disk.identity.Present? {
      ResetIdentityExact(turn.disk.identity.value, m, minted);
      if CountsOn(turn.disk.identity.value, m) {
        var target := ResetIdentity(turn.disk.identity.value, m, minted).value;
        ResetOverQuietCompletes(turn.disk, sid, m, target, turn.fault);
      }
    }
  }

  /**
    A measurement reset from any recoverable store, exactly: wherever it is cut, the source stands for what it
    stood for or for that with the measurement reset; completed it stands for the latter; and with steps
    enough it completes if and only if the source exists and the reset count has a successor.
   */
  lemma MeasurementResetExact(disk: Disk, sid: NodeId, m: NodeId, minted: InstanceId, fault: Fault)
    requires Recoverable(disk, sid)
    ensures
      var r, goal := ResetMeasurement(disk, sid, m, minted, fault), Goal(disk, sid);
      && Recoverable(r.disk, sid)
      && (Goal(r.disk, sid) == goal || MeasurementRenewed(goal, Goal(r.disk, sid), m, minted))
      && (r.outcome.Done? ==> MeasurementRenewed(goal, View(r.disk), m, minted))
      && (fault.budget >= StepBound(disk) + 8 ==>
            && !r.outcome.Crashed?
            && (r.outcome.Done? <==> goal.identity.Present? && CountsOn(goal.identity.value, m)))
  {
    var goal := Goal(disk, sid);
    GoalIsQuiet(disk, sid);
    MeasurementResetMovesGoal(disk, sid, m, minted, fault);
    if ResetMeasurement(disk, sid, m, minted, fault).outcome.Done? {
      CompletedResetIsGoals(disk, sid, m, minted, fault);
    }
    if goal.identity.Present? {
      ResetDiskExact(goal, sid, m, minted);
    }
    if fault.budget >= StepBound(disk) + 8 {
      TurnEntryCompletes(disk, sid, fault);
      TurnEntryConverges(disk, sid, fault);
      ResetFromTurnCompletes(disk, sid, m, minted, fault);
    }
  }

  lemma CompletedResetIsGoals(disk: Disk, sid: NodeId, m: NodeId, minted: InstanceId, fault: Fault)
    requires Recoverable(disk, sid) && ResetMeasurement(disk, sid, m, minted, fault).outcome.Done?
    ensures
      var goal := Goal(disk, sid);
      && goal.identity.Present? && goal.storage.Present?
      && MeasurementResetDisk(goal, m, minted) == Some(View(ResetMeasurement(disk, sid, m, minted, fault).disk))
  {
    MeasurementResetAtomic(disk, sid, m, minted, fault);
    TurnEntryConverges(disk, sid, fault);
    ResetOfView(TurnEntry(disk, sid, fault).run.disk, m, minted);
  }

  // ---------------------------------------------------------------- the blind source reset

  /** Turn entry reports every refusal as a verdict, never as a failed run. */
  lemma TurnEntryNeverFails(disk: Disk, sid: NodeId, fault: Fault)
    ensures TurnEntry(disk, sid, fault).run.outcome != Failed
  {
  }

  /**
    The blind transition from any disk whatever. Cut before its manifest nothing has happened; cut
    right after it only the manifest has changed; cut later turn entry alone finishes the reset.
   */
  lemma BlindTransition(disk: Disk, sid: NodeId, scope: Scope, minted: InstanceId, fault: Fault)
    requires !scope.MeasurementReset? && (scope.Init? <==> disk.identity.Absent?)
    ensures
      var r := ApplyBlind(disk, sid, scope, minted, fault);
      && r.outcome != Failed
      && (r.outcome.Done? ==> r.disk == FreshDisk(minted))
      && (fault.budget == 0 ==> r.disk == disk)
      && (fault.budget == 1 ==>
            r.disk == disk.(lineage := Present(LineageManifest(sid, scope, None, SourceIdentity(minted, map[])))))
      && (fault.budget >= 2 ==> Recoverable(r.disk, sid) && Goal(r.disk, sid) == FreshDisk(minted))
  {
    if fault.budget >= 2 {
      BlindUnfolds(disk, sid, scope, minted, fault);
      BridgedReset(disk, sid, scope, minted, fault.(budget := fault.budget - 2));
    }
  }

  lemma BlindUnfolds(disk: Disk, sid: NodeId, scope: Scope, minted: InstanceId, fault: Fault)
    requires !scope.MeasurementReset? && fault.budget >= 2
    ensures ApplyBlind(disk, sid, scope, minted, fault)
            == FinishBlind(Bridged(disk, sid, scope, minted), SourceIdentity(minted, map[]),
              fault.(budget := fault.budget - 2))
  {
  }

  /** Both the manifest and the fresh authority are durable. */
  function Bridged(disk: Disk, sid: NodeId, scope: Scope, minted: InstanceId): Disk {
    disk.(lineage := Present(BlindManifest(sid, scope, minted)), identity := Present(SourceIdentity(minted, map[])))
  }

  function FinishBlind(disk: Disk, target: SourceIdentity, fault: Fault): Run {
    var (disk3, fault3) :- SwapSource(disk, target, fault);
    Step(disk3, disk3.(lineage := Absent), fault3)
  }

  lemma BridgedReset(disk: Disk, sid: NodeId, scope: Scope, minted: InstanceId, fault: Fault)
    requires !scope.MeasurementReset?
    ensures
      var r := FinishBlind(Bridged(disk, sid, scope, minted), SourceIdentity(minted, map[]), fault);
      && r.outcome != Failed
      && (r.outcome.Done? ==> r.disk == FreshDisk(minted))
      && Recoverable(r.disk, sid) && Goal(r.disk, sid) == FreshDisk(minted)
  {
    FreshDiskQuiet(minted, sid);
    var target := SourceIdentity(minted, map[]);
    var bridged := Bridged(disk, sid, scope, minted);
    SwapSourceConverges(bridged, target, fault);
    var swapped := SwapSource(bridged, target, fault);
    assert Transitioning(swapped.disk, sid);
  }

  /** After the manifest alone: the blind window, or, where no identity existed, a resumable one. */
  lemma BlindManifestAlone(disk: Disk, sid: NodeId, scope: Scope, minted: InstanceId)
    requires !scope.MeasurementReset? && (scope.Init? <==> disk.identity.Absent?)
    ensures
      var cut := disk.(lineage := Present(BlindManifest(sid, scope, minted)));
      || (Blind(cut, sid) && !disk.identity.Absent?)
      || (Recoverable(cut, sid) && Goal(cut, sid) == FreshDisk(minted))
  {
    FreshDiskQuiet(minted, sid);
  }

  /** The steps a whole source reset can need. */
  function ResetBound(disk: Disk): nat {
    StepBound(disk) + 8
  }

  lemma BlindSteps(disk: Disk, sid: NodeId, scope: Scope, minted: InstanceId, fault: Fault)
    requires !scope.MeasurementReset? && fault.budget >= 8
    ensures ApplyBlind(disk, sid, scope, minted, fault).outcome == Done
  {
    var bridged := Bridged(disk, sid, scope, minted);
    var finished := FinishBlind(bridged, SourceIdentity(minted, map[]), fault.(budget := fault.budget - 2));
    assert finished.outcome == Done;
  }

  /**
    Blind reset always wins. From any disk, however corrupt its identity or manifests: it is never
    refused; completed, it leaves exactly a fresh coherent lineage; cut after its own manifest, it
    leaves the old identity and storage untouched behind the blind window, where turn entry refuses
    and writes nothing, or, over no identity, a disk from which turn entry alone reaches that lineage.
   */
  lemma BlindResetWins(disk: Disk, sid: NodeId, minted: InstanceId, fault: Fault)
    ensures
      var before := TurnEntry(disk, sid, fault).run;
      var r := ResetSource(disk, sid, minted, fault);
      && r.outcome != Failed
      && (r.outcome.Done? ==> r.disk == FreshDisk(minted) && Quiet(r.disk, sid))
      && FreshDisk(minted)
         == Disk(Present(SourceIdentity(minted, map[])),
                 Present(Storage(map[SourceStateFile := SourceStateDoc(SourceState(minted, 1, 0))], Absent)),
                 false, Absent)
      && (r.outcome.Crashed? ==>
            || r.disk == before.disk
            || (r.disk == before.disk.(lineage := Present(
                  LineageManifest(sid, if before.disk.identity.Absent? then Init else SourceReset, None,
                                  SourceIdentity(minted, map[]))))
                && (if before.disk.identity.Absent?
                    then Recoverable(r.disk, sid) && Goal(r.disk, sid) == FreshDisk(minted) else Blind(r.disk, sid)))
            || (Recoverable(r.disk, sid) && Goal(r.disk, sid) == FreshDisk(minted)))
  {
    TurnEntryNeverFails(disk, sid, fault);
    FreshDiskQuiet(minted, sid);
    var before := TurnEntry(disk, sid, fault).run;
    if before.outcome.Done? {
      var scope := if before.disk.identity.Absent? then Init else SourceReset;
      BlindTransition(before.disk, sid, scope, minted, before.fault);
      BlindManifestAlone(before.disk, sid, scope, minted);
    }
  }

  /** Source resets in sequence, each cut by its own fault. */
  function ResetRepeatedly(disk: Disk, sid: NodeId, cuts: seq<(InstanceId, Fault)>): Disk
    decreases |cuts|
  {
    if cuts == [] then disk else ResetRepeatedly(ResetSource(disk, sid, cuts[0].0, cuts[0].1).disk, sid, cuts[1..])
  }

  /** However often it was cut before, one source reset with enough steps ends in a fresh lineage. */
  lemma RepeatedResetsConverge(
    disk: Disk, sid: NodeId, cuts: seq<(InstanceId, Fault)>, minted: InstanceId, fault: Fault)
    requires fault.budget >= ResetBound(ResetRepeatedly(disk, sid, cuts))
    ensures
      var r := ResetSource(ResetRepeatedly(disk, sid, cuts), sid, minted, fault);
      r.outcome == Done && r.disk == FreshDisk(minted)
  {
    ResetCompletes(ResetRepeatedly(disk, sid, cuts), sid, minted, fault);
  }

  lemma ResetCompletes(disk: Disk, sid: NodeId, minted: InstanceId, fault: Fault)
    requires fault.budget >= ResetBound(disk)
    ensures ResetSource(disk, sid, minted, fault).outcome == Done
      && ResetSource(disk, sid, minted, fault).disk == FreshDisk(minted)
  {
    BlindResetWins(disk, sid, minted, fault);
    TurnEntryCompletes(disk, sid, fault);
    var before := TurnEntry(disk, sid, fault).run;
    var scope := if before.disk.identity.Absent? then Init else SourceReset;
    BlindSteps(before.disk, sid, scope, minted, before.fault);
  }
}
