/** Lineage transitions: initialisation, source reset, measurement reset, and the blind source reset. */
module Lineage {
  import opened Basics
  import opened Identifiers
  import opened Outbox
  import opened StoreTypes

  predicate ValidReset(m: NodeId, from: SourceIdentity, target: SourceIdentity) {
    && from.instance == target.instance
    && m in target.measurements
    && (forall id :: id in from.measurements ==>
          id in target.measurements && (id != m ==> target.measurements[id] == from.measurements[id]))
    && (forall id :: id in target.measurements && id != m ==> id in from.measurements)
    && (m in from.measurements ==> from.measurements[m] != target.measurements[m])
  }

  /** `LineageManifest::validate`. */
  predicate ValidLineage(lm: LineageManifest) {
    match (lm.scope, lm.from)
    case (Init, None) => lm.target.measurements == map[]
    case (Init, Some(_)) => false
    case (SourceReset, None) => lm.target.measurements == map[]
    case (SourceReset, Some(from)) => lm.target.measurements == map[] && lm.target.instance != from.instance
    case (MeasurementReset(m), Some(from)) => ValidReset(m, from, lm.target)
    case (MeasurementReset(_), None) => false
  }

  /** Validation pins a measurement reset down: the prior identity with only the named entry replaced. */
  lemma ResetReplacesOnlyTheNamedEntry(m: NodeId, from: SourceIdentity, target: SourceIdentity)
    ensures ValidReset(m, from, target) <==>
            && m in target.measurements
            && target == from.(measurements := from.measurements[m := target.measurements[m]])
            && (m in from.measurements ==> from.measurements[m] != target.measurements[m])
  {
    if ValidReset(m, from, target) {
      assert target.measurements == from.measurements[m := target.measurements[m]];
    }
  }

  /** `SourceIdentity::reset_measurement` with a minted instance. */
  function ResetIdentity(identity: SourceIdentity, m: NodeId, minted: InstanceId): Result<SourceIdentity> {
    var count := if m in identity.measurements then CheckedSucc(identity.measurements[m].resetCount) else Some(1);
    if count.None? then Err
    else Ok(identity.(measurements := identity.measurements[m := MeasurementIdentity(minted, count.value)]))
  }

  datatype LineageRecovery = ApplyTargetIdentity | ContinueScopeSwap | UnresolvableLineage

  /** The manifest authority table, `LineageManifest::recover_against`. */
  function Authority(lm: LineageManifest, observed: Option<SourceIdentity>): LineageRecovery {
    if observed.None? then
      if lm.scope.Init? then ApplyTargetIdentity else UnresolvableLineage
    else if lm.from == observed then ApplyTargetIdentity
    else if observed.value == lm.target then ContinueScopeSwap
    else UnresolvableLineage
  }

  function Observed(identity: Slot<SourceIdentity>): Option<SourceIdentity>
    requires !identity.Unreadable?
  {
    if identity.Absent? then None else Some(identity.value)
  }

  function ReadLineage(lineage: Slot<LineageManifest>): Slot<LineageManifest> {
    if lineage.Present? && !ValidLineage(lineage.value) then Unreadable else lineage
  }

  /** `apply_manifest_authority`. */
  function ApplyAuthority(disk: Disk, lm: LineageManifest, fault: Fault): Run {
    if disk.identity.Unreadable? then Stop(disk, fault)
    else match Authority(lm, Observed(disk.identity))
      case ApplyTargetIdentity => Step(disk, disk.(identity := Present(lm.target)), fault)
      case ContinueScopeSwap => Finish(disk, fault)
      case UnresolvableLineage => Stop(disk, fault)
  }

  function RemoveTombstone(disk: Disk, fault: Fault): (r: Run)
    ensures r.disk == disk || r.disk == disk.(tombstone := false)
  {
    if disk.tombstone then Step(disk, disk.(tombstone := false), fault) else Finish(disk, fault)
  }

  function FreshStorage(target: SourceIdentity): Storage {
    Storage(map[SourceStateFile := SourceStateDoc(FreshState(target.instance))], Absent)
  }

  /** `swap_source_storage`: whatever is at the storage name goes to the tombstone. */
  function SwapSource(disk: Disk, target: SourceIdentity, fault: Fault): Run {
    var (disk1, fault1) :- RemoveTombstone(disk, fault);
    var (disk2, fault2) :-
      if disk1.storage.Absent? then Finish(disk1, fault1)
      else Step(disk1, disk1.(storage := Absent, tombstone := true), fault1);
    var (disk3, fault3) :- Step(disk2, disk2.(storage := Present(Storage(map[], Absent))), fault2);
    var (disk4, fault4) :- Step(disk3, disk3.(storage := Present(FreshStorage(target))), fault3);
    RemoveTombstone(disk4, fault4)
  }

  function WithoutSubtree(files: Files, m: NodeId): Files {
    map p | p in files && p.Subtree() != Some(m) :: files[p]
  }

  function FreshStateDoc(target: SourceIdentity, m: NodeId): Doc
    requires m in target.measurements
  {
    MeasurementStateDoc(FreshMeasurement(target.instance, target.measurements[m].instance))
  }

  /** The named subtree goes to the tombstone, if there is one. */
  function MoveSubtree(disk: Disk, m: NodeId, fault: Fault): (r: Run)
    requires disk.storage.Present?
    ensures r.disk.storage.Present?
  {
    if WithoutSubtree(disk.Files(), m) == disk.Files() then Finish(disk, fault)
    else Step(disk, disk.WithFiles(WithoutSubtree(disk.Files(), m)).(tombstone := true), fault)
  }

  function WriteFreshState(disk: Disk, target: SourceIdentity, m: NodeId, fault: Fault): Run
    requires disk.storage.Present? && m in target.measurements
  {
    Step(disk, disk.WithFiles(disk.Files()[MeasurementStateFile(m) := FreshStateDoc(target, m)]), fault)
  }

  /** `swap_measurement_storage`: only the named subtree is replaced. */
  function SwapMeasurement(disk: Disk, target: SourceIdentity, m: NodeId, fault: Fault): Run {
    if m !in target.measurements || !disk.storage.Present? then Stop(disk, fault)
    else
      var (disk1, fault1) :- RemoveTombstone(disk, fault);
      var (disk2, fault2) :- MoveSubtree(disk1, m, fault1);
      var (disk3, fault3) :- WriteFreshState(disk2, target, m, fault2);
      RemoveTombstone(disk3, fault3)
  }

  function SwapScope(disk: Disk, lm: LineageManifest, fault: Fault): Run {
    match lm.scope
    case MeasurementReset(m) => SwapMeasurement(disk, lm.target, m, fault)
    case _ => SwapSource(disk, lm.target, fault)
  }

  /** `recover_lineage_transition`; the source id is only checked after the identity is applied. */
  function RecoverLineage(disk: Disk, sid: NodeId, fault: Fault): Run {
    match ReadLineage(disk.lineage)
    case Absent => Finish(disk, fault)
    case Unreadable => Stop(disk, fault)
    case Present(lm) =>
      var (disk1, fault1) :- ApplyAuthority(disk, lm, fault);
      if lm.sourceId != sid then Stop(disk1, fault1) else FinishLineage(disk1, lm, fault1)
  }

  /** The end of a transition: swap the scope, remove the manifest last. */
  function FinishLineage(disk: Disk, lm: LineageManifest, fault: Fault): Run {
    var (disk2, fault2) :- SwapScope(disk, lm, fault);
    Step(disk2, disk2.(lineage := Absent), fault2)
  }

  /** `apply_source_transition` and `apply_measurement_transition`. */
  function ApplyTransition(disk: Disk, sid: NodeId, lm: LineageManifest, fault: Fault): Run {
    if lm.sourceId != sid || (lm.scope.SourceReset? && lm.from.None?) || !ValidLineage(lm) then Stop(disk, fault)
    else
      var (disk1, fault1) :- Step(disk, disk.(lineage := Present(lm)), fault);
      RecoverLineage(disk1, sid, fault1)
  }

  function BlindManifest(sid: NodeId, scope: Scope, minted: InstanceId): LineageManifest {
    LineageManifest(sid, scope, None, SourceIdentity(minted, map[]))
  }

  /** `apply_blind_source_transition`: it reads nothing of the old authority or storage. */
  function ApplyBlind(disk: Disk, sid: NodeId, scope: Scope, minted: InstanceId, fault: Fault): Run {
    if scope.MeasurementReset? then Stop(disk, fault)
    else
      var lm := BlindManifest(sid, scope, minted);
      var (disk1, fault1) :- Step(disk, disk.(lineage := Present(lm)), fault);
      var (disk2, fault2) :- Step(disk1, disk1.(identity := Present(lm.target)), fault1);
      var (disk3, fault3) :- SwapSource(disk2, lm.target, fault2);
      Step(disk3, disk3.(lineage := Absent), fault3)
  }

  // ---------------------------------------------------------------- the swaps

  /** From any disk whatever, the source swap is never refused and keeps authority and manifest. */
  lemma SwapSourceConverges(disk: Disk, target: SourceIdentity, fault: Fault)
    ensures
      var r := SwapSource(disk, target, fault);
      && r.outcome != Failed
      && r.disk.identity == disk.identity && r.disk.lineage == disk.lineage
      && (r.outcome.Done? ==> r.disk == disk.(storage := Present(FreshStorage(target)), tombstone := false))
  {
  }

  /** The files a measurement reset aims at: the named subtree replaced by a fresh state. */
  function ResetFiles(files: Files, m: NodeId, target: SourceIdentity): Files
    requires m in target.measurements
  {
    WithoutSubtree(Durable(files), m)[MeasurementStateFile(m) := FreshStateDoc(target, m)]
  }

  lemma ResetAfterRemoval(files: Files, m: NodeId, target: SourceIdentity)
    requires m in target.measurements
    ensures ResetFiles(WithoutSubtree(files, m), m, target) == ResetFiles(files, m, target)
  {
    assert WithoutSubtree(Durable(WithoutSubtree(files, m)), m) == WithoutSubtree(Durable(files), m);
  }

  lemma ResetAfterFreshState(files: Files, m: NodeId, target: SourceIdentity)
    requires m in target.measurements
    ensures
      var renewed := files[MeasurementStateFile(m) := FreshStateDoc(target, m)];
      && ResetFiles(renewed, m, target) == ResetFiles(files, m, target)
      && (WithoutSubtree(files, m) == files ==> Durable(renewed) == ResetFiles(files, m, target))
  {
    var renewed := files[MeasurementStateFile(m) := FreshStateDoc(target, m)];
    assert WithoutSubtree(Durable(renewed), m) == WithoutSubtree(Durable(files), m);
    if WithoutSubtree(files, m) == files {
      assert WithoutSubtree(Durable(files), m) == Durable(files);
    }
  }

  lemma MoveSubtreeKeepsAim(disk: Disk, target: SourceIdentity, m: NodeId, fault: Fault)
    requires disk.storage.Present? && m in target.measurements
    ensures
      var r := MoveSubtree(disk, m, fault);
      && r.outcome != Failed
      && r.disk.identity == disk.identity && r.disk.lineage == disk.lineage
          && r.disk.storage.value.commit == disk.storage.value.commit
      && ResetFiles(r.disk.Files(), m, target) == ResetFiles(disk.Files(), m, target)
      && (r.outcome.Done? ==> WithoutSubtree(r.disk.Files(), m) == r.disk.Files())
  {
    ResetAfterRemoval(disk.Files(), m, target);
  }

  /** The measurement swap keeps authority, manifests and aim wherever it is cut, and arrives when it completes. */
  lemma SwapMeasurementConverges(disk: Disk, target: SourceIdentity, m: NodeId, fault: Fault)
    requires disk.storage.Present? && m in target.measurements
    ensures
      var r := SwapMeasurement(disk, target, m, fault);
      && r.outcome != Failed
      && r.disk.identity == disk.identity && r.disk.lineage == disk.lineage
      && r.disk.storage.Present? && r.disk.storage.value.commit == disk.storage.value.commit
      && ResetFiles(r.disk.Files(), m, target) == ResetFiles(disk.Files(), m, target)
      && (r.outcome.Done? ==> !r.disk.tombstone && Durable(r.disk.Files()) == ResetFiles(disk.Files(), m, target))
  {
    var cleared := RemoveTombstone(disk, fault);
    if cleared.outcome.Done? {
      MoveSubtreeKeepsAim(cleared.disk, target, m, cleared.fault);
      var moved := MoveSubtree(cleared.disk, m, cleared.fault);
      if moved.outcome.Done? {
        ResetAfterFreshState(moved.disk.Files(), m, target);
      }
    }
  }

  /**
    A foreign manifest -- valid, but naming another source -- is refused only after its authority was
    applied: storage stays, yet the identity is overwritten, and changes, exactly when the table says to
    apply it: when the source has no identity yet, or the one the manifest starts from.
   */
  lemma ForeignManifestOverwritesIdentity(disk: Disk, sid: NodeId, lm: LineageManifest, fault: Fault)
    requires disk.lineage == Present(lm) && ValidLineage(lm) && lm.sourceId != sid
    requires !disk.identity.Unreadable? && fault.budget > 0
    ensures
      var r := RecoverLineage(disk, sid, fault);
      && r.outcome == Failed
      && r.disk == (if Authority(lm, Observed(disk.identity)) == ApplyTargetIdentity
                    then disk.(identity := Present(lm.target)) else disk)
      && (r.disk.identity != disk.identity <==>
            if disk.identity.Absent? then lm.scope.Init? else lm.from == Some(disk.identity.value))
  {
    if disk.identity.Present? && lm.from == Some(disk.identity.value) {
      FromDiffersFromTarget(lm);
    }
  }

  /** A valid manifest never aims at the identity it starts from. */
  lemma FromDiffersFromTarget(lm: LineageManifest)
    requires ValidLineage(lm) && lm.from.Some?
    ensures lm.from.value != lm.target
  {
  }

  /** A copied source directory: the copy's manifest resets the original, under the original's name. */
  const COPIED_IDENTITY: SourceIdentity := SourceIdentity(1, map[])
  const FOREIGN_MANIFEST: LineageManifest :=
    LineageManifest("b", SourceReset, Some(COPIED_IDENTITY), SourceIdentity(2, map[]))
  const COPIED_DISK: Disk :=
    Disk(Present(COPIED_IDENTITY), Present(FreshStorage(COPIED_IDENTITY)), false, Present(FOREIGN_MANIFEST))

  /** An input: recovery of the copy is refused, and leaves it with the identity the foreign manifest names. */
  lemma ForeignManifestExample(fault: Fault)
    requires fault.budget > 0
    ensures
      var r := RecoverLineage(COPIED_DISK, "a", fault);
      && ValidLineage(FOREIGN_MANIFEST) && r.outcome == Failed
      && r.disk == COPIED_DISK.(identity := Present(SourceIdentity(2, map[]))) && r.disk != COPIED_DISK
  {
    ForeignManifestOverwritesIdentity(COPIED_DISK, "a", FOREIGN_MANIFEST, fault);
  }
}
