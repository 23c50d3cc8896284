/**
  The order of durable steps, read off the disk wherever a run is cut. Every count of steps left is an
  arbitrary crash point, so these results say which of two changes another reader can see without the other.
 */
module StepOrder {
  import opened Basics
  import opened Identifiers
  import opened Outbox
  import opened StoreTypes
  import opened CommitManifests
  import opened Commit
  import opened Lineage

  // ---------------------------------------------------------------- commits

  /** The first `k` operations have taken effect, the targets of the others are as they were. */
  predicate AppliedUpTo(before: Files, after: Files, ops: seq<Operation>, k: nat) {
    && k <= |ops|
    && (forall j :: 0 <= j < k ==> Get(after, ops[j].final) == ops[j].Effect())
    && (forall j :: k <= j < |ops| ==> Get(after, ops[j].final) == Get(before, ops[j].final))
  }

  /** Replay applies its operations in the order of the manifest: a cut leaves a prefix of them applied. */
  lemma {:induction false} ReplayInOrder(files: Files, ops: seq<Operation>, i: nat, fault: Fault)
    requires i <= |ops| && DistinctFinals(ops) && EachValid(ops)
    requires forall j :: 0 <= j < i ==> Get(files, ops[j].final) == ops[j].Effect()
    ensures exists k :: i <= k <= |ops| && AppliedUpTo(files, Replay(files, ops, i, fault).files, ops, k)
    decreases |ops| - i
  {
    var r := Replay(files, ops, i, fault);
    if r.files == files {
      assert AppliedUpTo(files, r.files, ops, i);
    } else {
      match ReplayOne(files, ops[i]) {
        case Unchanged =>
          ReplayOneExact(files, ops[i]);
          ReplayInOrder(files, ops, i + 1, fault);
        case Changed(next) =>
          OnlyItsTarget(files, next, ops, i);
          ReplayInOrder(next, ops, i + 1, fault.(budget := fault.budget - 1));
          var k :| i + 1 <= k <= |ops| && AppliedUpTo(next, r.files, ops, k);
          PrefixCarries(files, next, r.files, ops, i, k);
      }
    }
  }

  /** One operation changes no other operation's target. */
  lemma OnlyItsTarget(files: Files, next: Files, ops: seq<Operation>, i: nat)
    requires i < |ops| && DistinctFinals(ops) && EachValid(ops) && ReplayOne(files, ops[i]) == Changed(next)
    ensures Get(next, ops[i].final) == ops[i].Effect()
    ensures forall j :: 0 <= j < |ops| && j != i ==> Get(next, ops[j].final) == Get(files, ops[j].final)
  {
    ReplayOneExact(files, ops[i]);
    forall j | 0 <= j < |ops| && j != i ensures Get(next, ops[j].final) == Get(files, ops[j].final) {
      assert ops[j].final != ops[i].final;
    }
  }

  lemma PrefixCarries(files: Files, next: Files, after: Files, ops: seq<Operation>, i: nat, k: nat)
    requires i < k && AppliedUpTo(next, after, ops, k)
    requires forall j :: 0 <= j < |ops| && j != i ==> Get(next, ops[j].final) == Get(files, ops[j].final)
    ensures AppliedUpTo(files, after, ops, k)
  {
  }

  /** Some prefix of the manifest's operations has taken effect; all of them if the replay is done. */
  ghost predicate PrefixApplied(before: Files, after: Files, ops: seq<Operation>, all: bool) {
    exists k :: AppliedUpTo(before, after, ops, k) && (all ==> k == |ops|)
  }

  lemma ReplayAppliesPrefix(files: Files, ops: seq<Operation>, fault: Fault)
    requires DistinctFinals(ops) && EachValid(ops)
    ensures
      var r := Replay(files, ops, 0, fault);
      PrefixApplied(files, r.files, ops, r.outcome.Done?)
  {
    var r := Replay(files, ops, 0, fault);
    ReplayInOrder(files, ops, 0, fault);
    ReplaySound(files, ops, 0, fault);
    if r.outcome.Done? {
      assert AppliedUpTo(files, r.files, ops, |ops|);
    }
  }

  /** The replay of a manifest moves files alone, and removes the manifest last. */
  lemma ManifestStepsInOrder(disk: Disk, m: CommitManifest, fault: Fault)
    requires disk.storage.Present? && disk.storage.value.commit == Present(m) && Valid(m)
    ensures
      var r := ReplayManifest(disk, m, fault);
      && r.disk.storage.Present?
      && r.disk == disk.WithFiles(r.disk.Files()).WithCommit(if r.outcome.Done? then Absent else Present(m))
      && PrefixApplied(disk.Files(), r.disk.Files(), m.entries, r.outcome.Done?)
  {
    ReplayAppliesPrefix(disk.Files(), m.entries, fault);
    PrefixAtLeast(disk.Files(), Replay(disk.Files(), m.entries, 0, fault).files, m.entries);
  }

  lemma PrefixAtLeast(before: Files, after: Files, ops: seq<Operation>)
    ensures PrefixApplied(before, after, ops, true) ==> PrefixApplied(before, after, ops, false)
  {
    if PrefixApplied(before, after, ops, true) {
      assert AppliedUpTo(before, after, ops, |ops|);
    }
  }

  /**
    Commit recovery on any disk with a durable manifest: no file changes before the added measurements are
    registered in the identity, operations apply in order, and the manifest goes exactly when it is done.
   */
  lemma CommitStepsInOrder(disk: Disk, sid: NodeId, m: CommitManifest, fault: Fault)
    requires disk.storage.Present? && disk.storage.value.commit == Present(m)
    ensures
      var r := RecoverCommit(disk, sid, fault);
      && r.disk.lineage == disk.lineage && r.disk.tombstone == disk.tombstone && r.disk.storage.Present?
      && r.disk.storage.value.commit == (if r.outcome.Done? then Absent else disk.storage.value.commit)
      && (r.disk.storage != disk.storage ==>
            && r.disk.identity.Present? && disk.identity.Present?
            && r.disk.identity.value.instance == disk.identity.value.instance
            && (forall id :: id in m.additions || id in disk.identity.value.measurements ==>
                  id in r.disk.identity.value.measurements))
      && (r.disk.Files() == disk.Files() || PrefixApplied(disk.Files(), r.disk.Files(), m.entries, r.outcome.Done?))
      && (r.outcome.Done? ==> PrefixApplied(disk.Files(), r.disk.Files(), m.entries, true))
  {
    if Valid(m) && disk.identity.Present? && fault.budget > 0 {
      var registered := disk.(identity := Present(Registered(disk.identity.value, m.additions)));
      ManifestStepsInOrder(registered, m, fault.(budget := fault.budget - 1));
    }
  }

  // ---------------------------------------------------------------- lineage transitions

  /**
    Lineage recovery on any disk with a durable manifest: storage is not touched before the target identity
    is in place, and the manifest goes exactly when the transition is done.
   */
  lemma LineageStepsInOrder(disk: Disk, sid: NodeId, lm: LineageManifest, fault: Fault)
    requires disk.lineage == Present(lm)
    ensures
      var r := RecoverLineage(disk, sid, fault);
      && r.disk.lineage == (if r.outcome.Done? then Absent else disk.lineage)
      && (r.disk.storage != disk.storage || r.disk.tombstone != disk.tombstone ==>
            r.disk.identity == Present(lm.target))
      && (r.outcome.Done? ==> r.disk.identity == Present(lm.target))
  {
    if ValidLineage(lm) {
      var authority := ApplyAuthority(disk, lm, fault);
      if authority.outcome.Done? && lm.sourceId == sid {
        if lm.scope.MeasurementReset? {
          if authority.disk.storage.Present? {
            SwapMeasurementConverges(authority.disk, lm.target, lm.scope.id, authority.fault);
          }
        } else {
          SwapSourceConverges(authority.disk, lm.target, authority.fault);
        }
      }
    }
  }

  /** A blind source reset: its manifest first, then the fresh identity, then storage, and the manifest goes last. */
  lemma BlindStepsInOrder(disk: Disk, sid: NodeId, scope: Scope, minted: InstanceId, fault: Fault)
    requires !scope.MeasurementReset?
    ensures
      var r := ApplyBlind(disk, sid, scope, minted, fault);
      var renewed := SourceIdentity(minted, map[]);
      && (fault.budget == 0 ==> r.disk == disk)
      && (fault.budget > 0 ==>
            r.disk.lineage == if r.outcome.Done? then Absent else Present(LineageManifest(sid, scope, None, renewed)))
      && (fault.budget <= 1 ==> r.disk.identity == disk.identity)
      && (fault.budget > 1 ==> r.disk.identity == Present(renewed))
      && (r.disk.storage != disk.storage || r.disk.tombstone != disk.tombstone ==> r.disk.identity == Present(renewed))
  {
    if fault.budget > 1 {
      var marked := disk.(lineage := Present(BlindManifest(sid, scope, minted)),
                          identity := Present(SourceIdentity(minted, map[])));
      SwapSourceConverges(marked, SourceIdentity(minted, map[]), fault.(budget := fault.budget - 2));
    }
  }

  // ---------------------------------------------------------------- swaps

  function One(b: bool): (n: nat)
    ensures n == 0 || n == 1
  {
    if b then 1 else 0
  }

  /**
    The source swap, cut after any number of steps: an old tombstone goes first, the old storage goes to the
    tombstone in one rename, the new storage is empty before it holds its state, and the tombstone goes last.
   */
  lemma SourceSwapStepByStep(disk: Disk, target: SourceIdentity, fault: Fault)
    ensures
      var moves := !disk.storage.Absent?;
      var gone := One(disk.tombstone) + One(moves);
      var renewed := Storage(map[SourceStateFile := SourceStateDoc(SourceState(target.instance, 1, 0))], Absent);
      var r := SwapSource(disk, target, fault);
      && r.disk ==
         (if fault.budget < One(disk.tombstone) then disk
          else if fault.budget < gone then disk.(tombstone := false)
          else if fault.budget == gone then disk.(storage := Absent, tombstone := moves)
          else if fault.budget == gone + 1 then disk.(storage := Present(Storage(map[], Absent)), tombstone := moves)
          else disk.(storage := Present(renewed), tombstone := moves && fault.budget == gone + 2))
      && (r.outcome.Done? <==> fault.budget >= gone + 2 + One(moves))
  {
  }

  /** The files that stay when the subtree of one measurement is moved away. */
  ghost predicate KeepsOthers(before: Files, after: Files, m: NodeId) {
    forall p: Path :: p.Subtree() != Some(m) ==> Get(after, p) == Get(before, p)
  }

  /**
    The measurement swap, cut after any number of steps: an old tombstone goes first, the whole subtree goes
    to the tombstone in one rename, then its fresh state is written, and the tombstone goes last. No file
    outside the subtree changes at any step.
   */
  lemma MeasurementSwapStepByStep(disk: Disk, target: SourceIdentity, m: NodeId, fault: Fault)
    requires disk.storage.Present? && m in target.measurements
    ensures
      var moves := exists p: Path :: p in disk.Files() && p.Subtree() == Some(m);
      var gone := One(disk.tombstone) + One(moves);
      var r := SwapMeasurement(disk, target, m, fault);
      var renewed := MeasurementState(target.instance, target.measurements[m].instance, 0);
      && r.disk.identity == disk.identity && r.disk.lineage == disk.lineage && r.disk.storage.Present?
      && r.disk.storage.value.commit == disk.storage.value.commit
      && KeepsOthers(disk.Files(), r.disk.Files(), m)
      && (fault.budget < gone ==> r.disk.Files() == disk.Files())
      && (fault.budget >= gone ==>
            forall p: Path :: p.Subtree() == Some(m) ==>
              Get(r.disk.Files(), p) ==
              if fault.budget > gone && p == MeasurementStateFile(m) then Some(MeasurementStateDoc(renewed)) else None)
      && r.disk.tombstone ==
         (if fault.budget < One(disk.tombstone) then disk.tombstone
          else moves && gone <= fault.budget <= gone + 1)
      && (r.outcome.Done? <==> fault.budget >= gone + 1 + One(moves))
  {
    SubtreeMoves(disk.Files(), m);
    assert MeasurementStateFile(m).Subtree() == Some(m);
  }

  lemma SubtreeMoves(files: Files, m: NodeId)
    ensures WithoutSubtree(files, m) == files <==> !exists p: Path :: p in files && p.Subtree() == Some(m)
    ensures KeepsOthers(files, WithoutSubtree(files, m), m)
    ensures forall p: Path :: p.Subtree() == Some(m) ==> Get(WithoutSubtree(files, m), p) == None
  {
    if p: Path :| p in files && p.Subtree() == Some(m) {
      assert p !in WithoutSubtree(files, m);
    }
  }
}
