/**
  Normal commits: staging, the write-ahead manifest, guarded replay, and recovery.

  Every function is a run over durable steps that a `Fault` may cut short.
 */
module Commit {
  import opened Basics
  import opened Identifiers
  import opened StoreTypes
  import opened CommitManifests

  datatype Replayed = Unchanged | Changed(files: Files) | Refused

  /** `replay_install` and `replay_remove`: at most one durable step, guarded by content. */
  function ReplayOne(files: Files, op: Operation): Replayed {
    match op
    case Install(final, staged, prior, result) =>
      if Get(files, final) == Some(result) then Unchanged
      else if Get(files, final) != prior then Refused
      else if Get(files, staged) != Some(result) then Refused
      else Changed((files - {staged})[final := result])
    case Remove(final, expected) =>
      if final !in files then Unchanged
      else if files[final] != expected then Refused
      else Changed(files - {final})
  }

  datatype FilesRun = FilesRun(files: Files, fault: Fault, outcome: Outcome)

  /** `replay_commit_operations` from position `i` on. */
  function Replay(files: Files, ops: seq<Operation>, i: nat, fault: Fault): FilesRun
    requires i <= |ops|
    decreases |ops| - i
  {
    if i == |ops| then FilesRun(files, fault, Done)
    else match ReplayOne(files, ops[i])
      case Refused => FilesRun(files, fault, Failed)
      case Unchanged => Replay(files, ops, i + 1, fault)
      case Changed(next) =>
        if fault.budget == 0 then FilesRun(files, fault, Crashed)
        else Replay(next, ops, i + 1, fault.(budget := fault.budget - 1))
  }

  /** A manifest document is decoded only if it satisfies its contract. */
  function ReadCommit(commit: Slot<CommitManifest>): Slot<CommitManifest> {
    if commit.Present? && !Valid(commit.value) then Unreadable else commit
  }

  function HasStaging(files: Files): bool {
    exists p | p in files :: p.StagedFile?
  }

  /** `discard_uncommitted_staging`: recursive, so an interruption may leave any part of it. */
  function DiscardStaging(disk: Disk, fault: Fault): Run
    requires disk.storage.Present?
  {
    var files := disk.Files();
    if !HasStaging(files) then Finish(disk, fault)
    else if fault.budget == 0 then
      Run(disk.WithFiles(map p | p in files && (p.StagedFile? ==> p.token in fault.kept) :: files[p]), fault, Crashed)
    else Finish(disk.WithFiles(Durable(files)), fault.(budget := fault.budget - 1))
  }

  /** `recover_normal_commit`. */
  function RecoverCommit(disk: Disk, sid: NodeId, fault: Fault): Run {
    if !disk.storage.Present? then Stop(disk, fault)
    else match ReadCommit(disk.storage.value.commit)
      case Absent => DiscardStaging(disk, fault)
      case Unreadable => Stop(disk, fault)
      case Present(m) => RecoverManifest(disk, sid, m, fault)
  }

  function RecoverManifest(disk: Disk, sid: NodeId, m: CommitManifest, fault: Fault): Run
    requires disk.storage.Present?
  {
    if m.sourceId != sid || !disk.identity.Present? then Stop(disk, fault)
    else
      var current := ReadSourceState(disk.Files());
      if !current.Present? then Stop(disk, fault)
      else if RecoverAgainst(m, disk.identity.value, current.value.generation) != Apply then Stop(disk, fault)
      else
        var identity := ApplyAdditions(disk.identity.value, m.additions);
        if identity.Err? then Stop(disk, fault)
        else
          var (disk1, fault1) :- Step(disk, disk.(identity := Present(identity.value)), fault);
          ReplayManifest(disk1, m, fault1)
  }

  /** The end of recovery: replay, check what was installed, remove the manifest last. */
  function ReplayManifest(disk: Disk, m: CommitManifest, fault: Fault): Run
    requires disk.storage.Present?
  {
    var replayed := Replay(disk.Files(), m.entries, 0, fault);
    var disk2 := disk.WithFiles(replayed.files);
    if !replayed.outcome.Done? then Run(disk2, replayed.fault, replayed.outcome)
    else
      var installed := ReadSourceState(disk2.Files());
      if !installed.Present? || installed.value.generation != m.generation
        || installed.value.instance != m.sourceInstance
      then Stop(disk2, replayed.fault)
      else Step(disk2, disk2.WithCommit(Absent), replayed.fault)
  }

  /** `apply_normal_commit`: the manifest write is the commit point, everything after is recovery. */
  function ApplyCommit(disk: Disk, sid: NodeId, m: CommitManifest, fault: Fault): Run {
    if m.sourceId != sid || !disk.storage.Present? || !Valid(m) then Stop(disk, fault)
    else
      var (disk1, fault1) :- Step(disk, disk.WithCommit(Present(m)), fault);
      RecoverCommit(disk1, sid, fault1)
  }

  /** `stage_bytes` at a minted name; an interrupted write may leave partial bytes. */
  function Stage(disk: Disk, token: nat, doc: Doc, fault: Fault): (r: Run)
    requires disk.storage.Present?
    ensures r.disk.storage.Present?
  {
    var files := disk.Files();
    if StagedFile(token) in files then Stop(disk, fault)
    else if fault.budget == 0 then
      Run(if fault.torn then disk.WithFiles(files[StagedFile(token) := RawDoc(0)]) else disk, fault, Crashed)
    else Finish(disk.WithFiles(files[StagedFile(token) := doc]), fault.(budget := fault.budget - 1))
  }

  // ---------------------------------------------------------------- replay

  lemma ReplayOneExact(files: Files, op: Operation)
    requires op.Valid()
    ensures ReplayOne(files, op).Unchanged? ==> Get(files, op.final) == op.Effect()
    ensures ReplayOne(files, op).Changed? ==>
              var next := ReplayOne(files, op).files;
              && Get(next, op.final) == op.Effect()
              && (op.Install? ==> Get(next, op.staged) == None)
              && forall p :: p != op.final && (op.Install? ==> p != op.staged) ==> Get(next, p) == Get(files, p)
  {
  }

  /**
    Replay on arbitrary storage: untargeted files never change, targets only take their effect,
    and success means every target has it.
   */
  lemma {:induction false} ReplaySound(files: Files, ops: seq<Operation>, i: nat, fault: Fault)
    requires i <= |ops| && DistinctFinals(ops) && EachValid(ops)
    requires forall j :: 0 <= j < i ==> Get(files, ops[j].final) == ops[j].Effect()
    ensures
      var r := Replay(files, ops, i, fault);
      && (forall p: Path :: !p.StagedFile? && p !in Finals(ops) ==> Get(r.files, p) == Get(files, p))
      && (forall j :: 0 <= j < i ==> Get(r.files, ops[j].final) == ops[j].Effect())
      && (forall j :: 0 <= j < |ops| ==>
            Get(r.files, ops[j].final) == Get(files, ops[j].final) || Get(r.files, ops[j].final) == ops[j].Effect())
      && (r.outcome.Done? ==> forall j :: 0 <= j < |ops| ==> Get(r.files, ops[j].final) == ops[j].Effect())
    decreases |ops| - i
  {
    if i < |ops| {
      ReplayOneExact(files, ops[i]);
      assert ops[i].final in Finals(ops);
      match ReplayOne(files, ops[i]) {
        case Refused =>
        case Unchanged => ReplaySound(files, ops, i + 1, fault);
        case Changed(next) =>
          if fault.budget > 0 {
            ReplaySound(next, ops, i + 1, fault.(budget := fault.budget - 1));
          }
      }
    }
  }

  /** The whole replay reaches the committed files, or keeps aiming at them. */
  lemma ReplayAims(files: Files, ops: seq<Operation>, fault: Fault)
    requires DistinctFinals(ops) && EachValid(ops)
    ensures
      var r := Replay(files, ops, 0, fault);
      && Committed(r.files, ops) == Committed(files, ops)
      && (r.outcome.Done? ==> Durable(r.files) == Committed(files, ops))
  {
    ReplaySound(files, ops, 0, fault);
    var r := Replay(files, ops, 0, fault);
    CommittedDependsOnUntouched(r.files, files, ops);
    if r.outcome.Done? {
      SettledIsCommitted(r.files, ops);
    }
  }

  /** Either already applied, or still guarded exactly as the manifest expects. */
  predicate Ready(files: Files, op: Operation) {
    match op
    case Install(final, staged, prior, result) =>
      Get(files, final) == Some(result) || (Get(files, final) == prior && Get(files, staged) == Some(result))
    case Remove(final, expected) =>
      Get(files, final) == None || Get(files, final) == Some(expected)
  }

  predicate AllReady(files: Files, ops: seq<Operation>) {
    forall i :: 0 <= i < |ops| ==> Ready(files, ops[i])
  }

  /** A ready manifest is never refused, and stays ready wherever its replay is cut. */
  lemma {:induction false} ReplayNeverRefused(files: Files, ops: seq<Operation>, i: nat, fault: Fault)
    requires i <= |ops| && DistinctFinals(ops) && DistinctStaged(ops) && EachValid(ops)
    requires AllReady(files, ops)
    ensures
      var r := Replay(files, ops, i, fault);
      r.outcome != Failed && AllReady(r.files, ops)
    decreases |ops| - i
  {
    if i < |ops| {
      ReplayOneExact(files, ops[i]);
      assert Ready(files, ops[i]);
      match ReplayOne(files, ops[i]) {
        case Refused =>
        case Unchanged => ReplayNeverRefused(files, ops, i + 1, fault);
        case Changed(next) =>
          if fault.budget > 0 {
            forall j | 0 <= j < |ops| ensures Ready(next, ops[j]) {
              assert Ready(files, ops[j]);
              assert j != i ==> ops[j].final != ops[i].final;
            }
            ReplayNeverRefused(next, ops, i + 1, fault.(budget := fault.budget - 1));
          }
      }
    }
  }

  /**
    Replay with steps enough succeeds if and only if every remaining operation is ready: on any files
    at all, one unfulfilled guard stops it.
   */
  lemma {:induction false} ReplayCompletesIff(files: Files, ops: seq<Operation>, i: nat, fault: Fault)
    requires i <= |ops| && DistinctFinals(ops) && DistinctStaged(ops) && EachValid(ops)
    requires fault.budget >= |ops| - i
    ensures Replay(files, ops, i, fault).outcome.Done? <==> forall j :: i <= j < |ops| ==> Ready(files, ops[j])
    decreases |ops| - i
  {
    if i < |ops| {
      ReplayOneExact(files, ops[i]);
      match ReplayOne(files, ops[i]) {
        case Refused => assert !Ready(files, ops[i]);
        case Unchanged => ReplayCompletesIff(files, ops, i + 1, fault);
        case Changed(next) =>
          forall j | i < j < |ops| ensures Ready(next, ops[j]) <==> Ready(files, ops[j]) {
            assert ops[j].final != ops[i].final;
          }
          ReplayCompletesIff(next, ops, i + 1, fault.(budget := fault.budget - 1));
      }
    }
  }

  // ---------------------------------------------------------------- recovery

  /**
    Recovery on arbitrary storage. If it succeeds under a durable manifest, the files are the
    committed ones: every install target holds its result, every remove target is gone, nothing
    else changed, and the state bears the manifest's generation and lineage.
   */
  lemma RecoverySound(disk: Disk, sid: NodeId, fault: Fault)
    requires disk.storage.Present? && disk.storage.value.commit.Present?
    requires RecoverCommit(disk, sid, fault).outcome == Done
    ensures
      var m, after := disk.storage.value.commit.value, RecoverCommit(disk, sid, fault).disk;
      && Valid(m) && m.sourceId == sid && disk.identity.Present?
      && after.identity == Present(Registered(disk.identity.value, m.additions))
      && after.storage.Present? && after.storage.value.commit == Absent
      && Durable(after.Files()) == Committed(disk.Files(), m.entries)
      && ReadSourceState(after.Files()).Present?
      && ReadSourceState(after.Files()).value.generation == m.generation
      && ReadSourceState(after.Files()).value.instance == m.sourceInstance
      && after.tombstone == disk.tombstone && after.lineage == disk.lineage
  {
    var m := disk.storage.value.commit.value;
    if fault.budget > 0 {
      ReplayAims(disk.Files(), m.entries, fault.(budget := fault.budget - 1));
    }
  }

  lemma DurableKeepsSourceState(files: Files)
    ensures ReadSourceState(Durable(files)) == ReadSourceState(files)
  {
  }

  /** The manifest's generation is the stored one or its successor, which saturates. */
  predicate Adjacent(generation: nat, stored: nat) {
    generation == stored || generation == if stored < U64_MAX then stored + 1 else U64_MAX
  }

  /** The lineage the manifest was written under: touched measurements are there, added ones not otherwise. */
  predicate SameLineage(m: CommitManifest, identity: SourceIdentity) {
    && m.sourceInstance == identity.instance
    && (forall id :: id in m.touched ==>
          id in identity.measurements && identity.measurements[id].instance == m.touched[id])
    && (forall id :: id in m.additions && id in identity.measurements ==>
          identity.measurements[id].instance == m.additions[id])
  }

  /**
    Everything a durable commit manifest needs to be completed on this disk: it is valid and this source's,
    lineage and adjacent generation match, every operation is applied or still guarded, and the source state
    after all of them bears the manifest's generation and instance.
   */
  predicate Completable(disk: Disk, sid: NodeId, m: CommitManifest) {
    && Valid(m) && m.sourceId == sid && disk.identity.Present? && disk.storage.Present?
    && SameLineage(m, disk.identity.value)
    && ReadSourceState(disk.Files()).Present?
    && Adjacent(m.generation, ReadSourceState(disk.Files()).value.generation)
    && AllReady(disk.Files(), m.entries)
    && var installed := ReadSourceState(Committed(disk.Files(), m.entries));
       installed.Present? && installed.value.generation == m.generation && installed.value.instance == m.sourceInstance
  }

  /** The recovery gate opens exactly under the manifest's own lineage and an adjacent generation. */
  lemma GateOpensIff(m: CommitManifest, identity: SourceIdentity, stored: nat)
    ensures RecoverAgainst(m, identity, stored) == Apply <==> SameLineage(m, identity) && Adjacent(m.generation, stored)
    ensures SameLineage(m, identity) ==> ApplyAdditions(identity, m.additions) == Ok(Registered(identity, m.additions))
  {
  }

  lemma ReplayManifestCompletesIff(disk: Disk, m: CommitManifest, fault: Fault)
    requires disk.storage.Present? && Valid(m) && fault.budget >= |m.entries| + 1
    ensures
      var installed := ReadSourceState(Committed(disk.Files(), m.entries));
      ReplayManifest(disk, m, fault).outcome.Done? <==>
        && AllReady(disk.Files(), m.entries)
        && installed.Present? && installed.value.generation == m.generation
            && installed.value.instance == m.sourceInstance
  {
    ReplayCompletesIff(disk.Files(), m.entries, 0, fault);
    ReplayAims(disk.Files(), m.entries, fault);
    ReplaySteps(disk.Files(), m.entries, 0, fault);
    DurableKeepsSourceState(Replay(disk.Files(), m.entries, 0, fault).files);
  }

  /** Replay takes at most one durable step per operation. */
  lemma {:induction false} ReplaySteps(files: Files, ops: seq<Operation>, i: nat, fault: Fault)
    requires i <= |ops| && fault.budget >= |ops| - i
    ensures
      var r := Replay(files, ops, i, fault);
      !r.outcome.Crashed? && r.fault.budget >= fault.budget - (|ops| - i)
    decreases |ops| - i
  {
    if i < |ops| {
      match ReplayOne(files, ops[i]) {
        case Refused =>
        case Unchanged => ReplaySteps(files, ops, i + 1, fault);
        case Changed(next) => ReplaySteps(next, ops, i + 1, fault.(budget := fault.budget - 1));
      }
    }
  }

  /**
    Commit recovery on any disk with a durable manifest: with steps enough it completes if and only
    if the manifest is valid and this source's, its lineage and adjacent generation match, and every
    operation is applied or still guarded.
   */
  lemma RecoveryCompletesIff(disk: Disk, sid: NodeId, m: CommitManifest, fault: Fault)
    requires disk.storage.Present? && disk.storage.value.commit == Present(m)
    requires fault.budget >= |m.entries| + 2
    ensures RecoverCommit(disk, sid, fault).outcome.Done? <==> Completable(disk, sid, m)
  {
    if Valid(m) && disk.identity.Present? {
      var registered := disk.(identity := Present(Registered(disk.identity.value, m.additions)));
      if ReadSourceState(disk.Files()).Present? {
        GateOpensIff(m, disk.identity.value, ReadSourceState(disk.Files()).value.generation);
      }
      ReplayManifestCompletesIff(registered, m, fault.(budget := fault.budget - 1));
    }
  }

  /** What the committed files hold, target by target and elsewhere. */
  lemma CommittedExact(files: Files, ops: seq<Operation>)
    requires DistinctFinals(ops) && EachValid(ops)
    ensures forall i :: 0 <= i < |ops| ==> Get(Committed(files, ops), ops[i].final) == ops[i].Effect()
    ensures forall p: Path :: !p.StagedFile? && p !in Finals(ops) ==> Get(Committed(files, ops), p) == Get(files, p)
  {
    forall i | 0 <= i < |ops| ensures Get(Committed(files, ops), ops[i].final) == ops[i].Effect() {
      CommittedAt(files, ops, ops[i].final);
      SettleTouched(ops, i, Get(files, ops[i].final));
    }
    forall p: Path | !p.StagedFile? && p !in Finals(ops) ensures Get(Committed(files, ops), p) == Get(files, p) {
      CommittedAt(files, ops, p);
      SettleUntouched(ops, p, Get(files, p));
    }
  }
}
