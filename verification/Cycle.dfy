/** Crash atomicity of an acquisition cycle: everything it plans becomes visible at one durable step. */
module Cycle {
  import opened Basics
  import opened Identifiers
  import opened Outbox
  import opened StoreTypes
  import opened CommitManifests
  import opened Commit
  import opened Gate
  import opened Recovery
  import opened Operations
  import opened Acquisition

  // ---------------------------------------------------------------- staging

  /** Every staged document is in place from position `i` on. */
  predicate StagedFrom(files: Files, writes: seq<Write>, i: nat, token: nat) {
    forall j :: i <= j < |writes| ==> Get(files, StagedFile(token + j)) == Some(writes[j].doc)
  }

  /** No minted staging name from position `i` on is in use. */
  predicate TokensClear(files: Files, writes: seq<Write>, i: nat, token: nat) {
    forall p :: p in files && p.StagedFile? ==> !(token + i <= p.token < token + |writes|)
  }

  /** Staging from position `i` on changes files alone, and not at the names before it. */
  lemma {:induction false} StageWritesFrame(disk: Disk, writes: seq<Write>, i: nat, token: nat, fault: Fault)
    requires disk.storage.Present? && i <= |writes|
    ensures
      var r := StageWrites(disk, writes, i, token, fault);
      && r.disk == disk.WithFiles(r.disk.Files())
      && forall k: nat :: k < token + i ==> Get(r.disk.Files(), StagedFile(k)) == Get(disk.Files(), StagedFile(k))
    decreases |writes| - i
  {
    if i < |writes| {
      var staged := Stage(disk, token + i, writes[i].doc, fault);
      if staged.outcome.Done? {
        StageWritesFrame(staged.disk, writes, i + 1, token, staged.fault);
      }
    }
  }

  /** Staging that completes places every document. */
  lemma {:induction false} StageWritesPlaces(disk: Disk, writes: seq<Write>, i: nat, token: nat, fault: Fault)
    requires disk.storage.Present? && i <= |writes|
    ensures
      var r := StageWrites(disk, writes, i, token, fault);
      r.outcome.Done? ==> StagedFrom(r.disk.Files(), writes, i, token)
    decreases |writes| - i
  {
    if i < |writes| {
      var staged := Stage(disk, token + i, writes[i].doc, fault);
      if staged.outcome.Done? {
        StageWritesPlaces(staged.disk, writes, i + 1, token, staged.fault);
        StageWritesFrame(staged.disk, writes, i + 1, token, staged.fault);
        StagedOneMore(StageWrites(staged.disk, writes, i + 1, token, staged.fault).disk.Files(), writes, i, token);
      }
    }
  }

  lemma {:induction false} StageWritesQuiet(
    disk: Disk, sid: NodeId, writes: seq<Write>, i: nat, token: nat, fault: Fault)
    requires Quiet(disk, sid) && disk.storage.Present? && i <= |writes|
    ensures
      var r := StageWrites(disk, writes, i, token, fault);
      Quiet(r.disk, sid) && View(r.disk) == View(disk)
    decreases |writes| - i
  {
    if i < |writes| {
      StagingInvisible(disk, sid, token + i, writes[i].doc, fault);
      var staged := Stage(disk, token + i, writes[i].doc, fault);
      if staged.outcome.Done? {
        StageWritesQuiet(staged.disk, sid, writes, i + 1, token, staged.fault);
      }
    }
  }

  /** Staging never shows, however it is cut, and it places every document when it completes. */
  lemma StageWritesInvisible(disk: Disk, sid: NodeId, writes: seq<Write>, i: nat, token: nat, fault: Fault)
    requires Quiet(disk, sid) && disk.storage.Present? && i <= |writes|
    ensures
      var r := StageWrites(disk, writes, i, token, fault);
      && Quiet(r.disk, sid) && Goal(r.disk, sid) == View(disk)
      && r.disk == disk.WithFiles(r.disk.Files())
      && (r.outcome.Done? ==> StagedFrom(r.disk.Files(), writes, i, token))
  {
    StageWritesQuiet(disk, sid, writes, i, token, fault);
    StageWritesFrame(disk, writes, i, token, fault);
    StageWritesPlaces(disk, writes, i, token, fault);
  }

  lemma StagedOneMore(files: Files, writes: seq<Write>, i: nat, token: nat)
    requires i < |writes| && Get(files, StagedFile(token + i)) == Some(writes[i].doc)
    ensures StagedFrom(files, writes, i + 1, token) ==> StagedFrom(files, writes, i, token)
  {
  }

  /** With unused names staging takes one durable step per document and is never refused. */
  lemma {:induction false} StageWritesSteps(disk: Disk, writes: seq<Write>, i: nat, token: nat, fault: Fault)
    requires disk.storage.Present? && i <= |writes|
    ensures
      var r := StageWrites(disk, writes, i, token, fault);
      && (r.outcome.Done? ==> r.fault.budget == fault.budget - (|writes| - i))
      && (TokensClear(disk.Files(), writes, i, token) ==>
            r.outcome == if fault.budget < |writes| - i then Crashed else Done)
    decreases |writes| - i
  {
    if i < |writes| {
      var staged := Stage(disk, token + i, writes[i].doc, fault);
      if staged.outcome.Done? {
        StageWritesSteps(staged.disk, writes, i + 1, token, staged.fault);
      }
    }
  }

  // ---------------------------------------------------------------- the manifest

  /** The writes of one commit: source state first, one per destination, all fitting the new identity. */
  ghost predicate CycleWrites(
    writes: seq<Write>, files: Files, identity: SourceIdentity, additions: map<NodeId, InstanceId>, sid: NodeId,
    next: SourceState)
  {
    && |writes| > 0 && writes[0] == Write(SourceStateFile, Get(files, SourceStateFile), SourceStateDoc(next))
    && DistinctWrites(writes)
    && WritesFit(writes, files, Registered(identity, additions), sid)
    && forall m :: m in additions ==> StateFor(writes, m)
  }

  /** All four parts of the writes fit the widened identity. */
  lemma PartsFit(
    files: Files, identity: SourceIdentity, sid: NodeId, planned: Planned, sourceRecords: seq<Write>, next: SourceState)
    requires PlannedFits(files, identity, sid, planned) && WritesFit(sourceRecords, files, identity, sid)
    requires next.generation > 0 && next.instance == identity.instance
    requires planned.additions.Keys !! identity.measurements.Keys
    ensures WritesFit(AcquisitionWrites(files, next, planned, sourceRecords), files,
      Registered(identity, planned.additions), sid)
  {
    var wider := Registered(identity, planned.additions);
    var head := [Write(SourceStateFile, Get(files, SourceStateFile), SourceStateDoc(next))];
    WritesFitExtend(sourceRecords, files, identity, wider, sid);
    assert WriteFits(head[0], files, wider, sid);
    assert WritesFit(head, files, wider, sid);
    WritesFitConcat(head, planned.states, files, wider, sid);
    WritesFitConcat(head + planned.states, planned.records, files, wider, sid);
    WritesFitConcat(head + planned.states + planned.records, sourceRecords, files, wider, sid);
  }

  lemma StatesWritten(files: Files, planned: Planned, sourceRecords: seq<Write>, next: SourceState, m: NodeId)
    requires StateFor(planned.states, m)
    ensures StateFor(AcquisitionWrites(files, next, planned, sourceRecords), m)
  {
    var i :| 0 <= i < |planned.states| && planned.states[i].final == MeasurementStateFile(m);
    assert AcquisitionWrites(files, next, planned, sourceRecords)[1 + i] == planned.states[i];
  }

  /** The planner's output is such a sequence of writes. */
  lemma AcquisitionWritesSound(
    files: Files, identity: SourceIdentity, sid: NodeId, ids: set<NodeId>, planned: Planned, sourceRecords: seq<Write>,
    next: SourceState)
    requires PlannedSound(files, identity, sid, ids, planned)
    requires DistinctWrites(sourceRecords) && WritesFit(sourceRecords, files, identity, sid)
    requires
      forall i :: 0 <= i < |sourceRecords| ==>
        sourceRecords[i].final.PendingFile? && sourceRecords[i].final.owner == SourceOwner
    requires next.generation > 0 && next.instance == identity.instance
    ensures
      CycleWrites(AcquisitionWrites(files, next, planned, sourceRecords), files, identity, planned.additions, sid, next)
  {
    PartsFit(files, identity, sid, planned, sourceRecords, next);
    PlacesDistinct(ids, planned, [Write(SourceStateFile, Get(files, SourceStateFile), SourceStateDoc(next))],
      sourceRecords);
    forall m | m in planned.additions ensures StateFor(AcquisitionWrites(files, next, planned, sourceRecords), m) {
      StatesWritten(files, planned, sourceRecords, next, m);
    }
  }

  lemma PlacesDistinct(ids: set<NodeId>, planned: Planned, head: seq<Write>, sourceRecords: seq<Write>)
    requires PlannedPlaces(ids, planned)
    requires |head| == 1 && head[0].final == SourceStateFile
    requires DistinctWrites(sourceRecords)
    requires forall i :: 0 <= i < |sourceRecords| ==>
      sourceRecords[i].final.PendingFile? && sourceRecords[i].final.owner == SourceOwner
    ensures DistinctWrites(head + planned.states + planned.records + sourceRecords)
  {
    DistinctConcat(planned.records, sourceRecords);
    DistinctConcat(planned.states, planned.records + sourceRecords);
    DistinctConcat(head, planned.states + (planned.records + sourceRecords));
    assert head + planned.states + planned.records + sourceRecords
      == head + (planned.states + (planned.records + sourceRecords));
  }

  lemma EntriesExact(writes: seq<Write>, token: nat)
    requires DistinctWrites(writes) && forall i :: 0 <= i < |writes| ==> writes[i].final.Final()
    ensures
      var entries := WriteEntries(writes, token);
      DistinctFinals(entries) && DistinctStaged(entries) && EachValid(entries)
  {
  }

  /** The files a set of writes leads to: each destination holds its document, all else is as it was. */
  ghost predicate WrittenTo(files: Files, writes: seq<Write>, after: Files) {
    && (forall i :: 0 <= i < |writes| ==> Get(after, writes[i].final) == Some(writes[i].doc))
    && (forall p: Path :: !p.StagedFile? && (forall i :: 0 <= i < |writes| ==> writes[i].final != p) ==>
          Get(after, p) == Get(files, p))
    && (forall p: Path :: p in after ==> !p.StagedFile?)
  }

  lemma CommittedWrites(files: Files, writes: seq<Write>, token: nat)
    requires DistinctWrites(writes) && forall i :: 0 <= i < |writes| ==> writes[i].final.Final()
    ensures WrittenTo(files, writes, Committed(files, WriteEntries(writes, token)))
  {
    var entries := WriteEntries(writes, token);
    EntriesExact(writes, token);
    CommittedExact(files, entries);
    forall i | 0 <= i < |writes| ensures Get(Committed(files, entries), writes[i].final) == Some(writes[i].doc) {
      assert entries[i].final == writes[i].final;
    }
  }

  lemma WrittenFilesFit(
    files: Files, after: Files, writes: seq<Write>, identity: SourceIdentity, wider: SourceIdentity, sid: NodeId,
    p: Path)
    requires FilesCoherent(files, identity, sid) && Extends(identity, wider)
    requires WritesFit(writes, files, wider, sid) && WrittenTo(files, writes, after) && p in after
    ensures FileFits(p, after[p], wider, sid)
  {
    if i :| 0 <= i < |writes| && writes[i].final == p {
      assert WriteFits(writes[i], files, wider, sid);
      assert Get(after, p) == Some(writes[i].doc);
    } else {
      assert Get(after, p) == Get(files, p);
      assert FileFits(p, files[p], identity, sid);
    }
  }

  /** A cycle's files are coherent under the extended identity. */
  lemma CycleFilesSound(
    files: Files, after: Files, identity: SourceIdentity, sid: NodeId, writes: seq<Write>, next: SourceState,
    additions: map<NodeId, InstanceId>)
    requires FilesCoherent(files, identity, sid)
    requires CycleWrites(writes, files, identity, additions, sid, next) && WrittenTo(files, writes, after)
    ensures FilesCoherent(after, Registered(identity, additions), sid)
  {
    var wider := Registered(identity, additions);
    assert Get(after, writes[0].final) == Some(writes[0].doc);
    forall m | m in wider.measurements ensures MeasurementStateFile(m) in after {
      if i :| 0 <= i < |writes| && writes[i].final == MeasurementStateFile(m) {
        assert Get(after, writes[i].final) == Some(writes[i].doc);
      } else {
        assert m !in additions;
        assert Get(after, MeasurementStateFile(m)) == Get(files, MeasurementStateFile(m));
      }
    }
    forall p | p in after ensures FileFits(p, after[p], wider, sid) {
      WrittenFilesFit(files, after, writes, identity, wider, sid, p);
    }
  }

  /** What the staged disk shares with the quiet one. */
  ghost predicate CycleStaged(disk: Disk, staged: Disk, writes: seq<Write>, token: nat)
    requires disk.storage.Present?
  {
    && staged.storage.Present? && staged == disk.WithFiles(staged.Files())
    && Durable(staged.Files()) == Durable(disk.Files())
    && StagedFrom(staged.Files(), writes, 0, token)
  }

  lemma DurableGet(a: Files, b: Files, p: Path)
    requires Durable(a) == Durable(b) && !p.StagedFile?
    ensures Get(a, p) == Get(b, p)
  {
    assert p in Durable(a) <==> p in Durable(b);
  }

  lemma CycleReady(disk: Disk, staged: Disk, sid: NodeId, identity: SourceIdentity, writes: seq<Write>, token: nat)
    requires disk.storage.Present? && CycleStaged(disk, staged, writes, token)
    requires WritesFit(writes, disk.Files(), identity, sid)
    ensures AllReady(staged.Files(), WriteEntries(writes, token))
      && HandedOver(staged.Files(), WriteEntries(writes, token))
  {
    var entries := WriteEntries(writes, token);
    forall i | 0 <= i < |entries| ensures Ready(staged.Files(), entries[i]) {
      assert WriteFits(writes[i], disk.Files(), identity, sid);
      DurableGet(staged.Files(), disk.Files(), writes[i].final);
    }
    forall i | 0 <= i < |entries| ensures !entries[i].final.DeadLetterFile? {
      assert WriteFits(writes[i], disk.Files(), identity, sid);
    }
  }

  lemma CycleManifestValid(
    files: Files, identity: SourceIdentity, sid: NodeId, next: SourceState, planned: Planned, ids: set<NodeId>,
    writes: seq<Write>, token: nat)
    requires PlannedMaps(identity, ids, planned) && next.generation > 0
    requires CycleWrites(writes, files, identity, planned.additions, sid, next)
    ensures
      var m := AcquisitionManifest(sid, next, planned, writes, token);
      Valid(m) && InstallsSuccessor(m) && HandsOver(m.entries)
  {
    var m := AcquisitionManifest(sid, next, planned, writes, token);
    forall i | 0 <= i < |writes| ensures writes[i].final.Final() {
      assert WriteFits(writes[i], files, Registered(identity, planned.additions), sid);
    }
    EntriesExact(writes, token);
    assert m.entries[0].Install? && m.entries[0].final == SourceStateFile;
    forall id | id in m.additions ensures InstallsAt(m.entries, MeasurementStateFile(id)) {
      var i :| 0 <= i < |writes| && writes[i].final == MeasurementStateFile(id);
      assert m.entries[i].Install? && m.entries[i].final == MeasurementStateFile(id);
    }
  }

  /** The disk a completed cycle leaves, staging aside. */
  function CycleDisk(disk: Disk, planned: Planned, writes: seq<Write>): Disk
    requires disk.identity.Present? && disk.storage.Present?
  {
    Disk(Present(Registered(disk.identity.value, planned.additions)),
         Present(Storage(Committed(disk.Files(), WriteEntries(writes, 0)), Absent)), false, Absent)
  }

  lemma CommittedAnyToken(files: Files, staged: Files, writes: seq<Write>, token: nat)
    requires Durable(staged) == Durable(files)
    requires DistinctWrites(writes) && forall i :: 0 <= i < |writes| ==> writes[i].final.Final()
    ensures Committed(staged, WriteEntries(writes, token)) == Committed(files, WriteEntries(writes, 0))
  {
    var a, b := Committed(staged, WriteEntries(writes, token)), Committed(files, WriteEntries(writes, 0));
    CommittedWrites(staged, writes, token);
    CommittedWrites(files, writes, 0);
    forall p ensures Get(a, p) == Get(b, p) {
      if i :| 0 <= i < |writes| && writes[i].final == p {
        assert Get(a, writes[i].final) == Get(b, writes[i].final);
      } else if !p.StagedFile? {
        DurableGet(staged, files, p);
        assert Get(a, p) == Get(staged, p) && Get(b, p) == Get(files, p);
      }
    }
    SameFiles(a, b);
  }

  // ---------------------------------------------------------------- the commit

  /** What a cycle's commit relies on: a coherent source at generation `state`, and planned writes. */
  ghost predicate CycleSound(
    disk: Disk, sid: NodeId, state: SourceState, planned: Planned, ids: set<NodeId>, next: SourceState,
    writes: seq<Write>)
  {
    && Quiet(disk, sid) && disk.identity.Present? && disk.storage.Present?
    && ReadSourceState(disk.Files()) == Present(state)
    && next.generation == state.generation + 1 <= U64_MAX && next.instance == state.instance
    && PlannedMaps(disk.identity.value, ids, planned)
    && CycleWrites(writes, disk.Files(), disk.identity.value, planned.additions, sid, next)
  }

  /** Some planner output over this store explains these writes. */
  ghost predicate SoundCycle(disk: Disk, sid: NodeId, planned: Planned, next: SourceState, writes: seq<Write>) {
    exists state: SourceState, ids: set<NodeId> :: CycleSound(disk, sid, state, planned, ids, next, writes)
  }

  lemma WritesAreFinal(writes: seq<Write>, files: Files, identity: SourceIdentity, sid: NodeId)
    requires WritesFit(writes, files, identity, sid)
    ensures forall i :: 0 <= i < |writes| ==> writes[i].final.Final()
  {
    forall i | 0 <= i < |writes| ensures writes[i].final.Final() {
      assert WriteFits(writes[i], files, identity, sid);
    }
  }

  lemma CycleManifestPending(
    disk: Disk, staged: Disk, sid: NodeId, state: SourceState, planned: Planned, ids: set<NodeId>, next: SourceState,
    writes: seq<Write>, token: nat)
    requires CycleSound(disk, sid, state, planned, ids, next, writes) && CycleStaged(disk, staged, writes, token)
    ensures CommitPending(staged, AcquisitionManifest(sid, next, planned, writes, token), sid)
  {
    var files, identity := disk.Files(), disk.identity.value;
    CycleManifestValid(files, identity, sid, next, planned, ids, writes, token);
    CycleReady(disk, staged, sid, Registered(identity, planned.additions), writes, token);
    DurableGet(staged.Files(), files, SourceStateFile);
    assert FileFits(SourceStateFile, files[SourceStateFile], identity, sid);
  }

  lemma CycleManifestAims(
    disk: Disk, staged: Disk, sid: NodeId, state: SourceState, planned: Planned, ids: set<NodeId>, next: SourceState,
    writes: seq<Write>, token: nat)
    requires CycleSound(disk, sid, state, planned, ids, next, writes) && CycleStaged(disk, staged, writes, token)
    ensures CommitGoal(staged, AcquisitionManifest(sid, next, planned, writes, token))
      == CycleDisk(disk, planned, writes)
  {
    WritesAreFinal(writes, disk.Files(), Registered(disk.identity.value, planned.additions), sid);
    CommittedAnyToken(disk.Files(), staged.Files(), writes, token);
  }

  lemma CycleGoalSound(
    disk: Disk, sid: NodeId, state: SourceState, planned: Planned, ids: set<NodeId>, next: SourceState,
    writes: seq<Write>)
    requires CycleSound(disk, sid, state, planned, ids, next, writes)
    ensures Coherent(CycleDisk(disk, planned, writes), sid)
    ensures WrittenTo(disk.Files(), writes, CycleDisk(disk, planned, writes).Files())
  {
    var files, identity := disk.Files(), disk.identity.value;
    WritesAreFinal(writes, files, Registered(identity, planned.additions), sid);
    CommittedWrites(files, writes, 0);
    CycleFilesSound(files, CycleDisk(disk, planned, writes).Files(), identity, sid, writes, next, planned.additions);
  }

  /**
    Crash atomicity of an acquisition commit, step by step: one durable step per staged document,
    then the manifest write decides. Before it the old state stands, from it on the whole cycle does.
   */
  lemma AcquisitionCommitAtomic(
    disk: Disk, sid: NodeId, state: SourceState, planned: Planned, ids: set<NodeId>, next: SourceState,
    sourceRecords: seq<Write>,
    token: nat, fault: Fault)
    requires disk.storage.Present?
    requires CycleSound(disk, sid, state, planned, ids, next,
      AcquisitionWrites(disk.Files(), next, planned, sourceRecords))
    ensures
      var writes := AcquisitionWrites(disk.Files(), next, planned, sourceRecords);
      var r := CommitAcquisition(disk, sid, next, planned, sourceRecords, token, fault);
      var outcome := CycleDisk(disk, planned, writes);
      && Recoverable(r.disk, sid)
      && (Goal(r.disk, sid) == View(disk) || Goal(r.disk, sid) == outcome)
      && (r.outcome.Done? ==> View(r.disk) == outcome && Goal(r.disk, sid) == outcome)
      && (TokensClear(disk.Files(), writes, 0, token) ==>
            && r.outcome != Failed
            && Goal(r.disk, sid) == (if fault.budget <= |writes| then View(disk) else outcome))
  {
    var writes := AcquisitionWrites(disk.Files(), next, planned, sourceRecords);
    StageWritesInvisible(disk, sid, writes, 0, token, fault);
    StageWritesSteps(disk, writes, 0, token, fault);
    var staged := StageWrites(disk, writes, 0, token, fault);
    if staged.outcome.Done? {
      CycleConclusion(disk, staged.disk, sid, state, planned, ids, next, writes, token, staged.fault);
    }
  }

  lemma CycleConclusion(
    disk: Disk, staged: Disk, sid: NodeId, state: SourceState, planned: Planned, ids: set<NodeId>, next: SourceState,
    writes: seq<Write>,
    token: nat, fault: Fault)
    requires CycleSound(disk, sid, state, planned, ids, next, writes)
    requires Quiet(staged, sid) && staged.storage.Present? && Goal(staged, sid) == View(disk)
    requires staged == disk.WithFiles(staged.Files()) && StagedFrom(staged.Files(), writes, 0, token)
    ensures
      var r := ApplyCommit(staged, sid, AcquisitionManifest(sid, next, planned, writes, token), fault);
      var outcome := CycleDisk(disk, planned, writes);
      && r.outcome != Failed && Recoverable(r.disk, sid)
      && (fault.budget == 0 ==> Goal(r.disk, sid) == View(disk) && r.outcome == Crashed)
      && (fault.budget > 0 ==> Goal(r.disk, sid) == outcome)
      && (r.outcome.Done? ==> View(r.disk) == outcome)
  {
    assert CycleStaged(disk, staged, writes, token) by {
      assert View(staged).Files() == View(disk).Files();
    }
    CycleManifestPending(disk, staged, sid, state, planned, ids, next, writes, token);
    CycleManifestAims(disk, staged, sid, state, planned, ids, next, writes, token);
    CycleGoalSound(disk, sid, state, planned, ids, next, writes);
    ApplyCommitAtomic(staged, sid, AcquisitionManifest(sid, next, planned, writes, token), fault);
  }

  /** With unused staging names and two steps per document and three more, a cycle's commit completes. */
  lemma AcquisitionCompletes(
    disk: Disk, sid: NodeId, state: SourceState, planned: Planned, ids: set<NodeId>, next: SourceState,
    sourceRecords: seq<Write>,
    token: nat, fault: Fault)
    requires disk.storage.Present?
    requires CycleSound(disk, sid, state, planned, ids, next,
      AcquisitionWrites(disk.Files(), next, planned, sourceRecords))
    requires
      var writes := AcquisitionWrites(disk.Files(), next, planned, sourceRecords);
      TokensClear(disk.Files(), writes, 0, token) && fault.budget >= 2 * |writes| + 3
    ensures CommitAcquisition(disk, sid, next, planned, sourceRecords, token, fault).outcome == Done
  {
    var writes := AcquisitionWrites(disk.Files(), next, planned, sourceRecords);
    AcquisitionCommitAtomic(disk, sid, state, planned, ids, next, sourceRecords, token, fault);
    StageWritesSteps(disk, writes, 0, token, fault);
    var staged := StageWrites(disk, writes, 0, token, fault);
    ApplyCommitIsNotCut(staged.disk, sid, AcquisitionManifest(sid, next, planned, writes, token), staged.fault);
  }

  /** So a sound cycle's commit is all or nothing. */
  lemma SoundCycleAtomic(
    disk: Disk, sid: NodeId, planned: Planned, next: SourceState, sourceRecords: seq<Write>, token: nat, fault: Fault)
    requires disk.storage.Present?
      && SoundCycle(disk, sid, planned, next, AcquisitionWrites(disk.Files(), next, planned, sourceRecords))
    ensures
      var writes := AcquisitionWrites(disk.Files(), next, planned, sourceRecords);
      var r := CommitAcquisition(disk, sid, next, planned, sourceRecords, token, fault);
      && disk.identity.Present? && Recoverable(r.disk, sid)
      && (Goal(r.disk, sid) == View(disk) || Goal(r.disk, sid) == CycleDisk(disk, planned, writes))
      && (r.outcome.Done? ==> View(r.disk) == CycleDisk(disk, planned, writes))
  {
    var writes := AcquisitionWrites(disk.Files(), next, planned, sourceRecords);
    var state: SourceState, ids: set<NodeId> :| CycleSound(disk, sid, state, planned, ids, next, writes);
    AcquisitionCommitAtomic(disk, sid, state, planned, ids, next, sourceRecords, token, fault);
  }
}
