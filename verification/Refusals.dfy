/** What is refused on any disk at all, recoverable or not, and that a refusal leaves everything as it was. */
module Refusals {
  import opened Basics
  import opened Identifiers
  import opened Outbox
  import opened Delivery
  import opened StoreTypes
  import opened CommitManifests
  import opened Commit
  import opened Gate
  import opened Recovery
  import opened Operations
  import opened Acquisition
  import opened Resets
  import opened Runs

  // ---------------------------------------------------------------- manifests

  /** Two operations on one destination, or two installs from one staged file. */
  predicate Overlapping(entries: seq<Operation>) {
    exists i, j :: 0 <= i < j < |entries| &&
      (entries[i].final == entries[j].final
       || (entries[i].Install? && entries[j].Install? && entries[i].staged == entries[j].staged))
  }

  /** The manifest installs a document at this path. */
  predicate InstallsDocument(entries: seq<Operation>, path: Path) {
    exists i :: 0 <= i < |entries| && entries[i].Install? && entries[i].final == path
  }

  /** One clause of the commit manifest's contract is broken. */
  predicate BreaksContract(m: CommitManifest) {
    || m.generation == 0
    || (exists id :: id in m.touched && id in m.additions)
    || (m.cause.DeliveryResult? && m.additions != map[])
    || (exists id :: id in m.additions && !InstallsDocument(m.entries, MeasurementStateFile(id)))
    || Overlapping(m.entries)
    || !InstallsDocument(m.entries, SourceStateFile)
    || (m.cause.Acquisition? && exists i :: 0 <= i < |m.entries| && m.entries[i].Remove?)
    || (exists i :: 0 <= i < |m.entries| && !m.entries[i].final.Final())
    || (exists i :: 0 <= i < |m.entries| && m.entries[i].Install? && !m.entries[i].staged.StagedFile?)
  }

  /** A manifest that breaks its contract in any way is neither written nor replayed, and nothing changes. */
  lemma BrokenManifestRefused(disk: Disk, sid: NodeId, m: CommitManifest, fault: Fault)
    requires disk.storage.Present? && BreaksContract(m)
    ensures ApplyCommit(disk, sid, m, fault) == Run(disk, fault, Failed)
    ensures disk.storage.value.commit == Present(m) ==> RecoverCommit(disk, sid, fault) == Run(disk, fault, Failed)
  {
    BrokenIsInvalid(m);
  }

  lemma BrokenIsInvalid(m: CommitManifest)
    ensures BreaksContract(m) <==> !Valid(m)
  {
    if Overlapping(m.entries) {
      var i, j :| 0 <= i < j < |m.entries| &&
        (m.entries[i].final == m.entries[j].final
         || (m.entries[i].Install? && m.entries[j].Install? && m.entries[i].staged == m.entries[j].staged));
    }
    if i :| 0 <= i < |m.entries| && !m.entries[i].final.Final() {
      assert !m.entries[i].Valid();
    }
    if i :| 0 <= i < |m.entries| && m.entries[i].Install? && !m.entries[i].staged.StagedFile? {
      assert !m.entries[i].Valid();
    }
    assert forall path :: InstallsDocument(m.entries, path) <==> InstallsAt(m.entries, path);
  }

  // ---------------------------------------------------------------- turn entry and gate

  /** After an unresolvable turn entry every operation but a source reset stops where the turn entry did. */
  lemma UnresolvableRefusesAll(disk: Disk, sid: NodeId, action: Action, fault: Fault)
    requires TurnEntry(disk, sid, fault).run.outcome.Done? && TurnEntry(disk, sid, fault).verdict != ReadyTurn
    requires !action.ResetAll?
    ensures Perform(disk, sid, action, fault).disk == TurnEntry(disk, sid, fault).run.disk
    ensures action.ResetOne? ==> Perform(disk, sid, action, fault).outcome == Failed
  {
  }

  /** A source that the gate refuses is neither measured nor drained. */
  lemma RefusedSourceIsLeftAlone(disk: Disk, sid: NodeId, action: Action, fault: Fault)
    requires TurnEntry(disk, sid, fault).run.outcome.Done? && TurnEntry(disk, sid, fault).verdict == ReadyTurn
    requires Inspect(TurnEntry(disk, sid, fault).run.disk, sid, {}).source.Refused?
    requires action.Acquire? || action.Deliver?
    ensures
      var before := TurnEntry(disk, sid, fault).run;
      Perform(disk, sid, action, fault) == Run(before.disk, before.fault, Done)
  {
    var before := TurnEntry(disk, sid, fault).run;
    if action.Acquire? {
      VerdictWithoutDeclared(before.disk, sid, Declared(action.plan));
    } else {
      VerdictWithoutDeclared(before.disk, sid, if action.owner.MeasurementOwner? then {action.owner.id} else {});
    }
  }

  /** What is declared does not matter to the source's own verdict. */
  lemma VerdictWithoutDeclared(disk: Disk, sid: NodeId, declared: set<NodeId>)
    ensures Inspect(disk, sid, declared).source == Inspect(disk, sid, {}).source
  {
  }

  /** The queue of a measurement that is not ready is left alone, whatever else the store holds. */
  lemma UnreadyQueueIsLeftAlone(
    disk: Disk, sid: NodeId, m: NodeId, key: RecordKey, facts: AttemptFacts, token: nat, fault: Fault)
    requires TurnEntry(disk, sid, fault).run.outcome.Done? && TurnEntry(disk, sid, fault).verdict == ReadyTurn
    requires
      var answers := Inspect(TurnEntry(disk, sid, fault).run.disk, sid, {m}).measurements;
      m in answers ==> !answers[m].ReadyMeasurement?
    ensures
      var before := TurnEntry(disk, sid, fault).run;
      Drain(disk, sid, MeasurementOwner(m), key, facts, token, fault) == Run(before.disk, before.fault, Done)
  {
  }

  // ---------------------------------------------------------------- deliveries

  /** The record is of this source and this emitter, pending, of the state's instance, with a generation to come. */
  predicate Deliverable(sid: NodeId, state: SourceState, owner: Owner, prior: DeliveryRecord) {
    && prior.ValidPending() && prior.envelope.sourceId == sid && prior.envelope.sourceInstance == state.instance
    && (match owner
        case SourceOwner => prior.envelope.measurement == None
        case MeasurementOwner(m) => prior.envelope.measurement.Some? && prior.envelope.measurement.value.id == m)
    && state.generation < U64_MAX
  }

  /** The outcome belongs to the record: a retry or a letter with exactly one more attempt and nothing else changed. */
  predicate Follows(prior: DeliveryRecord, execution: Execution) {
    match execution
    case Delivered => true
    case Retry(record) => OneAttemptMore(prior, record)
    case Dead(letter) => OneAttemptMore(prior, letter.record) && letter.Valid()
  }

  predicate OneAttemptMore(prior: DeliveryRecord, record: DeliveryRecord) {
    && |record.attempts| == |prior.attempts| + 1 && record.attempts[..|prior.attempts|] == prior.attempts
    && record == prior.(attempts := record.attempts, nextRetryAt := record.nextRetryAt)
  }

  lemma FollowsExactly(prior: DeliveryRecord, execution: Execution)
    ensures OutcomeFollows(prior, execution) <==> Follows(prior, execution)
  {
  }

  /**
    On any disk, a delivery commit whose record does not belong here is refused before anything is staged; one whose
    record is not pending, or whose outcome is not the record's, is refused with nothing but its source state staged.
   */
  lemma WrongDeliveryRefused(
    disk: Disk, sid: NodeId, state: SourceState, owner: Owner, prior: DeliveryRecord, execution: Execution, token: nat,
    fault: Fault)
    requires disk.storage.Present?
    ensures
      var r := CommitDelivery(disk, sid, state, owner, prior, execution, token, fault);
      && (!Deliverable(sid, state, owner, prior) ==> r == Run(disk, fault, Failed))
      && (PendingFile(owner, prior.Key()) !in disk.Files() || !Follows(prior, execution) ==>
            && !r.outcome.Done?
            && r.disk == disk.WithFiles(r.disk.Files())
            && forall p :: p != StagedFile(token) ==> Get(r.disk.Files(), p) == Get(disk.Files(), p))
  {
    FollowsExactly(prior, execution);
  }
}
