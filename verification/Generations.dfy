/** The committed generation over whole runs. */
module Generations {
  import opened Basics
  import opened Identifiers
  import opened Outbox
  import opened Delivery
  import opened StoreTypes
  import opened Lineage
  import opened Recovery
  import opened Operations
  import opened Acquisition
  import opened Cycle
  import opened Resets
  import opened Stuck
  import opened Runs
  import opened Conservation

  /** The installed generation; 0 before the source exists. */
  function Generation(disk: Disk): nat {
    var state := ReadSourceState(FilesOf(disk));
    if state.Present? then state.value.generation else 0
  }

  lemma ViewGeneration(disk: Disk)
    ensures Generation(View(disk)) == Generation(disk)
  {
    if disk.storage.Present? {
      DurableGet(disk.Files(), Durable(disk.Files()), SourceStateFile) by {
        assert Durable(Durable(disk.Files())) == Durable(disk.Files());
      }
    }
  }

  lemma OutcomeGeneration(disk: Disk, owner: Owner, key: RecordKey, next: SourceState, execution: Execution)
    requires disk.storage.Present? && next.generation > 0
    ensures Generation(OutcomeDisk(disk, owner, key, next, execution)) == next.generation
  {
  }

  lemma CycleGeneration(
    disk: Disk, sid: NodeId, state: SourceState, planned: Planned, ids: set<NodeId>, next: SourceState,
    writes: seq<Write>)
    requires CycleSound(disk, sid, state, planned, ids, next, writes)
    ensures Generation(CycleDisk(disk, planned, writes)) == next.generation
  {
    CycleGoalSound(disk, sid, state, planned, ids, next, writes);
    assert Get(CycleDisk(disk, planned, writes).Files(), writes[0].final) == Some(writes[0].doc);
  }

  lemma ResetGeneration(disk: Disk, m: NodeId, minted: InstanceId)
    requires disk.identity.Present? && disk.storage.Present? && MeasurementResetDisk(disk, m, minted).Some?
    ensures Generation(MeasurementResetDisk(disk, m, minted).value) == Generation(disk)
  {
    var target := ResetIdentity(disk.identity.value, m, minted).value;
    var files, after := disk.Files(), ResetFiles(disk.Files(), m, target);
    assert Get(after, SourceStateFile) == Get(files, SourceStateFile);
  }

  /** How far one operation may move the generation. */
  predicate MovesBy(before: Disk, after: Disk, action: Action) {
    match action
    case Enter => after == before
    case Acquire(_) =>
      after == before || Generation(after) == Generation(before) + 1
        || (before.identity.Absent? && Generation(after) <= 2)
    case Deliver(_, _, _, _) => after == before || Generation(after) == Generation(before) + 1
    case ResetOne(_, _) => Generation(after) == Generation(before)
    case ResetAll(_) => true
  }

  lemma AttemptGeneration(disk: Disk, sid: NodeId, owner: Owner, key: RecordKey, facts: AttemptFacts)
    requires Quiet(disk, sid) && AttemptOf(disk, sid, owner, key, facts).Attempted?
    ensures
      disk.storage.Present?
      && Generation(AttemptDisk(disk, owner, key, AttemptOf(disk, sid, owner, key, facts)))
          == Generation(View(disk)) + 1
  {
    AttemptSound(disk, sid, owner, key, facts);
    var a := AttemptOf(disk, sid, owner, key, facts);
    ViewGeneration(disk);
    OutcomeGeneration(disk, owner, key, Advanced(a.state), a.execution);
  }

  lemma DeliverMoves(
    disk: Disk, sid: NodeId, owner: Owner, key: RecordKey, facts: AttemptFacts, token: nat, fault: Fault)
    requires Recoverable(disk, sid) && Recoverable(Drain(disk, sid, owner, key, facts, token, fault).disk, sid)
    ensures MovesBy(Goal(disk, sid), Goal(Drain(disk, sid, owner, key, facts, token, fault).disk, sid),
      Deliver(owner, key, facts, token))
  {
    if DrainCollides(disk, sid, owner, key, facts, token, fault) {
      DrainAtomic(disk, sid, owner, key, facts, token, fault);
      StuckIsNotRecoverable(Drain(disk, sid, owner, key, facts, token, fault).disk, sid);
    } else {
      DrainAtomic(disk, sid, owner, key, facts, token, fault);
      TurnEntryConverges(disk, sid, fault);
      var before := TurnEntry(disk, sid, fault).run;
      if before.outcome.Done? && AttemptOf(before.disk, sid, owner, key, facts).Attempted? {
        AttemptGeneration(before.disk, sid, owner, key, facts);
      }
    }
  }

  /** What a cycle commits is one generation further than the quiet disk it started from. */
  lemma ContentGeneration(disk: Disk, sid: NodeId, plan: Plan)
    requires Quiet(disk, sid) && disk.storage.Present? && DistinctIds(plan.measurements)
      && ContentOf(disk, sid, plan).Content?
    ensures disk.identity.Present?
      && Generation(ContentDisk(disk, ContentOf(disk, sid, plan))) == Generation(View(disk)) + 1
  {
    var c := ContentOf(disk, sid, plan);
    ContentSound(disk, sid, plan);
    ViewGeneration(disk);
    CycleGeneration(disk, sid, c.state, c.planned, IdsOf(plan.measurements), c.next,
      AcquisitionWrites(disk.Files(), c.next, c.planned, c.records));
  }

  lemma StartGeneration(disk: Disk, sid: NodeId, plan: Plan, fault: Fault)
    requires Recoverable(disk, sid) && CycleStart(disk, sid, plan, fault).outcome.Done?
    ensures
      var start := CycleStart(disk, sid, plan, fault).disk;
      && Quiet(start, sid) && start.storage.Present?
      && (Generation(View(start)) == Generation(Goal(disk, sid))
            || (Goal(disk, sid).identity.Absent? && Generation(View(start)) == 1))
  {
    StartConverges(disk, sid, plan, fault);
  }

  lemma AcquireMoves(disk: Disk, sid: NodeId, plan: Plan, fault: Fault)
    requires Recoverable(disk, sid) && DistinctIds(plan.measurements)
      && Recoverable(Measure(disk, sid, plan, fault).disk, sid)
    ensures MovesBy(Goal(disk, sid), Goal(Measure(disk, sid, plan, fault).disk, sid), Acquire(plan))
  {
    AcquireCases(disk, sid, plan, fault);
    var start := CycleStart(disk, sid, plan, fault);
    if CommitsContent(start, sid, plan, Goal(Measure(disk, sid, plan, fault).disk, sid)) {
      StartGeneration(disk, sid, plan, fault);
      ContentGeneration(start.disk, sid, plan);
    }
  }

  lemma ResetOneMoves(disk: Disk, sid: NodeId, m: NodeId, minted: InstanceId, fault: Fault)
    requires Recoverable(disk, sid) && Recoverable(ResetMeasurement(disk, sid, m, minted, fault).disk, sid)
    ensures MovesBy(Goal(disk, sid), Goal(ResetMeasurement(disk, sid, m, minted, fault).disk, sid), ResetOne(m, minted))
  {
    MeasurementResetAtomic(disk, sid, m, minted, fault);
    TurnEntryConverges(disk, sid, fault);
    var before := TurnEntry(disk, sid, fault).run.disk;
    if TurnEntry(disk, sid, fault).run.outcome.Done? && before.identity.Present?
      && MeasurementResetDisk(before, m, minted).Some? {
      ViewGeneration(before);
      ResetGeneration(before, m, minted);
    }
  }

  /**
    Within one lineage a step, cut anywhere, leaves the committed generation where it was or moves
    it to exactly its successor; only the very first cycle may also initialise on its way, and only a
    collision stops the source instead.
   */
  lemma GenerationMovesByOne(disk: Disk, sid: NodeId, action: Action, fault: Fault)
    requires Recoverable(disk, sid) && Proper(action) && !action.ResetAll?
    ensures
      var next := Perform(disk, sid, action, fault).disk;
      if StepCollides(disk, sid, action, fault) then StuckAt(next)
      else Recoverable(next, sid) && MovesBy(Goal(disk, sid), Goal(next, sid), action)
  {
    StepKeepsRecoverable(disk, sid, action, fault);
    if !StepCollides(disk, sid, action, fault) {
      match action {
        case Enter => TurnEntryConverges(disk, sid, fault);
        case Acquire(plan) => AcquireMoves(disk, sid, plan, fault);
        case Deliver(owner, key, facts, token) => DeliverMoves(disk, sid, owner, key, facts, token, fault);
        case ResetOne(m, minted) => ResetOneMoves(disk, sid, m, minted, fault);
      }
    }
  }
}
