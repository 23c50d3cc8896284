/** The cap of one emitter's pending queue, over whole runs of the store. */
module QueueCaps {
  import opened Basics
  import opened Identifiers
  import opened Outbox
  import opened Delivery
  import opened StoreTypes
  import opened Gate
  import opened Lineage
  import opened Recovery
  import opened Operations
  import opened Acquisition
  import opened Resets
  import opened Stuck
  import opened Runs
  import opened Conservation
  import opened Ledger
  import opened Freshness

  /** The keys of this emitter that the writes install. */
  function WrittenKeys(writes: seq<Write>, owner: Owner): set<RecordKey> {
    set i | 0 <= i < |writes| && writes[i].final.PendingFile? && writes[i].final.owner == owner :: writes[i].final.key
  }

  lemma WrittenKeysConcat(a: seq<Write>, b: seq<Write>, owner: Owner)
    ensures WrittenKeys(a + b, owner) == WrittenKeys(a, owner) + WrittenKeys(b, owner)
  {
    forall k ensures k in WrittenKeys(a + b, owner) <==> k in WrittenKeys(a, owner) + WrittenKeys(b, owner) {
      if i :| 0 <= i < |a| && a[i].final == PendingFile(owner, k) {
        assert (a + b)[i] == a[i];
      }
      if i :| 0 <= i < |b| && b[i].final == PendingFile(owner, k) {
        assert (a + b)[|a| + i] == b[i];
      }
      if i :| 0 <= i < |a + b| && (a + b)[i].final == PendingFile(owner, k) {
        assert if i < |a| then a[i].final == PendingFile(owner, k) else b[i - |a|].final == PendingFile(owner, k);
      }
    }
  }

  lemma {:induction false} WrittenKeysCount(writes: seq<Write>, owner: Owner)
    ensures |WrittenKeys(writes, owner)| <= |writes|
  {
    if writes != [] {
      var front, last := writes[..|writes| - 1], writes[|writes| - 1];
      WrittenKeysCount(front, owner);
      assert writes == front + [last];
      WrittenKeysConcat(front, [last], owner);
      assert WrittenKeys([last], owner) <= (if last.final.PendingFile? then {last.final.key} else {});
      UnionCount(WrittenKeys(front, owner), WrittenKeys([last], owner), if last.final.PendingFile? then {last.final.key}
        else {});
    }
  }

  lemma UnionCount(a: set<RecordKey>, b: set<RecordKey>, c: set<RecordKey>)
    requires b <= c
    ensures |a + b| <= |a| + |c|
  {
    assert |b| <= |c| by {
      SubsetCount(b, c);
    }
  }

  lemma {:induction false} SubsetCount(b: set<RecordKey>, c: set<RecordKey>)
    requires b <= c
    ensures |b| <= |c|
    decreases c
  {
    if k :| k in b {
      SubsetCount(b - {k}, c - {k});
    }
  }

  /** The emission's policy admits at most `cap` pending records. */
  predicate CappedAt(emission: Emission, cap: nat) {
    emission.policy.Some? ==> emission.policy.value.maxPending <= cap
  }

  /** The admitted records fit under the cap. */
  lemma RecordsFitCap(
    files: Files, owner: Owner, sid: NodeId, source: InstanceId, stamp: Option<MeasurementStamp>, emission: Emission,
    now: int, cap: nat)
    requires CappedAt(emission, cap) && |PendingKeys(files, owner)| <= cap
    requires RecordWrites(files, owner, sid, source, stamp, emission, now).Ok?
    ensures
      var writes := RecordWrites(files, owner, sid, source, stamp, emission, now).value;
      |PendingKeys(files, owner)| + |WrittenKeys(writes, owner)| <= cap
  {
    var writes := RecordWrites(files, owner, sid, source, stamp, emission, now).value;
    WrittenKeysCount(writes, owner);
  }

  // ---------------------------------------------------------------- one cycle

  lemma RecordsOfOtherOwner(
    files: Files, owner: Owner, sid: NodeId, source: InstanceId, stamp: Option<MeasurementStamp>, emission: Emission,
    now: int, other: Owner)
    requires other != owner && RecordWrites(files, owner, sid, source, stamp, emission, now).Ok?
    ensures WrittenKeys(RecordWrites(files, owner, sid, source, stamp, emission, now).value, other) == {}
  {
  }

  /** One measurement's part, seen from one measurement's queue. */
  lemma ContributionFitsCap(
    files: Files, inspection: Inspection, identity: SourceIdentity, sid: NodeId, plan: MeasurementPlan, now: int,
    m: NodeId, cap: nat)
    requires Contribute(files, inspection, identity, sid, plan, now).Ok?
    requires plan.id == m ==> CappedAt(plan.emission, cap) && |PendingKeys(files, MeasurementOwner(m))| <= cap
    ensures
      var c := Contribute(files, inspection, identity, sid, plan, now).value;
      c.Contribution? ==>
        if plan.id == m then |PendingKeys(files, MeasurementOwner(m))|
          + |WrittenKeys(c.records, MeasurementOwner(m))| <= cap
        else WrittenKeys(c.records, MeasurementOwner(m)) == {}
  {
    var c := Contribute(files, inspection, identity, sid, plan, now).value;
    if c.Contribution? {
      var owner, stamp := MeasurementOwner(plan.id), Some(MeasurementStamp(plan.id, c.instance));
      if plan.id == m {
        RecordsFitCap(files, owner, sid, identity.instance, stamp, plan.emission, now, cap);
      } else {
        RecordsOfOtherOwner(files, owner, sid, identity.instance, stamp, plan.emission, now, MeasurementOwner(m));
      }
    }
  }

  predicate PlansCapped(plans: seq<MeasurementPlan>, m: NodeId, cap: nat) {
    forall j :: 0 <= j < |plans| && plans[j].id == m ==> CappedAt(plans[j].emission, cap)
  }

  /** A measurement is planned once, so its queue takes one admission round. */
  lemma {:induction false} PlansFitCap(
    files: Files, inspection: Inspection, identity: SourceIdentity, sid: NodeId, plans: seq<MeasurementPlan>, now: int,
    m: NodeId, cap: nat)
    requires DistinctIds(plans) && PlansCapped(plans, m, cap) && |PendingKeys(files, MeasurementOwner(m))| <= cap
    requires PlanMeasurements(files, inspection, identity, sid, plans, now).Ok?
    ensures
      var written := WrittenKeys(PlanMeasurements(files, inspection, identity, sid, plans, now).value.records,
        MeasurementOwner(m));
      |PendingKeys(files, MeasurementOwner(m))| + |written| <= cap && (m !in IdsOf(plans) ==> written == {})
  {
    if plans != [] {
      var front, last := plans[..|plans| - 1], plans[|plans| - 1];
      assert plans == front + [last];
      DistinctFront(front, last);
      IdsOfSnoc(front, last);
      PlansFitCap(files, inspection, identity, sid, front, now, m, cap);
      ContributionFitsCap(files, inspection, identity, sid, last, now, m, cap);
      var c := Contribute(files, inspection, identity, sid, last, now).value;
      if c.Contribution? {
        WrittenKeysConcat(PlanMeasurements(files, inspection, identity, sid, front, now).value.records, c.records,
          MeasurementOwner(m));
      }
    }
  }

  /** The plan's policy for this emitter admits at most `cap` pending records. */
  predicate PlanCapped(plan: Plan, owner: Owner, cap: nat) {
    match owner
    case SourceOwner => CappedAt(plan.source, cap)
    case MeasurementOwner(m) => PlansCapped(plan.measurements, m, cap)
  }

  lemma PartsFitCap(disk: Disk, sid: NodeId, plan: Plan, owner: Owner, cap: nat)
    requires ContentOf(disk, sid, plan).Content? && disk.storage.Present? && DistinctIds(plan.measurements)
    requires PlanCapped(plan, owner, cap) && |PendingKeys(disk.Files(), owner)| <= cap
    ensures
      var c := ContentOf(disk, sid, plan);
      |PendingKeys(disk.Files(), owner)| + |WrittenKeys(c.planned.records, owner)
        + WrittenKeys(c.records, owner)| <= cap
  {
    var c, inspection := ContentOf(disk, sid, plan), Inspect(disk, sid, Declared(plan));
    var identity := inspection.source.identity;
    ContentFrom(disk, sid, plan);
    match owner {
      case SourceOwner =>
        forall i | 0 <= i < |c.planned.records|
          ensures c.planned.records[i].final.owner != SourceOwner || !c.planned.records[i].final.PendingFile? {
          assert RecordFromSome(c.planned.records[i], plan.measurements, c.planned.states);
        }
        assert WrittenKeys(c.planned.records, owner) == {};
        if plan.source.seeds != [] {
          RecordsFitCap(disk.Files(), SourceOwner, sid, identity.instance, None, plan.source, plan.now, cap);
        }
      case MeasurementOwner(m) =>
        PlansFitCap(disk.Files(), inspection, identity, sid, plan.measurements, plan.now, m, cap);
        assert WrittenKeys(c.records, owner) == {};
    }
  }

  lemma ContentKeys(
    files: Files, next: SourceState, planned: Planned, records: seq<Write>, plans: seq<MeasurementPlan>, owner: Owner)
    requires PlannedFrom(plans, planned)
    ensures WrittenKeys(AcquisitionWrites(files, next, planned, records), owner)
      == WrittenKeys(planned.records, owner) + WrittenKeys(records, owner)
  {
    var head := [Write(SourceStateFile, Get(files, SourceStateFile), SourceStateDoc(next))];
    WrittenKeysConcat(head + planned.states + planned.records, records, owner);
    WrittenKeysConcat(head + planned.states, planned.records, owner);
    WrittenKeysConcat(head, planned.states, owner);
    forall i | 0 <= i < |planned.states| ensures !planned.states[i].final.PendingFile? {
      assert StateFromSome(planned.states[i], plans);
    }
  }

  /** A committed cycle keeps the queue within its cap. */
  lemma ContentFitsCap(disk: Disk, sid: NodeId, plan: Plan, owner: Owner, cap: nat)
    requires Quiet(disk, sid) && disk.identity.Present? && disk.storage.Present? && DistinctIds(plan.measurements)
    requires ContentOf(disk, sid, plan).Content? && PlanCapped(plan, owner, cap)
      && |PendingKeys(disk.Files(), owner)| <= cap
    ensures |PendingKeys(ContentDisk(disk, ContentOf(disk, sid, plan)).Files(), owner)| <= cap
  {
    var c := ContentOf(disk, sid, plan);
    var writes, after := ContentWrites(disk, c), ContentDisk(disk, c).Files();
    ContentFrom(disk, sid, plan);
    ContentKeys(disk.Files(), c.next, c.planned, c.records, plan.measurements, owner);
    PartsFitCap(disk, sid, plan, owner, cap);
    forall k ensures k in PendingKeys(after, owner)
      <==> k in PendingKeys(disk.Files(), owner) + WrittenKeys(writes, owner) {
      PendingAfter(disk, sid, plan, owner, k);
    }
    assert PendingKeys(after, owner) == PendingKeys(disk.Files(), owner) + WrittenKeys(writes, owner);
  }

  lemma PendingAfter(disk: Disk, sid: NodeId, plan: Plan, owner: Owner, k: RecordKey)
    requires Quiet(disk, sid) && disk.identity.Present? && disk.storage.Present? && DistinctIds(plan.measurements)
    requires ContentOf(disk, sid, plan).Content?
    ensures
      var c := ContentOf(disk, sid, plan);
      k in PendingKeys(ContentDisk(disk, c).Files(), owner)
      <==> k in PendingKeys(disk.Files(), owner) + WrittenKeys(ContentWrites(disk, c), owner)
  {
    var c := ContentOf(disk, sid, plan);
    ContentSound(disk, sid, plan);
    ContentHolds(disk, sid, c.state, c.planned, IdsOf(plan.measurements), c.next, ContentWrites(disk, c),
      Ref(owner, k));
    IsPending(disk.Files(), owner, k);
    IsPending(ContentDisk(disk, c).Files(), owner, k);
    IsWritten(ContentWrites(disk, c), owner, k);
  }

  lemma IsPending(files: Files, owner: Owner, k: RecordKey)
    ensures k in PendingKeys(files, owner) <==> HasRecord(files, Ref(owner, k))
  {
    if HasRecord(files, Ref(owner, k)) {
      assert PendingFile(owner, k) in files;
    }
  }

  lemma IsWritten(writes: seq<Write>, owner: Owner, k: RecordKey)
    ensures k in WrittenKeys(writes, owner) <==> Ref(owner, k) in Refs(writes)
  {
  }

  // ---------------------------------------------------------------- every other step

  /** A queue that only lost records stays within its cap. */
  lemma FewerPending(a: Files, b: Files, owner: Owner, cap: nat)
    requires |PendingKeys(b, owner)| <= cap && forall k :: HasRecord(a, Ref(owner, k)) ==> HasRecord(b, Ref(owner, k))
    ensures |PendingKeys(a, owner)| <= cap
  {
    forall k | k in PendingKeys(a, owner) ensures k in PendingKeys(b, owner) {
      IsPending(a, owner, k);
      IsPending(b, owner, k);
    }
    SubsetCount(PendingKeys(a, owner), PendingKeys(b, owner));
  }

  /** No step but a cycle adds a pending record. */
  lemma OthersAddNothing(disk: Disk, sid: NodeId, action: Action, fault: Fault, ref: Ref)
    requires (Recoverable(disk, sid) || StuckAt(disk)) && !action.Acquire? && !action.ResetAll?
    requires HasRecord(Standing(Perform(disk, sid, action, fault).disk, sid), ref)
    ensures HasRecord(Standing(disk, sid), ref)
  {
    if StuckAt(disk) {
      StuckAddsNothing(disk, sid, action, fault, ref);
    } else {
      match action {
        case Enter => TurnEntryConverges(disk, sid, fault);
        case Deliver(owner, key, facts, token) => DrainAddsNothing(disk, sid, owner, key, facts, token, fault, ref);
        case ResetOne(m, minted) => ResetAddsNothing(disk, sid, m, minted, fault, ref);
      }
    }
  }

  lemma StuckAddsNothing(disk: Disk, sid: NodeId, action: Action, fault: Fault, ref: Ref)
    requires StuckAt(disk) && !action.ResetAll? && HasRecord(Standing(Perform(disk, sid, action, fault).disk, sid), ref)
    ensures HasRecord(Standing(disk, sid), ref)
  {
    StuckStep(disk, sid, action, fault);
    var next := Perform(disk, sid, action, fault).disk;
    StuckIsNotRecoverable(disk, sid);
    StuckIsNotRecoverable(next, sid);
    SameBesideQueues(disk.Files(), next.Files(), ref);
  }

  lemma DrainAddsNothing(
    disk: Disk, sid: NodeId, owner: Owner, key: RecordKey, facts: AttemptFacts, token: nat, fault: Fault, ref: Ref)
    requires Recoverable(disk, sid)
      && HasRecord(Standing(Drain(disk, sid, owner, key, facts, token, fault).disk, sid), ref)
    ensures HasRecord(FilesOf(Goal(disk, sid)), ref)
  {
    var next := Drain(disk, sid, owner, key, facts, token, fault).disk;
    if DrainCollides(disk, sid, owner, key, facts, token, fault) {
      CollisionKeepsQueues(disk, sid, owner, key, facts, token, fault, ref);
      StuckIsNotRecoverable(next, sid);
    } else {
      DrainAtomic(disk, sid, owner, key, facts, token, fault);
      TurnEntryConverges(disk, sid, fault);
      if Goal(next, sid) != Goal(disk, sid) {
        var before := TurnEntry(disk, sid, fault).run.disk;
        QuietHolds(before, sid, ref);
        AttemptSound(before, sid, owner, key, facts);
        var a := AttemptOf(before, sid, owner, key, facts);
        OutcomeQueues(before.Files(), owner, key, Advanced(a.state), a.execution, ref);
      }
    }
  }

  lemma ResetAddsNothing(disk: Disk, sid: NodeId, m: NodeId, minted: InstanceId, fault: Fault, ref: Ref)
    requires Recoverable(disk, sid) && HasRecord(Standing(ResetMeasurement(disk, sid, m, minted, fault).disk, sid), ref)
    ensures HasRecord(FilesOf(Goal(disk, sid)), ref)
  {
    MeasurementResetMovesGoal(disk, sid, m, minted, fault);
    var goal := Goal(disk, sid);
    if Goal(ResetMeasurement(disk, sid, m, minted, fault).disk, sid) != goal {
      ResetDrops(goal.Files(), m, ResetIdentity(goal.identity.value, m, minted).value, ref);
    }
  }

  // ---------------------------------------------------------------- whole runs

  /** Every cycle of the run keeps to policies that admit at most `cap` pending records for the emitter. */
  predicate RunCapped(steps: seq<(Action, Fault)>, owner: Owner, cap: nat) {
    forall i :: 0 <= i < |steps| && steps[i].0.Acquire? ==> PlanCapped(steps[i].0.plan, owner, cap)
  }

  lemma CycleKeepsCap(disk: Disk, sid: NodeId, plan: Plan, fault: Fault, owner: Owner, cap: nat)
    requires Recoverable(disk, sid) && DistinctIds(plan.measurements) && PlanCapped(plan, owner, cap)
    requires |PendingKeys(FilesOf(Goal(disk, sid)), owner)| <= cap
    ensures
      var next := Measure(disk, sid, plan, fault).disk;
      Recoverable(next, sid) && |PendingKeys(FilesOf(Goal(next, sid)), owner)| <= cap
  {
    AcquireCases(disk, sid, plan, fault);
    var start, goal := CycleStart(disk, sid, plan, fault), Goal(Measure(disk, sid, plan, fault).disk, sid);
    if CommitsContent(start, sid, plan, goal) {
      StartKeepsCap(disk, sid, plan, fault, owner, cap);
      ContentFitsCap(start.disk, sid, plan, owner, cap);
    } else if goal != Goal(disk, sid) {
      assert PendingKeys(FilesOf(goal), owner) == {};
    }
  }

  lemma StartKeepsCap(disk: Disk, sid: NodeId, plan: Plan, fault: Fault, owner: Owner, cap: nat)
    requires Recoverable(disk, sid) && |PendingKeys(FilesOf(Goal(disk, sid)), owner)| <= cap
    requires CycleStart(disk, sid, plan, fault).outcome.Done?
    ensures
      var start := CycleStart(disk, sid, plan, fault).disk;
      Quiet(start, sid) && start.storage.Present? && |PendingKeys(start.Files(), owner)| <= cap
  {
    StartConverges(disk, sid, plan, fault);
    var start := CycleStart(disk, sid, plan, fault).disk;
    var shown := FilesOf(Goal(start, sid));
    if Goal(start, sid) != Goal(disk, sid) {
      assert PendingKeys(shown, owner) == {};
    }
    forall k | HasRecord(start.Files(), Ref(owner, k)) ensures HasRecord(shown, Ref(owner, k)) {
      QuietHolds(start, sid, Ref(owner, k));
    }
    FewerPending(start.Files(), shown, owner, cap);
  }

  lemma StepKeepsCap(disk: Disk, sid: NodeId, action: Action, fault: Fault, owner: Owner, cap: nat)
    requires Recoverable(disk, sid) || StuckAt(disk)
    requires Proper(action) && !action.ResetAll? && (action.Acquire? ==> PlanCapped(action.plan, owner, cap))
    requires |PendingKeys(Standing(disk, sid), owner)| <= cap
    ensures |PendingKeys(Standing(Perform(disk, sid, action, fault).disk, sid), owner)| <= cap
  {
    var next := Perform(disk, sid, action, fault).disk;
    if action.Acquire? && Recoverable(disk, sid) {
      CycleKeepsCap(disk, sid, action.plan, fault, owner, cap);
    } else {
      forall k | HasRecord(Standing(next, sid), Ref(owner, k)) ensures HasRecord(Standing(disk, sid), Ref(owner, k)) {
        if action.Acquire? {
          StuckAddsNothing(disk, sid, action, fault, Ref(owner, k));
        } else {
          OthersAddNothing(disk, sid, action, fault, Ref(owner, k));
        }
      }
      FewerPending(Standing(next, sid), Standing(disk, sid), owner, cap);
    }
  }

  lemma {:induction false} RunKeepsCap(disk: Disk, sid: NodeId, steps: seq<(Action, Fault)>, owner: Owner, cap: nat)
    requires Recoverable(disk, sid) || StuckAt(disk)
    requires AllProper(steps) && OneLineage(steps) && RunCapped(steps, owner, cap)
      && |PendingKeys(Standing(disk, sid), owner)| <= cap
    ensures |PendingKeys(Standing(AfterAll(disk, sid, steps), sid), owner)| <= cap
    decreases |steps|
  {
    if steps != [] {
      StepKeepsCap(disk, sid, steps[0].0, steps[0].1, owner, cap);
      StepKeepsLineage(disk, sid, steps[0].0, steps[0].1);
      RunKeepsCap(Perform(disk, sid, steps[0].0, steps[0].1).disk, sid, steps[1..], owner, cap);
    }
  }

  /**
    The cap, over every run of one lineage and cut anywhere: while no cycle's policy for an emitter admits
    more than `cap` pending records, what the source stands for never has more of them.
   */
  lemma PendingNeverExceedsCap(sid: NodeId, steps: seq<(Action, Fault)>, owner: Owner, cap: nat)
    requires AllProper(steps) && OneLineage(steps) && RunCapped(steps, owner, cap)
    ensures |PendingKeys(Standing(AfterAll(NewSource, sid, steps), sid), owner)| <= cap
  {
    assert Quiet(NewSource, sid) && PendingKeys(Standing(NewSource, sid), owner) == {};
    RunKeepsCap(NewSource, sid, steps, owner, cap);
  }
}
