/** What a committed acquisition cycle leaves on disk, spelled out file by file. */
module CycleResults {
  import opened Basics
  import opened Identifiers
  import opened DeliveryConfig
  import opened Outbox
  import opened AdmissionOrder
  import opened StoreTypes
  import opened CommitManifests
  import opened Commit
  import opened Gate
  import opened Recovery
  import opened Operations
  import opened Acquisition
  import opened Cycle
  import opened Resets
  import opened Runs

  // ---------------------------------------------------------------- what a cycle should do

  /**
    An emitter's pending queue takes in the first claims among the offers, as many as the policy leaves room
    for, as fresh records; what was pending stays, and nothing else is pending.
   */
  ghost predicate QueueTakes(
    before: Files, after: Files, owner: Owner, offers: seq<Offer>, policy: DeliveryPolicy, now: int)
  {
    var pending := set p | p in before && p.PendingFile? && p.owner == owner :: p.key;
    var picked := Unclaimed(offers, pending);
    var count := Min(|picked|, if |pending| < policy.maxPending then policy.maxPending - |pending| else 0);
    && (forall key :: key in pending ==> Get(after, PendingFile(owner, key)) == Get(before, PendingFile(owner, key)))
    && (forall i :: 0 <= i < count ==>
          Get(after, PendingFile(owner, RecordKey(picked[i].envelope.eventId, picked[i].route.id)))
          == Some(RecordDoc(DeliveryRecord(picked[i].envelope, picked[i].route.id, picked[i].route.family,
                                           picked[i].route.adapter, policy, [], now))))
    && (forall key :: PendingFile(owner, key) in after ==>
          key in pending || exists i :: 0 <= i < count && picked[i].Key() == key)
  }

  /** The emission's events under the emitter's stamp, offered to its routes; nothing without a policy. */
  ghost predicate EmitterTakes(
    before: Files, after: Files, owner: Owner, sid: NodeId, source: InstanceId, stamp: Option<MeasurementStamp>,
    emission: Emission, now: int)
  {
    if emission.policy.None? then
      forall key :: Get(after, PendingFile(owner, key)) == Get(before, PendingFile(owner, key))
    else
      var envelopes := seq(|emission.seeds|, i requires 0 <= i < |emission.seeds| =>
        Envelope(emission.seeds[i].eventId, emission.seeds[i].kind, sid, source, stamp, emission.seeds[i].conditionId));
      QueueTakes(before, after, owner, Offers(envelopes, emission.routes), emission.policy.value, now)
  }

  /** The instance a planned measurement bears: its registered one, or the minted one in its first cycle. */
  function InstanceOf(identity: SourceIdentity, plan: MeasurementPlan): InstanceId {
    if plan.id in identity.measurements then identity.measurements[plan.id].instance else plan.minted
  }

  /** A measurement's part: its new state under its instance, and its queue. */
  ghost predicate MeasurementTakes(
    before: Files, after: Files, identity: SourceIdentity, sid: NodeId, plan: MeasurementPlan, now: int)
  {
    var instance := InstanceOf(identity, plan);
    && Get(after, MeasurementStateFile(plan.id))
       == Some(MeasurementStateDoc(MeasurementState(identity.instance, instance, plan.facts)))
    && EmitterTakes(before, after, MeasurementOwner(plan.id), sid, identity.instance,
         Some(MeasurementStamp(plan.id, instance)), plan.emission, now)
  }

  /** New measurements are registered with the minted instance and no reset; registered ones are untouched. */
  predicate IdentityTakes(from: SourceIdentity, to: SourceIdentity, plans: seq<MeasurementPlan>) {
    && to.instance == from.instance
    && to.measurements.Keys == from.measurements.Keys + IdsOf(plans)
    && (forall m :: m in from.measurements && m in to.measurements ==> to.measurements[m] == from.measurements[m])
    && forall j :: 0 <= j < |plans| && plans[j].id !in from.measurements && plans[j].id in to.measurements ==>
        to.measurements[plans[j].id] == MeasurementIdentity(plans[j].minted, 0)
  }

  /** The path belongs to some planned emitter or is the source's state. */
  predicate Concerned(path: Path, plans: seq<MeasurementPlan>) {
    || path == SourceStateFile
    || (path.MeasurementStateFile? && path.id in IdsOf(plans))
    || (path.PendingFile? && (path.owner == SourceOwner
        || (path.owner.MeasurementOwner? && path.owner.id in IdsOf(plans))))
  }

  /** The source's state moves to the next generation with the plan's facts. */
  predicate StateTakes(before: Files, after: Files, facts: int) {
    && SourceStateFile in before && before[SourceStateFile].SourceStateDoc?
    && var state := before[SourceStateFile].source;
       Get(after, SourceStateFile) == Some(SourceStateDoc(SourceState(state.instance, state.generation + 1, facts)))
  }

  ghost predicate FilesTake(before: Files, after: Files, identity: SourceIdentity, sid: NodeId, plan: Plan) {
    && StateTakes(before, after, plan.facts)
    && (forall j :: 0 <= j < |plan.measurements| ==>
          MeasurementTakes(before, after, identity, sid, plan.measurements[j], plan.now))
    && EmitterTakes(before, after, SourceOwner, sid, identity.instance, None, plan.source, plan.now)
    && (forall p: Path :: !p.StagedFile? && !Concerned(p, plan.measurements) ==> Get(after, p) == Get(before, p))
  }

  /** The whole cycle: one source before and after it, staging aside. */
  ghost predicate Cycled(before: Disk, after: Disk, sid: NodeId, plan: Plan) {
    && before.identity.Present? && before.storage.Present? && after.identity.Present? && after.storage.Present?
    && IdentityTakes(before.identity.value, after.identity.value, plan.measurements)
    && FilesTake(before.Files(), after.Files(), before.identity.value, sid, plan)
    && after.storage.value.commit == Absent && after.lineage == Absent && !after.tombstone
  }

  // ---------------------------------------------------------------- one emitter's records

  /** One emitter's writes are its first claims, as fresh records. */
  lemma RecordWritesSpelledOut(
    files: Files, owner: Owner, sid: NodeId, source: InstanceId, stamp: Option<MeasurementStamp>, emission: Emission,
    now: int)
    requires RecordWrites(files, owner, sid, source, stamp, emission, now).Ok?
    ensures emission.policy.None? ==> RecordWrites(files, owner, sid, source, stamp, emission, now).value == []
    ensures emission.policy.Some? ==>
      var writes, policy := RecordWrites(files, owner, sid, source, stamp, emission, now).value, emission.policy.value;
      var pending := PendingKeys(files, owner);
      var picked := Unclaimed(Offers(Envelopes(emission, sid, source, stamp), emission.routes), pending);
      && |writes| == Min(|picked|, if |pending| < policy.maxPending then policy.maxPending - |pending| else 0)
      && forall i :: 0 <= i < |writes| ==>
          writes[i] == Write(PendingFile(owner, picked[i].Key()), None,
                             RecordDoc(DeliveryRecord(picked[i].envelope, picked[i].route.id, picked[i].route.family,
                                                      picked[i].route.adapter, policy, [], now)))
  {
    if emission.policy.Some? {
      var pending := PendingKeys(files, owner);
      AdmittedSpelledOut(pending, |pending|, Offers(Envelopes(emission, sid, source, stamp), emission.routes),
        emission.policy.value, now);
    }
  }

  /** Among all writes, these are the ones into the owner's pending queue. */
  predicate QueueWrites(all: seq<Write>, owner: Owner, mine: seq<Write>) {
    && (forall w :: w in mine ==> w in all)
    && (forall w :: w in all && w.final.PendingFile? && w.final.owner == owner ==> w in mine)
  }

  lemma WrittenDoc(files: Files, writes: seq<Write>, after: Files, write: Write)
    requires WrittenTo(files, writes, after) && write in writes
    ensures Get(after, write.final) == Some(write.doc)
  {
    var j :| 0 <= j < |writes| && writes[j] == write;
  }

  lemma Unwritten(files: Files, writes: seq<Write>, after: Files, path: Path)
    requires WrittenTo(files, writes, after) && !path.StagedFile?
    requires forall w :: w in writes ==> w.final != path
    ensures Get(after, path) == Get(files, path)
  {
    assert forall i :: 0 <= i < |writes| ==> writes[i] in writes;
  }

  /** A key nobody of the owner's writes stays as it was. */
  lemma KeyUnwritten(files: Files, all: seq<Write>, after: Files, owner: Owner, mine: seq<Write>, key: RecordKey)
    requires WrittenTo(files, all, after) && QueueWrites(all, owner, mine)
    requires forall w :: w in mine ==> w.final != PendingFile(owner, key)
    ensures Get(after, PendingFile(owner, key)) == Get(files, PendingFile(owner, key))
  {
    forall w | w in all ensures w.final != PendingFile(owner, key) {
      var j :| 0 <= j < |all| && all[j] == w;
    }
    Unwritten(files, all, after, PendingFile(owner, key));
  }

  /** So the queue ends as it should. */
  lemma QueueIsTaken(
    files: Files, all: seq<Write>, after: Files, owner: Owner, sid: NodeId, source: InstanceId,
    stamp: Option<MeasurementStamp>, emission: Emission, now: int)
    requires WrittenTo(files, all, after)
    requires RecordWrites(files, owner, sid, source, stamp, emission, now).Ok?
    requires QueueWrites(all, owner, RecordWrites(files, owner, sid, source, stamp, emission, now).value)
    ensures EmitterTakes(files, after, owner, sid, source, stamp, emission, now)
  {
    var mine := RecordWrites(files, owner, sid, source, stamp, emission, now).value;
    RecordWritesSpelledOut(files, owner, sid, source, stamp, emission, now);
    if emission.policy.None? {
      forall key ensures Get(after, PendingFile(owner, key)) == Get(files, PendingFile(owner, key)) {
        KeyUnwritten(files, all, after, owner, mine, key);
      }
    } else {
      QueueTakesWrites(files, all, after, owner, Offers(Envelopes(emission, sid, source, stamp), emission.routes),
        emission.policy.value, now, mine);
      assert Envelopes(emission, sid, source, stamp) == seq(|emission.seeds|, i requires 0 <= i < |emission.seeds| =>
        Envelope(emission.seeds[i].eventId, emission.seeds[i].kind, sid, source, stamp, emission.seeds[i].conditionId));
    }
  }

  /** A key that is pending now and was not before was written. */
  lemma OnlyWritten(files: Files, all: seq<Write>, after: Files, owner: Owner, mine: seq<Write>, key: RecordKey)
    returns (w: Write)
    requires WrittenTo(files, all, after) && QueueWrites(all, owner, mine)
    requires PendingFile(owner, key) in after && key !in PendingKeys(files, owner)
    ensures w in mine && w.final == PendingFile(owner, key)
  {
    if forall w :: w in mine ==> w.final != PendingFile(owner, key) {
      KeyUnwritten(files, all, after, owner, mine, key);
    }
    w :| w in mine && w.final == PendingFile(owner, key);
  }

  lemma QueueTakesWrites(
    files: Files, all: seq<Write>, after: Files, owner: Owner, offers: seq<Offer>, policy: DeliveryPolicy, now: int,
    mine: seq<Write>)
    requires WrittenTo(files, all, after) && QueueWrites(all, owner, mine)
    requires
      var pending := PendingKeys(files, owner);
      var picked := Unclaimed(offers, pending);
      && |mine| == Min(|picked|, if |pending| < policy.maxPending then policy.maxPending - |pending| else 0)
      && forall i :: 0 <= i < |mine| ==>
          mine[i] == Write(PendingFile(owner, picked[i].Key()), None,
                           RecordDoc(DeliveryRecord(picked[i].envelope, picked[i].route.id, picked[i].route.family,
                                                    picked[i].route.adapter, policy, [], now)))
    ensures QueueTakes(files, after, owner, offers, policy, now)
  {
    var pending := PendingKeys(files, owner);
    var picked := Unclaimed(offers, pending);
    UnclaimedFacts(offers, pending);
    assert pending == set p | p in files && p.PendingFile? && p.owner == owner :: p.key;
    forall key | key in pending ensures Get(after, PendingFile(owner, key)) == Get(files, PendingFile(owner, key)) {
      KeyUnwritten(files, all, after, owner, mine, key);
    }
    forall i | 0 <= i < |mine| ensures Get(after, mine[i].final) == Some(mine[i].doc) {
      WrittenDoc(files, all, after, mine[i]);
    }
    forall key | PendingFile(owner, key) in after && key !in pending
      ensures exists i :: 0 <= i < |mine| && picked[i].Key() == key
    {
      var w := OnlyWritten(files, all, after, owner, mine, key);
      var i :| 0 <= i < |mine| && mine[i] == w;
      assert picked[i].Key() == key;
    }
  }

  // ---------------------------------------------------------------- every planned measurement

  /** The records one planned measurement admits. */
  function RecordsOf(
    files: Files, identity: SourceIdentity, sid: NodeId, plan: MeasurementPlan, now: int): Result<seq<Write>>
  {
    RecordWrites(files, MeasurementOwner(plan.id), sid, identity.instance,
      Some(MeasurementStamp(plan.id, InstanceOf(identity, plan))), plan.emission, now)
  }

  function StateOf(files: Files, identity: SourceIdentity, plan: MeasurementPlan): Write {
    Write(MeasurementStateFile(plan.id), Get(files, MeasurementStateFile(plan.id)),
      MeasurementStateDoc(MeasurementState(identity.instance, InstanceOf(identity, plan), plan.facts)))
  }

  /** One state per plan, in order. */
  predicate PlannedStates(files: Files, identity: SourceIdentity, plans: seq<MeasurementPlan>, states: seq<Write>) {
    |states| == |plans| && forall j :: 0 <= j < |plans| ==> states[j] == StateOf(files, identity, plans[j])
  }

  /** The plan's records are the writes into its queue. */
  predicate PlannedQueue(
    files: Files, identity: SourceIdentity, sid: NodeId, plan: MeasurementPlan, now: int, records: seq<Write>)
  {
    && RecordsOf(files, identity, sid, plan, now).Ok?
    && QueueWrites(records, MeasurementOwner(plan.id), RecordsOf(files, identity, sid, plan, now).value)
  }

  /** Every plan's records, and no others. */
  predicate PlannedQueues(
    files: Files, identity: SourceIdentity, sid: NodeId, plans: seq<MeasurementPlan>, now: int, records: seq<Write>)
  {
    && (forall j :: 0 <= j < |plans| ==> PlannedQueue(files, identity, sid, plans[j], now, records))
    && (forall w :: w in records ==>
          w.final.PendingFile? && w.final.owner.MeasurementOwner? && w.final.owner.id in IdsOf(plans))
  }

  /** New measurements are added under their minted instance. */
  predicate PlannedEntries(
    identity: SourceIdentity, plans: seq<MeasurementPlan>, additions: map<NodeId, InstanceId>)
  {
    && additions.Keys == IdsOf(plans) - identity.measurements.Keys
    && forall j :: 0 <= j < |plans| && plans[j].id in additions ==> additions[plans[j].id] == plans[j].minted
  }

  /** Registered ones are touched under their registered instance. */
  predicate PlannedTouches(
    identity: SourceIdentity, plans: seq<MeasurementPlan>, touched: map<NodeId, InstanceId>)
  {
    && touched.Keys == IdsOf(plans) * identity.measurements.Keys
    && forall m :: m in touched && m in identity.measurements ==> touched[m] == identity.measurements[m].instance
  }

  /** The planner's output, by plan. */
  predicate PlannedExactly(
    files: Files, identity: SourceIdentity, sid: NodeId, plans: seq<MeasurementPlan>, now: int, planned: Planned)
  {
    && PlannedStates(files, identity, plans, planned.states)
    && PlannedQueues(files, identity, sid, plans, now, planned.records)
    && PlannedEntries(identity, plans, planned.additions)
    && PlannedTouches(identity, plans, planned.touched)
  }

  /** One measurement's contribution, whatever the gate was asked about. */
  lemma ContributeSpelledOut(
    files: Files, inspection: Inspection, identity: SourceIdentity, sid: NodeId, plan: MeasurementPlan, now: int)
    requires GateFacts(inspection, identity)
    ensures
      var records := RecordsOf(files, identity, sid, plan, now);
      Contribute(files, inspection, identity, sid, plan, now)
        == if records.Err? then Err
           else Ok(Contribution(plan.id, plan.id !in identity.measurements, InstanceOf(identity, plan),
                                StateOf(files, identity, plan), records.value))
  {
  }

  lemma QueueWritesMore(all: seq<Write>, more: seq<Write>, owner: Owner, mine: seq<Write>)
    requires QueueWrites(all, owner, mine)
    requires NoneOf(more, owner)
    ensures QueueWrites(all + more, owner, mine)
  {
  }

  lemma QueueWritesOwn(all: seq<Write>, owner: Owner, mine: seq<Write>)
    requires NoneOf(all, owner)
    ensures QueueWrites(all + mine, owner, mine)
  {
  }

  predicate NoneOf(writes: seq<Write>, owner: Owner) {
    forall w :: w in writes ==> !(w.final.PendingFile? && w.final.owner == owner)
  }

  /** A measurement's own records go into its own queue. */
  lemma RecordsAreOwn(files: Files, identity: SourceIdentity, sid: NodeId, plan: MeasurementPlan, now: int)
    requires RecordsOf(files, identity, sid, plan, now).Ok?
    ensures forall w :: w in RecordsOf(files, identity, sid, plan, now).value ==>
      w.final.PendingFile? && w.final.owner == MeasurementOwner(plan.id)
  {
    RecordWritesSpelledOut(files, MeasurementOwner(plan.id), sid, identity.instance,
      Some(MeasurementStamp(plan.id, InstanceOf(identity, plan))), plan.emission, now);
  }

  lemma QueuesMore(
    files: Files, identity: SourceIdentity, sid: NodeId, front: seq<MeasurementPlan>, last: MeasurementPlan, now: int,
    records: seq<Write>)
    requires PlannedQueues(files, identity, sid, front, now, records) && last.id !in IdsOf(front)
    requires RecordsOf(files, identity, sid, last, now).Ok?
    ensures PlannedQueues(files, identity, sid, front + [last], now,
                          records + RecordsOf(files, identity, sid, last, now).value)
  {
    var mine, plans := RecordsOf(files, identity, sid, last, now).value, front + [last];
    RecordsAreOwn(files, identity, sid, last, now);
    IdsOfSnoc(front, last);
    forall j | 0 <= j < |plans| ensures PlannedQueue(files, identity, sid, plans[j], now, records + mine) {
      if j < |front| {
        assert PlannedQueue(files, identity, sid, front[j], now, records) && front[j].id in IdsOf(front);
        QueueWritesMore(records, mine, MeasurementOwner(front[j].id),
          RecordsOf(files, identity, sid, front[j], now).value);
      } else {
        QueueWritesOwn(records, MeasurementOwner(last.id), mine);
      }
    }
  }

  lemma StatesMore(
    files: Files, identity: SourceIdentity, front: seq<MeasurementPlan>, last: MeasurementPlan, states: seq<Write>)
    requires PlannedStates(files, identity, front, states)
    ensures PlannedStates(files, identity, front + [last], states + [StateOf(files, identity, last)])
  {
  }

  lemma EntriesMore(
    identity: SourceIdentity, front: seq<MeasurementPlan>, last: MeasurementPlan, additions: map<NodeId, InstanceId>,
    touched: map<NodeId, InstanceId>)
    requires PlannedEntries(identity, front, additions) && PlannedTouches(identity, front, touched)
    requires last.id !in IdsOf(front)
    ensures
      var first, instance := last.id !in identity.measurements, InstanceOf(identity, last);
      && PlannedEntries(identity, front + [last], if first then additions[last.id := instance] else additions)
      && PlannedTouches(identity, front + [last], if first then touched else touched[last.id := instance])
  {
    IdsOfSnoc(front, last);
    forall j | 0 <= j < |front| ensures front[j].id in IdsOf(front) {}
  }

  /** One more plan. */
  lemma PlannedMore(
    files: Files, identity: SourceIdentity, sid: NodeId, front: seq<MeasurementPlan>, last: MeasurementPlan, now: int,
    sofar: Planned)
    requires PlannedExactly(files, identity, sid, front, now, sofar) && last.id !in IdsOf(front)
    requires RecordsOf(files, identity, sid, last, now).Ok?
    ensures
      var c := Contribution(last.id, last.id !in identity.measurements, InstanceOf(identity, last),
        StateOf(files, identity, last), RecordsOf(files, identity, sid, last, now).value);
      PlannedExactly(files, identity, sid, front + [last], now, AddContribution(sofar, c))
  {
    StatesMore(files, identity, front, last, sofar.states);
    QueuesMore(files, identity, sid, front, last, now, sofar.records);
    EntriesMore(identity, front, last, sofar.additions, sofar.touched);
  }

  /** Every emission of the plans can be admitted. */
  predicate AllAdmitted(
    files: Files, identity: SourceIdentity, sid: NodeId, plans: seq<MeasurementPlan>, now: int)
  {
    forall j :: 0 <= j < |plans| ==> RecordsOf(files, identity, sid, plans[j], now).Ok?
  }

  lemma AllAdmittedSnoc(
    files: Files, identity: SourceIdentity, sid: NodeId, front: seq<MeasurementPlan>, last: MeasurementPlan, now: int)
    ensures AllAdmitted(files, identity, sid, front + [last], now) <==>
      AllAdmitted(files, identity, sid, front, now) && RecordsOf(files, identity, sid, last, now).Ok?
  {
    var plans := front + [last];
    assert plans[|front|] == last && forall j :: 0 <= j < |front| ==> plans[j] == front[j];
  }

  lemma PlanUnfolds(
    files: Files, inspection: Inspection, identity: SourceIdentity, sid: NodeId, front: seq<MeasurementPlan>,
    last: MeasurementPlan, now: int)
    requires GateFacts(inspection, identity)
    ensures
      var before := PlanMeasurements(files, inspection, identity, sid, front, now);
      var records := RecordsOf(files, identity, sid, last, now);
      PlanMeasurements(files, inspection, identity, sid, front + [last], now)
        == if before.Err? || records.Err? then Err
           else Ok(AddContribution(before.value,
             Contribution(last.id, last.id !in identity.measurements, InstanceOf(identity, last),
                          StateOf(files, identity, last), records.value)))
  {
    assert (front + [last])[..|front|] == front;
    ContributeSpelledOut(files, inspection, identity, sid, last, now);
  }

  /** The planner, exactly. */
  lemma {:induction false} PlanSpelledOut(
    files: Files, inspection: Inspection, identity: SourceIdentity, sid: NodeId, plans: seq<MeasurementPlan>, now: int)
    requires GateFacts(inspection, identity) && DistinctIds(plans)
    ensures
      var r := PlanMeasurements(files, inspection, identity, sid, plans, now);
      && (r.Ok? <==> AllAdmitted(files, identity, sid, plans, now))
      && (r.Ok? ==> PlannedExactly(files, identity, sid, plans, now, r.value))
  {
    if plans != [] {
      var front, last := plans[..|plans| - 1], plans[|plans| - 1];
      assert plans == front + [last];
      DistinctFront(front, last);
      PlanSpelledOut(files, inspection, identity, sid, front, now);
      PlanUnfolds(files, inspection, identity, sid, front, last, now);
      AllAdmittedSnoc(files, identity, sid, front, last, now);
      if AllAdmitted(files, identity, sid, plans, now) {
        PlannedMore(files, identity, sid, front, last, now,
          PlanMeasurements(files, inspection, identity, sid, front, now).value);
      }
    }
  }

  // ---------------------------------------------------------------- held measurements

  /** The plans whose measurement the gate does not hold. */
  function NotHeld(inspection: Inspection, plans: seq<MeasurementPlan>): seq<MeasurementPlan> {
    if plans == [] then []
    else
      var front, last := NotHeld(inspection, plans[..|plans| - 1]), plans[|plans| - 1];
      if last.id in inspection.measurements && inspection.measurements[last.id].Held? then front else front + [last]
  }

  /** A held measurement is passed over: the cycle is the one planned without it, whatever else the gate found. */
  lemma {:induction false} HeldIsPassedOver(
    files: Files, inspection: Inspection, identity: SourceIdentity, sid: NodeId, plans: seq<MeasurementPlan>, now: int)
    ensures PlanMeasurements(files, inspection, identity, sid, plans, now)
      == PlanMeasurements(files, inspection, identity, sid, NotHeld(inspection, plans), now)
  {
    if plans != [] {
      var front, last := plans[..|plans| - 1], plans[|plans| - 1];
      HeldIsPassedOver(files, inspection, identity, sid, front, now);
      assert (NotHeld(inspection, front) + [last])[..|NotHeld(inspection, front)|] == NotHeld(inspection, front);
    }
  }

  // ---------------------------------------------------------------- the whole cycle's files

  lemma PartsOfWrites(files: Files, next: SourceState, planned: Planned, sourceRecords: seq<Write>)
    ensures
      var head := Write(SourceStateFile, Get(files, SourceStateFile), SourceStateDoc(next));
      forall w :: w in AcquisitionWrites(files, next, planned, sourceRecords) <==>
        w == head || w in planned.states || w in planned.records || w in sourceRecords
  {
  }

  /** The writes of a planned cycle, and where each of them goes. */
  ghost predicate PlannedWrites(
    files: Files, identity: SourceIdentity, sid: NodeId, plan: Plan, next: SourceState, planned: Planned,
    sourceRecords: seq<Write>, writes: seq<Write>)
  {
    && writes == AcquisitionWrites(files, next, planned, sourceRecords)
    && PlannedExactly(files, identity, sid, plan.measurements, plan.now, planned)
    && forall w :: w in sourceRecords ==> w.final.PendingFile? && w.final.owner == SourceOwner
  }

  lemma StatesArePlanned(files: Files, identity: SourceIdentity, plans: seq<MeasurementPlan>, states: seq<Write>)
    requires PlannedStates(files, identity, plans, states)
    ensures forall w :: w in states ==> w.final.MeasurementStateFile? && w.final.id in IdsOf(plans)
    ensures forall j :: 0 <= j < |plans| ==> StateOf(files, identity, plans[j]) in states
  {
    forall w | w in states ensures w.final.MeasurementStateFile? && w.final.id in IdsOf(plans) {
      var j :| 0 <= j < |states| && states[j] == w;
      assert states[j] == StateOf(files, identity, plans[j]) && plans[j].id in IdsOf(plans);
    }
    forall j | 0 <= j < |plans| ensures StateOf(files, identity, plans[j]) in states {
      assert states[j] == StateOf(files, identity, plans[j]);
    }
  }

  /** Every write goes to a concerned path. */
  lemma WritesAreConcerned(
    files: Files, identity: SourceIdentity, sid: NodeId, plan: Plan, next: SourceState, planned: Planned,
    sourceRecords: seq<Write>, writes: seq<Write>)
    requires PlannedWrites(files, identity, sid, plan, next, planned, sourceRecords, writes)
    ensures forall w :: w in writes ==> Concerned(w.final, plan.measurements)
  {
    PartsOfWrites(files, next, planned, sourceRecords);
    StatesArePlanned(files, identity, plan.measurements, planned.states);
  }

  /** A planned measurement's state and its records are among the writes, and nothing else for its queue. */
  lemma MeasurementWrites(
    files: Files, identity: SourceIdentity, sid: NodeId, plan: Plan, next: SourceState, planned: Planned,
    sourceRecords: seq<Write>, writes: seq<Write>, j: nat)
    requires PlannedWrites(files, identity, sid, plan, next, planned, sourceRecords, writes)
    requires j < |plan.measurements|
    ensures StateOf(files, identity, plan.measurements[j]) in writes
    ensures RecordsOf(files, identity, sid, plan.measurements[j], plan.now).Ok?
    ensures QueueWrites(writes, MeasurementOwner(plan.measurements[j].id),
                        RecordsOf(files, identity, sid, plan.measurements[j], plan.now).value)
  {
    PartsOfWrites(files, next, planned, sourceRecords);
    StatesArePlanned(files, identity, plan.measurements, planned.states);
    assert PlannedQueue(files, identity, sid, plan.measurements[j], plan.now, planned.records);
  }

  /** A planned measurement's queue takes its records. */
  lemma MeasurementIsTaken(
    files: Files, identity: SourceIdentity, sid: NodeId, plan: Plan, next: SourceState, planned: Planned,
    sourceRecords: seq<Write>, writes: seq<Write>, after: Files, j: nat)
    requires PlannedWrites(files, identity, sid, plan, next, planned, sourceRecords, writes)
    requires WrittenTo(files, writes, after) && j < |plan.measurements|
    ensures MeasurementTakes(files, after, identity, sid, plan.measurements[j], plan.now)
  {
    var m := plan.measurements[j];
    MeasurementWrites(files, identity, sid, plan, next, planned, sourceRecords, writes, j);
    QueueIsTaken(files, writes, after, MeasurementOwner(m.id), sid, identity.instance,
      Some(MeasurementStamp(m.id, InstanceOf(identity, m))), m.emission, plan.now);
    WrittenDoc(files, writes, after, StateOf(files, identity, m));
  }

  /** The source's queue takes its records; an emission without events takes none. */
  lemma SourceIsTaken(
    files: Files, identity: SourceIdentity, sid: NodeId, plan: Plan, next: SourceState, planned: Planned,
    sourceRecords: seq<Write>, writes: seq<Write>, after: Files)
    requires PlannedWrites(files, identity, sid, plan, next, planned, sourceRecords, writes)
    requires WrittenTo(files, writes, after)
    requires
      var records := RecordWrites(files, SourceOwner, sid, identity.instance, None, plan.source, plan.now);
      if plan.source.seeds == [] then sourceRecords == [] else records == Ok(sourceRecords)
    ensures EmitterTakes(files, after, SourceOwner, sid, identity.instance, None, plan.source, plan.now)
  {
    PartsOfWrites(files, next, planned, sourceRecords);
    StatesArePlanned(files, identity, plan.measurements, planned.states);
    assert QueueWrites(writes, SourceOwner, sourceRecords);
    if plan.source.seeds != [] {
      QueueIsTaken(files, writes, after, SourceOwner, sid, identity.instance, None, plan.source, plan.now);
    } else {
      NothingIsTaken(files, writes, after, SourceOwner, sid, identity.instance, None, plan.source, plan.now);
    }
  }

  lemma NothingIsTaken(
    files: Files, all: seq<Write>, after: Files, owner: Owner, sid: NodeId, source: InstanceId,
    stamp: Option<MeasurementStamp>, emission: Emission, now: int)
    requires WrittenTo(files, all, after) && QueueWrites(all, owner, []) && emission.seeds == []
    ensures EmitterTakes(files, after, owner, sid, source, stamp, emission, now)
  {
    if emission.policy.None? {
      forall key ensures Get(after, PendingFile(owner, key)) == Get(files, PendingFile(owner, key)) {
        KeyUnwritten(files, all, after, owner, [], key);
      }
    } else {
      QueueTakesWrites(files, all, after, owner, [], emission.policy.value, now, []);
    }
  }

  /** Together: the files of a cycle are exactly what the plan says. */
  lemma FilesAreTaken(
    files: Files, identity: SourceIdentity, sid: NodeId, plan: Plan, next: SourceState, planned: Planned,
    sourceRecords: seq<Write>, writes: seq<Write>, after: Files)
    requires PlannedWrites(files, identity, sid, plan, next, planned, sourceRecords, writes)
    requires WrittenTo(files, writes, after)
    requires
      var records := RecordWrites(files, SourceOwner, sid, identity.instance, None, plan.source, plan.now);
      if plan.source.seeds == [] then sourceRecords == [] else records == Ok(sourceRecords)
    requires SourceStateFile in files && files[SourceStateFile].SourceStateDoc?
    requires
      var state := files[SourceStateFile].source;
      next == SourceState(state.instance, state.generation + 1, plan.facts)
    ensures FilesTake(files, after, identity, sid, plan)
  {
    forall j | 0 <= j < |plan.measurements|
      ensures MeasurementTakes(files, after, identity, sid, plan.measurements[j], plan.now)
    {
      MeasurementIsTaken(files, identity, sid, plan, next, planned, sourceRecords, writes, after, j);
    }
    SourceIsTaken(files, identity, sid, plan, next, planned, sourceRecords, writes, after);
    WritesAreConcerned(files, identity, sid, plan, next, planned, sourceRecords, writes);
    forall p: Path | !p.StagedFile? && !Concerned(p, plan.measurements) ensures Get(after, p) == Get(files, p) {
      Unwritten(files, writes, after, p);
    }
    PartsOfWrites(files, next, planned, sourceRecords);
    WrittenDoc(files, writes, after, Write(SourceStateFile, Get(files, SourceStateFile), SourceStateDoc(next)));
  }

  // ---------------------------------------------------------------- the whole cycle

  /** The emission can be admitted: routes need a policy, and every event fits its emitter and its kind. */
  predicate Admissible(emission: Emission, ofSource: bool) {
    if emission.policy.None? then emission.routes == []
    else
      && emission.policy.value.Valid()
      && forall i :: 0 <= i < |emission.seeds| ==>
          && (ofSource <==> emission.seeds[i].kind.Family() == OnSource)
          && (emission.seeds[i].conditionId.Some? <==> emission.seeds[i].kind.Family() == OnCondition)
  }

  predicate AdmissiblePlan(plan: Plan) {
    && AllAdmissible(plan.measurements)
    && (plan.source.seeds != [] ==> Admissible(plan.source, true))
  }

  lemma AdmissibleExactly(
    files: Files, owner: Owner, sid: NodeId, source: InstanceId, stamp: Option<MeasurementStamp>, emission: Emission,
    now: int)
    ensures RecordWrites(files, owner, sid, source, stamp, emission, now).Ok? <==> Admissible(emission, stamp.None?)
  {
    var envelopes := Envelopes(emission, sid, source, stamp);
    if emission.policy.Some? && emission.policy.value.Valid() {
      assert AllEnvelopesValid(envelopes) ==> Admissible(emission, stamp.None?) by {
        assert forall i :: 0 <= i < |envelopes| ==> envelopes[i].conditionId == emission.seeds[i].conditionId;
      }
    }
  }

  predicate AllAdmissible(plans: seq<MeasurementPlan>) {
    forall j :: 0 <= j < |plans| ==> Admissible(plans[j].emission, false)
  }

  lemma AllAdmittedIff(
    files: Files, identity: SourceIdentity, sid: NodeId, plans: seq<MeasurementPlan>, now: int)
    ensures AllAdmitted(files, identity, sid, plans, now) <==> AllAdmissible(plans)
  {
    forall j | 0 <= j < |plans|
      ensures RecordsOf(files, identity, sid, plans[j], now).Ok? <==> Admissible(plans[j].emission, false)
    {
      AdmissibleExactly(files, MeasurementOwner(plans[j].id), sid, identity.instance,
        Some(MeasurementStamp(plans[j].id, InstanceOf(identity, plans[j]))), plans[j].emission, now);
    }
  }

  /** The planner fails exactly on an inadmissible emission. */
  lemma PlanCycleIff(files: Files, inspection: Inspection, identity: SourceIdentity, sid: NodeId, plan: Plan)
    requires GateFacts(inspection, identity) && DistinctIds(plan.measurements)
    ensures PlanCycle(files, inspection, identity, sid, plan).Ok? <==> AdmissiblePlan(plan)
  {
    PlanSpelledOut(files, inspection, identity, sid, plan.measurements, plan.now);
    AllAdmittedIff(files, identity, sid, plan.measurements, plan.now);
    AdmissibleExactly(files, SourceOwner, sid, identity.instance, None, plan.source, plan.now);
  }

  /** And otherwise gives what was planned. */
  lemma PlanCycleSpelledOut(files: Files, inspection: Inspection, identity: SourceIdentity, sid: NodeId, plan: Plan)
    requires GateFacts(inspection, identity) && DistinctIds(plan.measurements)
    requires PlanCycle(files, inspection, identity, sid, plan).Ok?
    ensures
      var (planned, sourceRecords) := PlanCycle(files, inspection, identity, sid, plan).value;
      var records := RecordWrites(files, SourceOwner, sid, identity.instance, None, plan.source, plan.now);
      && PlannedExactly(files, identity, sid, plan.measurements, plan.now, planned)
      && (if plan.source.seeds == [] then sourceRecords == [] else records == Ok(sourceRecords))
  {
    PlanSpelledOut(files, inspection, identity, sid, plan.measurements, plan.now);
  }

  /** Over a quiet store the gate lets the cycle through, and its content is the planner's. */
  lemma ContentUnfolds(disk: Disk, sid: NodeId, plan: Plan)
    requires Quiet(disk, sid) && disk.identity.Present?
    ensures disk.storage.Present? && SourceStateFile in disk.Files() && disk.Files()[SourceStateFile].SourceStateDoc?
    ensures
      var files, identity, inspection := disk.Files(), disk.identity.value, Inspect(disk, sid, Declared(plan));
      var state, cycle := files[SourceStateFile].source, PlanCycle(files, inspection, identity, sid, plan);
      && GateFacts(inspection, identity)
      && ContentOf(disk, sid, plan)
         == if cycle.Err? || state.generation >= U64_MAX then NoCommit
            else Content(state, SourceState(state.instance, state.generation + 1, plan.facts),
                         cycle.value.0, cycle.value.1)
  {
    CoherentGateFacts(disk, sid, Declared(plan));
  }

  /** A cycle over a quiet store commits exactly if its plan is admissible and the generation has a successor. */
  lemma ContentIff(disk: Disk, sid: NodeId, plan: Plan)
    requires Quiet(disk, sid) && disk.identity.Present? && DistinctIds(plan.measurements)
    ensures disk.storage.Present? && SourceStateFile in disk.Files() && disk.Files()[SourceStateFile].SourceStateDoc?
    ensures ContentOf(disk, sid, plan).Content? <==>
      AdmissiblePlan(plan) && disk.Files()[SourceStateFile].source.generation < U64_MAX
  {
    ContentUnfolds(disk, sid, plan);
    PlanCycleIff(disk.Files(), Inspect(disk, sid, Declared(plan)), disk.identity.value, sid, plan);
  }

  /** The writes of a cycle's content are the planned ones. */
  lemma ContentIsPlanned(disk: Disk, sid: NodeId, plan: Plan)
    requires Quiet(disk, sid) && disk.identity.Present? && disk.storage.Present? && DistinctIds(plan.measurements)
    requires ContentOf(disk, sid, plan).Content?
    ensures
      var c, files, identity := ContentOf(disk, sid, plan), disk.Files(), disk.identity.value;
      var writes := AcquisitionWrites(files, c.next, c.planned, c.records);
      var records := RecordWrites(files, SourceOwner, sid, identity.instance, None, plan.source, plan.now);
      && PlannedWrites(files, identity, sid, plan, c.next, c.planned, c.records, writes)
      && (if plan.source.seeds == [] then c.records == [] else records == Ok(c.records))
  {
    ContentUnfolds(disk, sid, plan);
    PlanCycleSpelledOut(disk.Files(), Inspect(disk, sid, Declared(plan)), disk.identity.value, sid, plan);
    var identity := disk.identity.value;
    if plan.source.seeds != [] {
      RecordWritesSpelledOut(disk.Files(), SourceOwner, sid, identity.instance, None, plan.source, plan.now);
    }
  }

  /** And what it commits is the cycle. */
  lemma ContentIsCycle(disk: Disk, sid: NodeId, plan: Plan)
    requires Quiet(disk, sid) && disk.identity.Present? && disk.storage.Present? && DistinctIds(plan.measurements)
    requires ContentOf(disk, sid, plan).Content?
    ensures Cycled(disk, ContentDisk(disk, ContentOf(disk, sid, plan)), sid, plan)
  {
    var c, files, identity := ContentOf(disk, sid, plan), disk.Files(), disk.identity.value;
    var writes := AcquisitionWrites(files, c.next, c.planned, c.records);
    ContentIsPlanned(disk, sid, plan);
    ContentIsWritten(disk, sid, plan);
    ContentUnfolds(disk, sid, plan);
    FilesAreTaken(files, identity, sid, plan, c.next, c.planned, c.records, writes, ContentDisk(disk, c).Files());
    EntriesAreTaken(identity, plan.measurements, c.planned.additions);
  }

  lemma ContentIsWritten(disk: Disk, sid: NodeId, plan: Plan)
    requires Quiet(disk, sid) && disk.identity.Present? && disk.storage.Present? && DistinctIds(plan.measurements)
    requires ContentOf(disk, sid, plan).Content?
    ensures
      var c := ContentOf(disk, sid, plan);
      WrittenTo(disk.Files(), AcquisitionWrites(disk.Files(), c.next, c.planned, c.records),
        ContentDisk(disk, c).Files())
  {
    var c := ContentOf(disk, sid, plan);
    ContentSound(disk, sid, plan);
    CycleGoalSound(disk, sid, c.state, c.planned, IdsOf(plan.measurements), c.next,
      AcquisitionWrites(disk.Files(), c.next, c.planned, c.records));
  }

  lemma EntriesAreTaken(identity: SourceIdentity, plans: seq<MeasurementPlan>, additions: map<NodeId, InstanceId>)
    requires PlannedEntries(identity, plans, additions)
    ensures IdentityTakes(identity, Registered(identity, additions), plans)
  {
    forall j | 0 <= j < |plans| ensures plans[j].id in IdsOf(plans) {}
  }

  // ---------------------------------------------------------------- the measuring operation

  /** Staging does not matter to what a cycle takes in. */
  lemma QueueFromView(
    before: Files, after: Files, owner: Owner, offers: seq<Offer>, policy: DeliveryPolicy, now: int)
    requires QueueTakes(before, after, owner, offers, policy, now)
    ensures QueueTakes(Durable(before), after, owner, offers, policy, now)
  {
    assert (set p | p in Durable(before) && p.PendingFile? && p.owner == owner :: p.key)
      == (set p | p in before && p.PendingFile? && p.owner == owner :: p.key);
  }

  lemma TakesFromView(
    before: Files, after: Files, owner: Owner, sid: NodeId, source: InstanceId, stamp: Option<MeasurementStamp>,
    emission: Emission, now: int)
    requires EmitterTakes(before, after, owner, sid, source, stamp, emission, now)
    ensures EmitterTakes(Durable(before), after, owner, sid, source, stamp, emission, now)
  {
    if emission.policy.Some? {
      var envelopes := seq(|emission.seeds|, i requires 0 <= i < |emission.seeds| =>
        Envelope(emission.seeds[i].eventId, emission.seeds[i].kind, sid, source, stamp, emission.seeds[i].conditionId));
      QueueFromView(before, after, owner, Offers(envelopes, emission.routes), emission.policy.value, now);
    }
  }

  lemma CycledFromView(before: Disk, after: Disk, sid: NodeId, plan: Plan)
    requires Cycled(before, after, sid, plan)
    ensures Cycled(View(before), after, sid, plan)
  {
    var files, identity := before.Files(), before.identity.value;
    TakesFromView(files, after.Files(), SourceOwner, sid, identity.instance, None, plan.source, plan.now);
    forall j | 0 <= j < |plan.measurements|
      ensures MeasurementTakes(Durable(files), after.Files(), identity, sid, plan.measurements[j], plan.now)
    {
      var m := plan.measurements[j];
      assert MeasurementTakes(files, after.Files(), identity, sid, m, plan.now);
      TakesFromView(files, after.Files(), MeasurementOwner(m.id), sid, identity.instance,
        Some(MeasurementStamp(m.id, InstanceOf(identity, m))), m.emission, plan.now);
    }
  }

  /** Where a cycle starts: a source that is not there yet is initialised first. */
  ghost function CycleFrom(disk: Disk, sid: NodeId, plan: Plan): Disk
    requires Recoverable(disk, sid)
  {
    if Goal(disk, sid).identity.Absent? then FreshDisk(plan.minted) else Goal(disk, sid)
  }

  lemma StartIsFrom(disk: Disk, sid: NodeId, plan: Plan, fault: Fault)
    requires Recoverable(disk, sid) && CycleStart(disk, sid, plan, fault).outcome.Done?
    ensures
      var start := CycleStart(disk, sid, plan, fault);
      && Quiet(start.disk, sid) && start.disk.identity.Present? && start.disk.storage.Present?
      && View(start.disk) == CycleFrom(disk, sid, plan)
  {
    StartConverges(disk, sid, plan, fault);
  }

  /** The locked cycle over a quiet store: nothing, or the cycle; done exactly when it is the cycle. */
  lemma ReadyExact(disk: Disk, sid: NodeId, plan: Plan, fault: Fault)
    requires Quiet(disk, sid) && disk.identity.Present? && disk.storage.Present? && DistinctIds(plan.measurements)
    ensures
      var r := MeasureReady(disk, sid, Inspect(disk, sid, Declared(plan)), plan, fault);
      && Recoverable(r.disk, sid)
      && (Goal(r.disk, sid) == View(disk) || Cycled(View(disk), Goal(r.disk, sid), sid, plan))
      && (r.outcome.Done? ==> Cycled(View(disk), View(r.disk), sid, plan))
  {
    MeasureReadyAtomic(disk, sid, plan, fault);
    if ContentOf(disk, sid, plan).Content? {
      ContentIsCycle(disk, sid, plan);
      CycledFromView(disk, ContentDisk(disk, ContentOf(disk, sid, plan)), sid, plan);
    } else {
      NoContentFails(disk, sid, plan, fault);
    }
  }

  lemma NoContentFails(disk: Disk, sid: NodeId, plan: Plan, fault: Fault)
    requires Quiet(disk, sid) && disk.identity.Present? && disk.storage.Present?
    requires ContentOf(disk, sid, plan).NoCommit?
    ensures MeasureReady(disk, sid, Inspect(disk, sid, Declared(plan)), plan, fault).outcome == Failed
  {
    CoherentGateFacts(disk, sid, Declared(plan));
  }

  /**
    The measuring operation from any recoverable store, exactly: wherever it is cut, the source stands for what
    it stood for, for the freshly initialised source, or for the whole cycle; completed, for the cycle.
   */
  lemma MeasureExact(disk: Disk, sid: NodeId, plan: Plan, fault: Fault)
    requires Recoverable(disk, sid) && DistinctIds(plan.measurements)
    ensures
      var r, goal, from := Measure(disk, sid, plan, fault), Goal(disk, sid), CycleFrom(disk, sid, plan);
      && Recoverable(r.disk, sid)
      && (Goal(r.disk, sid) == goal || Goal(r.disk, sid) == from || Cycled(from, Goal(r.disk, sid), sid, plan))
      && (r.outcome.Done? ==> Cycled(from, View(r.disk), sid, plan))
  {
    StartConverges(disk, sid, plan, fault);
    var start := CycleStart(disk, sid, plan, fault);
    if start.outcome.Done? {
      StartIsFrom(disk, sid, plan, fault);
      ReadyExact(start.disk, sid, plan, start.fault);
    }
  }

  // ---------------------------------------------------------------- the manifest a cut cycle leaves

  lemma AcquisitionLeavesManifest(
    disk: Disk, sid: NodeId, next: SourceState, planned: Planned, sourceRecords: seq<Write>, token: nat, fault: Fault)
    requires disk.storage.Present? && disk.storage.value.commit.Absent?
    ensures
      var r := CommitAcquisition(disk, sid, next, planned, sourceRecords, token, fault).disk;
      var writes := AcquisitionWrites(disk.Files(), next, planned, sourceRecords);
      r.storage.Present?
        && (r.storage.value.commit == Present(AcquisitionManifest(sid, next, planned, writes, token))
            || r.storage.value.commit == Absent)
  {
    var writes := AcquisitionWrites(disk.Files(), next, planned, sourceRecords);
    StageWritesFrame(disk, writes, 0, token, fault);
    var staged := StageWrites(disk, writes, 0, token, fault);
    if staged.outcome.Done? {
      CommitLeavesManifest(staged.disk, sid, AcquisitionManifest(sid, next, planned, writes, token), staged.fault);
    }
  }

  /** The manifest of a planned cycle: what it touches and what it adds, by plan. */
  predicate CycleManifest(m: CommitManifest, identity: SourceIdentity, sid: NodeId, plan: Plan) {
    && m.sourceId == sid && m.sourceInstance == identity.instance && m.cause == Cause.Acquisition
    && PlannedTouches(identity, plan.measurements, m.touched)
    && PlannedEntries(identity, plan.measurements, m.additions)
  }

  lemma ContentsManifest(disk: Disk, sid: NodeId, plan: Plan)
    requires Quiet(disk, sid) && disk.identity.Present? && disk.storage.Present? && DistinctIds(plan.measurements)
    requires ContentOf(disk, sid, plan).Content?
    ensures
      var c := ContentOf(disk, sid, plan);
      var writes := AcquisitionWrites(disk.Files(), c.next, c.planned, c.records);
      CycleManifest(AcquisitionManifest(sid, c.next, c.planned, writes, plan.token), disk.identity.value, sid, plan)
  {
    ContentUnfolds(disk, sid, plan);
    CoherentGateFacts(disk, sid, Declared(plan));
    ContentIsPlanned(disk, sid, plan);
  }

  /** Cut or not, a cycle over a quiet store leaves no commit manifest but its own. */
  lemma ManifestSpelledOut(disk: Disk, sid: NodeId, plan: Plan, fault: Fault)
    requires Quiet(disk, sid) && disk.identity.Present? && disk.storage.Present? && DistinctIds(plan.measurements)
    ensures
      var r := MeasureReady(disk, sid, Inspect(disk, sid, Declared(plan)), plan, fault).disk;
      r.storage.Present?
        && (r.storage.value.commit.Present? ==>
              CycleManifest(r.storage.value.commit.value, disk.identity.value, sid, plan))
  {
    MeasureReadyIsContent(disk, sid, plan, fault);
    var c := ContentOf(disk, sid, plan);
    if c.Content? {
      ContentsManifest(disk, sid, plan);
      AcquisitionLeavesManifest(disk, sid, c.next, c.planned, c.records, plan.token, fault);
    }
  }
}
