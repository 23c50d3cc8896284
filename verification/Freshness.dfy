/**
  Where the records of a cycle come from, and what follows when its events are fresh: nothing is readmitted,
  no death meets a taken place, and the source never gets stuck.
 */
module Freshness {
  import opened Basics
  import opened Identifiers
  import opened Outbox
  import opened Delivery
  import opened StoreTypes
  import opened Gate
  import opened Recovery
  import opened Acquisition
  import opened Runs
  import opened Conservation
  import opened Ledger

  // ---------------------------------------------------------------- records come from events

  /** One of the emission's events has this id. */
  predicate SeededBy(emission: Emission, event: Digest) {
    exists i :: 0 <= i < |emission.seeds| && emission.seeds[i].eventId == event
  }

  /** Admission writes the first unclaimed offers, as many as there is room for. */
  lemma AdmitsFirstUnclaimed(
    files: Files, owner: Owner, sid: NodeId, source: InstanceId, stamp: Option<MeasurementStamp>, emission: Emission,
    now: int)
    requires emission.policy.Some? && emission.policy.value.Valid()
    requires AllEnvelopesValid(Envelopes(emission, sid, source, stamp))
    ensures
      var pending, offers := PendingKeys(files, owner),
        Offers(Envelopes(emission, sid, source, stamp), emission.routes);
      var unclaimed, writes :=
        Unclaimed(offers, pending), RecordWrites(files, owner, sid, source, stamp, emission, now);
      && writes.Ok? && |writes.value| == Min(|unclaimed|, Room(emission.policy.value, |pending|))
      && (forall i :: 0 <= i < |writes.value| ==>
            writes.value[i].final == PendingFile(owner, unclaimed[i].Key()) && writes.value[i].prior == None)
  {
  }

  /**
    Admission looks at pending records only: whatever dead letters are stored, it writes the first unclaimed
    offers, and with room enough every offered key that is not pending, retired or not.
   */
  lemma RetiredKeysAdmittedAgain(
    files: Files, owner: Owner, sid: NodeId, source: InstanceId, stamp: Option<MeasurementStamp>, emission: Emission,
    now: int)
    requires emission.policy.Some? && emission.policy.value.Valid()
    requires AllEnvelopesValid(Envelopes(emission, sid, source, stamp))
    ensures
      var pending, offers := PendingKeys(files, owner),
        Offers(Envelopes(emission, sid, source, stamp), emission.routes);
      var unclaimed, writes :=
        Unclaimed(offers, pending), RecordWrites(files, owner, sid, source, stamp, emission, now);
      && writes.Ok? && |writes.value| == Min(|unclaimed|, Room(emission.policy.value, |pending|))
      && (forall i :: 0 <= i < |writes.value| ==>
            writes.value[i].final == PendingFile(owner, unclaimed[i].Key()) && writes.value[i].prior == None)
      && (|unclaimed| <= Room(emission.policy.value, |pending|) ==>
            forall key :: key in KeysOf(offers) - pending <==> WritesKey(writes.value, owner, key))
  {
    var pending, offers := PendingKeys(files, owner), Offers(Envelopes(emission, sid, source, stamp), emission.routes);
    AdmitsFirstUnclaimed(files, owner, sid, source, stamp, emission, now);
    UnclaimedFacts(offers, pending);
    if |Unclaimed(offers, pending)| <= Room(emission.policy.value, |pending|) {
      WritesExactly(RecordWrites(files, owner, sid, source, stamp, emission, now).value, owner,
        Unclaimed(offers, pending));
    }
  }

  lemma WritesExactly(writes: seq<Write>, owner: Owner, offers: seq<Offer>)
    requires |writes| == |offers| && forall i :: 0 <= i < |writes| ==>
      writes[i].final == PendingFile(owner, offers[i].Key())
    ensures forall key :: key in KeysOf(offers) <==> WritesKey(writes, owner, key)
  {
    forall key ensures key in KeysOf(offers) <==> WritesKey(writes, owner, key) {
      if key in KeysOf(offers) {
        var i :| 0 <= i < |offers| && offers[i].Key() == key;
        assert writes[i].final == PendingFile(owner, key);
      }
      if i :| 0 <= i < |writes| && writes[i].final == PendingFile(owner, key) {
        assert offers[i].Key() == key;
      }
    }
  }

  predicate WritesKey(writes: seq<Write>, owner: Owner, key: RecordKey) {
    exists i :: 0 <= i < |writes| && writes[i].final == PendingFile(owner, key)
  }

  lemma EnvelopesAreSeeded(
    emission: Emission, sid: NodeId, source: InstanceId, stamp: Option<MeasurementStamp>, envelope: Envelope)
    requires envelope in Envelopes(emission, sid, source, stamp)
    ensures SeededBy(emission, envelope.eventId)
  {
    var envelopes := Envelopes(emission, sid, source, stamp);
    var s :| 0 <= s < |envelopes| && envelopes[s] == envelope;
    assert emission.seeds[s].eventId == envelope.eventId;
  }

  lemma RecordsFromSeeds(
    files: Files, owner: Owner, sid: NodeId, source: InstanceId, stamp: Option<MeasurementStamp>, emission: Emission,
    now: int, i: nat)
    requires RecordWrites(files, owner, sid, source, stamp, emission, now).Ok?
    requires i < |RecordWrites(files, owner, sid, source, stamp, emission, now).value|
    ensures
      var write := RecordWrites(files, owner, sid, source, stamp, emission, now).value[i];
      write.final.PendingFile? && write.final.owner == owner && SeededBy(emission, write.final.key.eventId)
  {
    var pending := PendingKeys(files, owner);
    var envelopes := Envelopes(emission, sid, source, stamp);
    var offers := Offers(envelopes, emission.routes);
    UnclaimedFacts(offers, pending);
    var offer := Unclaimed(offers, pending)[i];
    OffersExact(envelopes, emission.routes, offer);
    EnvelopesAreSeeded(emission, sid, source, stamp, offer.envelope);
  }

  /** The write installs the measurement state this plan asks for. */
  predicate StateFrom(write: Write, plan: MeasurementPlan) {
    write.final == MeasurementStateFile(plan.id) && write.doc.MeasurementStateDoc?
      && write.doc.measurement.facts == plan.facts
  }

  predicate StateFromSome(write: Write, plans: seq<MeasurementPlan>) {
    exists j :: 0 <= j < |plans| && StateFrom(write, plans[j])
  }

  /** The write installs a record of one of this plan's events. */
  predicate RecordFrom(write: Write, plan: MeasurementPlan) {
    write.final.PendingFile? && write.final.owner == MeasurementOwner(plan.id)
      && SeededBy(plan.emission, write.final.key.eventId)
  }

  /** Some plan accounts for the record, and its measurement's state is written too. */
  predicate RecordFromSome(write: Write, plans: seq<MeasurementPlan>, states: seq<Write>) {
    exists j :: 0 <= j < |plans| && RecordFrom(write, plans[j]) && StateFor(states, plans[j].id)
  }

  /** Every write of the measurement part is some plan's. */
  predicate PlannedFrom(plans: seq<MeasurementPlan>, planned: Planned) {
    && (forall i :: 0 <= i < |planned.states| ==> StateFromSome(planned.states[i], plans))
    && (forall i :: 0 <= i < |planned.records| ==> RecordFromSome(planned.records[i], plans, planned.states))
  }

  lemma FromMore(front: seq<MeasurementPlan>, last: MeasurementPlan, sofar: Planned, more: seq<Write>)
    requires PlannedFrom(front, sofar)
    requires forall i :: 0 <= i < |more| ==> StateFrom(more[i], last)
    ensures PlannedFrom(front + [last], sofar.(states := sofar.states + more))
  {
    var plans, states := front + [last], sofar.states + more;
    forall i | 0 <= i < |states| ensures StateFromSome(states[i], plans) {
      if i < |sofar.states| {
        assert StateFromSome(sofar.states[i], front);
        var j :| 0 <= j < |front| && StateFrom(sofar.states[i], front[j]);
        assert StateFrom(states[i], plans[j]);
      } else {
        assert StateFrom(states[i], plans[|front|]);
      }
    }
    forall i | 0 <= i < |sofar.records| ensures RecordFromSome(sofar.records[i], plans, states) {
      assert RecordFromSome(sofar.records[i], front, sofar.states);
      var j :| 0 <= j < |front| && RecordFrom(sofar.records[i], front[j]) && StateFor(sofar.states, front[j].id);
      var k :| 0 <= k < |sofar.states| && sofar.states[k].final == MeasurementStateFile(front[j].id);
      assert states[k] == sofar.states[k] && plans[j] == front[j];
    }
  }

  lemma ContributionFrom(
    files: Files, inspection: Inspection, identity: SourceIdentity, sid: NodeId, plan: MeasurementPlan, now: int)
    requires Contribute(files, inspection, identity, sid, plan, now).Ok?
    ensures
      var c := Contribute(files, inspection, identity, sid, plan, now).value;
      c.Contribution? ==> StateFrom(c.state, plan) && forall i :: 0 <= i < |c.records| ==>
        RecordFrom(c.records[i], plan)
  {
    var c := Contribute(files, inspection, identity, sid, plan, now).value;
    if c.Contribution? {
      forall i | 0 <= i < |c.records| ensures RecordFrom(c.records[i], plan) {
        RecordsFromSeeds(
          files, MeasurementOwner(plan.id), sid, identity.instance, Some(MeasurementStamp(plan.id, c.instance)),
            plan.emission, now, i);
      }
    }
  }

  lemma AddedFrom(front: seq<MeasurementPlan>, last: MeasurementPlan, sofar: Planned, c: Contribution)
    requires PlannedFrom(front, sofar)
    requires c.Contribution? ==> StateFrom(c.state, last) && forall i :: 0 <= i < |c.records| ==>
      RecordFrom(c.records[i], last)
    ensures PlannedFrom(front + [last], AddContribution(sofar, c))
  {
    var plans := front + [last];
    assert plans[|front|] == last;
    if c.Skipped? {
      FromMore(front, last, sofar, []);
      assert sofar.states + [] == sofar.states;
    } else {
      FromMore(front, last, sofar, [c.state]);
      var states := sofar.states + [c.state];
      assert states[|sofar.states|].final == MeasurementStateFile(last.id);
      forall i | 0 <= i < |c.records| ensures RecordFromSome(c.records[i], plans, states) {
        assert RecordFrom(c.records[i], plans[|front|]);
      }
    }
  }

  lemma {:induction false} PlanFrom(
    files: Files, inspection: Inspection, identity: SourceIdentity, sid: NodeId, plans: seq<MeasurementPlan>, now: int)
    requires PlanMeasurements(files, inspection, identity, sid, plans, now).Ok?
    ensures PlannedFrom(plans, PlanMeasurements(files, inspection, identity, sid, plans, now).value)
  {
    if plans != [] {
      var front, last := plans[..|plans| - 1], plans[|plans| - 1];
      assert plans == front + [last];
      PlanFrom(files, inspection, identity, sid, front, now);
      ContributionFrom(files, inspection, identity, sid, last, now);
      AddedFrom(front, last, PlanMeasurements(files, inspection, identity, sid, front, now).value,
        Contribute(files, inspection, identity, sid, last, now).value);
    }
  }

  /** Both parts of a cycle's content come from its plan. */
  lemma ContentFrom(disk: Disk, sid: NodeId, plan: Plan)
    requires ContentOf(disk, sid, plan).Content?
    ensures
      var c := ContentOf(disk, sid, plan);
      && PlannedFrom(plan.measurements, c.planned)
      && forall i :: 0 <= i < |c.records| ==>
           c.records[i].final.PendingFile? && c.records[i].final.owner == SourceOwner
             && SeededBy(plan.source, c.records[i].final.key.eventId)
  {
    var c, inspection := ContentOf(disk, sid, plan), Inspect(disk, sid, Declared(plan));
    var identity := inspection.source.identity;
    PlanFrom(disk.Files(), inspection, identity, sid, plan.measurements, plan.now);
    forall i | 0 <= i < |c.records|
      ensures c.records[i].final.PendingFile? && c.records[i].final.owner == SourceOwner
        && SeededBy(plan.source, c.records[i].final.key.eventId)
    {
      RecordsFromSeeds(disk.Files(), SourceOwner, sid, identity.instance, None, plan.source, plan.now, i);
    }
  }

  /** The plan has an event with the key's id, for the key's emitter. */
  predicate Foreseen(plan: Plan, ref: Ref) {
    match ref.owner
    case SourceOwner => SeededBy(plan.source, ref.key.eventId)
    case MeasurementOwner(m) => exists j :: 0 <= j < |plan.measurements| && ForeseenBy(plan.measurements[j], m, ref)
  }

  predicate ForeseenBy(plan: MeasurementPlan, m: NodeId, ref: Ref) {
    plan.id == m && SeededBy(plan.emission, ref.key.eventId)
  }

  /** A cycle's admitted keys are those of its two record parts. */
  lemma RefsOfParts(files: Files, next: SourceState, planned: Planned, sourceRecords: seq<Write>, ref: Ref)
    requires ref in Refs(AcquisitionWrites(files, next, planned, sourceRecords))
    ensures WritesKey(planned.states, ref.owner, ref.key) || WritesKey(planned.records, ref.owner, ref.key)
      || WritesKey(sourceRecords, ref.owner, ref.key)
  {
    var writes, heads, body :=
      AcquisitionWrites(files, next, planned, sourceRecords), 1 + |planned.states|, |planned.records|;
    var i :| 0 <= i < |writes| && writes[i].final == PendingFile(ref.owner, ref.key);
    assert i >= heads + body ==> writes[i] == sourceRecords[i - heads - body];
    assert heads <= i < heads + body ==> writes[i] == planned.records[i - heads];
    assert 0 < i < heads ==> writes[i] == planned.states[i - 1];
  }

  lemma RecordIsForeseen(plan: Plan, planned: Planned, ref: Ref)
    requires PlannedFrom(plan.measurements, planned) && WritesKey(planned.records, ref.owner, ref.key)
    ensures Foreseen(plan, ref) && ref.owner.MeasurementOwner? && StateFor(planned.states, ref.owner.id)
  {
    var i :| 0 <= i < |planned.records| && planned.records[i].final == PendingFile(ref.owner, ref.key);
    assert RecordFromSome(planned.records[i], plan.measurements, planned.states);
    var j :| 0 <= j < |plan.measurements| && RecordFrom(planned.records[i], plan.measurements[j])
      && StateFor(planned.states, plan.measurements[j].id);
    assert ForeseenBy(plan.measurements[j], ref.owner.id, ref);
  }

  lemma StatesHoldNoRecord(plans: seq<MeasurementPlan>, planned: Planned, owner: Owner, key: RecordKey)
    requires PlannedFrom(plans, planned)
    ensures !WritesKey(planned.states, owner, key)
  {
    forall i | 0 <= i < |planned.states| ensures planned.states[i].final.MeasurementStateFile? {
      assert StateFromSome(planned.states[i], plans);
    }
  }

  /** Every record a cycle admits is foreseen, and a measurement's record comes with that measurement's state. */
  lemma AdmittedIsForeseen(disk: Disk, sid: NodeId, plan: Plan, ref: Ref)
    requires ContentOf(disk, sid, plan).Content? && disk.storage.Present?
    requires ref in Refs(ContentWrites(disk, ContentOf(disk, sid, plan)))
    ensures Foreseen(plan, ref)
    ensures ref.owner.MeasurementOwner? ==> StateFor(ContentOf(disk, sid, plan).planned.states, ref.owner.id)
  {
    var c := ContentOf(disk, sid, plan);
    ContentFrom(disk, sid, plan);
    RefsOfParts(disk.Files(), c.next, c.planned, c.records, ref);
    StatesHoldNoRecord(plan.measurements, c.planned, ref.owner, ref.key);
    if WritesKey(c.planned.records, ref.owner, ref.key) {
      RecordIsForeseen(plan, c.planned, ref);
    } else {
      var i :| 0 <= i < |c.records| && c.records[i].final == PendingFile(ref.owner, ref.key);
      assert SeededBy(plan.source, c.records[i].final.key.eventId);
    }
  }

  // ---------------------------------------------------------------- fresh events

  /** None of the emission's events was admitted for this emitter before. */
  predicate FreshSeeds(book: Book, owner: Owner, emission: Emission) {
    forall ref :: ref in book.admitted && ref.owner == owner ==> !SeededBy(emission, ref.key.eventId)
  }

  /** No event of the plan was ever admitted in this lineage. */
  predicate FreshEvents(book: Book, plan: Plan) {
    && FreshSeeds(book, SourceOwner, plan.source)
    && forall j :: 0 <= j < |plan.measurements| ==>
        FreshSeeds(book, MeasurementOwner(plan.measurements[j].id), plan.measurements[j].emission)
  }

  /** No dead letter of the emitter is stored for any of the emission's events. */
  predicate NoRetiredKey(files: Files, owner: Owner, emission: Emission) {
    forall p :: p in files && p.DeadLetterFile? && p.owner == owner ==> !SeededBy(emission, p.key.eventId)
  }

  lemma FreshSeedsRetireNothing(book: Book, files: Files, owner: Owner, emission: Emission)
    requires FreshSeeds(book, owner, emission) && forall ref :: Agrees(book, files, ref)
    ensures NoRetiredKey(files, owner, emission)
  {
    forall p | p in files && p.DeadLetterFile? && p.owner == owner ensures !SeededBy(emission, p.key.eventId) {
      assert Agrees(book, files, Ref(owner, p.key));
    }
  }

  /** The plan names no key whose dead letter is stored where the cycle starts. */
  predicate RetiresNothing(files: Files, plan: Plan) {
    && NoRetiredKey(files, SourceOwner, plan.source)
    && forall j :: 0 <= j < |plan.measurements| ==>
        NoRetiredKey(files, MeasurementOwner(plan.measurements[j].id), plan.measurements[j].emission)
  }

  lemma ForeseenIsNotRetired(files: Files, plan: Plan, ref: Ref)
    requires RetiresNothing(files, plan) && Foreseen(plan, ref)
    ensures !HasLetter(files, ref)
  {
    if ref.owner.MeasurementOwner? {
      var j :| 0 <= j < |plan.measurements| && ForeseenBy(plan.measurements[j], ref.owner.id, ref);
      assert NoRetiredKey(files, ref.owner, plan.measurements[j].emission);
    }
  }

  /** Fresh events readmit nothing. */
  lemma FreshCycleReadmitsNothing(book: Book, disk: Disk, sid: NodeId, plan: Plan, fault: Fault, ref: Ref)
    requires FreshEvents(book, plan)
    requires
      var start := CycleStart(disk, sid, plan, fault);
      start.outcome.Done? && start.disk.storage.Present? ==> forall r :: Agrees(book, start.disk.Files(), r)
    ensures !Readmits(disk, sid, Acquire(plan), fault, ref)
  {
    if Readmits(disk, sid, Acquire(plan), fault, ref) {
      var start := CycleStart(disk, sid, plan, fault);
      FreshSeedsRetireNothing(book, start.disk.Files(), SourceOwner, plan.source);
      forall j | 0 <= j < |plan.measurements|
        ensures NoRetiredKey(start.disk.Files(), MeasurementOwner(plan.measurements[j].id),
          plan.measurements[j].emission)
      {
        FreshSeedsRetireNothing(book, start.disk.Files(), MeasurementOwner(plan.measurements[j].id),
          plan.measurements[j].emission);
      }
      AdmittedIsForeseen(start.disk, sid, plan, ref);
      ForeseenIsNotRetired(start.disk.Files(), plan, ref);
    }
  }

  // ---------------------------------------------------------------- no readmission, no collision

  /** A record whose key is in one place finds its dead-letter place free. */
  lemma SingleNeverCollides(
    book: Book, disk: Disk, sid: NodeId, owner: Owner, key: RecordKey, facts: AttemptFacts, token: nat, fault: Fault)
    requires Recoverable(disk, sid) && InOnePlace(book, Standing(disk, sid), Ref(owner, key))
    ensures !DrainCollides(disk, sid, owner, key, facts, token, fault)
  {
    if DrainCollides(disk, sid, owner, key, facts, token, fault) {
      TurnEntryConverges(disk, sid, fault);
      var before := TurnEntry(disk, sid, fault).run.disk;
      AttemptSound(before, sid, owner, key, facts);
      QuietHolds(before, sid, Ref(owner, key));
    }
  }

  lemma {:induction false} NoReadmissionNoCollision(book: Book, disk: Disk, sid: NodeId, steps: seq<(Action, Fault)>)
    requires Recoverable(disk, sid) && AllProper(steps) && OneLineage(steps)
    requires forall ref :: Booked(book, Standing(disk, sid), ref, true)
    requires forall ref :: NeverReadmits(disk, sid, steps, ref)
    ensures !Collided(disk, sid, steps)
    decreases |steps|
  {
    if steps != [] {
      var action, fault := steps[0].0, steps[0].1;
      var posted, next := Post(book, disk, sid, action, fault), Perform(disk, sid, action, fault).disk;
      if action.Deliver? {
        assert Booked(book, Standing(disk, sid), Ref(action.owner, action.key), true);
        SingleNeverCollides(book, disk, sid, action.owner, action.key, action.facts, action.token, fault);
      }
      StepKeepsRecoverable(disk, sid, action, fault);
      forall ref ensures Booked(posted, Standing(next, sid), ref, true) && NeverReadmits(next, sid, steps[1..], ref) {
        assert Booked(book, Standing(disk, sid), ref, true) && NeverReadmits(disk, sid, steps, ref);
        StepBooks(book, disk, sid, action, fault, ref, true);
      }
      NoReadmissionNoCollision(posted, next, sid, steps[1..]);
    }
  }

  /**
    A run that readmits no key over its dead letter is never stuck: every uninterrupted turn entry is
    ready, and every admitted key is acknowledged, pending or dead-lettered, in exactly one place.
   */
  lemma WithoutReadmissionAlwaysReady(sid: NodeId, steps: seq<(Action, Fault)>, fault: Fault)
    requires AllProper(steps) && OneLineage(steps) && forall ref :: NeverReadmits(NewSource, sid, steps, ref)
    ensures
      var turn := TurnEntry(AfterAll(NewSource, sid, steps), sid, fault);
      && !Collided(NewSource, sid, steps)
      && (turn.run.outcome.Done? ==>
            && turn.verdict == ReadyTurn
            && forall ref :: Booked(BookOf(sid, steps), FilesOf(turn.run.disk), ref, true))
  {
    assert Quiet(NewSource, sid);
    NoReadmissionNoCollision(Book({}, {}), NewSource, sid, steps);
    ReadyIffNothingCollided(sid, steps, fault);
    var turn := TurnEntry(AfterAll(NewSource, sid, steps), sid, fault);
    if turn.run.outcome.Done? {
      forall ref ensures Booked(BookOf(sid, steps), FilesOf(turn.run.disk), ref, true) {
        assert NeverReadmits(NewSource, sid, steps, ref);
        RecordConservation(sid, steps, fault, ref);
      }
    }
  }
}
