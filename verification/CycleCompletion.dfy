/** When an acquisition cycle completes: how many steps it can need, and what refuses it. */
module CycleCompletion {
  import opened Basics
  import opened Identifiers
  import opened DeliveryConfig
  import opened Outbox
  import opened StoreTypes
  import opened Gate
  import opened Recovery
  import opened Acquisition
  import opened Runs
  import opened CycleResults

  function MostRecords(emission: Emission): nat {
    |emission.seeds| * |emission.routes|
  }

  function MostWritten(plans: seq<MeasurementPlan>): nat {
    if plans == [] then 0
    else MostWritten(plans[..|plans| - 1]) + 1 + MostRecords(plans[|plans| - 1].emission)
  }

  /** No cycle of this plan writes more documents: one state each, and one record per event and route. */
  function MostWrites(plan: Plan): nat {
    1 + MostWritten(plan.measurements) + MostRecords(plan.source)
  }

  lemma {:induction false} OffersOfFew(envelope: Envelope, routes: seq<Route>)
    ensures |OffersOf(envelope, routes)| <= |routes|
  {
    if routes != [] {
      OffersOfFew(envelope, routes[..|routes| - 1]);
    }
  }

  lemma OneMoreRow(rows: nat, width: nat)
    ensures (rows + 1) * width == rows * width + width
  {
  }

  lemma {:induction false} OffersFew(envelopes: seq<Envelope>, routes: seq<Route>)
    ensures |Offers(envelopes, routes)| <= |envelopes| * |routes|
  {
    if envelopes != [] {
      OneMoreRow(|envelopes| - 1, |routes|);
      OffersFew(envelopes[..|envelopes| - 1], routes);
      OffersOfFew(envelopes[|envelopes| - 1], routes);
    }
  }

  lemma {:induction false} UnclaimedFew(offers: seq<Offer>, taken: set<RecordKey>)
    ensures |Unclaimed(offers, taken)| <= |offers|
  {
    if offers != [] {
      UnclaimedFew(offers[..|offers| - 1], taken);
    }
  }

  lemma RecordsFew(
    files: Files, owner: Owner, sid: NodeId, source: InstanceId, stamp: Option<MeasurementStamp>, emission: Emission,
    now: int)
    requires RecordWrites(files, owner, sid, source, stamp, emission, now).Ok?
    ensures |RecordWrites(files, owner, sid, source, stamp, emission, now).value| <= MostRecords(emission)
  {
    RecordWritesSpelledOut(files, owner, sid, source, stamp, emission, now);
    var offers := Offers(Envelopes(emission, sid, source, stamp), emission.routes);
    UnclaimedFew(offers, PendingKeys(files, owner));
    OffersFew(Envelopes(emission, sid, source, stamp), emission.routes);
  }

  lemma {:induction false} PlannedFew(
    files: Files, inspection: Inspection, identity: SourceIdentity, sid: NodeId, plans: seq<MeasurementPlan>, now: int)
    requires GateFacts(inspection, identity)
    requires PlanMeasurements(files, inspection, identity, sid, plans, now).Ok?
    ensures
      var planned := PlanMeasurements(files, inspection, identity, sid, plans, now).value;
      |planned.states| + |planned.records| <= MostWritten(plans)
  {
    if plans != [] {
      var front, last := plans[..|plans| - 1], plans[|plans| - 1];
      assert plans == front + [last];
      PlanUnfolds(files, inspection, identity, sid, front, last, now);
      PlannedFew(files, inspection, identity, sid, front, now);
      RecordsFew(files, MeasurementOwner(last.id), sid, identity.instance,
        Some(MeasurementStamp(last.id, InstanceOf(identity, last))), last.emission, now);
    }
  }

  lemma ContentFew(disk: Disk, sid: NodeId, plan: Plan)
    requires Quiet(disk, sid) && disk.identity.Present? && disk.storage.Present? && DistinctIds(plan.measurements)
    requires ContentOf(disk, sid, plan).Content?
    ensures
      var c := ContentOf(disk, sid, plan);
      |AcquisitionWrites(disk.Files(), c.next, c.planned, c.records)| <= MostWrites(plan)
  {
    ContentUnfolds(disk, sid, plan);
    ContentIsPlanned(disk, sid, plan);
    var identity := disk.identity.value;
    PlannedFew(disk.Files(), Inspect(disk, sid, Declared(plan)), identity, sid, plan.measurements, plan.now);
    if plan.source.seeds != [] {
      RecordsFew(disk.Files(), SourceOwner, sid, identity.instance, None, plan.source, plan.now);
    }
  }

  /** Every staging name from `token` on is unused. */
  predicate Unused(files: Files, token: nat) {
    forall p :: p in files && p.StagedFile? ==> p.token < token
  }

  lemma ReadyCompletesIff(disk: Disk, sid: NodeId, plan: Plan, fault: Fault)
    requires Quiet(disk, sid) && disk.identity.Present? && disk.storage.Present? && DistinctIds(plan.measurements)
    requires Unused(disk.Files(), plan.token) && fault.budget >= 2 * MostWrites(plan) + 3
    ensures
      var r := MeasureReady(disk, sid, Inspect(disk, sid, Declared(plan)), plan, fault);
      && SourceStateFile in disk.Files() && disk.Files()[SourceStateFile].SourceStateDoc?
      && r.outcome == if AdmissiblePlan(plan) && disk.Files()[SourceStateFile].source.generation < U64_MAX then Done
           else Failed
  {
    ContentIff(disk, sid, plan);
    if ContentOf(disk, sid, plan).Content? {
      ContentFew(disk, sid, plan);
      MeasureReadyCompletes(disk, sid, plan, fault);
    } else {
      NoContentFails(disk, sid, plan, fault);
    }
  }

  /**
    With unused staging names and steps enough, the measuring operation completes if and only if every emission of
    its plan is admissible and the generation has a successor, and is refused otherwise.
   */
  lemma MeasureCompletesIff(disk: Disk, sid: NodeId, plan: Plan, fault: Fault)
    requires Recoverable(disk, sid) && DistinctIds(plan.measurements)
    requires fault.budget >= StepBound(disk) + 8 + 2 * MostWrites(plan) + 3
    requires
      var start := CycleStart(disk, sid, plan, fault).disk;
      start.storage.Present? ==> Unused(start.Files(), plan.token)
    ensures
      var r, from := Measure(disk, sid, plan, fault), CycleFrom(disk, sid, plan);
      && from.storage.Present? && SourceStateFile in from.Files() && from.Files()[SourceStateFile].SourceStateDoc?
      && r.outcome == if AdmissiblePlan(plan) && from.Files()[SourceStateFile].source.generation < U64_MAX then Done
           else Failed
  {
    StartConverges(disk, sid, plan, fault);
    StartCompletes(disk, sid, plan, fault);
    StartIsFrom(disk, sid, plan, fault);
    var start := CycleStart(disk, sid, plan, fault);
    ReadyCompletesIff(start.disk, sid, plan, start.fault);
  }

  lemma StartCompletes(disk: Disk, sid: NodeId, plan: Plan, fault: Fault)
    requires Recoverable(disk, sid) && fault.budget >= StepBound(disk) + 8
    ensures
      var start := CycleStart(disk, sid, plan, fault);
      start.outcome == Done && start.fault.budget >= fault.budget - StepBound(disk) - 8
  {
    TurnEntryCompletes(disk, sid, fault);
    TurnEntryConverges(disk, sid, fault);
    var turn := TurnEntry(disk, sid, fault).run;
    GateDecidesCoherence(turn.disk, sid, Declared(plan));
    if turn.disk.identity.Absent? {
      InitialisationCompletes(turn.disk, sid, plan, turn.fault);
    }
  }
}
