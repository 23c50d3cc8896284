/** One acquisition cycle: what the engine plans to write, and its commit. */
module Acquisition {
  import opened Basics
  import opened Identifiers
  import opened DeliveryConfig
  import opened Outbox
  import opened StoreTypes
  import opened CommitManifests
  import opened Commit
  import opened Gate
  import opened Lineage
  import opened Recovery

  /** An event before its lineage stamps are put on. */
  datatype EventSeed = EventSeed(eventId: Digest, kind: EventKind, conditionId: Option<string>)

  /** One emitter's events of this cycle with its configured routes and policy. */
  datatype Emission = Emission(seeds: seq<EventSeed>, routes: seq<Route>, policy: Option<DeliveryPolicy>)

  datatype MeasurementPlan = MeasurementPlan(id: NodeId, facts: int, minted: InstanceId, emission: Emission)

  /**
    The outside facts of one cycle: new source and measurement facts, emitted events, minted tokens.
    A failed or not-modified fetch is a plan without measurements.
   */
  datatype Plan = Plan(facts: int, now: int, measurements: seq<MeasurementPlan>, source: Emission, minted: InstanceId,
    token: nat)

  datatype Write = Write(final: Path, prior: Option<Doc>, doc: Doc)

  function PendingKeys(files: Files, owner: Owner): set<RecordKey> {
    set p | p in files && p.PendingFile? && p.owner == owner :: p.key
  }

  function Envelopes(
    emission: Emission, sid: NodeId, source: InstanceId, stamp: Option<MeasurementStamp>): seq<Envelope>
  {
    seq(|emission.seeds|, i requires 0 <= i < |emission.seeds| =>
      Envelope(emission.seeds[i].eventId, emission.seeds[i].kind, sid, source, stamp, emission.seeds[i].conditionId))
  }

  /** The admitted records of one emitter, as installs of absent files. */
  function RecordWrites(
    files: Files, owner: Owner, sid: NodeId, source: InstanceId, stamp: Option<MeasurementStamp>, emission: Emission,
    now: int)
    : Result<seq<Write>>
  {
    var pending := PendingKeys(files, owner);
    var admission := AdmitAgainst(pending, |pending|, Envelopes(emission, sid, source, stamp), emission.routes,
      emission.policy, now);
    if admission.Err? then Err
    else Ok(Installs(owner, admission.value.records))
  }

  function Installs(owner: Owner, records: seq<DeliveryRecord>): seq<Write> {
    seq(|records|, i requires 0 <= i < |records| => Write(PendingFile(owner, records[i].Key()), None,
      RecordDoc(records[i])))
  }

  datatype Planned = Planned(
    states: seq<Write>, records: seq<Write>, touched: map<NodeId, InstanceId>, additions: map<NodeId, InstanceId>)

  /** The measurement part of a cycle; a held measurement is passed over. */
  function PlanMeasurements(
    files: Files, inspection: Inspection, identity: SourceIdentity, sid: NodeId, plans: seq<MeasurementPlan>,
    now: int): Result<Planned>
  {
    if plans == [] then Ok(Planned([], [], map[], map[]))
    else
      var front := PlanMeasurements(files, inspection, identity, sid, plans[..|plans| - 1], now);
      var last := Contribute(files, inspection, identity, sid, plans[|plans| - 1], now);
      if front.Err? || last.Err? then Err else Ok(AddContribution(front.value, last.value))
  }

  /** One measurement's part of the commit, or nothing when the gate holds it. */
  datatype Contribution = Skipped
    | Contribution(id: NodeId, first: bool, instance: InstanceId, state: Write, records: seq<Write>)

  function Contribute(
    files: Files, inspection: Inspection, identity: SourceIdentity, sid: NodeId, plan: MeasurementPlan,
    now: int): Result<Contribution>
  {
    var m := plan.id;
    var lineage := if m in inspection.measurements then inspection.measurements[m] else NeverInitialized;
    if lineage.Held? then Ok(Skipped)
    else
      var first := lineage.NeverInitialized?;
      var instance := if first then plan.minted else lineage.state.instance;
      var records := RecordWrites(files, MeasurementOwner(m), sid, identity.instance,
        Some(MeasurementStamp(m, instance)), plan.emission, now);
      if records.Err? then Err
      else
        var doc := MeasurementStateDoc(MeasurementState(identity.instance, instance, plan.facts));
        Ok(Contribution(m, first, instance, Write(MeasurementStateFile(m), Get(files, MeasurementStateFile(m)), doc),
          records.value))
  }

  function AddContribution(sofar: Planned, c: Contribution): Planned {
    if c.Skipped? then sofar
    else Planned(
      sofar.states + [c.state],
      sofar.records + c.records,
      if c.first then sofar.touched else sofar.touched[c.id := c.instance],
      if c.first then sofar.additions[c.id := c.instance] else sofar.additions)
  }

  /** `commit_acquisition` writes source state, measurement states, measurement and source records, in that order. */
  function AcquisitionWrites(files: Files, next: SourceState, planned: Planned, sourceRecords: seq<Write>): seq<Write> {
    [Write(SourceStateFile, Get(files, SourceStateFile), SourceStateDoc(next))] + planned.states + planned.records
      + sourceRecords
  }

  function WriteEntries(writes: seq<Write>, token: nat): seq<Operation> {
    seq(|writes|, i requires 0 <= i < |writes| =>
      Install(writes[i].final, StagedFile(token + i), writes[i].prior, writes[i].doc))
  }

  function StageWrites(disk: Disk, writes: seq<Write>, i: nat, token: nat, fault: Fault): (r: Run)
    requires disk.storage.Present? && i <= |writes|
    ensures r.disk.storage.Present?
    decreases |writes| - i
  {
    if i == |writes| then Finish(disk, fault)
    else
      var staged := Stage(disk, token + i, writes[i].doc, fault);
      if !staged.outcome.Done? then staged else StageWrites(staged.disk, writes, i + 1, token, staged.fault)
  }

  function AcquisitionManifest(
    sid: NodeId, next: SourceState, planned: Planned, writes: seq<Write>, token: nat): CommitManifest
  {
    CommitManifest(sid, next.instance, next.generation, planned.touched, planned.additions, Cause.Acquisition,
      WriteEntries(writes, token))
  }

  function CommitAcquisition(
    disk: Disk, sid: NodeId, next: SourceState, planned: Planned, sourceRecords: seq<Write>, token: nat, fault: Fault)
    : Run
    requires disk.storage.Present?
  {
    var writes := AcquisitionWrites(disk.Files(), next, planned, sourceRecords);
    var staged := StageWrites(disk, writes, 0, token, fault);
    if !staged.outcome.Done? then staged
    else ApplyCommit(staged.disk, sid, AcquisitionManifest(sid, next, planned, writes, token), staged.fault)
  }

  /** The whole content of one cycle's commit, or the error that stops it before anything is staged. */
  function PlanCycle(
    files: Files, inspection: Inspection, identity: SourceIdentity, sid: NodeId, plan: Plan)
    : Result<(Planned, seq<Write>)>
  {
    var planned := PlanMeasurements(files, inspection, identity, sid, plan.measurements, plan.now);
    var source := if plan.source.seeds == [] then Ok([])
                  else RecordWrites(files, SourceOwner, sid, identity.instance, None, plan.source, plan.now);
    if planned.Err? || source.Err? then Err else Ok((planned.value, source.value))
  }

  function Declared(plan: Plan): set<NodeId> {
    set i | 0 <= i < |plan.measurements| :: plan.measurements[i].id
  }

  function InitManifest(sid: NodeId, minted: InstanceId): LineageManifest {
    LineageManifest(sid, Init, None, SourceIdentity(minted, map[]))
  }

  /** The locked cycle after a ready inspection: plan, then commit the successor generation. */
  function MeasureReady(disk: Disk, sid: NodeId, inspection: Inspection, plan: Plan, fault: Fault): Run {
    if !inspection.source.ReadySource? then Finish(disk, fault)
    else if !disk.storage.Present? then Stop(disk, fault)
    else
      var identity, state := inspection.source.identity, inspection.source.state;
      var cycle := PlanCycle(disk.Files(), inspection, identity, sid, plan);
      if cycle.Err? || CheckedSucc(state.generation).None? then Stop(disk, fault)
      else
        var next := state.(generation := CheckedSucc(state.generation).value, facts := plan.facts);
        CommitAcquisition(disk, sid, next, cycle.value.0, cycle.value.1, plan.token, fault)
  }

  /** `measure_locked` with `initialize`: recover, inspect, initialise a new source, plan and commit. */
  function Measure(disk: Disk, sid: NodeId, plan: Plan, fault: Fault): Run {
    var turn := TurnEntry(disk, sid, fault);
    if !turn.run.outcome.Done? || turn.verdict != ReadyTurn then turn.run
    else
      var disk1, fault1 := turn.run.disk, turn.run.fault;
      var inspection := Inspect(disk1, sid, Declared(plan));
      if !inspection.source.NeedsInitialization? then MeasureReady(disk1, sid, inspection, plan, fault1)
      else
        var (disk2, fault2) :- ApplyTransition(disk1, sid, InitManifest(sid, plan.minted), fault1);
        MeasureReady(disk2, sid, Inspect(disk2, sid, Declared(plan)), plan, fault2)
  }

  // ---------------------------------------------------------------- what a plan writes

  predicate DistinctWrites(writes: seq<Write>) {
    forall i, j :: 0 <= i < j < |writes| ==> writes[i].final != writes[j].final
  }

  lemma DistinctConcat(a: seq<Write>, b: seq<Write>)
    requires DistinctWrites(a) && DistinctWrites(b)
    requires forall i, j :: 0 <= i < |a| && 0 <= j < |b| ==> a[i].final != b[j].final
    ensures DistinctWrites(a + b)
  {
  }

  /** One write belongs under `identity` and is guarded by what its destination holds now. */
  ghost predicate WriteFits(write: Write, files: Files, identity: SourceIdentity, sid: NodeId) {
    && write.final.Final()
    && FileFits(write.final, write.doc, identity, sid)
    && write.prior == Get(files, write.final)
    && !write.final.DeadLetterFile?
  }

  ghost predicate WritesFit(writes: seq<Write>, files: Files, identity: SourceIdentity, sid: NodeId) {
    forall i :: 0 <= i < |writes| ==> WriteFits(writes[i], files, identity, sid)
  }

  /** The stamp an emitter's events carry under `identity`. */
  predicate StampOf(owner: Owner, identity: SourceIdentity, stamp: Option<MeasurementStamp>) {
    match owner
    case SourceOwner => stamp.None?
    case MeasurementOwner(m) =>
      m in identity.measurements && stamp == Some(MeasurementStamp(m, identity.measurements[m].instance))
  }

  /** One admitted record is stamped, and new to its emitter's pending queue. */
  lemma OneRecordFits(
    files: Files, owner: Owner, sid: NodeId, identity: SourceIdentity, stamp: Option<MeasurementStamp>,
    emission: Emission,
    offer: Offer, policy: DeliveryPolicy, now: int)
    requires StampOf(owner, identity, stamp)
    requires policy.Valid() && offer.envelope.Valid()
    requires Offered(offer, Envelopes(emission, sid, identity.instance, stamp), emission.routes)
    requires offer.Key() !in PendingKeys(files, owner)
    ensures WriteFits(Write(PendingFile(owner, offer.Key()), None, RecordDoc(ToRecord(offer, policy, now))), files,
      identity, sid)
  {
    var record := ToRecord(offer, policy, now);
    assert record.Key() == offer.Key();
    assert PendingFile(owner, offer.Key()) !in files;
  }

  /** Admitted records fit, and each has its own file. */
  lemma RecordWritesFit(
    files: Files, owner: Owner, sid: NodeId, identity: SourceIdentity, stamp: Option<MeasurementStamp>,
    emission: Emission, now: int)
    requires StampOf(owner, identity, stamp)
    requires RecordWrites(files, owner, sid, identity.instance, stamp, emission, now).Ok?
    ensures
      var writes := RecordWrites(files, owner, sid, identity.instance, stamp, emission, now).value;
      && DistinctWrites(writes) && WritesFit(writes, files, identity, sid)
      && forall i :: 0 <= i < |writes| ==> writes[i].final.PendingFile? && writes[i].final.owner == owner
  {
    var pending := PendingKeys(files, owner);
    var offers := Offers(Envelopes(emission, sid, identity.instance, stamp), emission.routes);
    if emission.policy.Some? {
      UnclaimedFacts(offers, pending);
      var records := Admitted(pending, |pending|, offers, emission.policy.value, now).records;
      forall i | 0 <= i < |records|
        ensures records[i].Key() == Unclaimed(offers, pending)[i].Key()
        ensures WriteFits(Installs(owner, records)[i], files, identity, sid)
      {
        AdmittedRecordFits(files, owner, sid, identity, stamp, emission, now, i);
      }
    }
  }

  lemma AdmittedRecordFits(
    files: Files, owner: Owner, sid: NodeId, identity: SourceIdentity, stamp: Option<MeasurementStamp>,
    emission: Emission, now: int, i: nat)
    requires StampOf(owner, identity, stamp)
    requires RecordWrites(files, owner, sid, identity.instance, stamp, emission, now).Ok? && emission.policy.Some?
    requires
      var pending := PendingKeys(files, owner);
      i < |Admitted(pending, |pending|, Offers(Envelopes(emission, sid, identity.instance, stamp), emission.routes),
        emission.policy.value, now).records|
    ensures
      var pending := PendingKeys(files, owner);
      var offers := Offers(Envelopes(emission, sid, identity.instance, stamp), emission.routes);
      var records := Admitted(pending, |pending|, offers, emission.policy.value, now).records;
      && |records| <= |Unclaimed(offers, pending)| && records[i].Key() == Unclaimed(offers, pending)[i].Key()
      && WriteFits(Installs(owner, records)[i], files, identity, sid)
  {
    var pending := PendingKeys(files, owner);
    var envelopes := Envelopes(emission, sid, identity.instance, stamp);
    var offers := Offers(envelopes, emission.routes);
    UnclaimedFacts(offers, pending);
    var offer := Unclaimed(offers, pending)[i];
    OffersExact(envelopes, emission.routes, offer);
    var s :| 0 <= s < |envelopes| && envelopes[s] == offer.envelope;
    OneRecordFits(files, owner, sid, identity, stamp, emission, offer, emission.policy.value, now);
  }

  /** `to` keeps every entry of `from` and may add more. */
  predicate Extends(from: SourceIdentity, to: SourceIdentity) {
    && from.instance == to.instance
    && forall m :: m in from.measurements ==> m in to.measurements && to.measurements[m] == from.measurements[m]
  }

  lemma WritesFitExtend(writes: seq<Write>, files: Files, from: SourceIdentity, to: SourceIdentity, sid: NodeId)
    requires WritesFit(writes, files, from, sid) && Extends(from, to)
    ensures WritesFit(writes, files, to, sid)
  {
    forall i | 0 <= i < |writes| ensures WriteFits(writes[i], files, to, sid) {
      assert WriteFits(writes[i], files, from, sid);
    }
  }

  lemma WritesFitConcat(a: seq<Write>, b: seq<Write>, files: Files, identity: SourceIdentity, sid: NodeId)
    requires WritesFit(a, files, identity, sid) && WritesFit(b, files, identity, sid)
    ensures WritesFit(a + b, files, identity, sid)
  {
    forall i | 0 <= i < |a + b| ensures WriteFits((a + b)[i], files, identity, sid) {
      assert i < |a| ==> WriteFits(a[i], files, identity, sid);
      assert i >= |a| ==> WriteFits(b[i - |a|], files, identity, sid);
    }
  }

  /** What a coherent gate tells the planner about every measurement. */
  predicate GateFacts(inspection: Inspection, identity: SourceIdentity) {
    && (forall m :: m in identity.measurements ==>
          && m in inspection.measurements && inspection.measurements[m].ReadyMeasurement?
          && inspection.measurements[m].state.instance == identity.measurements[m].instance)
    && (forall m :: m in inspection.measurements && m !in identity.measurements ==>
          inspection.measurements[m].NeverInitialized?)
  }

  function IdsOf(plans: seq<MeasurementPlan>): set<NodeId> {
    set i | 0 <= i < |plans| :: plans[i].id
  }

  predicate DistinctIds(plans: seq<MeasurementPlan>) {
    forall i, j :: 0 <= i < j < |plans| ==> plans[i].id != plans[j].id
  }

  predicate StateFor(writes: seq<Write>, m: NodeId) {
    exists i :: 0 <= i < |writes| && writes[i].final == MeasurementStateFile(m)
  }

  /** The maps of a planned cycle: new entries are new, touched ones are registered, all are planned. */
  predicate PlannedMaps(identity: SourceIdentity, ids: set<NodeId>, planned: Planned) {
    && planned.additions.Keys <= ids && planned.additions.Keys !! identity.measurements.Keys
    && planned.touched.Keys <= ids
    && (forall m :: m in planned.touched ==>
          m in identity.measurements && identity.measurements[m].instance == planned.touched[m])
    && (forall m :: m in planned.additions ==> StateFor(planned.states, m))
  }

  /** Where a planned cycle writes: each measurement's state once, and only into planned outboxes. */
  predicate PlannedPlaces(ids: set<NodeId>, planned: Planned) {
    && (forall i :: 0 <= i < |planned.states| ==>
          planned.states[i].final.MeasurementStateFile? && planned.states[i].final.id in ids)
    && (forall i :: 0 <= i < |planned.records| ==>
          && planned.records[i].final.PendingFile? && planned.records[i].final.owner.MeasurementOwner?
          && planned.records[i].final.owner.id in ids)
    && DistinctWrites(planned.states) && DistinctWrites(planned.records)
  }

  ghost predicate PlannedFits(files: Files, identity: SourceIdentity, sid: NodeId, planned: Planned) {
    && WritesFit(planned.states, files, Registered(identity, planned.additions), sid)
    && WritesFit(planned.records, files, Registered(identity, planned.additions), sid)
  }

  /** A contribution stands on its own under any identity that has its entry. */
  ghost predicate ContributionFits(c: Contribution, files: Files, identity: SourceIdentity, sid: NodeId) {
    && c.Contribution?
    && c.state.final == MeasurementStateFile(c.id) && WriteFits(c.state, files, identity, sid)
    && WritesFit(c.records, files, identity, sid) && DistinctWrites(c.records)
    && forall i :: 0 <= i < |c.records| ==>
        c.records[i].final.PendingFile? && c.records[i].final.owner == MeasurementOwner(c.id)
  }

  function WithEntry(identity: SourceIdentity, c: Contribution): SourceIdentity
    requires c.Contribution?
  {
    if c.first then Registered(identity, map[c.id := c.instance]) else identity
  }

  lemma ContributeFits(
    files: Files, inspection: Inspection, identity: SourceIdentity, sid: NodeId, plan: MeasurementPlan, now: int)
    requires GateFacts(inspection, identity)
    requires Contribute(files, inspection, identity, sid, plan, now).Ok?
    ensures
      var c := Contribute(files, inspection, identity, sid, plan, now).value;
      && c.Contribution? && c.id == plan.id && (c.first <==> c.id !in identity.measurements)
      && (!c.first ==> c.instance == identity.measurements[c.id].instance)
      && ContributionFits(c, files, WithEntry(identity, c), sid)
  {
    var c := Contribute(files, inspection, identity, sid, plan, now).value;
    var wider := WithEntry(identity, c);
    RecordWritesFit(files, MeasurementOwner(plan.id), sid, wider, Some(MeasurementStamp(plan.id, c.instance)),
      plan.emission, now);
  }

  lemma AddContributionMaps(identity: SourceIdentity, ids: set<NodeId>, sofar: Planned, c: Contribution)
    requires PlannedMaps(identity, ids, sofar) && c.Contribution? && c.id !in ids
    requires c.first <==> c.id !in identity.measurements
    requires !c.first ==> c.instance == identity.measurements[c.id].instance
    requires c.state.final == MeasurementStateFile(c.id)
    ensures PlannedMaps(identity, ids + {c.id}, AddContribution(sofar, c))
  {
    var next := AddContribution(sofar, c);
    forall a | a in next.additions ensures StateFor(next.states, a) {
      if a != c.id {
        var i :| 0 <= i < |sofar.states| && sofar.states[i].final == MeasurementStateFile(a);
        assert next.states[i].final == MeasurementStateFile(a);
      } else {
        assert next.states[|sofar.states|].final == MeasurementStateFile(a);
      }
    }
  }

  lemma AddContributionPlaces(
    files: Files, identity: SourceIdentity, sid: NodeId, ids: set<NodeId>, sofar: Planned, c: Contribution)
    requires PlannedPlaces(ids, sofar) && c.Contribution? && c.id !in ids
    requires ContributionFits(c, files, identity, sid)
    ensures PlannedPlaces(ids + {c.id}, AddContribution(sofar, c))
  {
    DistinctConcat(sofar.states, [c.state]);
    DistinctConcat(sofar.records, c.records);
  }

  lemma AdditionsExtend(identity: SourceIdentity, sofar: Planned, c: Contribution)
    requires c.Contribution? && sofar.additions.Keys !! identity.measurements.Keys && c.id !in sofar.additions
    ensures
      var wider := Registered(identity, AddContribution(sofar, c).additions);
      Extends(Registered(identity, sofar.additions), wider) && Extends(WithEntry(identity, c), wider)
  {
  }

  lemma AddContributionFits(files: Files, identity: SourceIdentity, sid: NodeId, sofar: Planned, c: Contribution)
    requires PlannedFits(files, identity, sid, sofar) && sofar.additions.Keys !! identity.measurements.Keys
    requires c.Contribution? && ContributionFits(c, files, WithEntry(identity, c), sid)
    requires c.id !in sofar.additions
    ensures PlannedFits(files, identity, sid, AddContribution(sofar, c))
  {
    var narrow, own := Registered(identity, sofar.additions), WithEntry(identity, c);
    var wider := Registered(identity, AddContribution(sofar, c).additions);
    AdditionsExtend(identity, sofar, c);
    JoinFits(sofar.states, [c.state], files, narrow, own, wider, sid);
    JoinFits(sofar.records, c.records, files, narrow, own, wider, sid);
  }

  lemma JoinFits(
    a: seq<Write>, b: seq<Write>, files: Files, narrow: SourceIdentity, own: SourceIdentity, wider: SourceIdentity,
    sid: NodeId)
    requires WritesFit(a, files, narrow, sid) && WritesFit(b, files, own, sid)
    requires Extends(narrow, wider) && Extends(own, wider)
    ensures WritesFit(a + b, files, wider, sid)
  {
    WritesFitExtend(a, files, narrow, wider, sid);
    WritesFitExtend(b, files, own, wider, sid);
    WritesFitConcat(a, b, files, wider, sid);
  }

  lemma IdsOfSnoc(front: seq<MeasurementPlan>, last: MeasurementPlan)
    ensures IdsOf(front + [last]) == IdsOf(front) + {last.id}
  {
    var plans := front + [last];
    forall m | m in IdsOf(front) ensures m in IdsOf(plans) {
      var i :| 0 <= i < |front| && front[i].id == m;
      assert plans[i].id == m;
    }
    assert plans[|front|].id == last.id;
  }

  /** Everything the commit needs to know about a planned cycle. */
  ghost predicate PlannedSound(
    files: Files, identity: SourceIdentity, sid: NodeId, ids: set<NodeId>, planned: Planned)
  {
    PlannedMaps(identity, ids, planned) && PlannedPlaces(ids, planned) && PlannedFits(files, identity, sid, planned)
  }

  lemma PlanStep(
    files: Files, inspection: Inspection, identity: SourceIdentity, sid: NodeId, plan: MeasurementPlan, now: int,
    ids: set<NodeId>, sofar: Planned)
    requires GateFacts(inspection, identity) && plan.id !in ids
    requires PlannedSound(files, identity, sid, ids, sofar)
    requires Contribute(files, inspection, identity, sid, plan, now).Ok?
    ensures PlannedSound(files, identity, sid, ids + {plan.id},
              AddContribution(sofar, Contribute(files, inspection, identity, sid, plan, now).value))
  {
    var c := Contribute(files, inspection, identity, sid, plan, now).value;
    ContributeFits(files, inspection, identity, sid, plan, now);
    AddContributionMaps(identity, ids, sofar, c);
    AddContributionPlaces(files, WithEntry(identity, c), sid, ids, sofar, c);
    AddContributionFits(files, identity, sid, sofar, c);
  }

  lemma DistinctFront(front: seq<MeasurementPlan>, last: MeasurementPlan)
    requires DistinctIds(front + [last])
    ensures DistinctIds(front) && last.id !in IdsOf(front)
  {
    var plans := front + [last];
    assert plans[|front|] == last;
    assert forall i :: 0 <= i < |front| ==> plans[i] == front[i];
  }

  lemma {:induction false} PlanMeasurementsFits(
    files: Files, inspection: Inspection, identity: SourceIdentity, sid: NodeId, plans: seq<MeasurementPlan>, now: int)
    requires GateFacts(inspection, identity) && DistinctIds(plans)
    requires PlanMeasurements(files, inspection, identity, sid, plans, now).Ok?
    ensures PlannedSound(files, identity, sid, IdsOf(plans),
      PlanMeasurements(files, inspection, identity, sid, plans, now).value)
  {
    if plans == [] {
      assert PlannedSound(files, identity, sid, {}, Planned([], [], map[], map[]));
    } else {
      var front, last := plans[..|plans| - 1], plans[|plans| - 1];
      assert plans == front + [last];
      DistinctFront(front, last);
      PlanMeasurementsFits(files, inspection, identity, sid, front, now);
      IdsOfSnoc(front, last);
      PlanStep(files, inspection, identity, sid, last, now, IdsOf(front),
        PlanMeasurements(files, inspection, identity, sid, front, now).value);
    }
  }
}
