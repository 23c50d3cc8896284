/**
  Whole runs whose cycles plan what the emitters' state machines give out. The counters live in the committed
  state documents, so a cut cycle moves neither them nor the book: no event is ever admitted twice.
 */
module EngineRuns {
  import opened Basics
  import opened Identifiers
  import opened Outbox
  import opened Delivery
  import opened StoreTypes
  import opened Gate
  import opened Lineage
  import opened Recovery
  import opened Operations
  import opened Acquisition
  import opened Cycle
  import opened Resets
  import opened Runs
  import opened Conservation
  import opened Ledger
  import opened Generations
  import opened Freshness
  import E = Episodes
  import opened Emitters

  /**
    How the engine reads an emitter's counters from the facts of a state document, how it names an emitter's
    events, and when each emitter escalates. `keys` are the event keys that the run gives out.
   */
  datatype Engine = Engine(read: int -> Emitter, id: (Owner, EventKey) -> Digest, threshold: Owner -> nat,
    keys: set<EventKey>) {
    /** A fresh document reads as a new emitter, and no two keys of one emitter in the run share a digest. */
    ghost predicate Sound() {
      read(0) == NEW_EMITTER && forall o, a, b :: a in keys && b in keys && id(o, a) == id(o, b) ==> a == b
    }
  }

  function ScopeOf(owner: Owner): E.EmitterScope {
    if owner.SourceOwner? then E.SourceScope else E.MeasurementScope
  }

  /** The emitter as the stored state document has it. */
  function EmitterOf(engine: Engine, files: Files, owner: Owner): Emitter {
    match owner
    case SourceOwner =>
      var state := ReadSourceState(files);
      if state.Present? then engine.read(state.value.facts) else NEW_EMITTER
    case MeasurementOwner(m) =>
      var state := ReadMeasurementState(files, m);
      if state.Present? then engine.read(state.value.facts) else NEW_EMITTER
  }

  predicate ValidEmitter(engine: Engine, files: Files, owner: Owner) {
    EmitterOf(engine, files, owner).episodes.Valid(ScopeOf(owner))
  }

  /** The planned facts are the changed counters, and the planned events are the ones the change gives out. */
  predicate Follows(engine: Engine, files: Files, owner: Owner, facts: int, emission: Emission, change: Change) {
    var given := GivenOut(EmitterOf(engine, files, owner), ScopeOf(owner), change);
    && UnderThreshold(change, engine.threshold(owner))
    && engine.read(facts) == Moved(EmitterOf(engine, files, owner), ScopeOf(owner), change)
    && |emission.seeds| == |given|
    && forall i :: 0 <= i < |given| ==>
        given[i] in engine.keys && emission.seeds[i].eventId == engine.id(owner, given[i])
  }

  ghost predicate FollowsSome(engine: Engine, files: Files, owner: Owner, facts: int, emission: Emission) {
    exists change :: Follows(engine, files, owner, facts, emission, change)
  }

  /** The cycle's plan is what its emitters do. */
  ghost predicate PlanFollows(engine: Engine, files: Files, plan: Plan) {
    && FollowsSome(engine, files, SourceOwner, plan.facts, plan.source)
    && forall j :: 0 <= j < |plan.measurements| ==> MeasurementFollows(engine, files, plan.measurements[j])
  }

  ghost predicate MeasurementFollows(engine: Engine, files: Files, plan: MeasurementPlan) {
    FollowsSome(engine, files, MeasurementOwner(plan.id), plan.facts, plan.emission)
  }

  predicate SpentAs(engine: Engine, files: Files, ref: Ref, key: EventKey) {
    && key in engine.keys && engine.id(ref.owner, key) == ref.key.eventId
    && Spent(EmitterOf(engine, files, ref.owner), engine.threshold(ref.owner), key)
  }

  /** The stored emitter is past the key's event. */
  ghost predicate Past(engine: Engine, files: Files, ref: Ref) {
    exists key :: SpentAs(engine, files, ref, key)
  }

  ghost predicate Accounted(engine: Engine, book: Book, files: Files, ref: Ref) {
    ref in book.admitted ==> Past(engine, files, ref)
  }

  /** The files say the same about every emitter. */
  ghost predicate SameEmitters(engine: Engine, a: Files, b: Files) {
    forall owner :: EmitterOf(engine, a, owner) == EmitterOf(engine, b, owner)
  }

  /** Every emitter is valid and past the events of all it admitted. */
  ghost predicate AllAccounted(engine: Engine, book: Book, files: Files) {
    (forall ref :: Accounted(engine, book, files, ref)) && (forall owner :: ValidEmitter(engine, files, owner))
  }

  lemma SameAccounted(engine: Engine, book: Book, a: Files, b: Files)
    requires AllAccounted(engine, book, a) && SameEmitters(engine, a, b)
    ensures AllAccounted(engine, book, b)
  {
    forall ref ensures Accounted(engine, book, b, ref) {
      assert Accounted(engine, book, a, ref);
      if ref in book.admitted {
        assert Past(engine, a, ref);
        var key :| SpentAs(engine, a, ref, key);
        assert SpentAs(engine, b, ref, key);
      }
    }
    forall owner ensures ValidEmitter(engine, b, owner) {
      assert ValidEmitter(engine, a, owner);
    }
  }

  // ---------------------------------------------------------------- the next events are new

  lemma FollowingSeedsAreFresh(engine: Engine, book: Book, files: Files, owner: Owner, facts: int, emission: Emission)
    requires engine.Sound() && AllAccounted(engine, book, files) && FollowsSome(engine, files, owner, facts, emission)
    ensures FreshSeeds(book, owner, emission)
  {
    var change :| Follows(engine, files, owner, facts, emission, change);
    var e, given := EmitterOf(engine, files, owner), GivenOut(EmitterOf(engine, files, owner), ScopeOf(owner), change);
    forall ref | ref in book.admitted && ref.owner == owner ensures !SeededBy(emission, ref.key.eventId) {
      if i :| 0 <= i < |emission.seeds| && emission.seeds[i].eventId == ref.key.eventId {
        assert Accounted(engine, book, files, ref) && Past(engine, files, ref);
        var key :| SpentAs(engine, files, ref, key);
        assert engine.id(owner, key) == engine.id(owner, given[i]);
        assert ValidEmitter(engine, files, owner);
        ChangeSpends(e, ScopeOf(owner), change, engine.threshold(owner), given[i]);
      }
    }
  }

  /** Under fixed thresholds the next cycle's events were never admitted before. */
  lemma FollowingIsFresh(engine: Engine, book: Book, files: Files, plan: Plan)
    requires engine.Sound() && AllAccounted(engine, book, files) && PlanFollows(engine, files, plan)
    ensures FreshEvents(book, plan)
  {
    FollowingSeedsAreFresh(engine, book, files, SourceOwner, plan.facts, plan.source);
    forall j | 0 <= j < |plan.measurements|
      ensures FreshSeeds(book, MeasurementOwner(plan.measurements[j].id), plan.measurements[j].emission)
    {
      assert MeasurementFollows(engine, files, plan.measurements[j]);
      FollowingSeedsAreFresh(engine, book, files, MeasurementOwner(plan.measurements[j].id), plan.measurements[j].facts,
        plan.measurements[j].emission);
    }
  }

  // ---------------------------------------------------------------- what a committed cycle does to the emitters

  /** The emitter took its planned change. */
  predicate TookFacts(engine: Engine, after: Files, owner: Owner, plan: Plan) {
    match owner
    case SourceOwner => EmitterOf(engine, after, owner) == engine.read(plan.facts)
    case MeasurementOwner(m) =>
      exists j :: 0 <= j < |plan.measurements| && TookPlan(engine, after, m, plan.measurements[j])
  }

  predicate TookPlan(engine: Engine, after: Files, m: NodeId, plan: MeasurementPlan) {
    plan.id == m && EmitterOf(engine, after, MeasurementOwner(m)) == engine.read(plan.facts)
  }

  /**
    Over a committed cycle an emitter takes its planned change or stays as it was, and it takes it if it
    admits anything.
   */
  lemma ContentMovesEmitter(engine: Engine, disk: Disk, sid: NodeId, plan: Plan, owner: Owner)
    requires Quiet(disk, sid) && disk.identity.Present? && disk.storage.Present? && DistinctIds(plan.measurements)
    requires ContentOf(disk, sid, plan).Content?
    ensures
      var c := ContentOf(disk, sid, plan);
      var after := ContentDisk(disk, c).Files();
      if owner.SourceOwner? || StateFor(c.planned.states, owner.id) then TookFacts(engine, after, owner, plan)
      else EmitterOf(engine, after, owner) == EmitterOf(engine, disk.Files(), owner)
  {
    var c := ContentOf(disk, sid, plan);
    var writes, after := ContentWrites(disk, c), ContentDisk(disk, c).Files();
    ContentSound(disk, sid, plan);
    CycleGoalSound(disk, sid, c.state, c.planned, IdsOf(plan.measurements), c.next, writes);
    assert Get(after, writes[0].final) == Some(writes[0].doc);
    if owner.MeasurementOwner? {
      StateMoves(engine, disk, sid, plan, c, writes, after, owner.id);
    }
  }

  lemma SameEmitter(engine: Engine, a: Files, b: Files, owner: Owner)
    requires owner.SourceOwner? ==> Get(a, SourceStateFile) == Get(b, SourceStateFile)
    requires owner.MeasurementOwner? ==>
      Get(a, MeasurementStateFile(owner.id)) == Get(b, MeasurementStateFile(owner.id))
    ensures EmitterOf(engine, a, owner) == EmitterOf(engine, b, owner)
  {
  }

  lemma StateMoves(
    engine: Engine, disk: Disk, sid: NodeId, plan: Plan, c: Content, writes: seq<Write>, after: Files, m: NodeId)
    requires disk.storage.Present? && c == ContentOf(disk, sid, plan) && c.Content? && writes == ContentWrites(disk, c)
    requires WrittenTo(disk.Files(), writes, after)
    ensures
      if StateFor(c.planned.states, m) then TookFacts(engine, after, MeasurementOwner(m), plan)
      else EmitterOf(engine, after, MeasurementOwner(m)) == EmitterOf(engine, disk.Files(), MeasurementOwner(m))
  {
    ContentFrom(disk, sid, plan);
    if StateFor(c.planned.states, m) {
      StateTaken(engine, disk.Files(), plan, c, writes, after, m);
    } else {
      StateUnwritten(disk, plan, c, writes, m);
      assert Get(after, MeasurementStateFile(m)) == Get(disk.Files(), MeasurementStateFile(m));
      SameEmitter(engine, after, disk.Files(), MeasurementOwner(m));
    }
  }

  lemma StateTaken(engine: Engine, files: Files, plan: Plan, c: Content, writes: seq<Write>, after: Files, m: NodeId)
    requires c.Content? && writes == AcquisitionWrites(files, c.next, c.planned, c.records)
      && PlannedFrom(plan.measurements, c.planned)
    requires WrittenTo(files, writes, after) && StateFor(c.planned.states, m)
    ensures TookFacts(engine, after, MeasurementOwner(m), plan)
  {
    var states := c.planned.states;
    var i :| 0 <= i < |states| && states[i].final == MeasurementStateFile(m);
    StateIsWritten(files, c, i);
    assert StateFromSome(states[i], plan.measurements);
    var j :| 0 <= j < |plan.measurements| && StateFrom(states[i], plan.measurements[j]);
    assert Get(after, writes[1 + i].final) == Some(states[i].doc);
    assert TookPlan(engine, after, m, plan.measurements[j]);
  }

  /** A cycle's state documents follow the source's own among its writes. */
  lemma StateIsWritten(files: Files, c: Content, i: nat)
    requires c.Content? && i < |c.planned.states|
    ensures
      var writes := AcquisitionWrites(files, c.next, c.planned, c.records);
      1 + i < |writes| && writes[1 + i] == c.planned.states[i]
  {
  }

  lemma StateUnwritten(disk: Disk, plan: Plan, c: Content, writes: seq<Write>, m: NodeId)
    requires disk.storage.Present? && c.Content? && writes == ContentWrites(disk, c)
    requires PlannedFrom(plan.measurements, c.planned) && !StateFor(c.planned.states, m)
    requires forall i :: 0 <= i < |c.records| ==> c.records[i].final.PendingFile?
    ensures forall i :: 0 <= i < |writes| ==> writes[i].final != MeasurementStateFile(m)
  {
    var states, records := c.planned.states, c.planned.records;
    forall i | 0 <= i < |writes| ensures writes[i].final != MeasurementStateFile(m) {
      if 0 < i <= |states| {
        assert writes[i] == states[i - 1];
      } else if |states| < i <= |states| + |records| {
        assert writes[i] == records[i - 1 - |states|];
        assert RecordFromSome(records[i - 1 - |states|], plan.measurements, states);
      } else if |states| + |records| < i {
        assert writes[i] == c.records[i - 1 - |states| - |records|];
      }
    }
  }

  /** An emitter that takes its change stays valid, stays past its old events, and is past the new ones. */
  lemma EmitterTakes(engine: Engine, files: Files, after: Files, facts: int, emission: Emission, ref: Ref)
    requires ValidEmitter(engine, files, ref.owner) && FollowsSome(engine, files, ref.owner, facts, emission)
    requires EmitterOf(engine, after, ref.owner) == engine.read(facts)
    ensures ValidEmitter(engine, after, ref.owner)
    ensures Past(engine, files, ref) || SeededBy(emission, ref.key.eventId) ==> Past(engine, after, ref)
  {
    var owner := ref.owner;
    var change :| Follows(engine, files, owner, facts, emission, change);
    var e, given := EmitterOf(engine, files, owner), GivenOut(EmitterOf(engine, files, owner), ScopeOf(owner), change);
    ChangeSpends(e, ScopeOf(owner), change, engine.threshold(owner), Initialised(0));
    if Past(engine, files, ref) {
      var key :| SpentAs(engine, files, ref, key);
      ChangeSpends(e, ScopeOf(owner), change, engine.threshold(owner), key);
      assert SpentAs(engine, after, ref, key);
    } else if SeededBy(emission, ref.key.eventId) {
      var i :| 0 <= i < |emission.seeds| && emission.seeds[i].eventId == ref.key.eventId;
      ChangeSpends(e, ScopeOf(owner), change, engine.threshold(owner), given[i]);
      assert SpentAs(engine, after, ref, given[i]);
    }
  }

  lemma MeasurementTakes(engine: Engine, files: Files, after: Files, plan: Plan, m: NodeId, ref: Ref)
    requires DistinctIds(plan.measurements) && PlanFollows(engine, files, plan) && ref.owner == MeasurementOwner(m)
    requires ValidEmitter(engine, files, ref.owner) && TookFacts(engine, after, ref.owner, plan)
    ensures ValidEmitter(engine, after, ref.owner)
    ensures Past(engine, files, ref) || Foreseen(plan, ref) ==> Past(engine, after, ref)
  {
    var j :| 0 <= j < |plan.measurements| && TookPlan(engine, after, m, plan.measurements[j]);
    assert MeasurementFollows(engine, files, plan.measurements[j]);
    EmitterTakes(engine, files, after, plan.measurements[j].facts, plan.measurements[j].emission, ref);
    if Foreseen(plan, ref) {
      var k :| 0 <= k < |plan.measurements| && ForeseenBy(plan.measurements[k], m, ref);
      assert k == j;
    }
  }

  /** The key's emitter stays valid, past what it was past, and is past the key if it is among the admitted ones. */
  ghost predicate Takes(engine: Engine, files: Files, after: Files, refs: set<Ref>, ref: Ref) {
    ValidEmitter(engine, after, ref.owner) && (Past(engine, files, ref) || ref in refs ==> Past(engine, after, ref))
  }

  lemma CycleTakes(engine: Engine, disk: Disk, sid: NodeId, plan: Plan, ref: Ref)
    requires Quiet(disk, sid) && disk.identity.Present? && disk.storage.Present? && DistinctIds(plan.measurements)
    requires ContentOf(disk, sid, plan).Content? && PlanFollows(engine, disk.Files(), plan)
      && ValidEmitter(engine, disk.Files(), ref.owner)
    ensures
      var c := ContentOf(disk, sid, plan);
      var after := ContentDisk(disk, c).Files();
      Takes(engine, disk.Files(), after, Refs(ContentWrites(disk, c)), ref)
  {
    var files, c := disk.Files(), ContentOf(disk, sid, plan);
    var after := ContentDisk(disk, c).Files();
    ContentMovesEmitter(engine, disk, sid, plan, ref.owner);
    if ref in Refs(ContentWrites(disk, c)) {
      AdmittedIsForeseen(disk, sid, plan, ref);
    }
    if ref.owner.SourceOwner? {
      EmitterTakes(engine, files, after, plan.facts, plan.source, ref);
    } else if StateFor(c.planned.states, ref.owner.id) {
      MeasurementTakes(engine, files, after, plan, ref.owner.id, ref);
    } else {
      EmitterStays(engine, files, after, ref);
    }
  }

  lemma EmitterStays(engine: Engine, files: Files, after: Files, ref: Ref)
    requires ValidEmitter(engine, files, ref.owner)
      && EmitterOf(engine, after, ref.owner) == EmitterOf(engine, files, ref.owner)
    ensures ValidEmitter(engine, after, ref.owner)
    ensures Past(engine, files, ref) ==> Past(engine, after, ref)
  {
    if Past(engine, files, ref) {
      var key :| SpentAs(engine, files, ref, key);
      assert SpentAs(engine, after, ref, key);
    }
  }

  /** A committed cycle keeps every emitter past everything it admitted, the new records included. */
  lemma ContentAccounts(engine: Engine, book: Book, disk: Disk, sid: NodeId, plan: Plan)
    requires Quiet(disk, sid) && disk.identity.Present? && disk.storage.Present? && DistinctIds(plan.measurements)
    requires ContentOf(disk, sid, plan).Content? && PlanFollows(engine, disk.Files(), plan)
      && AllAccounted(engine, book, disk.Files())
    ensures
      var c := ContentOf(disk, sid, plan);
      AllAccounted(engine, Ledger.Admit(book, Refs(ContentWrites(disk, c))), ContentDisk(disk, c).Files())
  {
    var c := ContentOf(disk, sid, plan);
    var after := ContentDisk(disk, c).Files();
    forall ref ensures Takes(engine, disk.Files(), after, Refs(ContentWrites(disk, c)), ref) {
      assert ValidEmitter(engine, disk.Files(), ref.owner);
      CycleTakes(engine, disk, sid, plan, ref);
    }
    TakenIsAccounted(engine, book, Refs(ContentWrites(disk, c)), disk.Files(), after);
  }

  lemma TakenIsAccounted(engine: Engine, book: Book, refs: set<Ref>, files: Files, after: Files)
    requires AllAccounted(engine, book, files) && forall ref :: Takes(engine, files, after, refs, ref)
    ensures AllAccounted(engine, Ledger.Admit(book, refs), after)
  {
    forall ref ensures Accounted(engine, Ledger.Admit(book, refs), after, ref) {
      assert Takes(engine, files, after, refs, ref) && Accounted(engine, book, files, ref);
    }
    forall owner ensures ValidEmitter(engine, after, owner) {
      assert Takes(engine, files, after, refs, Ref(owner, RecordKey(seq(64, _ => 'a'), "a")));
    }
  }

  // ---------------------------------------------------------------- the other steps

  lemma ViewEmitters(engine: Engine, disk: Disk)
    ensures SameEmitters(engine, FilesOf(disk), FilesOf(View(disk)))
  {
    forall owner ensures EmitterOf(engine, FilesOf(disk), owner) == EmitterOf(engine, FilesOf(View(disk)), owner) {
      SameEmitter(engine, FilesOf(disk), FilesOf(View(disk)), owner);
    }
  }

  /** A delivery outcome moves the generation and no counter. */
  lemma OutcomeEmitters(
    engine: Engine, files: Files, owner: Owner, key: RecordKey, state: SourceState, execution: Execution)
    requires ReadSourceState(files) == Present(state)
    ensures SameEmitters(engine, files, OutcomeFiles(files, owner, key, Advanced(state), execution))
  {
    var after := OutcomeFiles(files, owner, key, Advanced(state), execution);
    forall o ensures EmitterOf(engine, files, o) == EmitterOf(engine, after, o) {
      if o.MeasurementOwner? {
        SameEmitter(engine, files, after, o);
      }
    }
  }

  /** A source that has no identity yet and one just initialised have new emitters. */
  lemma FreshEmitters(engine: Engine, disk: Disk, sid: NodeId, minted: InstanceId)
    requires engine.Sound() && Recoverable(disk, sid) && Goal(disk, sid).identity.Absent?
    ensures SameEmitters(engine, FilesOf(Goal(disk, sid)), FilesOf(FreshDisk(minted)))
  {
    GoalIsQuiet(disk, sid);
  }

  /** A measurement reset renews that measurement's emitter; the book forgets what it admitted. */
  lemma ResetAccounts(engine: Engine, book: Book, files: Files, m: NodeId, target: SourceIdentity)
    requires engine.Sound() && AllAccounted(engine, book, files) && m in target.measurements
    ensures AllAccounted(engine, Forget(book, m), ResetFiles(files, m, target))
  {
    var after := ResetFiles(files, m, target);
    forall owner ensures ValidEmitter(engine, after, owner)
      && (owner != MeasurementOwner(m) ==> EmitterOf(engine, after, owner) == EmitterOf(engine, files, owner)) {
      assert ValidEmitter(engine, files, owner);
      if owner != MeasurementOwner(m) {
        SameEmitter(engine, files, after, owner);
      }
    }
    forall ref ensures Accounted(engine, Forget(book, m), after, ref) {
      assert Accounted(engine, book, files, ref) && ValidEmitter(engine, files, ref.owner);
      if ref.owner != MeasurementOwner(m) {
        EmitterStays(engine, files, after, ref);
      }
    }
  }

  // ---------------------------------------------------------------- one step

  /** Where the cycle starts, its plan is what its emitters do. */
  ghost predicate CycleFollows(engine: Engine, disk: Disk, sid: NodeId, plan: Plan, fault: Fault) {
    var start := CycleStart(disk, sid, plan, fault);
    start.outcome.Done? && start.disk.storage.Present? ==> PlanFollows(engine, start.disk.Files(), plan)
  }

  lemma StartAccounted(engine: Engine, book: Book, disk: Disk, sid: NodeId, plan: Plan, fault: Fault)
    requires engine.Sound() && Recoverable(disk, sid) && AllAccounted(engine, book, FilesOf(Goal(disk, sid)))
    ensures
      var start := CycleStart(disk, sid, plan, fault);
      start.outcome.Done? ==>
        && Quiet(start.disk, sid) && start.disk.storage.Present? && AllAccounted(engine, book, start.disk.Files())
        && (View(start.disk) == Goal(disk, sid) || Goal(disk, sid).identity.Absent?)
  {
    StartConverges(disk, sid, plan, fault);
    var start := CycleStart(disk, sid, plan, fault);
    if start.outcome.Done? {
      ViewEmitters(engine, start.disk);
      if Goal(start.disk, sid) != Goal(disk, sid) {
        FreshEmitters(engine, disk, sid, plan.minted);
        SameAccounted(engine, book, FilesOf(Goal(disk, sid)), FilesOf(FreshDisk(plan.minted)));
      }
      SameAccounted(engine, book, FilesOf(View(start.disk)), start.disk.Files());
    }
  }

  /** A committed cycle never stands for the state it started from: the generation moved. */
  lemma ContentIsNew(start: Run, sid: NodeId, plan: Plan, goal: Disk, before: Disk)
    requires Quiet(start.disk, sid) && DistinctIds(plan.measurements) && CommitsContent(start, sid, plan, goal)
    requires View(start.disk) == before || before.identity.Absent?
    ensures goal != before
  {
    ContentGeneration(start.disk, sid, plan);
  }

  lemma AcquireAccounts(engine: Engine, book: Book, disk: Disk, sid: NodeId, plan: Plan, fault: Fault)
    requires engine.Sound() && Recoverable(disk, sid) && AllAccounted(engine, book, FilesOf(Goal(disk, sid)))
    requires DistinctIds(plan.measurements) && CycleFollows(engine, disk, sid, plan, fault)
    ensures
      var start, next := CycleStart(disk, sid, plan, fault), Measure(disk, sid, plan, fault).disk;
      && Recoverable(next, sid)
      && AllAccounted(engine, if Goal(next, sid) == Goal(disk, sid) then book
          else PostCycle(book, start, sid, plan, Goal(next, sid)), FilesOf(Goal(next, sid)))
  {
    AcquireCases(disk, sid, plan, fault);
    StartAccounted(engine, book, disk, sid, plan, fault);
    var start, goal := CycleStart(disk, sid, plan, fault), Goal(Measure(disk, sid, plan, fault).disk, sid);
    if CommitsContent(start, sid, plan, goal) {
      ContentIsNew(start, sid, plan, goal, Goal(disk, sid));
      ContentAccounts(engine, book, start.disk, sid, plan);
    } else if goal != Goal(disk, sid) {
      FreshEmitters(engine, disk, sid, plan.minted);
      SameAccounted(engine, book, FilesOf(Goal(disk, sid)), FilesOf(FreshDisk(plan.minted)));
    }
  }

  lemma AttemptAccounts(
    engine: Engine, book: Book, disk: Disk, sid: NodeId, owner: Owner, key: RecordKey, facts: AttemptFacts)
    requires Quiet(disk, sid) && disk.storage.Present? && AllAccounted(engine, book, disk.Files())
    requires AttemptOf(disk, sid, owner, key, facts).Attempted?
    ensures
      var after := AttemptDisk(disk, owner, key, AttemptOf(disk, sid, owner, key, facts)).Files();
      AllAccounted(engine, PostAttempt(book, owner, key, facts), after)
  {
    AttemptSound(disk, sid, owner, key, facts);
    var a := AttemptOf(disk, sid, owner, key, facts);
    var after, posted := AttemptDisk(disk, owner, key, a).Files(), PostAttempt(book, owner, key, facts);
    OutcomeEmitters(engine, disk.Files(), owner, key, a.state, a.execution);
    SameAccounted(engine, book, disk.Files(), after);
    forall ref ensures Accounted(engine, posted, after, ref) {
      assert Accounted(engine, book, after, ref);
    }
  }

  lemma DeliverAccounts(
    engine: Engine, book: Book, disk: Disk, sid: NodeId, owner: Owner, key: RecordKey, facts: AttemptFacts, token: nat,
    fault: Fault)
    requires Recoverable(disk, sid) && AllAccounted(engine, book, FilesOf(Goal(disk, sid)))
    requires !DrainCollides(disk, sid, owner, key, facts, token, fault)
    ensures
      var next := Drain(disk, sid, owner, key, facts, token, fault).disk;
      && Recoverable(next, sid)
      && AllAccounted(engine, if Goal(next, sid) == Goal(disk, sid) then book
          else PostAttempt(book, owner, key, facts), FilesOf(Goal(next, sid)))
  {
    var next := Drain(disk, sid, owner, key, facts, token, fault).disk;
    DrainAtomic(disk, sid, owner, key, facts, token, fault);
    if Goal(next, sid) != Goal(disk, sid) {
      TurnEntryConverges(disk, sid, fault);
      var before := TurnEntry(disk, sid, fault).run.disk;
      ViewEmitters(engine, before);
      SameAccounted(engine, book, FilesOf(View(before)), before.Files());
      AttemptAccounts(engine, book, before, sid, owner, key, facts);
    }
  }

  lemma ResetOneAccounts(
    engine: Engine, book: Book, disk: Disk, sid: NodeId, m: NodeId, minted: InstanceId, fault: Fault)
    requires engine.Sound() && Recoverable(disk, sid) && AllAccounted(engine, book, FilesOf(Goal(disk, sid)))
    ensures
      var next := ResetMeasurement(disk, sid, m, minted, fault).disk;
      && Recoverable(next, sid)
      && AllAccounted(engine, if Goal(next, sid) == Goal(disk, sid) then book
          else Forget(book, m), FilesOf(Goal(next, sid)))
  {
    var next := ResetMeasurement(disk, sid, m, minted, fault).disk;
    ResetOneCases(disk, next, sid, m, minted, fault);
    if Goal(next, sid) != Goal(disk, sid) {
      var before := TurnEntry(disk, sid, fault).run.disk;
      ViewEmitters(engine, before);
      SameAccounted(engine, book, FilesOf(View(before)), before.Files());
      ResetAccounts(engine, book, before.Files(), m, ResetIdentity(before.identity.value, m, minted).value);
    }
  }

  /** The engine's steps: each cycle plans what its emitters do. */
  ghost predicate StepFollows(engine: Engine, disk: Disk, sid: NodeId, action: Action, fault: Fault) {
    action.Acquire? ==> CycleFollows(engine, disk, sid, action.plan, fault)
  }

  lemma StepAccounts(engine: Engine, book: Book, disk: Disk, sid: NodeId, action: Action, fault: Fault)
    requires engine.Sound() && Recoverable(disk, sid) && AllAccounted(engine, book, Standing(disk, sid))
    requires Proper(action) && !action.ResetAll? && StepFollows(engine, disk, sid, action, fault)
      && !StepCollides(disk, sid, action, fault)
    ensures AllAccounted(engine, Post(book, disk, sid, action, fault),
      Standing(Perform(disk, sid, action, fault).disk, sid))
  {
    match action {
      case Enter => TurnEntryConverges(disk, sid, fault);
      case Acquire(plan) => AcquireAccounts(engine, book, disk, sid, plan, fault);
      case Deliver(owner, key, facts, token) =>
        DeliverAccounts(engine, book, disk, sid, owner, key, facts, token, fault);
      case ResetOne(m, minted) =>
        ResetOneAccounts(engine, book, disk, sid, m, minted, fault);
        PostReset(book, disk, sid, m, minted, fault);
    }
  }

  // ---------------------------------------------------------------- whole runs

  /** The book agrees with the queues on every key, and each key is in at most one place. */
  ghost predicate AllBooked(book: Book, files: Files) {
    forall ref :: Booked(book, files, ref, true)
  }

  /** Where the emitters are accounted for, the next cycle readmits nothing. */
  lemma FollowingReadmitsNothing(
    engine: Engine, book: Book, disk: Disk, sid: NodeId, plan: Plan, fault: Fault, ref: Ref)
    requires engine.Sound() && Recoverable(disk, sid) && CycleFollows(engine, disk, sid, plan, fault)
    requires AllAccounted(engine, book, FilesOf(Goal(disk, sid))) && AllBooked(book, FilesOf(Goal(disk, sid)))
    ensures !Readmits(disk, sid, Acquire(plan), fault, ref)
  {
    StartAccounted(engine, book, disk, sid, plan, fault);
    var start := CycleStart(disk, sid, plan, fault);
    if start.outcome.Done? && start.disk.storage.Present? {
      FollowingIsFresh(engine, book, start.disk.Files(), plan);
      forall r ensures Agrees(book, start.disk.Files(), r) {
        assert Booked(book, FilesOf(Goal(disk, sid)), r, true);
        StartBooked(book, disk, sid, plan, fault, r, true);
      }
      FreshCycleReadmitsNothing(book, disk, sid, plan, fault, ref);
    }
  }

  lemma StepReadmitsNothing(engine: Engine, book: Book, disk: Disk, sid: NodeId, action: Action, fault: Fault, ref: Ref)
    requires engine.Sound() && Recoverable(disk, sid) && StepFollows(engine, disk, sid, action, fault)
    requires AllAccounted(engine, book, Standing(disk, sid)) && AllBooked(book, Standing(disk, sid))
    ensures !Readmits(disk, sid, action, fault, ref)
  {
    if action.Acquire? {
      FollowingReadmitsNothing(engine, book, disk, sid, action.plan, fault, ref);
    }
  }

  /** One step of the engine: it does not collide, readmits nothing, and keeps both invariants. */
  lemma EngineStep(engine: Engine, book: Book, disk: Disk, sid: NodeId, action: Action, fault: Fault)
    requires engine.Sound() && Recoverable(disk, sid) && Proper(action) && !action.ResetAll?
      && StepFollows(engine, disk, sid, action, fault)
    requires AllAccounted(engine, book, Standing(disk, sid)) && AllBooked(book, Standing(disk, sid))
    ensures
      var posted, next := Post(book, disk, sid, action, fault), Perform(disk, sid, action, fault).disk;
      && !StepCollides(disk, sid, action, fault) && Recoverable(next, sid)
      && (forall ref :: !Readmits(disk, sid, action, fault, ref))
      && AllAccounted(engine, posted, Standing(next, sid)) && AllBooked(posted, Standing(next, sid))
  {
    var posted, next := Post(book, disk, sid, action, fault), Perform(disk, sid, action, fault).disk;
    if action.Deliver? {
      assert Booked(book, Standing(disk, sid), Ref(action.owner, action.key), true);
      SingleNeverCollides(book, disk, sid, action.owner, action.key, action.facts, action.token, fault);
    }
    StepKeepsRecoverable(disk, sid, action, fault);
    StepAccounts(engine, book, disk, sid, action, fault);
    forall ref ensures !Readmits(disk, sid, action, fault, ref) && Booked(posted, Standing(next, sid), ref, true) {
      assert Booked(book, Standing(disk, sid), ref, true);
      StepReadmitsNothing(engine, book, disk, sid, action, fault, ref);
      StepBooks(book, disk, sid, action, fault, ref, true);
    }
  }

  ghost predicate RunFollows(engine: Engine, disk: Disk, sid: NodeId, steps: seq<(Action, Fault)>)
    decreases |steps|
  {
    steps == [] ||
    (StepFollows(engine, disk, sid, steps[0].0, steps[0].1)
     && RunFollows(engine, Perform(disk, sid, steps[0].0, steps[0].1).disk, sid, steps[1..]))
  }

  lemma {:induction false} EngineNeverReadmits(
    engine: Engine, book: Book, disk: Disk, sid: NodeId, steps: seq<(Action, Fault)>, ref: Ref)
    requires engine.Sound() && Recoverable(disk, sid) && AllProper(steps) && OneLineage(steps)
      && RunFollows(engine, disk, sid, steps)
    requires AllAccounted(engine, book, Standing(disk, sid)) && AllBooked(book, Standing(disk, sid))
    ensures NeverReadmits(disk, sid, steps, ref)
    decreases |steps|
  {
    if steps != [] {
      EngineStep(engine, book, disk, sid, steps[0].0, steps[0].1);
      EngineNeverReadmits(
        engine, Post(book, disk, sid, steps[0].0, steps[0].1), Perform(disk, sid, steps[0].0, steps[0].1).disk, sid,
          steps[1..], ref);
    }
  }

  /**
    The engine closes the gap. In every run of one lineage whose cycles plan what their emitters give out
    under fixed thresholds, cut anywhere, no key is ever admitted over its dead letter: no death meets a
    taken place, every uninterrupted turn entry is ready, and each admitted key is in exactly one place.
   */
  lemma EngineRunsAlwaysReady(engine: Engine, sid: NodeId, steps: seq<(Action, Fault)>, fault: Fault)
    requires engine.Sound() && AllProper(steps) && OneLineage(steps) && RunFollows(engine, NewSource, sid, steps)
    ensures
      var turn := TurnEntry(AfterAll(NewSource, sid, steps), sid, fault);
      && !Collided(NewSource, sid, steps)
      && (turn.run.outcome.Done? ==>
            && turn.verdict == ReadyTurn
            && forall ref :: Booked(BookOf(sid, steps), FilesOf(turn.run.disk), ref, true))
  {
    assert Quiet(NewSource, sid) && Standing(NewSource, sid) == map[];
    forall ref ensures NeverReadmits(NewSource, sid, steps, ref) {
      EngineNeverReadmits(engine, Book({}, {}), NewSource, sid, steps, ref);
    }
    WithoutReadmissionAlwaysReady(sid, steps, fault);
  }
}
