/** Whole runs: every operation, interrupted anywhere, in any order. */
module Runs {
  import opened Basics
  import opened Identifiers
  import opened Outbox
  import opened Delivery
  import opened StoreTypes
  import opened Gate
  import opened Lineage
  import opened Recovery
  import opened Operations
  import opened Acquisition
  import opened Cycle
  import opened Resets
  import opened Stuck

  // ---------------------------------------------------------------- delivery drains

  /** The prior record and outcome of a drain over a recovered disk, when it attempts anything. */
  datatype Attempted = NoAttempt | Attempted(state: SourceState, prior: DeliveryRecord, execution: Execution)

  function AttemptOf(disk: Disk, sid: NodeId, owner: Owner, key: RecordKey, facts: AttemptFacts): Attempted {
    var declared := if owner.MeasurementOwner? then {owner.id} else {};
    var inspection := Inspect(disk, sid, declared);
    if !inspection.source.ReadySource? then NoAttempt
    else if owner.MeasurementOwner?
      && !(owner.id in inspection.measurements && inspection.measurements[owner.id].ReadyMeasurement?) then NoAttempt
    else if !disk.storage.Present? then NoAttempt
    else
      var pending := Get(disk.Files(), PendingFile(owner, key));
      if !(pending.Some? && pending.value.RecordDoc?) || pending.value.record.nextRetryAt > facts.at then NoAttempt
      else
        var execution := Executed(pending.value.record, facts);
        if execution.Err? then NoAttempt else Attempted(inspection.source.state, pending.value.record, execution.value)
  }

  /** The disk one attempt commits. */
  function AttemptDisk(disk: Disk, owner: Owner, key: RecordKey, a: Attempted): Disk
    requires disk.storage.Present? && a.Attempted?
  {
    OutcomeDisk(disk, owner, key, Advanced(a.state), a.execution)
  }

  /** A drain either attempts nothing and changes nothing, or commits the outcome of its attempt. */
  lemma DrainIsAttempt(
    disk: Disk, sid: NodeId, owner: Owner, key: RecordKey, facts: AttemptFacts, token: nat, fault: Fault)
    requires TurnEntry(disk, sid, fault).run.outcome == Done && TurnEntry(disk, sid, fault).verdict == ReadyTurn
    ensures
      var before := TurnEntry(disk, sid, fault).run;
      var a := AttemptOf(before.disk, sid, owner, key, facts);
      var r := Drain(disk, sid, owner, key, facts, token, fault);
      if a.NoAttempt? then r.disk == before.disk
      else
        && before.disk.storage.Present?
        && r == CommitDelivery(before.disk, sid, a.state, owner, a.prior, a.execution, token, before.fault)
  {
  }

  lemma AttemptSound(disk: Disk, sid: NodeId, owner: Owner, key: RecordKey, facts: AttemptFacts)
    requires Quiet(disk, sid) && AttemptOf(disk, sid, owner, key, facts).Attempted?
    ensures
      var a := AttemptOf(disk, sid, owner, key, facts);
      && disk.identity.Present? && disk.storage.Present?
      && ReadSourceState(disk.Files()) == Present(a.state)
      && Get(disk.Files(), PendingFile(owner, key)) == Some(RecordDoc(a.prior))
      && a.prior.Key() == key && a.prior.nextRetryAt <= facts.at
      && OutcomeSound(a.prior, a.execution)
      && (a.execution.Delivered? <==> facts.failure.None?)
  {
    var a := AttemptOf(disk, sid, owner, key, facts);
    assert FileFits(PendingFile(owner, key), disk.Files()[PendingFile(owner, key)], disk.identity.value, sid);
    ExecutionFollows(a.prior, facts);
  }

  /** The last generation has no successor: nothing is staged and nothing changes. */
  lemma ExhaustedGeneration(
    disk: Disk, sid: NodeId, state: SourceState, owner: Owner, prior: DeliveryRecord, execution: Execution, token: nat,
    fault: Fault)
    requires disk.storage.Present? && state.generation >= U64_MAX
    ensures CommitDelivery(disk, sid, state, owner, prior, execution, token, fault) == Stop(disk, fault)
  {
  }

  /** The attempt's record dies where another letter is stored, and its commit gets past its manifest write. */
  ghost predicate Collision(disk: Disk, owner: Owner, a: Attempted, token: nat, fault: Fault) {
    && a.Attempted? && disk.storage.Present? && a.state.generation < U64_MAX
    && !FindsPlace(disk.Files(), owner, a.execution)
    && ReachesCommitPoint(disk, a.state, a.execution, token, fault)
  }

  /** An attempt stands for the old state or its whole outcome, unless it collides: then the source is stuck. */
  lemma AttemptAtomic(
    disk: Disk, sid: NodeId, owner: Owner, key: RecordKey, facts: AttemptFacts, token: nat, fault: Fault)
    requires Quiet(disk, sid) && AttemptOf(disk, sid, owner, key, facts).Attempted?
    ensures
      var a := AttemptOf(disk, sid, owner, key, facts);
      && disk.storage.Present?
      && var r := CommitDelivery(disk, sid, a.state, owner, a.prior, a.execution, token, fault);
         if Collision(disk, owner, a, token, fault) then StuckAt(r.disk) && SameBeside(disk.Files(), r.disk.Files())
         else
           && Recoverable(r.disk, sid)
           && (Goal(r.disk, sid) == View(disk) || Goal(r.disk, sid) == AttemptDisk(disk, owner, key, a))
  {
    var a := AttemptOf(disk, sid, owner, key, facts);
    AttemptSound(disk, sid, owner, key, facts);
    if a.state.generation >= U64_MAX {
      ExhaustedGeneration(disk, sid, a.state, owner, a.prior, a.execution, token, fault);
    } else if FindsPlace(disk.Files(), owner, a.execution) {
      DeliveryCommitAtomic(disk, sid, a.state, owner, a.prior, a.execution, token, fault);
    } else {
      CollisionExact(disk, sid, a.state, owner, a.prior, a.execution.letter, token, fault);
    }
  }

  /** With unused staging names and nine steps, an attempt that finds its place completes and leaves its outcome. */
  lemma AttemptCompletes(
    disk: Disk, sid: NodeId, owner: Owner, key: RecordKey, facts: AttemptFacts, token: nat, fault: Fault)
    requires Quiet(disk, sid) && AttemptOf(disk, sid, owner, key, facts).Attempted? && disk.storage.Present?
    requires
      var a := AttemptOf(disk, sid, owner, key, facts);
      a.state.generation < U64_MAX && FindsPlace(disk.Files(), owner, a.execution) && StagedClear(disk.Files(), token)
        && fault.budget >= 9
    ensures
      var a := AttemptOf(disk, sid, owner, key, facts);
      var r := CommitDelivery(disk, sid, a.state, owner, a.prior, a.execution, token, fault);
      r.outcome == Done && Quiet(r.disk, sid) && View(r.disk) == AttemptDisk(disk, owner, key, a)
  {
    var a := AttemptOf(disk, sid, owner, key, facts);
    AttemptSound(disk, sid, owner, key, facts);
    DeliveryIsNotCut(disk, sid, a.state, owner, a.prior, a.execution, token, fault);
    DeliveryCommitAtomic(disk, sid, a.state, owner, a.prior, a.execution, token, fault);
    var r := CommitDelivery(disk, sid, a.state, owner, a.prior, a.execution, token, fault);
    GoalIsQuiet(r.disk, sid);
    QuietUpToStaging(r.disk, AttemptDisk(disk, owner, key, a), sid);
  }

  /** The drain's turn is ready and its attempt collides. */
  ghost predicate DrainCollides(
    disk: Disk, sid: NodeId, owner: Owner, key: RecordKey, facts: AttemptFacts, token: nat, fault: Fault)
  {
    var turn := TurnEntry(disk, sid, fault);
    && turn.run.outcome.Done? && turn.verdict == ReadyTurn
    && Collision(turn.run.disk, owner, AttemptOf(turn.run.disk, sid, owner, key, facts), token, turn.run.fault)
  }

  /**
    A drain from any recoverable store, exactly: it stands for the old state or for its whole outcome,
    unless its record dies at a taken place; then the source is stuck and only its state document moved.
   */
  lemma DrainAtomic(
    disk: Disk, sid: NodeId, owner: Owner, key: RecordKey, facts: AttemptFacts, token: nat, fault: Fault)
    requires Recoverable(disk, sid)
    ensures
      var before := TurnEntry(disk, sid, fault).run;
      var a := AttemptOf(before.disk, sid, owner, key, facts);
      var r := Drain(disk, sid, owner, key, facts, token, fault);
      if DrainCollides(disk, sid, owner, key, facts, token, fault) then
        StuckAt(r.disk) && before.disk.storage.Present? && SameBeside(before.disk.Files(), r.disk.Files())
      else
        && Recoverable(r.disk, sid)
        && (Goal(r.disk, sid) == Goal(disk, sid)
            || (before.outcome.Done? && a.Attempted? && before.disk.storage.Present?
                && Goal(r.disk, sid) == AttemptDisk(before.disk, owner, key, a)))
  {
    TurnEntryConverges(disk, sid, fault);
    var before := TurnEntry(disk, sid, fault).run;
    if before.outcome.Done? {
      DrainIsAttempt(disk, sid, owner, key, facts, token, fault);
      if AttemptOf(before.disk, sid, owner, key, facts).Attempted? {
        AttemptAtomic(before.disk, sid, owner, key, facts, token, before.fault);
      }
    }
  }

  /** A death at a taken place with unused staging names and steps for its manifest write always collides. */
  lemma TakenPlaceCollides(
    disk: Disk, sid: NodeId, owner: Owner, key: RecordKey, facts: AttemptFacts, token: nat, fault: Fault)
    requires Recoverable(disk, sid)
    requires
      var before := TurnEntry(disk, sid, fault).run;
      var a := AttemptOf(before.disk, sid, owner, key, facts);
      && before.outcome.Done? && a.Attempted? && before.disk.storage.Present? && a.state.generation < U64_MAX
      && !FindsPlace(before.disk.Files(), owner, a.execution)
      && StagedClear(before.disk.Files(), token) && before.fault.budget > 2
    ensures DrainCollides(disk, sid, owner, key, facts, token, fault)
  {
    TurnEntryConverges(disk, sid, fault);
    var before := TurnEntry(disk, sid, fault).run;
    var a := AttemptOf(before.disk, sid, owner, key, facts);
    DeliveryStages(before.disk, sid, a.state, a.execution, token, before.fault);
  }

  // ---------------------------------------------------------------- acquisition cycles

  /** What a coherent gate tells the planner. */
  lemma CoherentGateFacts(disk: Disk, sid: NodeId, declared: set<NodeId>)
    requires Coherent(disk, sid) && disk.identity.Present?
    ensures
      var inspection := Inspect(disk, sid, declared);
      && disk.storage.Present? && ReadSourceState(disk.Files()).Present?
      && ReadSourceState(disk.Files()).value.instance == disk.identity.value.instance
      && inspection.source == ReadySource(disk.identity.value, ReadSourceState(disk.Files()).value)
      && GateFacts(inspection, disk.identity.value)
  {
    GateDecidesCoherence(disk, sid, declared);
    CoherentAccepted(disk.Files(), disk.identity.value, sid);
  }

  lemma PlanCycleSound(disk: Disk, sid: NodeId, inspection: Inspection, plan: Plan)
    requires disk.identity.Present? && disk.storage.Present?
    requires GateFacts(inspection, disk.identity.value) && DistinctIds(plan.measurements)
    requires PlanCycle(disk.Files(), inspection, disk.identity.value, sid, plan).Ok?
    ensures
      var (planned, records) := PlanCycle(disk.Files(), inspection, disk.identity.value, sid, plan).value;
      && PlannedSound(disk.Files(), disk.identity.value, sid, IdsOf(plan.measurements), planned)
      && DistinctWrites(records) && WritesFit(records, disk.Files(), disk.identity.value, sid)
      && forall i :: 0 <= i < |records| ==> records[i].final.PendingFile? && records[i].final.owner == SourceOwner
  {
    PlanMeasurementsFits(disk.Files(), inspection, disk.identity.value, sid, plan.measurements, plan.now);
    if plan.source.seeds != [] {
      RecordWritesFit(disk.Files(), SourceOwner, sid, disk.identity.value, None, plan.source, plan.now);
    }
  }

  /** The content of one cycle over a recovered disk, when it commits at all. */
  datatype Content = NoCommit | Content(state: SourceState, next: SourceState, planned: Planned, records: seq<Write>)

  function ContentOf(disk: Disk, sid: NodeId, plan: Plan): Content {
    PlannedContent(disk, sid, Inspect(disk, sid, Declared(plan)), plan)
  }

  function PlannedContent(disk: Disk, sid: NodeId, inspection: Inspection, plan: Plan): Content {
    if !inspection.source.ReadySource? || !disk.storage.Present? then NoCommit
    else
      var state := inspection.source.state;
      var cycle := PlanCycle(disk.Files(), inspection, inspection.source.identity, sid, plan);
      if cycle.Err? || CheckedSucc(state.generation).None? then NoCommit
      else Content(state, state.(generation := state.generation + 1, facts := plan.facts), cycle.value.0, cycle.value.1)
  }

  /** The disk one cycle commits. */
  function ContentDisk(disk: Disk, c: Content): Disk
    requires disk.identity.Present? && disk.storage.Present? && c.Content?
  {
    CycleDisk(disk, c.planned, AcquisitionWrites(disk.Files(), c.next, c.planned, c.records))
  }

  lemma MeasureReadyIsContent(disk: Disk, sid: NodeId, plan: Plan, fault: Fault)
    ensures
      var c := ContentOf(disk, sid, plan);
      var r := MeasureReady(disk, sid, Inspect(disk, sid, Declared(plan)), plan, fault);
      if c.NoCommit? then r.disk == disk && !r.outcome.Crashed?
      else disk.storage.Present? && r == CommitAcquisition(disk, sid, c.next, c.planned, c.records, plan.token, fault)
  {
    MeasureReadyIsPlanned(disk, sid, Inspect(disk, sid, Declared(plan)), plan, fault);
  }

  lemma MeasureReadyIsPlanned(disk: Disk, sid: NodeId, inspection: Inspection, plan: Plan, fault: Fault)
    ensures
      var c := PlannedContent(disk, sid, inspection, plan);
      var r := MeasureReady(disk, sid, inspection, plan, fault);
      if c.NoCommit? then r.disk == disk && !r.outcome.Crashed?
      else disk.storage.Present? && r == CommitAcquisition(disk, sid, c.next, c.planned, c.records, plan.token, fault)
  {
  }

  lemma ContentSound(disk: Disk, sid: NodeId, plan: Plan)
    requires Quiet(disk, sid) && disk.storage.Present? && DistinctIds(plan.measurements)
    requires ContentOf(disk, sid, plan).Content?
    ensures
      var c := ContentOf(disk, sid, plan);
      CycleSound(disk, sid, c.state, c.planned, IdsOf(plan.measurements), c.next,
        AcquisitionWrites(disk.Files(), c.next, c.planned, c.records))
  {
    var c := ContentOf(disk, sid, plan);
    CoherentGateFacts(disk, sid, Declared(plan));
    PlanCycleSound(disk, sid, Inspect(disk, sid, Declared(plan)), plan);
    AcquisitionWritesSound(disk.Files(), disk.identity.value, sid, IdsOf(plan.measurements), c.planned, c.records,
      c.next);
  }

  /** The locked cycle over a quiet store commits all of its content or nothing. */
  lemma MeasureReadyAtomic(disk: Disk, sid: NodeId, plan: Plan, fault: Fault)
    requires Quiet(disk, sid) && disk.storage.Present? && DistinctIds(plan.measurements)
    ensures
      var c := ContentOf(disk, sid, plan);
      var r := MeasureReady(disk, sid, Inspect(disk, sid, Declared(plan)), plan, fault);
      && disk.identity.Present? && Recoverable(r.disk, sid)
      && (Goal(r.disk, sid) == View(disk) || (c.Content? && Goal(r.disk, sid) == ContentDisk(disk, c)))
      && (c.Content? && r.outcome.Done? ==> View(r.disk) == ContentDisk(disk, c))
  {
    MeasureReadyIsContent(disk, sid, plan, fault);
    var c := ContentOf(disk, sid, plan);
    if c.Content? {
      ContentSound(disk, sid, plan);
      AcquisitionCommitAtomic(disk, sid, c.state, c.planned, IdsOf(plan.measurements), c.next, c.records, plan.token,
        fault);
    }
  }

  /** With unused staging names and steps enough, the locked cycle completes and leaves its content, staging aside. */
  lemma MeasureReadyCompletes(disk: Disk, sid: NodeId, plan: Plan, fault: Fault)
    requires Quiet(disk, sid) && disk.storage.Present? && DistinctIds(plan.measurements)
    requires
      var c := ContentOf(disk, sid, plan);
      c.Content? &&
      var writes := AcquisitionWrites(disk.Files(), c.next, c.planned, c.records);
      TokensClear(disk.Files(), writes, 0, plan.token) && fault.budget >= 2 * |writes| + 3
    ensures
      var r := MeasureReady(disk, sid, Inspect(disk, sid, Declared(plan)), plan, fault);
      r.outcome == Done && disk.identity.Present? && Quiet(r.disk, sid)
        && View(r.disk) == ContentDisk(disk, ContentOf(disk, sid, plan))
  {
    var c, ids := ContentOf(disk, sid, plan), IdsOf(plan.measurements);
    ContentSound(disk, sid, plan);
    MeasureReadyIsContent(disk, sid, plan, fault);
    AcquisitionCompletes(disk, sid, c.state, c.planned, ids, c.next, c.records, plan.token, fault);
    AcquisitionCommitAtomic(disk, sid, c.state, c.planned, ids, c.next, c.records, plan.token, fault);
    CycleGoalSound(disk, sid, c.state, c.planned, ids, c.next,
      AcquisitionWrites(disk.Files(), c.next, c.planned, c.records));
    QuietUpToStaging(CommitAcquisition(disk, sid, c.next, c.planned, c.records, plan.token, fault).disk,
      ContentDisk(disk, c), sid);
  }

  /** The initialisation a first cycle performs. */
  function Initialised(disk: Disk, sid: NodeId, plan: Plan, fault: Fault): Run {
    ApplyTransition(disk, sid, InitManifest(sid, plan.minted), fault)
  }

  lemma InitialisationAtomic(disk: Disk, sid: NodeId, plan: Plan, fault: Fault)
    requires Quiet(disk, sid) && disk.identity.Absent?
    ensures
      var r := Initialised(disk, sid, plan, fault);
      && r.outcome != Failed && Recoverable(r.disk, sid)
      && (Goal(r.disk, sid) == View(disk) || Goal(r.disk, sid) == FreshDisk(plan.minted))
      && (r.outcome.Done? ==> Quiet(r.disk, sid) && r.disk.storage.Present? && View(r.disk) == FreshDisk(plan.minted))
  {
    FreshDiskQuiet(plan.minted, sid);
    TransitionAtomic(disk, sid, InitManifest(sid, plan.minted), fault);
    var r := Initialised(disk, sid, plan, fault);
    if r.outcome.Done? {
      QuietUpToStaging(r.disk, FreshDisk(plan.minted), sid);
    }
  }

  /** With eight steps an initialisation completes, and leaves exactly the fresh source. */
  lemma InitialisationCompletes(disk: Disk, sid: NodeId, plan: Plan, fault: Fault)
    requires Quiet(disk, sid) && disk.identity.Absent? && fault.budget >= 8
    ensures
      var r := Initialised(disk, sid, plan, fault);
      r.outcome == Done && r.disk == FreshDisk(plan.minted) && r.fault.budget >= fault.budget - 8
  {
    InitialisationAtomic(disk, sid, plan, fault);
    var pending := disk.(lineage := Present(InitManifest(sid, plan.minted)));
    RecoverLineageSteps(pending, sid, fault.(budget := fault.budget - 1));
    SwapSourceConverges(pending.(identity := Present(SourceIdentity(plan.minted, map[]))),
      SourceIdentity(plan.minted, map[]), fault.(budget := fault.budget - 2));
  }

  /** The disk the cycle itself starts from: recovered, and initialised if it was new. */
  function CycleStart(disk: Disk, sid: NodeId, plan: Plan, fault: Fault): Run {
    var turn := TurnEntry(disk, sid, fault);
    if !turn.run.outcome.Done? || turn.verdict != ReadyTurn then turn.run
    else if Inspect(turn.run.disk, sid, Declared(plan)).source.NeedsInitialization?
      then Initialised(turn.run.disk, sid, plan, turn.run.fault)
    else turn.run
  }

  lemma StartConverges(disk: Disk, sid: NodeId, plan: Plan, fault: Fault)
    requires Recoverable(disk, sid)
    ensures
      var start := CycleStart(disk, sid, plan, fault);
      && start.outcome != Failed && Recoverable(start.disk, sid)
      && (Goal(start.disk, sid) == Goal(disk, sid)
            || (Goal(disk, sid).identity.Absent? && Goal(start.disk, sid) == FreshDisk(plan.minted)))
      && (start.outcome.Done? ==> Quiet(start.disk, sid) && start.disk.storage.Present?)
      && (start.outcome.Done? ==>
            Measure(disk, sid, plan, fault)
              == MeasureReady(start.disk, sid, Inspect(start.disk, sid, Declared(plan)), plan, start.fault))
      && (!start.outcome.Done? ==> Measure(disk, sid, plan, fault) == start)
  {
    TurnEntryConverges(disk, sid, fault);
    var turn := TurnEntry(disk, sid, fault);
    if turn.run.outcome.Done? {
      GateDecidesCoherence(turn.run.disk, sid, Declared(plan));
      if turn.run.disk.identity.Absent? {
        InitialisationAtomic(turn.run.disk, sid, plan, turn.run.fault);
      }
    }
  }

  /** A whole acquisition: it stands for the old state, the initialised source, or the whole cycle. */
  lemma MeasureAtomic(disk: Disk, sid: NodeId, plan: Plan, fault: Fault)
    requires Recoverable(disk, sid) && DistinctIds(plan.measurements)
    ensures
      var start := CycleStart(disk, sid, plan, fault);
      var c := ContentOf(start.disk, sid, plan);
      var r := Measure(disk, sid, plan, fault);
      && Recoverable(r.disk, sid)
      && (|| Goal(r.disk, sid) == Goal(disk, sid)
          || (Goal(disk, sid).identity.Absent? && Goal(r.disk, sid) == FreshDisk(plan.minted))
          || (&& start.outcome.Done? && c.Content? && start.disk.identity.Present? && start.disk.storage.Present?
              && Goal(r.disk, sid) == ContentDisk(start.disk, c)))
  {
    StartConverges(disk, sid, plan, fault);
    var start := CycleStart(disk, sid, plan, fault);
    if start.outcome.Done? {
      MeasureReadyAtomic(start.disk, sid, plan, start.fault);
    }
  }

  /** The goal is the content the cycle planned where it started. */
  predicate CommitsContent(start: Run, sid: NodeId, plan: Plan, goal: Disk) {
    var c := ContentOf(start.disk, sid, plan);
    start.outcome.Done? && c.Content? && start.disk.identity.Present? && start.disk.storage.Present?
      && goal == ContentDisk(start.disk, c)
  }

  /** An effective cycle initialised the source or committed its content. */
  lemma AcquireCases(disk: Disk, sid: NodeId, plan: Plan, fault: Fault)
    requires Recoverable(disk, sid) && DistinctIds(plan.measurements)
    ensures
      var start, next := CycleStart(disk, sid, plan, fault), Measure(disk, sid, plan, fault).disk;
      && Recoverable(next, sid)
      && (|| Goal(next, sid) == Goal(disk, sid)
          || (Goal(disk, sid).identity.Absent? && Goal(next, sid) == FreshDisk(plan.minted))
          || CommitsContent(start, sid, plan, Goal(next, sid)))
  {
    MeasureAtomic(disk, sid, plan, fault);
  }

  // ---------------------------------------------------------------- runs

  datatype Action =
    | Enter
    | Acquire(plan: Plan)
    | Deliver(owner: Owner, key: RecordKey, facts: AttemptFacts, token: nat)
    | ResetAll(minted: InstanceId)
    | ResetOne(m: NodeId, minted: InstanceId)

  function Perform(disk: Disk, sid: NodeId, action: Action, fault: Fault): Run {
    match action
    case Enter => TurnEntry(disk, sid, fault).run
    case Acquire(plan) => Measure(disk, sid, plan, fault)
    case Deliver(owner, key, facts, token) => Drain(disk, sid, owner, key, facts, token, fault)
    case ResetAll(minted) => ResetSource(disk, sid, minted, fault)
    case ResetOne(m, minted) => ResetMeasurement(disk, sid, m, minted, fault)
  }

  /** What every run assumes of a cycle: its plan names each measurement once, as declarations do. */
  predicate Proper(action: Action) {
    action.Acquire? ==> DistinctIds(action.plan.measurements)
  }

  /** The phases of a source: recovery finishes it, or waits for a source reset in one of two ways. */
  ghost predicate Reachable(disk: Disk, sid: NodeId) {
    Recoverable(disk, sid) || Blind(disk, sid) || StuckAt(disk)
  }

  /** In the blind window every operation but a source reset changes nothing. */
  lemma BlindRefusesAll(disk: Disk, sid: NodeId, action: Action, fault: Fault)
    requires Blind(disk, sid) && !action.ResetAll?
    ensures Perform(disk, sid, action, fault).disk == disk
  {
    BlindWindowRefused(disk, sid, fault);
  }

  /** A stuck source stays stuck under every operation but a source reset, and only its state document moves. */
  lemma StuckStep(disk: Disk, sid: NodeId, action: Action, fault: Fault)
    requires StuckAt(disk) && !action.ResetAll?
    ensures
      var next := Perform(disk, sid, action, fault).disk;
      StuckAt(next) && SameBeside(disk.Files(), next.Files())
  {
    StuckTurnEntry(disk, sid, fault);
  }

  lemma ResetAllKeepsReachable(disk: Disk, sid: NodeId, minted: InstanceId, fault: Fault)
    requires Reachable(disk, sid)
    ensures Reachable(ResetSource(disk, sid, minted, fault).disk, sid)
  {
    BlindResetWins(disk, sid, minted, fault);
    if Recoverable(disk, sid) {
      TurnEntryConverges(disk, sid, fault);
    } else if Blind(disk, sid) {
      BlindWindowRefused(disk, sid, fault);
    } else {
      StuckTurnEntry(disk, sid, fault);
    }
  }

  ghost predicate StepCollides(disk: Disk, sid: NodeId, action: Action, fault: Fault) {
    action.Deliver? && DrainCollides(disk, sid, action.owner, action.key, action.facts, action.token, fault)
  }

  /** Within one lineage a recoverable source stays recoverable under every step but one: a collision sticks it. */
  lemma StepKeepsRecoverable(disk: Disk, sid: NodeId, action: Action, fault: Fault)
    requires Recoverable(disk, sid) && Proper(action) && !action.ResetAll?
    ensures
      var next := Perform(disk, sid, action, fault).disk;
      if StepCollides(disk, sid, action, fault) then StuckAt(next) else Recoverable(next, sid)
  {
    match action {
      case Enter => TurnEntryConverges(disk, sid, fault);
      case Acquire(plan) => MeasureAtomic(disk, sid, plan, fault);
      case Deliver(owner, key, facts, token) => DrainAtomic(disk, sid, owner, key, facts, token, fault);
      case ResetOne(m, minted) => MeasurementResetAtomic(disk, sid, m, minted, fault);
    }
  }

  /** Whatever is attempted, and wherever it is cut, the store stays in a reachable phase. */
  lemma StepKeepsReachable(disk: Disk, sid: NodeId, action: Action, fault: Fault)
    requires Reachable(disk, sid) && Proper(action)
    ensures Reachable(Perform(disk, sid, action, fault).disk, sid)
  {
    if action.ResetAll? {
      ResetAllKeepsReachable(disk, sid, action.minted, fault);
    } else if Recoverable(disk, sid) {
      StepKeepsRecoverable(disk, sid, action, fault);
    } else if Blind(disk, sid) {
      BlindRefusesAll(disk, sid, action, fault);
    } else {
      StuckStep(disk, sid, action, fault);
    }
  }

  function AfterAll(disk: Disk, sid: NodeId, steps: seq<(Action, Fault)>): Disk
    decreases |steps|
  {
    if steps == [] then disk else AfterAll(Perform(disk, sid, steps[0].0, steps[0].1).disk, sid, steps[1..])
  }

  lemma {:induction false} AfterLast(disk: Disk, sid: NodeId, steps: seq<(Action, Fault)>, n: nat)
    requires n < |steps|
    ensures AfterAll(disk, sid, steps[..n + 1])
      == Perform(AfterAll(disk, sid, steps[..n]), sid, steps[n].0, steps[n].1).disk
    decreases n
  {
    var next := Perform(disk, sid, steps[0].0, steps[0].1).disk;
    if n == 0 {
      assert steps[..1][1..] == [] && steps[..0] == [];
    } else {
      assert steps[..n + 1][1..] == steps[1..][..n] && steps[..n][1..] == steps[1..][..n - 1];
      AfterLast(next, sid, steps[1..], n - 1);
    }
  }

  predicate AllProper(steps: seq<(Action, Fault)>) {
    forall i :: 0 <= i < |steps| ==> Proper(steps[i].0)
  }

  /** No source reset: every step stays within one source lineage. */
  predicate OneLineage(steps: seq<(Action, Fault)>) {
    forall i :: 0 <= i < |steps| ==> !steps[i].0.ResetAll?
  }

  predicate NoManifest(disk: Disk) {
    disk.lineage.Absent? && (disk.storage.Present? ==> disk.storage.value.commit.Absent?)
  }

  lemma {:induction false} RunsStayReachable(disk: Disk, sid: NodeId, steps: seq<(Action, Fault)>)
    requires Reachable(disk, sid) && AllProper(steps)
    ensures Reachable(AfterAll(disk, sid, steps), sid)
    decreases |steps|
  {
    if steps != [] {
      StepKeepsReachable(disk, sid, steps[0].0, steps[0].1);
      RunsStayReachable(Perform(disk, sid, steps[0].0, steps[0].1).disk, sid, steps[1..]);
    }
  }

  /** What an uninterrupted turn entry answers in each phase. */
  ghost function PhaseVerdict(disk: Disk, sid: NodeId): Verdict {
    if Blind(disk, sid) then UnresolvableTurn(LineageKind)
    else if StuckAt(disk) then UnresolvableTurn(CommitKind)
    else ReadyTurn
  }

  /**
    Whole-run coherence. Under every interleaving of cycles, drains, resets, turn entries and
    crashes, starting from a new source: without a durable manifest the gate accepts the store, and
    turn entry restores readiness from every disk the run can reach except a stuck one and the blind
    window, which it reports as what they are.
   */
  lemma WholeRunCoherence(sid: NodeId, steps: seq<(Action, Fault)>, declared: set<NodeId>, fault: Fault)
    requires AllProper(steps)
    ensures
      var disk := AfterAll(NewSource, sid, steps);
      var turn := TurnEntry(disk, sid, fault);
      && Reachable(disk, sid)
      && (NoManifest(disk) ==> Coherent(disk, sid) && Accepts(Inspect(disk, sid, declared)))
      && (turn.run.outcome.Done? ==> turn.verdict == PhaseVerdict(disk, sid))
      && (turn.run.outcome.Done? && turn.verdict == ReadyTurn ==>
            NoManifest(turn.run.disk) && Accepts(Inspect(turn.run.disk, sid, declared)))
      && (Blind(disk, sid) ==> turn.run.disk == disk)
  {
    var disk := AfterAll(NewSource, sid, steps);
    RunsStayReachable(NewSource, sid, steps);
    GateDecidesCoherence(disk, sid, declared);
    PhaseAnswers(disk, sid, declared, fault);
  }

  lemma PhaseAnswers(disk: Disk, sid: NodeId, declared: set<NodeId>, fault: Fault)
    requires Reachable(disk, sid)
    ensures
      var turn := TurnEntry(disk, sid, fault);
      && (turn.run.outcome.Done? ==> turn.verdict == PhaseVerdict(disk, sid))
      && (turn.run.outcome.Done? && turn.verdict == ReadyTurn ==>
            NoManifest(turn.run.disk) && Accepts(Inspect(turn.run.disk, sid, declared)))
      && (Blind(disk, sid) ==> turn.run.disk == disk)
  {
    if Blind(disk, sid) {
      BlindWindowRefused(disk, sid, fault);
    } else if StuckAt(disk) {
      StuckTurnEntry(disk, sid, fault);
    } else {
      TurnEntryConverges(disk, sid, fault);
      GateDecidesCoherence(TurnEntry(disk, sid, fault).run.disk, sid, declared);
    }
  }

  // ---------------------------------------------------------------- stuck, exactly

  /** Some step of the run is a drain whose record dies at a taken place. */
  ghost predicate Collided(disk: Disk, sid: NodeId, steps: seq<(Action, Fault)>)
    decreases |steps|
  {
    steps != [] &&
    (|| StepCollides(disk, sid, steps[0].0, steps[0].1)
     || Collided(Perform(disk, sid, steps[0].0, steps[0].1).disk, sid, steps[1..]))
  }

  /** A stuck source stays stuck under every run without a source reset. */
  lemma {:induction false} StuckForever(disk: Disk, sid: NodeId, steps: seq<(Action, Fault)>, fault: Fault)
    requires StuckAt(disk) && OneLineage(steps)
    ensures
      var after := AfterAll(disk, sid, steps);
      && StuckAt(after) && SameBeside(disk.Files(), after.Files())
      && (TurnEntry(after, sid, fault).run.outcome.Done? ==>
            TurnEntry(after, sid, fault).verdict == UnresolvableTurn(CommitKind))
    decreases |steps|
  {
    if steps == [] {
      StuckTurnEntry(disk, sid, fault);
    } else {
      StuckStep(disk, sid, steps[0].0, steps[0].1);
      StuckForever(Perform(disk, sid, steps[0].0, steps[0].1).disk, sid, steps[1..], fault);
    }
  }

  lemma {:induction false} CollisionsDecide(disk: Disk, sid: NodeId, steps: seq<(Action, Fault)>)
    requires Recoverable(disk, sid) && AllProper(steps) && OneLineage(steps)
    ensures
      var after := AfterAll(disk, sid, steps);
      if Collided(disk, sid, steps) then StuckAt(after) else Recoverable(after, sid)
    decreases |steps|
  {
    if steps != [] {
      var next := Perform(disk, sid, steps[0].0, steps[0].1).disk;
      StepKeepsRecoverable(disk, sid, steps[0].0, steps[0].1);
      if StepCollides(disk, sid, steps[0].0, steps[0].1) {
        StuckForever(next, sid, steps[1..], steps[0].1);
      } else {
        CollisionsDecide(next, sid, steps[1..]);
      }
    }
  }

  /** Whatever follows a death at a taken place, short of a source reset, the source stays unresolvable. */
  lemma TakenPlaceStopsSource(
    disk: Disk, sid: NodeId, owner: Owner, key: RecordKey, facts: AttemptFacts, token: nat, fault: Fault,
    later: seq<(Action, Fault)>, last: Fault)
    requires Recoverable(disk, sid) && OneLineage(later)
    requires
      var before := TurnEntry(disk, sid, fault).run;
      var a := AttemptOf(before.disk, sid, owner, key, facts);
      && before.outcome.Done? && a.Attempted? && before.disk.storage.Present? && a.state.generation < U64_MAX
      && !FindsPlace(before.disk.Files(), owner, a.execution)
      && StagedClear(before.disk.Files(), token) && before.fault.budget > 2
    ensures
      var after := AfterAll(Drain(disk, sid, owner, key, facts, token, fault).disk, sid, later);
      && StuckAt(after)
      && (TurnEntry(after, sid, last).run.outcome.Done? ==>
            TurnEntry(after, sid, last).verdict == UnresolvableTurn(CommitKind))
  {
    TakenPlaceCollides(disk, sid, owner, key, facts, token, fault);
    DrainAtomic(disk, sid, owner, key, facts, token, fault);
    StuckForever(Drain(disk, sid, owner, key, facts, token, fault).disk, sid, later, last);
  }

  /**
    Resolvable, exactly: after a run without a source reset an uninterrupted turn entry is ready if and
    only if no death of the run met a taken place; otherwise the source is stuck, from that step on.
   */
  lemma ReadyIffNothingCollided(sid: NodeId, steps: seq<(Action, Fault)>, fault: Fault)
    requires AllProper(steps) && OneLineage(steps)
    ensures
      var disk := AfterAll(NewSource, sid, steps);
      var turn := TurnEntry(disk, sid, fault);
      && (StuckAt(disk) <==> Collided(NewSource, sid, steps))
      && (Recoverable(disk, sid) <==> !Collided(NewSource, sid, steps))
      && (turn.run.outcome.Done? ==> (turn.verdict == ReadyTurn <==> !Collided(NewSource, sid, steps)))
  {
    var disk := AfterAll(NewSource, sid, steps);
    assert Quiet(NewSource, sid);
    CollisionsDecide(NewSource, sid, steps);
    if Collided(NewSource, sid, steps) {
      StuckIsNotRecoverable(disk, sid);
      StuckTurnEntry(disk, sid, fault);
    } else {
      if StuckAt(disk) { StuckIsNotRecoverable(disk, sid); }
      TurnEntryConverges(disk, sid, fault);
    }
  }
}
