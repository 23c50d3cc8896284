/**
  A run that stops its source, for every event, route and single-attempt policy: an escalation is admitted and
  dies; the threshold is raised while the episode is open, so the same key is admitted again; it dies at
  another instant. Both cycles plan exactly what their emitter gives out, and only the threshold differs.
 */
module Readmission {
  import opened Basics
  import opened Identifiers
  import opened DeliveryConfig
  import opened Outbox
  import opened Delivery
  import opened StoreTypes
  import opened CommitManifests
  import opened Gate
  import opened Recovery
  import opened Operations
  import opened Acquisition
  import opened Cycle
  import opened Resets
  import opened Stuck
  import opened Runs
  import E = Episodes
  import opened Emitters
  import opened EngineRuns

  /** The event and its route, when it is admitted each time, and how each of its two deaths is booked. */
  datatype Story = Story(
    sid: NodeId, minted: InstanceId, event: Digest, route: Route, policy: DeliveryPolicy,
    admitted: int, first: AttemptFacts, readmitted: int, second: AttemptFacts)
  {
    /**
      Both attempts are due, fail, and are booked by a clock that does not run backwards; they differ in their
      instant.
     */
    predicate Valid() {
      && route.family == OnSource && policy.Valid() && policy.maxAttempts == 1
      && first.failure.Some? && DueAttempt(Record(admitted), first)
      && second.failure.Some? && DueAttempt(Record(readmitted), second)
      && first.at < second.at
    }

    function Key(): RecordKey {
      RecordKey(event, route.id)
    }

    function Event(): Envelope {
      Envelope(event, SourceEscalation, sid, minted, None, None)
    }

    /** The record an admission at `now` writes. */
    function Record(now: int): DeliveryRecord {
      DeliveryRecord(Event(), route.id, route.family, route.adapter, policy, [], now)
    }

    function Emission(): Emission {
      Acquisition.Emission([EventSeed(event, SourceEscalation, None)], [route], Some(policy))
    }

    /** The cycle that emits the event and leaves `facts` in the source state. */
    function Plan(facts: int, now: int): Plan {
      Acquisition.Plan(facts, now, [], Emission(), minted, 0)
    }

    function Files(generation: nat, facts: int, pending: Option<int>, letter: Option<DeadLetter>): Files {
      map[SourceStateFile := SourceStateDoc(SourceState(minted, generation, facts))]
      + (if pending.Some? then map[PendingFile(SourceOwner, Key()) := RecordDoc(Record(pending.value))] else map[])
      + (if letter.Some? then map[DeadLetterFile(SourceOwner, Key()) := LetterDoc(letter.value)] else map[])
    }

    /** The quiet source with this generation, this pending record and this dead letter, and nothing else. */
    function Disk(generation: nat, facts: int, pending: Option<int>, letter: Option<DeadLetter>): Disk {
      StoreTypes.Disk(
        Present(SourceIdentity(minted, map[])), Present(Storage(Files(generation, facts, pending, letter), Absent)),
          false, Absent)
    }
  }

  /** The source rests at this disk, staging aside. */
  ghost predicate RestsAt(disk: Disk, sid: NodeId, goal: Disk) {
    Quiet(disk, sid) && disk.storage.Present? && View(disk) == goal
  }

  /** Turn entry of a resting source is ready and shows exactly where it rests. */
  lemma RestedTurn(disk: Disk, sid: NodeId, goal: Disk, fault: Fault)
    requires RestsAt(disk, sid, goal) && fault.budget >= 9
    ensures
      var turn := TurnEntry(disk, sid, fault);
      turn.run.outcome == Done && turn.verdict == ReadyTurn && turn.run.disk == goal
        && turn.run.fault.budget >= fault.budget - 9
    ensures Quiet(goal, sid)
  {
    TurnEntryConverges(disk, sid, fault);
    TurnEntryCompletes(disk, sid, fault);
  }

  /** A drain of a resting source whose attempt finds its place completes, and the source rests at the outcome. */
  lemma RestedDrain(
    disk: Disk, sid: NodeId, goal: Disk, owner: Owner, key: RecordKey, facts: AttemptFacts, token: nat, fault: Fault)
    requires RestsAt(disk, sid, goal) && fault.budget >= 18 && goal.storage.Present?
    requires
      var a := AttemptOf(goal, sid, owner, key, facts);
      a.Attempted? && a.state.generation < U64_MAX && FindsPlace(goal.Files(), owner, a.execution)
        && StagedClear(goal.Files(), token)
    ensures RestsAt(Drain(disk, sid, owner, key, facts, token, fault).disk, sid,
      AttemptDisk(goal, owner, key, AttemptOf(goal, sid, owner, key, facts)))
  {
    RestedTurn(disk, sid, goal, fault);
    DrainIsAttempt(disk, sid, owner, key, facts, token, fault);
    AttemptCompletes(goal, sid, owner, key, facts, token, TurnEntry(disk, sid, fault).run.fault);
  }

  // ---------------------------------------------------------------- admission

  lemma StoryOffers(s: Story, pending: set<RecordKey>)
    requires s.Valid() && s.Key() !in pending
    ensures
      var offers := Offers(Envelopes(s.Emission(), s.sid, s.minted, None), s.Emission().routes);
      offers == [Offer(s.Event(), s.route)] && Unclaimed(offers, pending) == offers
  {
    StoryEnvelopes(s);
    OffersOne(s.Event(), [s.route]);
    OffersOfOne(s.Event(), s.route);
    UnclaimedOne(Offer(s.Event(), s.route), pending);
  }

  lemma StoryEnvelopes(s: Story)
    ensures Envelopes(s.Emission(), s.sid, s.minted, None) == [s.Event()]
  {
  }

  lemma StoryRecords(s: Story, files: Files, now: int)
    requires s.Valid() && PendingKeys(files, SourceOwner) == {}
    ensures RecordWrites(files, SourceOwner, s.sid, s.minted, None, s.Emission(), now)
            == Ok([Write(PendingFile(SourceOwner, s.Key()), None, RecordDoc(s.Record(now)))])
  {
    StoryOffers(s, {});
    var envelopes := Envelopes(s.Emission(), s.sid, s.minted, None);
    assert envelopes == [s.Event()];
    assert AllEnvelopesValid(envelopes);
    var offers := Offers(envelopes, s.Emission().routes);
    var records := Admitted({}, 0, offers, s.policy, now).records;
    assert |records| == 1 && records[0] == s.Record(now);
    assert records == [s.Record(now)];
    assert Installs(SourceOwner, records) == [Write(PendingFile(SourceOwner, s.Key()), None, RecordDoc(s.Record(now)))];
  }

  /** Over a source where the key is not pending, the cycle writes its record, whatever dead letter is stored. */
  lemma StoryContent(s: Story, generation: nat, facts: int, letter: Option<DeadLetter>, after: int, now: int)
    requires s.Valid() && 0 < generation < U64_MAX && Quiet(s.Disk(generation, facts, None, letter), s.sid)
    ensures
      var c := ContentOf(s.Disk(generation, facts, None, letter), s.sid, s.Plan(after, now));
      && c == Content(SourceState(s.minted, generation, facts), SourceState(s.minted, generation + 1, after),
          Planned([], [], map[], map[]),
                      [Write(PendingFile(SourceOwner, s.Key()), None, RecordDoc(s.Record(now)))])
  {
    var disk, plan := s.Disk(generation, facts, None, letter), s.Plan(after, now);
    CoherentGateFacts(disk, s.sid, Declared(plan));
    StoryCycle(s, disk.Files(), Inspect(disk, s.sid, Declared(plan)), after, now) by {
      assert PendingKeys(disk.Files(), SourceOwner) == {};
    }
  }

  /** The planning itself: no measurements, one source record. */
  lemma StoryCycle(s: Story, files: Files, inspection: Inspection, after: int, now: int)
    requires s.Valid() && PendingKeys(files, SourceOwner) == {}
    ensures PlanCycle(files, inspection, SourceIdentity(s.minted, map[]), s.sid, s.Plan(after, now))
            == Ok((Planned([], [], map[], map[]),
              [Write(PendingFile(SourceOwner, s.Key()), None, RecordDoc(s.Record(now)))]))
  {
    StoryRecords(s, files, now);
  }

  function StoryWrites(s: Story, files: Files, generation: nat, after: int, now: int): seq<Write> {
    [Write(SourceStateFile, Get(files, SourceStateFile), SourceStateDoc(SourceState(s.minted, generation + 1, after))),
     Write(PendingFile(SourceOwner, s.Key()), None, RecordDoc(s.Record(now)))]
  }

  lemma StoryFiles(s: Story, generation: nat, facts: int, letter: Option<DeadLetter>, after: int, now: int)
    ensures
      var files := s.Files(generation, facts, None, letter);
      Committed(files, WriteEntries(StoryWrites(s, files, generation, after, now), 0))
        == s.Files(generation + 1, after, Some(now), letter)
  {
    var files, pending := s.Files(generation, facts, None, letter), PendingFile(SourceOwner, s.Key());
    var writes := StoryWrites(s, files, generation, after, now);
    CommittedWrites(files, writes, 0);
    var committed, goal := Committed(files, WriteEntries(writes, 0)), s.Files(generation + 1, after, Some(now), letter);
    assert Get(committed, writes[0].final) == Some(writes[0].doc)
      && Get(committed, writes[1].final) == Some(writes[1].doc);
    forall p ensures Get(committed, p) == Get(goal, p) {
      if !p.StagedFile? && p != SourceStateFile && p != pending {
        assert Get(committed, p) == Get(files, p);
      }
    }
    SameFiles(committed, goal);
  }

  /** What that cycle commits: the record joins whatever is stored. */
  lemma StoryCycleDisk(
    s: Story, generation: nat, facts: int, letter: Option<DeadLetter>, after: int, now: int, c: Content)
    requires c == Content(SourceState(s.minted, generation, facts), SourceState(s.minted, generation + 1, after),
      Planned([], [], map[], map[]),
                          [Write(PendingFile(SourceOwner, s.Key()), None, RecordDoc(s.Record(now)))])
    ensures
      var disk := s.Disk(generation, facts, None, letter);
      && AcquisitionWrites(disk.Files(), c.next, c.planned, c.records)
          == StoryWrites(s, disk.Files(), generation, after, now)
      && ContentDisk(disk, c) == s.Disk(generation + 1, after, Some(now), letter)
  {
    StoryFiles(s, generation, facts, letter, after, now);
    assert Registered(SourceIdentity(s.minted, map[]), map[]) == SourceIdentity(s.minted, map[]);
  }

  /** The locked cycle from there completes and rests with the record pending. */
  lemma StoryCommits(
    s: Story, generation: nat, facts: int, letter: Option<DeadLetter>, after: int, now: int, fault: Fault)
    requires s.Valid() && 0 < generation < U64_MAX && Quiet(s.Disk(generation, facts, None, letter), s.sid)
      && fault.budget >= 7
    ensures
      var disk, plan := s.Disk(generation, facts, None, letter), s.Plan(after, now);
      var r := MeasureReady(disk, s.sid, Inspect(disk, s.sid, Declared(plan)), plan, fault);
      RestsAt(r.disk, s.sid, s.Disk(generation + 1, after, Some(now), letter))
  {
    var disk, plan := s.Disk(generation, facts, None, letter), s.Plan(after, now);
    StoryContent(s, generation, facts, letter, after, now);
    StoryCycleDisk(s, generation, facts, letter, after, now, ContentOf(disk, s.sid, plan));
    MeasureReadyCompletes(disk, s.sid, plan, fault);
  }

  // ---------------------------------------------------------------- the two deaths

  /** The only attempt of a record admitted at `now` fails: it dies, and its letter bears the instant. */
  lemma StoryDies(s: Story, now: int, facts: AttemptFacts) returns (letter: DeadLetter)
    requires s.Valid() && facts.failure.Some? && DueAttempt(s.Record(now), facts)
    ensures Executed(s.Record(now), facts) == Ok(Dead(letter)) && letter.Valid()
      && letter.record.SuccessorOf(s.Record(now))
    ensures |letter.record.attempts| == 1 && letter.record.attempts[0].at == facts.at
  {
    var record := s.Record(now);
    DueAttemptAccepted(record, facts);
    ExecutionFollows(record, facts);
    RecordFailureExact(record, facts.at, facts.failure.value, NextRetry(record, facts).value);
    letter := Executed(record, facts).value.letter;
  }

  /** A drain of the source where the record is pending attempts it. */
  lemma StoryAttempt(
    s: Story, generation: nat, counters: int, now: int, letter: Option<DeadLetter>, facts: AttemptFacts,
    death: DeadLetter)
    requires s.Valid() && Quiet(s.Disk(generation, counters, Some(now), letter), s.sid) && 0 < generation
    requires now <= facts.at && Executed(s.Record(now), facts) == Ok(Dead(death))
    ensures AttemptOf(s.Disk(generation, counters, Some(now), letter), s.sid, SourceOwner, s.Key(), facts)
            == Attempted(SourceState(s.minted, generation, counters), s.Record(now), Dead(death))
  {
    CoherentGateFacts(s.Disk(generation, counters, Some(now), letter), s.sid, {});
  }

  /** The first attempt finds its place and leaves the letter where the record was. */
  lemma StoryOutcome(s: Story, generation: nat, counters: int, now: int, a: Attempted, death: DeadLetter)
    requires a == Attempted(SourceState(s.minted, generation, counters), s.Record(now), Dead(death))
      && death.record.Key() == s.Key()
    ensures
      var goal := s.Disk(generation, counters, Some(now), None);
      && StagedClear(goal.Files(), 0) && FindsPlace(goal.Files(), SourceOwner, a.execution)
      && AttemptDisk(goal, SourceOwner, s.Key(), a) == s.Disk(generation + 1, counters, None, Some(death))
  {
    var files := s.Files(generation, counters, Some(now), None);
    var after, goal := OutcomeFiles(files, SourceOwner, s.Key(), SourceState(s.minted, generation + 1, counters),
      Dead(death)),
      s.Files(generation + 1, counters, None, Some(death));
    forall p ensures Get(after, p) == Get(goal, p) {}
    SameFiles(after, goal);
  }

  /** The first death completes: the letter takes the record's place. */
  lemma FirstDeath(
    s: Story, disk: Disk, generation: nat, counters: int, now: int, facts: AttemptFacts, death: DeadLetter,
    fault: Fault)
    requires RestsAt(disk, s.sid, s.Disk(generation, counters, Some(now), None)) && 0 < generation < U64_MAX
      && fault.budget >= 18
    requires AttemptOf(s.Disk(generation, counters, Some(now), None), s.sid, SourceOwner, s.Key(), facts)
             == Attempted(SourceState(s.minted, generation, counters), s.Record(now), Dead(death))
    requires death.record.Key() == s.Key()
    ensures RestsAt(Drain(disk, s.sid, SourceOwner, s.Key(), facts, 0, fault).disk, s.sid,
      s.Disk(generation + 1, counters, None, Some(death)))
  {
    var goal := s.Disk(generation, counters, Some(now), None);
    StoryOutcome(s, generation, counters, now, AttemptOf(goal, s.sid, SourceOwner, s.Key(), facts), death);
    RestedDrain(disk, s.sid, goal, SourceOwner, s.Key(), facts, 0, fault);
  }

  /** The second death, at another instant, meets the first letter and stops the source. */
  lemma SecondDeath(
    s: Story, disk: Disk, generation: nat, counters: int, now: int, letter: DeadLetter, facts: AttemptFacts,
    death: DeadLetter, fault: Fault)
    requires RestsAt(disk, s.sid, s.Disk(generation, counters, Some(now), Some(letter))) && 0 < generation < U64_MAX
      && fault.budget >= 12
    requires AttemptOf(s.Disk(generation, counters, Some(now), Some(letter)), s.sid, SourceOwner, s.Key(), facts)
             == Attempted(SourceState(s.minted, generation, counters), s.Record(now), Dead(death))
    requires death.record.Key() == s.Key() && letter != death
    ensures StuckAt(Drain(disk, s.sid, SourceOwner, s.Key(), facts, 0, fault).disk)
  {
    var goal := s.Disk(generation, counters, Some(now), Some(letter));
    RestedTurn(disk, s.sid, goal, fault);
    assert Get(goal.Files(), DeadLetterFile(SourceOwner, s.Key())) == Some(LetterDoc(letter));
    TakenPlaceCollides(disk, s.sid, SourceOwner, s.Key(), facts, 0, fault);
    DrainAtomic(disk, s.sid, SourceOwner, s.Key(), facts, 0, fault);
  }

  // ---------------------------------------------------------------- the two cycles

  /** The first cycle initialises the source and admits the record. */
  lemma FirstCycle(s: Story, fault: Fault)
    requires s.Valid() && fault.budget >= 24
    ensures
      var plan := s.Plan(1, s.admitted);
      && CycleStart(NewSource, s.sid, plan, fault).disk == s.Disk(1, 0, None, None)
      && RestsAt(Measure(NewSource, s.sid, plan, fault).disk, s.sid, s.Disk(2, 1, Some(s.admitted), None))
  {
    var plan := s.Plan(1, s.admitted);
    assert TurnEntry(NewSource, s.sid, fault) == Turn(Finish(NewSource, fault), ReadyTurn);
    InitialisationCompletes(NewSource, s.sid, plan, fault);
    FreshDiskQuiet(s.minted, s.sid);
    assert FreshDisk(s.minted).Files() == s.Files(1, 0, None, None);
    StartConverges(NewSource, s.sid, plan, fault);
    StoryCommits(s, 1, 0, None, 1, s.admitted, CycleStart(NewSource, s.sid, plan, fault).fault);
  }

  /** A later cycle admits the record again, next to its letter. */
  lemma LaterCycle(
    s: Story, disk: Disk, generation: nat, counters: int, letter: DeadLetter, after: int, now: int, fault: Fault)
    requires s.Valid() && RestsAt(disk, s.sid, s.Disk(generation, counters, None, Some(letter)))
      && 0 < generation < U64_MAX
    requires fault.budget >= 16
    ensures
      var plan := s.Plan(after, now);
      && CycleStart(disk, s.sid, plan, fault).disk == s.Disk(generation, counters, None, Some(letter))
      && RestsAt(Measure(disk, s.sid, plan, fault).disk, s.sid, s.Disk(generation + 1, after, Some(now), Some(letter)))
  {
    var plan, goal := s.Plan(after, now), s.Disk(generation, counters, None, Some(letter));
    RestedTurn(disk, s.sid, goal, fault);
    CoherentGateFacts(goal, s.sid, Declared(plan));
    StartConverges(disk, s.sid, plan, fault);
    StoryCommits(s, generation, counters, Some(letter), after, now, CycleStart(disk, s.sid, plan, fault).fault);
  }

  // ---------------------------------------------------------------- the run

  const REASON: string := "connect_failed"

  function FailedEmitter(times: nat): Emitter {
    Emitter(false, 0, E.Episodes(1, E.Health(true, Some(REASON), times, Some(0)), None))
  }

  const ESCALATION: EventKey := EpisodeEvent(E.EpisodeKey(E.Escalation, REASON, 1), 0)

  /** An engine that escalates at `threshold`; its run gives out this one escalation. */
  function EngineAt(s: Story, threshold: nat): Engine {
    Engine(
      facts => if facts == 1 then FailedEmitter(1) else if facts == 2 then FailedEmitter(2) else NEW_EMITTER,
      (owner, key) => s.event, owner => threshold, {ESCALATION})
  }

  function Failure(threshold: nat): Change {
    Troubled(E.Failed(REASON, true, 0, threshold), 0)
  }

  /** The `n`-th equal failure in a row escalates under threshold `n`, always with the key of the one episode. */
  lemma FailureCounts(n: nat)
    requires n == 1 || n == 2
    ensures
      var e := if n == 1 then NEW_EMITTER else FailedEmitter(1);
      Moved(e, E.SourceScope, Failure(n)) == FailedEmitter(n) && GivenOut(e, E.SourceScope, Failure(n)) == [ESCALATION]
  {
    var e := if n == 1 then NEW_EMITTER else FailedEmitter(1);
    assert E.Observed(e.episodes.health, REASON, true, 0, n) == Ok((FailedEmitter(n).episodes.health, true));
    assert E.AfterFailure(e.episodes, REASON, true, 0, n) == Some((FailedEmitter(n).episodes, true));
  }

  /** The first failure escalates under threshold 1. */
  lemma FirstCycleFollows(s: Story)
    ensures EngineAt(s, 1).Sound() && PlanFollows(EngineAt(s, 1), s.Files(1, 0, None, None), s.Plan(1, s.admitted))
  {
    var engine, files := EngineAt(s, 1), s.Files(1, 0, None, None);
    assert EmitterOf(engine, files, SourceOwner) == NEW_EMITTER;
    FailureCounts(1);
    assert Follows(engine, files, SourceOwner, 1, s.Emission(), Failure(1));
  }

  /** The second failure of the same episode escalates under threshold 2, with the same key. */
  lemma LaterCycleFollows(s: Story, letter: DeadLetter)
    ensures EngineAt(s, 2).Sound()
      && PlanFollows(EngineAt(s, 2), s.Files(3, 1, None, Some(letter)), s.Plan(2, s.readmitted))
  {
    var engine, files := EngineAt(s, 2), s.Files(3, 1, None, Some(letter));
    assert EmitterOf(engine, files, SourceOwner) == FailedEmitter(1);
    FailureCounts(2);
    assert Follows(engine, files, SourceOwner, 2, s.Emission(), Failure(2));
  }

  function Steps(s: Story, fault: Fault): seq<(Action, Fault)> {
    [(Acquire(s.Plan(1, s.admitted)), fault), (Deliver(SourceOwner, s.Key(), s.first, 0), fault),
     (Acquire(s.Plan(2, s.readmitted)), fault), (Deliver(SourceOwner, s.Key(), s.second, 0), fault)]
  }

  /** The source after the first `n` steps. */
  function At(s: Story, fault: Fault, n: nat): StoreTypes.Disk
    requires n <= 4
  {
    AfterAll(NewSource, s.sid, Steps(s, fault)[..n])
  }

  lemma AtStart(s: Story, fault: Fault)
    ensures At(s, fault, 1) == Measure(NewSource, s.sid, s.Plan(1, s.admitted), fault).disk
  {
    AfterLast(NewSource, s.sid, Steps(s, fault), 0);
    assert Steps(s, fault)[..0] == [];
  }

  lemma AtFirst(s: Story, fault: Fault)
    requires s.Valid() && fault.budget >= 24
    ensures RestsAt(At(s, fault, 1), s.sid, s.Disk(2, 1, Some(s.admitted), None))
  {
    AtStart(s, fault);
    FirstCycle(s, fault);
  }

  /** Each later step is the operation it names. */
  lemma AtNext(s: Story, fault: Fault, n: nat)
    requires 0 < n < 4
    ensures
      At(s, fault, n + 1) ==
      if n == 2 then Measure(At(s, fault, n), s.sid, s.Plan(2, s.readmitted), fault).disk
      else Drain(At(s, fault, n), s.sid, SourceOwner, s.Key(), if n == 1 then s.first else s.second, 0, fault).disk
  {
    AfterLast(NewSource, s.sid, Steps(s, fault), n);
  }

  /** The attempt of a drain over this resting source, and the letter it leaves. */
  lemma StoryDeath(
    s: Story, disk: Disk, generation: nat, counters: int, now: int, letter: Option<DeadLetter>, facts: AttemptFacts)
    returns (death: DeadLetter)
    requires s.Valid() && RestsAt(disk, s.sid, s.Disk(generation, counters, Some(now), letter)) && 0 < generation
    requires facts.failure.Some? && DueAttempt(s.Record(now), facts)
    ensures AttemptOf(s.Disk(generation, counters, Some(now), letter), s.sid, SourceOwner, s.Key(), facts)
            == Attempted(SourceState(s.minted, generation, counters), s.Record(now), Dead(death))
    ensures death.record.Key() == s.Key() && |death.record.attempts| == 1 && death.record.attempts[0].at == facts.at
  {
    death := StoryDies(s, now, facts);
    assert Quiet(s.Disk(generation, counters, Some(now), letter), s.sid) by {
      GoalIsQuiet(disk, s.sid);
    }
    StoryAttempt(s, generation, counters, now, letter, facts, death);
  }

  lemma AtSecond(s: Story, fault: Fault) returns (letter: DeadLetter)
    requires s.Valid() && fault.budget >= 24
    ensures RestsAt(At(s, fault, 2), s.sid, s.Disk(3, 1, None, Some(letter)))
    ensures |letter.record.attempts| == 1 && letter.record.attempts[0].at == s.first.at
  {
    AtFirst(s, fault);
    letter := StoryDeath(s, At(s, fault, 1), 2, 1, s.admitted, None, s.first);
    FirstDeath(s, At(s, fault, 1), 2, 1, s.admitted, s.first, letter, fault);
    AtNext(s, fault, 1);
  }

  lemma AtThird(s: Story, fault: Fault, letter: DeadLetter)
    requires s.Valid() && fault.budget >= 24 && RestsAt(At(s, fault, 2), s.sid, s.Disk(3, 1, None, Some(letter)))
    ensures RestsAt(At(s, fault, 3), s.sid, s.Disk(4, 2, Some(s.readmitted), Some(letter)))
  {
    LaterCycle(s, At(s, fault, 2), 3, 1, letter, 2, s.readmitted, fault);
    AtNext(s, fault, 2);
  }

  lemma AtFourth(s: Story, fault: Fault, letter: DeadLetter)
    requires s.Valid() && fault.budget >= 24
    requires RestsAt(At(s, fault, 3), s.sid, s.Disk(4, 2, Some(s.readmitted), Some(letter)))
    requires |letter.record.attempts| == 1 && letter.record.attempts[0].at == s.first.at
    ensures StuckAt(At(s, fault, 4))
  {
    var death := StoryDeath(s, At(s, fault, 3), 4, 2, s.readmitted, Some(letter), s.second);
    SecondDeath(s, At(s, fault, 3), 4, 2, s.readmitted, letter, s.second, death, fault);
    AtNext(s, fault, 3);
  }

  lemma StepsInOneLineage(s: Story, fault: Fault)
    ensures AllProper(Steps(s, fault)) && OneLineage(Steps(s, fault))
  {
  }

  lemma StuckAtTheEnd(s: Story, fault: Fault, later: Fault)
    requires StuckAt(At(s, fault, 4))
    ensures
      var end := AfterAll(NewSource, s.sid, Steps(s, fault));
      && StuckAt(end)
      && (TurnEntry(end, s.sid, later).run.outcome.Done? ==>
            TurnEntry(end, s.sid, later).verdict == UnresolvableTurn(CommitKind))
  {
    assert Steps(s, fault)[..4] == Steps(s, fault);
    StuckTurnEntry(At(s, fault, 4), s.sid, later);
  }

  /** Both cycles plan what their engine's emitters give out. */
  lemma StoryFollows(s: Story, fault: Fault, letter: DeadLetter)
    requires s.Valid() && fault.budget >= 24 && RestsAt(At(s, fault, 2), s.sid, s.Disk(3, 1, None, Some(letter)))
    ensures CycleFollows(EngineAt(s, 1), NewSource, s.sid, s.Plan(1, s.admitted), fault)
    ensures CycleFollows(EngineAt(s, 2), At(s, fault, 2), s.sid, s.Plan(2, s.readmitted), fault)
  {
    FirstCycle(s, fault);
    FirstCycleFollows(s);
    LaterCycle(s, At(s, fault, 2), 3, 1, letter, 2, s.readmitted, fault);
    LaterCycleFollows(s, letter);
  }

  /**
    Raising a threshold stops a source. From a new source, two cycles that plan exactly what their emitters
    give out and two drains of due records, all uninterrupted: the engines of the two cycles differ in the
    threshold alone, and the run ends stuck, so that every later turn entry reports the commit unresolvable.
   */
  lemma RaisedThresholdStopsSource(s: Story, fault: Fault, later: Fault)
    requires s.Valid() && fault.budget >= 24
    ensures
      var end := AfterAll(NewSource, s.sid, Steps(s, fault));
      && AllProper(Steps(s, fault)) && OneLineage(Steps(s, fault)) && EngineAt(s, 1).Sound() && EngineAt(s, 2).Sound()
      && CycleFollows(EngineAt(s, 1), NewSource, s.sid, s.Plan(1, s.admitted), fault)
      && CycleFollows(EngineAt(s, 2), At(s, fault, 2), s.sid, s.Plan(2, s.readmitted), fault)
      && StuckAt(end)
      && (TurnEntry(end, s.sid, later).run.outcome.Done? ==>
            TurnEntry(end, s.sid, later).verdict == UnresolvableTurn(CommitKind))
  {
    var letter := AtSecond(s, fault);
    AtThird(s, fault, letter);
    AtFourth(s, fault, letter);
    StoryFollows(s, fault, letter);
    FirstCycleFollows(s);
    LaterCycleFollows(s, letter);
    StepsInOneLineage(s, fault);
    StuckAtTheEnd(s, fault, later);
  }
}
