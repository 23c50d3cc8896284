/** What one drain does to a source, spelled out: which record it attempts, and what each outcome leaves on disk. */
module DrainResults {
  import opened Basics
  import opened Identifiers
  import opened DeliveryConfig
  import opened Retry
  import opened Outbox
  import opened Delivery
  import opened StoreTypes
  import opened Gate
  import opened Recovery
  import opened Operations
  import opened Runs
  import opened Stuck

  // ---------------------------------------------------------------- what a drain should do

  /** The store holds this pending record, and its retry instant has come. */
  predicate Due(disk: Disk, owner: Owner, key: RecordKey, at: int) {
    && disk.storage.Present? && PendingFile(owner, key) in disk.Files()
    && disk.Files()[PendingFile(owner, key)].RecordDoc?
    && disk.Files()[PendingFile(owner, key)].record.nextRetryAt <= at
  }

  /** The delay and jitter window of a record's next attempt. */
  predicate Backoff(record: DeliveryRecord, delay: int, window: int) {
    && delay == Min(record.policy.baseBackoffMs * Pow2(|record.attempts|), record.policy.maxBackoffMs)
    && window == (delay as real * record.policy.jitterRatio).Floor
  }

  function RetryInstant(facts: AttemptFacts, delay: int, window: int): int {
    facts.clock + (delay + facts.hash % (2 * window + 1) - window) * NANOS_PER_MILLI
  }

  /** The failed attempt cannot be booked. */
  predicate Unbookable(record: DeliveryRecord, facts: AttemptFacts, retryAt: int) {
    facts.failure.Some? &&
    (retryAt > LAST_INSTANT || retryAt < facts.at || !facts.failure.value.wellFormed
     || (record.attempts != [] && facts.at < record.attempts[|record.attempts| - 1].at))
  }

  /** The record with one more failed attempt. */
  function WithFailure(record: DeliveryRecord, facts: AttemptFacts, retryAt: int): DeliveryRecord
    requires facts.failure.Some?
  {
    record.(attempts := record.attempts + [Attempt(|record.attempts| + 1, facts.at, facts.failure.value)],
      nextRetryAt := retryAt)
  }

  /** It was the last attempt the policy allows, and it failed. */
  predicate Dies(record: DeliveryRecord, facts: AttemptFacts) {
    facts.failure.Some? && |record.attempts| + 1 == record.policy.maxAttempts
  }

  /**
    The files after one attempt: a delivered record is gone, a failed one has one more attempt, a dead one is a
    dead letter instead. The source's state moves to the next generation, and nothing else changes.
   */
  ghost predicate FilesDrained(
    before: Files, after: Files, owner: Owner, record: DeliveryRecord, facts: AttemptFacts, retryAt: int)
  {
    var pending, dead := PendingFile(owner, record.Key()), DeadLetterFile(owner, record.Key());
    && SourceStateFile in before && before[SourceStateFile].SourceStateDoc?
    && Get(after, SourceStateFile)
       == Some(SourceStateDoc(before[SourceStateFile].source.(
                                generation := before[SourceStateFile].source.generation + 1)))
    && Get(after, pending)
       == (if facts.failure.None? || Dies(record, facts) then None
           else Some(RecordDoc(WithFailure(record, facts, retryAt))))
    && Get(after, dead)
       == (if Dies(record, facts)
           then Some(LetterDoc(DeadLetter(WithFailure(record, facts, retryAt), |record.attempts| + 1)))
           else Get(before, dead))
    && forall p: Path :: !p.StagedFile? && p != SourceStateFile && p != pending && p != dead ==>
        Get(after, p) == Get(before, p)
  }

  ghost predicate Drained(
    before: Disk, after: Disk, owner: Owner, key: RecordKey, facts: AttemptFacts, retryAt: int)
  {
    && Due(before, owner, key, facts.at)
    && after.identity == before.identity && after.storage.Present?
    && FilesDrained(before.Files(), after.Files(), owner, before.Files()[PendingFile(owner, key)].record, facts,
                    retryAt)
    && after.storage.value.commit == Absent && after.lineage == Absent && !after.tombstone
  }

  // ---------------------------------------------------------------- what the attempt is

  /** The outcome the attempt has, when it can be booked. */
  function OutcomeOf(record: DeliveryRecord, facts: AttemptFacts, retryAt: int): Execution {
    if facts.failure.None? then Delivered
    else if Dies(record, facts) then Dead(DeadLetter(WithFailure(record, facts, retryAt), |record.attempts| + 1))
    else Retry(WithFailure(record, facts, retryAt))
  }

  lemma ExecutedSpelledOut(record: DeliveryRecord, facts: AttemptFacts, delay: int, window: int)
    requires record.ValidPending() && Backoff(record, delay, window)
    ensures
      var retryAt := RetryInstant(facts, delay, window);
      Executed(record, facts)
        == if Unbookable(record, facts, retryAt) then Err else Ok(OutcomeOf(record, facts, retryAt))
  {
    ExecutionExact(record, facts, delay, window);
  }

  /** Over a quiet store, exactly a due record is attempted, of whatever emitter it is. */
  lemma DueIsAttempted(disk: Disk, sid: NodeId, owner: Owner, key: RecordKey, facts: AttemptFacts)
    requires Quiet(disk, sid)
    ensures Due(disk, owner, key, facts.at) ==>
      disk.identity.Present? && disk.Files()[PendingFile(owner, key)].record.ValidPending()
      && disk.Files()[PendingFile(owner, key)].record.Key() == key
      && SourceStateFile in disk.Files() && disk.Files()[SourceStateFile].SourceStateDoc?
    ensures
      AttemptOf(disk, sid, owner, key, facts) ==
      if Due(disk, owner, key, facts.at) && Executed(disk.Files()[PendingFile(owner, key)].record, facts).Ok? then
        Attempted(disk.Files()[SourceStateFile].source, disk.Files()[PendingFile(owner, key)].record,
                  Executed(disk.Files()[PendingFile(owner, key)].record, facts).value)
      else NoAttempt
  {
    if Due(disk, owner, key, facts.at) {
      assert disk.identity.Present?;
      CoherentGateFacts(disk, sid, if owner.MeasurementOwner? then {owner.id} else {});
      assert FileFits(PendingFile(owner, key), disk.Files()[PendingFile(owner, key)], disk.identity.value, sid);
    }
  }

  lemma OutcomeFilesDrained(
    files: Files, owner: Owner, record: DeliveryRecord, facts: AttemptFacts, retryAt: int, next: SourceState)
    requires SourceStateFile in files && files[SourceStateFile].SourceStateDoc?
    requires next == files[SourceStateFile].source.(generation := files[SourceStateFile].source.generation + 1)
    ensures
      var outcome := OutcomeOf(record, facts, retryAt);
      FilesDrained(files, OutcomeFiles(files, owner, record.Key(), next, outcome), owner, record, facts, retryAt)
  {
    if facts.failure.None? {
    } else if Dies(record, facts) {
    } else {
    }
  }

  /** The disk of an attempt's outcome is the drained one. */
  lemma OutcomeIsDrained(disk: Disk, sid: NodeId, owner: Owner, key: RecordKey, facts: AttemptFacts, retryAt: int)
    requires Quiet(disk, sid) && Due(disk, owner, key, facts.at)
    ensures
      var record := disk.Files()[PendingFile(owner, key)].record;
      SourceStateFile in disk.Files() && disk.Files()[SourceStateFile].SourceStateDoc?
      && Drained(disk, OutcomeDisk(disk, owner, key, Advanced(disk.Files()[SourceStateFile].source),
                                   OutcomeOf(record, facts, retryAt)), owner, key, facts, retryAt)
  {
    DueIsAttempted(disk, sid, owner, key, facts);
    OutcomeFilesDrained(disk.Files(), owner, disk.Files()[PendingFile(owner, key)].record, facts, retryAt,
      Advanced(disk.Files()[SourceStateFile].source));
  }

  lemma DrainedFromView(
    before: Disk, after: Disk, owner: Owner, key: RecordKey, facts: AttemptFacts, retryAt: int)
    requires Drained(before, after, owner, key, facts, retryAt)
    ensures Drained(View(before), after, owner, key, facts, retryAt)
  {
  }

  // ---------------------------------------------------------------- the drain

  /** What a drain finds after its turn entry is what the source stood for. */
  lemma TurnShowsGoal(disk: Disk, sid: NodeId, owner: Owner, key: RecordKey, facts: AttemptFacts, fault: Fault)
    requires Recoverable(disk, sid) && TurnEntry(disk, sid, fault).run.outcome.Done?
    ensures
      var before, goal := TurnEntry(disk, sid, fault).run.disk, Goal(disk, sid);
      && Quiet(before, sid) && View(before) == goal && TurnEntry(disk, sid, fault).verdict == ReadyTurn
      && (Due(before, owner, key, facts.at) <==> Due(goal, owner, key, facts.at))
      && (Due(goal, owner, key, facts.at) ==>
            before.Files()[PendingFile(owner, key)] == goal.Files()[PendingFile(owner, key)])
  {
    TurnEntryConverges(disk, sid, fault);
  }

  /** An attempt's disk, seen from what the source stood for. */
  lemma AttemptIsDrained(
    disk: Disk, sid: NodeId, owner: Owner, key: RecordKey, facts: AttemptFacts, delay: int, window: int)
    requires Quiet(disk, sid) && AttemptOf(disk, sid, owner, key, facts).Attempted? && disk.storage.Present?
    requires Due(disk, owner, key, facts.at) ==>
      Backoff(disk.Files()[PendingFile(owner, key)].record, delay, window)
    ensures
      var a, retryAt := AttemptOf(disk, sid, owner, key, facts), RetryInstant(facts, delay, window);
      && Due(disk, owner, key, facts.at) && a.execution == OutcomeOf(a.prior, facts, retryAt)
      && Drained(View(disk), AttemptDisk(disk, owner, key, a), owner, key, facts, retryAt)
  {
    var retryAt := RetryInstant(facts, delay, window);
    DueIsAttempted(disk, sid, owner, key, facts);
    ExecutedSpelledOut(disk.Files()[PendingFile(owner, key)].record, facts, delay, window);
    OutcomeIsDrained(disk, sid, owner, key, facts, retryAt);
    DrainedFromView(disk, AttemptDisk(disk, owner, key, AttemptOf(disk, sid, owner, key, facts)), owner, key, facts,
      retryAt);
  }

  /** A completed attempt leaves its outcome. */
  lemma CompletedAttempt(
    disk: Disk, sid: NodeId, owner: Owner, key: RecordKey, facts: AttemptFacts, token: nat, fault: Fault)
    requires Quiet(disk, sid) && AttemptOf(disk, sid, owner, key, facts).Attempted? && disk.storage.Present?
    requires
      var a := AttemptOf(disk, sid, owner, key, facts);
      CommitDelivery(disk, sid, a.state, owner, a.prior, a.execution, token, fault).outcome.Done?
    ensures
      var a := AttemptOf(disk, sid, owner, key, facts);
      var r := CommitDelivery(disk, sid, a.state, owner, a.prior, a.execution, token, fault);
      Recoverable(r.disk, sid) && Goal(r.disk, sid) == AttemptDisk(disk, owner, key, a)
  {
    var a := AttemptOf(disk, sid, owner, key, facts);
    AttemptSound(disk, sid, owner, key, facts);
    if a.state.generation >= U64_MAX {
      ExhaustedGeneration(disk, sid, a.state, owner, a.prior, a.execution, token, fault);
    } else if FindsPlace(disk.Files(), owner, a.execution) {
      DeliveryCommitAtomic(disk, sid, a.state, owner, a.prior, a.execution, token, fault);
    } else {
      CollisionExact(disk, sid, a.state, owner, a.prior, a.execution.letter, token, fault);
    }
  }

  /** An attempt over a quiet store: the source as it was, or drained; drained when it completes. */
  lemma AttemptExact(
    disk: Disk, sid: NodeId, owner: Owner, key: RecordKey, facts: AttemptFacts, token: nat, fault: Fault, delay: int,
    window: int)
    requires Quiet(disk, sid) && AttemptOf(disk, sid, owner, key, facts).Attempted? && disk.storage.Present?
    requires Due(disk, owner, key, facts.at) ==>
      Backoff(disk.Files()[PendingFile(owner, key)].record, delay, window)
    ensures
      var a, retryAt := AttemptOf(disk, sid, owner, key, facts), RetryInstant(facts, delay, window);
      var r := CommitDelivery(disk, sid, a.state, owner, a.prior, a.execution, token, fault);
      if Collision(disk, owner, a, token, fault) then StuckAt(r.disk)
      else
        && Recoverable(r.disk, sid)
        && (Goal(r.disk, sid) == View(disk) || Drained(View(disk), Goal(r.disk, sid), owner, key, facts, retryAt))
        && (r.outcome.Done? ==> Drained(View(disk), Goal(r.disk, sid), owner, key, facts, retryAt))
  {
    var a := AttemptOf(disk, sid, owner, key, facts);
    AttemptAtomic(disk, sid, owner, key, facts, token, fault);
    AttemptIsDrained(disk, sid, owner, key, facts, delay, window);
    if CommitDelivery(disk, sid, a.state, owner, a.prior, a.execution, token, fault).outcome.Done? {
      CompletedAttempt(disk, sid, owner, key, facts, token, fault);
    }
  }

  /** A drain of a record that is not due is done at once; one that cannot be booked is refused. */
  lemma DrainWithoutAttempt(
    disk: Disk, sid: NodeId, owner: Owner, key: RecordKey, facts: AttemptFacts, token: nat, fault: Fault)
    requires Recoverable(disk, sid) && TurnEntry(disk, sid, fault).run.outcome.Done?
    requires AttemptOf(TurnEntry(disk, sid, fault).run.disk, sid, owner, key, facts).NoAttempt?
    ensures
      var before, r := TurnEntry(disk, sid, fault).run.disk, Drain(disk, sid, owner, key, facts, token, fault);
      r.disk == before && r.outcome == if Due(before, owner, key, facts.at) then Failed else Done
  {
    TurnShowsGoal(disk, sid, owner, key, facts, fault);
    var before := TurnEntry(disk, sid, fault).run.disk;
    DueIsAttempted(before, sid, owner, key, facts);
    if before.identity.Present? {
      CoherentGateFacts(before, sid, if owner.MeasurementOwner? then {owner.id} else {});
      if Due(before, owner, key, facts.at) {
        assert FileFits(PendingFile(owner, key), before.Files()[PendingFile(owner, key)], before.identity.value, sid);
      }
    }
  }

  /**
    A drain from any recoverable store, exactly. Unless its record dies at a taken place, the source stands for what
    it stood for or for that with its one due record attempted; completed, for the latter if there was one.
   */
  lemma DrainExact(
    disk: Disk, sid: NodeId, owner: Owner, key: RecordKey, facts: AttemptFacts, token: nat, fault: Fault, delay: int,
    window: int)
    requires Recoverable(disk, sid)
    requires Due(Goal(disk, sid), owner, key, facts.at) ==>
      Backoff(Goal(disk, sid).Files()[PendingFile(owner, key)].record, delay, window)
    ensures
      var r, goal := Drain(disk, sid, owner, key, facts, token, fault), Goal(disk, sid);
      var retryAt := RetryInstant(facts, delay, window);
      if DrainCollides(disk, sid, owner, key, facts, token, fault) then StuckAt(r.disk)
      else
        && Recoverable(r.disk, sid)
        && (Goal(r.disk, sid) == goal || Drained(goal, Goal(r.disk, sid), owner, key, facts, retryAt))
        && (r.outcome.Done? ==>
              if Due(goal, owner, key, facts.at) then Drained(goal, Goal(r.disk, sid), owner, key, facts, retryAt)
              else Goal(r.disk, sid) == goal)
  {
    var turn := TurnEntry(disk, sid, fault).run;
    if turn.outcome.Done? {
      TurnShowsGoal(disk, sid, owner, key, facts, fault);
      if AttemptOf(turn.disk, sid, owner, key, facts).Attempted? {
        DrainIsAttempt(disk, sid, owner, key, facts, token, fault);
        AttemptExact(turn.disk, sid, owner, key, facts, token, turn.fault, delay, window);
      } else {
        DrainWithoutAttempt(disk, sid, owner, key, facts, token, fault);
        TurnEntryConverges(disk, sid, fault);
      }
    } else {
      TurnEntryConverges(disk, sid, fault);
    }
  }

  /** Another letter is stored where this record would have to go. */
  predicate PlaceTaken(disk: Disk, owner: Owner, key: RecordKey, facts: AttemptFacts, retryAt: int)
    requires Due(disk, owner, key, facts.at)
  {
    var record, dead := disk.Files()[PendingFile(owner, key)].record, DeadLetterFile(owner, key);
    Dies(record, facts) && dead in disk.Files()
      && disk.Files()[dead] != LetterDoc(DeadLetter(WithFailure(record, facts, retryAt), |record.attempts| + 1))
  }

  /** The last generation is reached, or the failed attempt cannot be booked. */
  predicate Refuses(disk: Disk, owner: Owner, key: RecordKey, facts: AttemptFacts, retryAt: int)
    requires Due(disk, owner, key, facts.at)
  {
    || Unbookable(disk.Files()[PendingFile(owner, key)].record, facts, retryAt)
    || (SourceStateFile in disk.Files() && disk.Files()[SourceStateFile].SourceStateDoc?
        && disk.Files()[SourceStateFile].source.generation >= U64_MAX)
  }

  /** A death at a taken place, with unused names and nine steps, sticks the source. */
  lemma AttemptSticks(
    disk: Disk, sid: NodeId, owner: Owner, key: RecordKey, facts: AttemptFacts, token: nat, fault: Fault)
    requires Quiet(disk, sid) && AttemptOf(disk, sid, owner, key, facts).Attempted? && disk.storage.Present?
    requires StagedClear(disk.Files(), token) && fault.budget >= 9
    requires
      var a := AttemptOf(disk, sid, owner, key, facts);
      a.state.generation < U64_MAX && !FindsPlace(disk.Files(), owner, a.execution)
    ensures
      var a := AttemptOf(disk, sid, owner, key, facts);
      var r := CommitDelivery(disk, sid, a.state, owner, a.prior, a.execution, token, fault);
      r.outcome != Done && StuckAt(r.disk)
  {
    var a := AttemptOf(disk, sid, owner, key, facts);
    AttemptSound(disk, sid, owner, key, facts);
    DeliveryStages(disk, sid, a.state, a.execution, token, fault);
    CollisionExact(disk, sid, a.state, owner, a.prior, a.execution.letter, token, fault);
  }

  /** What an accepted attempt can still meet: an exhausted generation, or a taken place. */
  lemma AttemptConditions(
    disk: Disk, sid: NodeId, owner: Owner, key: RecordKey, facts: AttemptFacts, delay: int, window: int)
    requires Quiet(disk, sid) && AttemptOf(disk, sid, owner, key, facts).Attempted? && disk.storage.Present?
    requires Due(disk, owner, key, facts.at) ==>
      Backoff(disk.Files()[PendingFile(owner, key)].record, delay, window)
    ensures Due(disk, owner, key, facts.at)
    ensures
      var a, retryAt := AttemptOf(disk, sid, owner, key, facts), RetryInstant(facts, delay, window);
      && (Refuses(disk, owner, key, facts, retryAt) <==> a.state.generation >= U64_MAX)
      && (PlaceTaken(disk, owner, key, facts, retryAt) <==> !FindsPlace(disk.Files(), owner, a.execution))
  {
    DueIsAttempted(disk, sid, owner, key, facts);
    ExecutedSpelledOut(disk.Files()[PendingFile(owner, key)].record, facts, delay, window);
  }

  /** An attempt over a quiet store with unused names and nine steps: refused, stuck, or drained. */
  lemma AttemptOutcomes(
    disk: Disk, sid: NodeId, owner: Owner, key: RecordKey, facts: AttemptFacts, token: nat, fault: Fault, delay: int,
    window: int)
    requires Quiet(disk, sid) && AttemptOf(disk, sid, owner, key, facts).Attempted? && disk.storage.Present?
    requires StagedClear(disk.Files(), token) && fault.budget >= 9
    requires Due(disk, owner, key, facts.at) ==>
      Backoff(disk.Files()[PendingFile(owner, key)].record, delay, window)
    ensures Due(disk, owner, key, facts.at)
    ensures
      var a, retryAt := AttemptOf(disk, sid, owner, key, facts), RetryInstant(facts, delay, window);
      var r := CommitDelivery(disk, sid, a.state, owner, a.prior, a.execution, token, fault);
      if Refuses(disk, owner, key, facts, retryAt) then r.outcome == Failed && r.disk == disk
      else if PlaceTaken(disk, owner, key, facts, retryAt) then r.outcome != Done && StuckAt(r.disk)
      else r.outcome == Done
  {
    var a, retryAt := AttemptOf(disk, sid, owner, key, facts), RetryInstant(facts, delay, window);
    AttemptConditions(disk, sid, owner, key, facts, delay, window);
    if a.state.generation >= U64_MAX {
      ExhaustedGeneration(disk, sid, a.state, owner, a.prior, a.execution, token, fault);
    } else if FindsPlace(disk.Files(), owner, a.execution) {
      AttemptCompletes(disk, sid, owner, key, facts, token, fault);
    } else {
      AttemptSticks(disk, sid, owner, key, facts, token, fault);
    }
  }

  /** The conditions do not see staging. */
  lemma SameConditions(disk: Disk, owner: Owner, key: RecordKey, facts: AttemptFacts, retryAt: int)
    requires Due(disk, owner, key, facts.at)
    ensures Due(View(disk), owner, key, facts.at)
    ensures Refuses(View(disk), owner, key, facts, retryAt) <==> Refuses(disk, owner, key, facts, retryAt)
    ensures PlaceTaken(View(disk), owner, key, facts, retryAt) <==> PlaceTaken(disk, owner, key, facts, retryAt)
  {
  }

  /** The same, seen from what the source stood for. */
  lemma AttemptFinishes(
    disk: Disk, sid: NodeId, owner: Owner, key: RecordKey, facts: AttemptFacts, token: nat, fault: Fault, delay: int,
    window: int)
    requires Quiet(disk, sid) && AttemptOf(disk, sid, owner, key, facts).Attempted? && disk.storage.Present?
    requires StagedClear(disk.Files(), token) && fault.budget >= 9
    requires Due(disk, owner, key, facts.at) ==>
      Backoff(disk.Files()[PendingFile(owner, key)].record, delay, window)
    ensures Due(View(disk), owner, key, facts.at)
    ensures
      var a, retryAt := AttemptOf(disk, sid, owner, key, facts), RetryInstant(facts, delay, window);
      var r := CommitDelivery(disk, sid, a.state, owner, a.prior, a.execution, token, fault);
      if Refuses(View(disk), owner, key, facts, retryAt) then r.outcome == Failed && r.disk == disk
      else if PlaceTaken(View(disk), owner, key, facts, retryAt) then StuckAt(r.disk)
      else
        && r.outcome == Done && Recoverable(r.disk, sid)
        && Drained(View(disk), Goal(r.disk, sid), owner, key, facts, retryAt)
  {
    var a, retryAt := AttemptOf(disk, sid, owner, key, facts), RetryInstant(facts, delay, window);
    AttemptOutcomes(disk, sid, owner, key, facts, token, fault, delay, window);
    SameConditions(disk, owner, key, facts, retryAt);
    if CommitDelivery(disk, sid, a.state, owner, a.prior, a.execution, token, fault).outcome.Done? {
      CompletedAttempt(disk, sid, owner, key, facts, token, fault);
      AttemptIsDrained(disk, sid, owner, key, facts, delay, window);
    }
  }

  /** A drain that attempts nothing: not due, or not to be booked. */
  lemma NothingAttempted(
    disk: Disk, sid: NodeId, owner: Owner, key: RecordKey, facts: AttemptFacts, token: nat, fault: Fault, delay: int,
    window: int)
    requires Recoverable(disk, sid) && TurnEntry(disk, sid, fault).run.outcome.Done?
    requires AttemptOf(TurnEntry(disk, sid, fault).run.disk, sid, owner, key, facts).NoAttempt?
    requires Due(Goal(disk, sid), owner, key, facts.at) ==>
      Backoff(Goal(disk, sid).Files()[PendingFile(owner, key)].record, delay, window)
    ensures
      var r, goal := Drain(disk, sid, owner, key, facts, token, fault), Goal(disk, sid);
      && View(r.disk) == goal
      && (if Due(goal, owner, key, facts.at)
          then r.outcome == Failed && Refuses(goal, owner, key, facts, RetryInstant(facts, delay, window))
          else r.outcome == Done)
  {
    TurnShowsGoal(disk, sid, owner, key, facts, fault);
    var before := TurnEntry(disk, sid, fault).run.disk;
    DrainWithoutAttempt(disk, sid, owner, key, facts, token, fault);
    if Due(before, owner, key, facts.at) {
      DueIsAttempted(before, sid, owner, key, facts);
      ExecutedSpelledOut(before.Files()[PendingFile(owner, key)].record, facts, delay, window);
    }
  }

  /**
    An uncut drain, exactly. A record that is not there or not due is left alone. A due one is refused if its
    failure cannot be booked or the generation has no successor; it sticks the source if it dies where another
    letter is stored; and otherwise it is attempted and its outcome committed.
   */
  lemma DrainCompletes(
    disk: Disk, sid: NodeId, owner: Owner, key: RecordKey, facts: AttemptFacts, token: nat, fault: Fault, delay: int,
    window: int)
    requires Recoverable(disk, sid) && fault.budget >= StepBound(disk) + 9
    requires
      var before := TurnEntry(disk, sid, fault).run.disk;
      before.storage.Present? ==> StagedClear(before.Files(), token)
    requires Due(Goal(disk, sid), owner, key, facts.at) ==>
      Backoff(Goal(disk, sid).Files()[PendingFile(owner, key)].record, delay, window)
    ensures
      var r, goal := Drain(disk, sid, owner, key, facts, token, fault), Goal(disk, sid);
      var retryAt := RetryInstant(facts, delay, window);
      if !Due(goal, owner, key, facts.at) then r.outcome == Done && View(r.disk) == goal
      else if Refuses(goal, owner, key, facts, retryAt) then r.outcome == Failed && View(r.disk) == goal
      else if PlaceTaken(goal, owner, key, facts, retryAt) then StuckAt(r.disk)
      else
        && r.outcome == Done && Recoverable(r.disk, sid)
        && Drained(goal, Goal(r.disk, sid), owner, key, facts, retryAt)
  {
    TurnEntryCompletes(disk, sid, fault);
    TurnShowsGoal(disk, sid, owner, key, facts, fault);
    var turn := TurnEntry(disk, sid, fault).run;
    if AttemptOf(turn.disk, sid, owner, key, facts).Attempted? {
      DrainIsAttempt(disk, sid, owner, key, facts, token, fault);
      AttemptFinishes(turn.disk, sid, owner, key, facts, token, turn.fault, delay, window);
    } else {
      NothingAttempted(disk, sid, owner, key, facts, token, fault, delay, window);
    }
  }

  // ---------------------------------------------------------------- the manifest a cut drain leaves

  /** The manifest of a delivery commit: it touches its own emitter's measurement and adds nothing. */
  predicate DeliversFor(m: CommitManifest, identity: SourceIdentity, sid: NodeId, owner: Owner) {
    && m.sourceId == sid && m.sourceInstance == identity.instance && m.cause == DeliveryResult && m.additions == map[]
    && match owner
       case SourceOwner => m.touched == map[]
       case MeasurementOwner(id) =>
         id in identity.measurements && m.touched == map[id := identity.measurements[id].instance]
  }

  lemma ConclusionLeavesManifest(
    disk: Disk, sid: NodeId, next: SourceState, owner: Owner, entries: seq<Operation>, fault: Fault)
    requires disk.storage.Present? && disk.storage.value.commit.Absent? && disk.identity.Present?
    requires next.instance == disk.identity.value.instance
    ensures
      var r := ConcludeDelivery(disk, sid, next, owner, entries, fault).disk;
      r.storage.Present?
        && (r.storage.value.commit.Present? ==>
              DeliversFor(r.storage.value.commit.value, disk.identity.value, sid, owner))
  {
    if Touched(disk, owner).Ok? {
      CommitLeavesManifest(disk, sid,
        CommitManifest(sid, next.instance, next.generation, Touched(disk, owner).value, map[], DeliveryResult, entries),
        fault);
    }
  }

  /** Cut or not, a delivery commit over a quiet store leaves no commit manifest but its own. */
  lemma DeliveryManifestSpelledOut(
    disk: Disk, sid: NodeId, state: SourceState, owner: Owner, prior: DeliveryRecord, execution: Execution, token: nat,
    fault: Fault)
    requires DeliveryDue(disk, sid, state, owner, prior, execution)
    ensures
      var r := CommitDelivery(disk, sid, state, owner, prior, execution, token, fault).disk;
      r.storage.Present?
        && (r.storage.value.commit.Present? ==>
              DeliversFor(r.storage.value.commit.value, disk.identity.value, sid, owner))
  {
    PendingPassesChecks(disk, sid, state, owner, prior, execution);
    CommitDeliveryUnfolds(disk, sid, state, owner, prior, execution, token, fault);
    DeliveryStages(disk, sid, state, execution, token, fault);
    var staged := StageDelivery(disk, state, execution, token, fault);
    if staged.outcome.Done? {
      ConclusionLeavesManifest(staged.disk, sid, Advanced(state), owner,
        [SourceInstall(disk.Files(), token, Advanced(state))]
          + OutcomeEntries(owner, prior, RecordDoc(prior), execution, token + 1), staged.fault);
    }
  }
}
