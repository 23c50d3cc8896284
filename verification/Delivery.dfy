/** One delivery attempt: its bookkeeping, its outcome, and the life of a record over attempts. */
module Delivery {
  import opened Basics
  import opened Retry
  import opened Outbox

  datatype Execution = Delivered | Retry(record: DeliveryRecord) | Dead(letter: DeadLetter)

  /**
    Everything one attempt learns from outside: when it started, the adapter's failure if any, the
    clock read afterwards, and the key digest prefix. The adapter itself is arbitrary.
   */
  datatype AttemptFacts = AttemptFacts(at: int, failure: Option<Failure>, clock: int, hash: nat)

  /** `record_failure`: checks, one appended attempt, and the common validation of the result. */
  function RecordFailure(record: DeliveryRecord, at: int, failure: Failure, retryAt: int): Result<DeliveryRecord> {
    if !record.ValidPending() || retryAt < at || !failure.wellFormed then Err else
      var next := record.(attempts := record.attempts + [Attempt(|record.attempts| + 1, at, failure)],
        nextRetryAt := retryAt);
      if next.ValidCommon() then Ok(next) else Err
  }

  function IntoDeadLetter(record: DeliveryRecord): Result<DeadLetter> {
    if record.ValidCommon() && |record.attempts| == record.policy.maxAttempts
    then Ok(DeadLetter(record, |record.attempts|)) else Err
  }

  /** The retry instant the backoff assigns to the next attempt of this record. */
  function NextRetry(record: DeliveryRecord, facts: AttemptFacts): Result<int> {
    RetryAt(record.envelope.eventId, facts.hash, |record.attempts| + 1, record.policy, facts.clock)
  }

  /** What an attempt produces, as a value. */
  function Executed(record: DeliveryRecord, facts: AttemptFacts): Result<Execution> {
    if !record.ValidPending() then Err
    else if facts.failure.None? then Ok(Delivered)
    else
      var retryAt := NextRetry(record, facts);
      if retryAt.Err? then Err else
        var failed := RecordFailure(record, facts.at, facts.failure.value, retryAt.value);
        if failed.Err? then Err
        else if |record.attempts| + 1 == record.policy.maxAttempts then
          var letter := IntoDeadLetter(failed.value);
          if letter.Err? then Err else Ok(Dead(letter.value))
        else Ok(Retry(failed.value))
  }

  /** `execute_delivery_attempt_with_clock`: the record is updated in place, then classified. */
  method ExecuteDeliveryAttempt(record: DeliveryRecord, facts: AttemptFacts) returns (result: Result<Execution>)
    ensures result == Executed(record, facts)
  {
    if !record.ValidPending() {
      return Err;
    }
    if facts.failure.None? {
      return Ok(Delivered);
    }
    var attempt := |record.attempts| + 1;
    var retryAt := RetryAt(record.envelope.eventId, facts.hash, attempt, record.policy, facts.clock);
    if retryAt.Err? {
      return Err;
    }
    var updated := RecordFailure(record, facts.at, facts.failure.value, retryAt.value);
    if updated.Err? {
      return Err;
    }
    if attempt == record.policy.maxAttempts {
      var letter := IntoDeadLetter(updated.value);
      return if letter.Err? then Err else Ok(Dead(letter.value));
    }
    return Ok(Retry(updated.value));
  }

  /** The instant before which the next attempt may not be dated: the latest recorded one. */
  predicate NotBeforeHistory(record: DeliveryRecord, at: int) {
    record.attempts == [] || record.attempts[|record.attempts| - 1].at <= at
  }

  /** `record_failure` rejects exactly a non-pending record, a backward instant or bad evidence. */
  lemma RecordFailureExact(record: DeliveryRecord, at: int, failure: Failure, retryAt: int)
    ensures RecordFailure(record, at, failure, retryAt).Ok? <==>
            record.ValidPending() && at <= retryAt && failure.wellFormed && NotBeforeHistory(record, at)
    ensures RecordFailure(record, at, failure, retryAt).Ok? ==>
              var next := RecordFailure(record, at, failure, retryAt).value;
              && next.SuccessorOf(record) && next.ValidCommon() && next.nextRetryAt == retryAt
              && next.attempts[|record.attempts|] == Attempt(|record.attempts| + 1, at, failure)
  {
    var added := Attempt(|record.attempts| + 1, at, failure);
    var next := record.(attempts := record.attempts + [added], nextRetryAt := retryAt);
    assert next.attempts[|record.attempts|] == added;
    if record.ValidPending() && at <= retryAt && failure.wellFormed && NotBeforeHistory(record, at) {
      forall i, j | 0 <= i <= j < |next.attempts| ensures next.attempts[i].at <= next.attempts[j].at {
        if i < |record.attempts| {
          assert record.attempts[i].at <= record.attempts[|record.attempts| - 1].at;
        }
      }
      assert next.ValidHistory();
    }
    if next.ValidCommon() && record.attempts != [] {
      assert next.attempts[|record.attempts| - 1].at <= next.attempts[|record.attempts|].at;
    }
  }

  /**
    The whole attempt, exactly. A success delivers. A failure is booked unless its retry instant would be
    past the last one or before the attempt, or the attempt's instant or evidence is bad; booked, it adds one
    attempt with the next number, and waits for the base delay doubled once per earlier attempt, capped and
    moved by the jitter. At the cap the same record becomes the dead letter.
   */
  lemma ExecutionExact(record: DeliveryRecord, facts: AttemptFacts, delay: int, window: int)
    requires record.ValidPending()
    requires delay == Min(record.policy.baseBackoffMs * Pow2(|record.attempts|), record.policy.maxBackoffMs)
    requires window == (delay as real * record.policy.jitterRatio).Floor
    ensures 0 <= window <= delay
    ensures
      var n := |record.attempts|;
      var retryAt := facts.clock + (delay + facts.hash % (2 * window + 1) - window) * NANOS_PER_MILLI;
      Executed(record, facts) ==
      if facts.failure.None? then Ok(Delivered)
      else if retryAt > LAST_INSTANT || retryAt < facts.at || !facts.failure.value.wellFormed
        || (n > 0 && facts.at < record.attempts[n - 1].at) then Err
      else
        var booked := record.(attempts := record.attempts + [Attempt(n + 1, facts.at, facts.failure.value)],
          nextRetryAt := retryAt);
        Ok(if n + 1 == record.policy.maxAttempts then Dead(DeadLetter(booked, n + 1)) else Retry(booked))
  {
    RetryAtSpelled(record.envelope.eventId, facts.hash, |record.attempts|, record.policy, facts.clock, delay, window);
    if facts.failure.Some? && NextRetry(record, facts).Ok? {
      RecordFailureExact(record, facts.at, facts.failure.value, NextRetry(record, facts).value);
    }
  }

  /** A retry is again a valid pending record one attempt longer, and a death carries a valid letter. */
  lemma ExecutionFollows(record: DeliveryRecord, facts: AttemptFacts)
    requires record.ValidPending() && Executed(record, facts).Ok?
    ensures
      match Executed(record, facts).value
      case Delivered => facts.failure.None?
      case Retry(next) =>
        && next.ValidPending()
        && next.SuccessorOf(record)
        && |next.attempts| < record.policy.maxAttempts
      case Dead(letter) =>
        && letter.Valid()
        && letter.record.SuccessorOf(record)
        && |record.attempts| + 1 == record.policy.maxAttempts
  {
    if facts.failure.Some? {
      RecordFailureExact(record, facts.at, facts.failure.value, NextRetry(record, facts).value);
    }
  }

  /** The record is due and the clock read after the attempt is not before its start. */
  predicate DueAttempt(record: DeliveryRecord, facts: AttemptFacts) {
    && record.nextRetryAt <= facts.at <= facts.clock
    && (facts.failure.Some? ==> facts.failure.value.wellFormed)
    && facts.clock + 2 * record.policy.maxBackoffMs * NANOS_PER_MILLI <= LAST_INSTANT
  }

  /** Bookkeeping never rejects an attempt on a due record. */
  lemma DueAttemptAccepted(record: DeliveryRecord, facts: AttemptFacts)
    requires record.ValidPending() && DueAttempt(record, facts)
    ensures Executed(record, facts).Ok?
  {
    RetryAtExact(record.envelope.eventId, facts.hash, |record.attempts| + 1, record.policy, facts.clock);
    if record.attempts != [] {
      assert record.attempts[|record.attempts| - 1].at <= record.nextRetryAt;
    }
    if facts.failure.Some? {
      RecordFailureExact(record, facts.at, facts.failure.value, NextRetry(record, facts).value);
    }
  }

  /** `first_due`: the first listed record whose retry instant has come. */
  method FirstDue(records: seq<DeliveryRecord>, at: int) returns (due: Option<DeliveryRecord>)
    ensures due.None? <==> forall i :: 0 <= i < |records| ==> records[i].nextRetryAt > at
    ensures due.Some? ==> exists i :: 0 <= i < |records| && due == Some(records[i]) && records[i].nextRetryAt <= at
                                      && forall j :: 0 <= j < i ==> records[j].nextRetryAt > at
  {
    for n := 0 to |records|
      invariant forall i :: 0 <= i < n ==> records[i].nextRetryAt > at
    {
      if records[n].nextRetryAt <= at {
        return Some(records[n]);
      }
    }
    return None;
  }

  /** Successive attempts on one record, stopping at delivery, dead-lettering or rejection. */
  function Life(record: DeliveryRecord, history: seq<AttemptFacts>): (DeliveryRecord, Option<Result<Execution>>)
    decreases |history|
  {
    if history == [] then (record, None)
    else match Executed(record, history[0])
      case Ok(Retry(next)) => Life(next, history[1..])
      case other => (record, Some(other))
  }

  /** Every attempt in the history is made only when its record is due. */
  predicate DrainedWhenDue(record: DeliveryRecord, history: seq<AttemptFacts>)
    decreases |history|
  {
    history == [] ||
    (DueAttempt(record, history[0]) &&
     match Executed(record, history[0])
     case Ok(Retry(next)) => DrainedWhenDue(next, history[1..])
     case other => true)
  }

  predicate AllFail(history: seq<AttemptFacts>) {
    forall i :: 0 <= i < |history| ==> history[i].failure.Some?
  }

  /** Drained only when due, a life is over within the attempts left, and never ends in a rejection. */
  lemma {:induction false} LifeIsBounded(record: DeliveryRecord, history: seq<AttemptFacts>)
    requires record.ValidPending() && DrainedWhenDue(record, history)
    ensures
      var (last, end) := Life(record, history);
      && (|history| >= record.policy.maxAttempts - |record.attempts| ==> end.Some?)
      && (end.Some? ==> end.value.Ok?)
      && (end.None? ==> last.ValidPending() && |last.attempts| == |record.attempts| + |history|)
    decreases |history|
  {
    if history != [] {
      DueAttemptAccepted(record, history[0]);
      ExecutionFollows(record, history[0]);
      match Executed(record, history[0]) {
        case Ok(Retry(next)) => LifeIsBounded(next, history[1..]);
        case _ =>
      }
    }
  }

  predicate EndsDead(record: DeliveryRecord, history: seq<AttemptFacts>) {
    var end := Life(record, history).1;
    end.Some? && end.value.Ok? && end.value.value.Dead?
  }

  /**
    Such a life ends in a dead letter exactly when every one of the attempts left failed -- at the
    immutable cap, not before and not after -- and the letter keeps the whole history.
   */
  lemma {:induction false} DeadExactlyAtTheCap(record: DeliveryRecord, history: seq<AttemptFacts>)
    requires record.ValidPending() && DrainedWhenDue(record, history)
    ensures
      var left := record.policy.maxAttempts - |record.attempts|;
      EndsDead(record, history) <==> |history| >= left && AllFail(history[..left])
    ensures EndsDead(record, history) ==>
              var final := Life(record, history).1.value.value.letter.record;
              |final.attempts| == record.policy.maxAttempts && record.attempts <= final.attempts
    decreases |history|
  {
    if history != [] {
      var left := record.policy.maxAttempts - |record.attempts|;
      DueAttemptAccepted(record, history[0]);
      ExecutionFollows(record, history[0]);
      match Executed(record, history[0]) {
        case Ok(Retry(next)) =>
          DeadExactlyAtTheCap(next, history[1..]);
          if |history| >= left {
            FailingPrefix(history, left);
          }
        case Ok(Delivered) =>
          if |history| >= left { assert history[..left][0] == history[0]; }
        case Ok(Dead(letter)) =>
          assert history[..left] == [history[0]];
        case Err =>
      }
    }
  }

  lemma FailingPrefix(history: seq<AttemptFacts>, left: nat)
    requires 1 <= left <= |history|
    ensures AllFail(history[..left]) <==> history[0].failure.Some? && AllFail(history[1..][..left - 1])
  {
    assert history[..left] == [history[0]] + history[1..][..left - 1];
  }
}
