/**
  Health and integration-fault episodes of one emitter, and the event keys they give out.

  Source acquisition and measurement extraction follow the same counters; they differ in which
  integration faults they accept. Failure kinds and reasons appear by their stable spelling.
 */
module Episodes {
  import opened Basics

  type Reason = string

  datatype FaultCode = SecretUnavailable | HtmlcutInternalError | BoundaryInvariantViolation | PolicyInvariantViolation

  datatype EmitterScope = SourceScope | MeasurementScope

  /** `secret_unavailable` belongs to sources, every other code to measurements. */
  predicate Accepts(scope: EmitterScope, code: FaultCode) {
    scope.SourceScope? <==> code.SecretUnavailable?
  }

  /** The fields of `SourceAcquisitionHealth` and `MeasurementExtractionHealth` that both share. */
  datatype Health = Health(suspect: bool, reason: Option<Reason>, count: nat, first: Option<int>) {
    predicate Valid() {
      if suspect then reason.Some? && 0 < count <= U32_MAX && first.Some?
      else reason.None? && count == 0 && first.None?
    }
  }

  const HEALTHY: Health := Health(false, None, 0, None)

  /** One failure: the same reason counts on, another one starts over. The flag tells escalation. */
  function Observed(h: Health, reason: Reason, wellFormed: bool, at: int, escalateAfter: nat): Result<(Health, bool)> {
    if !wellFormed || escalateAfter == 0 then Err
    else if h.reason == Some(reason) then
      if h.count >= U32_MAX then Err else Ok((h.(suspect := true, count := h.count + 1), h.count + 1 == escalateAfter))
    else Ok((Health(true, Some(reason), 1, Some(at)), 1 == escalateAfter))
  }

  /** The durable health episode, updated in place. */
  class HealthEpisode {
    var suspect: bool
    var reason: Option<Reason>
    var consecutiveUnresolved: nat
    var firstUnresolvedAt: Option<int>

    function Facts(): Health
      reads this
    {
      Health(suspect, reason, consecutiveUnresolved, firstUnresolvedAt)
    }

    constructor (health: Health)
      ensures Facts() == health
    {
      suspect, reason := health.suspect, health.reason;
      consecutiveUnresolved, firstUnresolvedAt := health.count, health.first;
    }

    method Observe(failure: Reason, wellFormed: bool, at: int, escalateAfter: nat) returns (escalated: Result<bool>)
      requires Facts().Valid()
      modifies this
      ensures Facts().Valid()
      ensures
        match Observed(old(Facts()), failure, wellFormed, at, escalateAfter)
        case Ok((next, flag)) => Facts() == next && escalated == Ok(flag)
        case Err => Facts() == old(Facts()) && escalated.Err?
    {
      if !wellFormed || escalateAfter == 0 {
        return Err;
      }
      if reason == Some(failure) {
        if consecutiveUnresolved >= U32_MAX {
          return Err;
        }
        consecutiveUnresolved := consecutiveUnresolved + 1;
      } else {
        reason, consecutiveUnresolved, firstUnresolvedAt := Some(failure), 1, Some(at);
      }
      suspect := true;
      return Ok(consecutiveUnresolved == escalateAfter);
    }

    method Clear()
      modifies this
      ensures Facts() == HEALTHY
    {
      suspect, reason, consecutiveUnresolved, firstUnresolvedAt := false, None, 0, None;
    }
  }

  /** The episode part of an emitter's state: one shared counter, one health and one fault episode. */
  datatype Episodes = Episodes(episodeSeq: nat, health: Health, fault: Option<FaultCode>) {
    predicate Valid(scope: EmitterScope) {
      health.Valid() && episodeSeq <= U64_MAX && (fault.Some? ==> Accepts(scope, fault.value))
    }
  }

  /** A failure; `None` when the state refuses it, unchanged. */
  function AfterFailure(
    e: Episodes, reason: Reason, wellFormed: bool, at: int, escalateAfter: nat): Option<(Episodes, bool)>
  {
    var began := e.health.reason != Some(reason);
    var observed := Observed(e.health, reason, wellFormed, at, escalateAfter);
    var counter := if began then CheckedSucc(e.episodeSeq) else Some(e.episodeSeq);
    if observed.Err? || counter.None? then None
    else Some((Episodes(counter.value, observed.value.0, None), observed.value.1))
  }

  /** An integration fault; it begins an episode unless the same one is active. */
  function AfterFault(e: Episodes, scope: EmitterScope, code: FaultCode): Option<(Episodes, bool)> {
    if !Accepts(scope, code) then None
    else if e.fault == Some(code) then Some((e, false))
    else if CheckedSucc(e.episodeSeq).None? then None
    else Some((e.(episodeSeq := e.episodeSeq + 1, fault := Some(code)), true))
  }

  function AfterSuccess(e: Episodes): Episodes {
    e.(health := HEALTHY, fault := None)
  }

  /** The state document's episode fields, updated step by step. */
  class EmitterState {
    const scope: EmitterScope
    var episodeSeq: nat
    var health: Health
    var fault: Option<FaultCode>

    function Facts(): Episodes
      reads this
    {
      Episodes(episodeSeq, health, fault)
    }

    constructor (scope: EmitterScope)
      ensures this.scope == scope && Facts() == Episodes(0, HEALTHY, None)
    {
      this.scope := scope;
      episodeSeq, health, fault := 0, HEALTHY, None;
    }

    /** `apply_acquisition_failure` and `apply_extraction_failure`: work on a copy, then install. */
    method ApplyFailure(reason: Reason, wellFormed: bool, at: int, escalateAfter: nat) returns (escalated: Result<bool>)
      requires Facts().Valid(scope)
      modifies this
      ensures Facts().Valid(scope)
      ensures
        match AfterFailure(old(Facts()), reason, wellFormed, at, escalateAfter)
        case Some((next, flag)) => Facts() == next && escalated == Ok(flag)
        case None => Facts() == old(Facts()) && escalated.Err?
    {
      var began := health.reason != Some(reason);
      var copy := new HealthEpisode(health);
      var observed := copy.Observe(reason, wellFormed, at, escalateAfter);
      if observed.Err? {
        return Err;
      }
      var counter := episodeSeq;
      if began {
        if counter >= U64_MAX {
          return Err;
        }
        counter := counter + 1;
      }
      health := copy.Facts();
      episodeSeq := counter;
      fault := None;
      return observed;
    }

    /** `apply_source_integration_fault` and `apply_measurement_integration_fault`. */
    method ApplyIntegrationFault(code: FaultCode) returns (began: Result<bool>)
      requires Facts().Valid(scope)
      modifies this
      ensures Facts().Valid(scope)
      ensures
        match AfterFault(old(Facts()), scope, code)
        case Some((next, flag)) => Facts() == next && began == Ok(flag)
        case None => Facts() == old(Facts()) && began.Err?
    {
      if !Accepts(scope, code) {
        return Err;
      }
      if fault == Some(code) {
        return Ok(false);
      }
      if episodeSeq >= U64_MAX {
        return Err;
      }
      episodeSeq := episodeSeq + 1;
      fault := Some(code);
      return Ok(true);
    }

    /** `clear_transient_episodes`, and the clearing end of an accepted observation. */
    method ClearTransientEpisodes()
      modifies this
      ensures Facts() == Episodes(old(episodeSeq), Health(false, None, 0, None), None)
    {
      var copy := new HealthEpisode(health);
      copy.Clear();
      health := copy.Facts();
      fault := None;
    }
  }

  // ---------------------------------------------------------------- emitted events

  datatype EpisodeKind = Escalation | IntegrationFault

  /** The part of an episode event key that varies within one lineage under one contract digest. */
  datatype EpisodeKey = EpisodeKey(kind: EpisodeKind, code: string, episodeSeq: nat)

  datatype Step =
    | Failed(reason: Reason, wellFormed: bool, at: int, escalateAfter: nat)
    | Faulted(code: FaultCode)
    | Succeeded

  function Spelling(code: FaultCode): string {
    match code
    case SecretUnavailable => "secret_unavailable"
    case HtmlcutInternalError => "htmlcut_internal_error"
    case BoundaryInvariantViolation => "ffhn_boundary_invariant_violation"
    case PolicyInvariantViolation => "ffhn_policy_invariant_violation"
  }

  function After(e: Episodes, scope: EmitterScope, step: Step): Episodes {
    match step
    case Failed(reason, wellFormed, at, escalateAfter) =>
      var next := AfterFailure(e, reason, wellFormed, at, escalateAfter);
      if next.None? then e else next.value.0
    case Faulted(code) =>
      var next := AfterFault(e, scope, code);
      if next.None? then e else next.value.0
    case Succeeded => AfterSuccess(e)
  }

  /** The event of one step: an escalation just reached, or a fault episode just begun. */
  function Emitted(e: Episodes, scope: EmitterScope, step: Step): seq<EpisodeKey> {
    match step
    case Failed(reason, wellFormed, at, escalateAfter) =>
      var next := AfterFailure(e, reason, wellFormed, at, escalateAfter);
      if next.Some? && next.value.1 then [EpisodeKey(Escalation, reason, next.value.0.episodeSeq)] else []
    case Faulted(code) =>
      var next := AfterFault(e, scope, code);
      if next.Some? && next.value.1 then [EpisodeKey(IntegrationFault, Spelling(code), next.value.0.episodeSeq)] else []
    case Succeeded => []
  }

  function AllEmitted(e: Episodes, scope: EmitterScope, steps: seq<Step>): seq<EpisodeKey>
    decreases |steps|
  {
    if steps == [] then [] else Emitted(e, scope, steps[0]) + AllEmitted(After(e, scope, steps[0]), scope, steps[1..])
  }

  predicate ThresholdsIn(steps: seq<Step>, thresholds: set<nat>) {
    forall i :: 0 <= i < |steps| && steps[i].Failed? ==> steps[i].escalateAfter in thresholds
  }

  /** Events of one kind carry strictly increasing episode numbers. */
  predicate Increasing(keys: seq<EpisodeKey>) {
    forall i, j :: 0 <= i < j < |keys| && keys[i].kind == keys[j].kind ==> keys[i].episodeSeq < keys[j].episodeSeq
  }

  predicate Distinct(keys: seq<EpisodeKey>) {
    forall i, j :: 0 <= i < j < |keys| ==> keys[i] != keys[j]
  }

  predicate Above(keys: seq<EpisodeKey>, escalated: int, faulted: int) {
    forall i :: 0 <= i < |keys| ==> keys[i].episodeSeq > (if keys[i].kind.Escalation? then escalated else faulted)
  }

  /** The last escalation and the last fault are behind: no unfinished episode can repeat them. */
  predicate Behind(e: Episodes, threshold: nat, escalated: int, faulted: int) {
    && escalated <= e.episodeSeq && faulted <= e.episodeSeq
    && (0 < e.health.count < threshold ==> escalated < e.episodeSeq)
  }

  /** One step under a fixed threshold leaves what it emitted behind as well. */
  lemma StepStaysAhead(e: Episodes, scope: EmitterScope, step: Step, threshold: nat, escalated: int, faulted: int)
    requires e.Valid(scope) && Behind(e, threshold, escalated, faulted) && ThresholdsIn([step], {threshold})
    ensures After(e, scope, step).Valid(scope)
    ensures
      var keys := Emitted(e, scope, step);
      if keys == [] then Behind(After(e, scope, step), threshold, escalated, faulted)
      else
        && |keys| == 1 && Above(keys, escalated, faulted)
        && (if keys[0].kind.Escalation? then Behind(After(e, scope, step), threshold, keys[0].episodeSeq, faulted)
            else Behind(After(e, scope, step), threshold, escalated, keys[0].episodeSeq))
  {
    assert [step][0] == step;
  }

  lemma {:induction false} RunStaysAhead(
    e: Episodes, scope: EmitterScope, steps: seq<Step>, threshold: nat, escalated: int, faulted: int)
    requires e.Valid(scope) && Behind(e, threshold, escalated, faulted) && ThresholdsIn(steps, {threshold})
    ensures Increasing(AllEmitted(e, scope, steps)) && Above(AllEmitted(e, scope, steps), escalated, faulted)
    decreases |steps|
  {
    if steps != [] {
      StepStaysAhead(e, scope, steps[0], threshold, escalated, faulted);
      var keys := Emitted(e, scope, steps[0]);
      var next := After(e, scope, steps[0]);
      if keys == [] {
        RunStaysAhead(next, scope, steps[1..], threshold, escalated, faulted);
      } else if keys[0].kind.Escalation? {
        RunStaysAhead(next, scope, steps[1..], threshold, keys[0].episodeSeq, faulted);
      } else {
        RunStaysAhead(next, scope, steps[1..], threshold, escalated, keys[0].episodeSeq);
      }
    }
  }

  /** Episode numbers never run backwards under one threshold, from any valid state. */
  lemma EpisodeNumbersIncrease(e: Episodes, scope: EmitterScope, steps: seq<Step>, threshold: nat)
    requires e.Valid(scope) && ThresholdsIn(steps, {threshold})
    ensures Increasing(AllEmitted(e, scope, steps)) && Distinct(AllEmitted(e, scope, steps))
  {
    RunStaysAhead(e, scope, steps, threshold, -1, -1);
  }

  // ---------------------------------------------------------------- what the counters say

  /** The state after several steps. */
  function Through(e: Episodes, scope: EmitterScope, steps: seq<Step>): Episodes {
    if steps == [] then e else After(Through(e, scope, steps[..|steps| - 1]), scope, steps[|steps| - 1])
  }

  /** Consecutive failures for one reason, each at its instant and under its threshold. */
  function Failures(reason: Reason, instants: seq<int>, thresholds: seq<nat>): seq<Step>
    requires |instants| == |thresholds|
  {
    seq(|instants|, i requires 0 <= i < |instants| => Failed(reason, true, instants[i], thresholds[i]))
  }

  /**
    A run of failures for one reason is one episode: a new number, the reason, the length of the run, the instant of
    its first failure, and no fault. Its last failure escalates exactly if the length is the threshold then in force.
   */
  lemma {:induction false} FailureRun(
    e: Episodes, scope: EmitterScope, reason: Reason, instants: seq<int>, thresholds: seq<nat>)
    requires e.Valid(scope) && e.health.reason != Some(reason) && e.episodeSeq < U64_MAX
    requires 0 < |instants| == |thresholds| <= U32_MAX && forall i :: 0 <= i < |thresholds| ==> thresholds[i] > 0
    ensures
      var n, steps := |instants|, Failures(reason, instants, thresholds);
      && Through(e, scope, steps) == Episodes(e.episodeSeq + 1, Health(true, Some(reason), n, Some(instants[0])), None)
      && Emitted(Through(e, scope, steps[..n - 1]), scope, steps[n - 1])
         == if n == thresholds[n - 1] then [EpisodeKey(Escalation, reason, e.episodeSeq + 1)] else []
    decreases |instants|
  {
    var n, steps := |instants|, Failures(reason, instants, thresholds);
    assert steps[..n - 1] == Failures(reason, instants[..n - 1], thresholds[..n - 1]);
    if n > 1 {
      FailureRun(e, scope, reason, instants[..n - 1], thresholds[..n - 1]);
    } else {
      assert Through(e, scope, []) == e;
    }
    OneFailure(Through(e, scope, steps[..n - 1]), scope, reason, instants[n - 1], thresholds[n - 1]);
  }

  /** One failure: a new reason begins an episode, the same one counts on. */
  lemma OneFailure(e: Episodes, scope: EmitterScope, reason: Reason, at: int, threshold: nat)
    requires threshold > 0
    requires if e.health.reason == Some(reason) then e.health.count < U32_MAX else e.episodeSeq < U64_MAX
    ensures
      var began := e.health.reason != Some(reason);
      var number, count := if began then e.episodeSeq + 1 else e.episodeSeq, if began then 1 else e.health.count + 1;
      && After(e, scope, Failed(reason, true, at, threshold))
         == Episodes(number, Health(true, Some(reason), count, if began then Some(at) else e.health.first), None)
      && Emitted(e, scope, Failed(reason, true, at, threshold))
         == if count == threshold then [EpisodeKey(Escalation, reason, number)] else []
  {
  }

  /** A fault its emitter accepts begins an episode unless it is the active one; nothing else of the state moves. */
  lemma FaultBegins(e: Episodes, scope: EmitterScope, code: FaultCode)
    requires e.Valid(scope)
    ensures
      var accepted := scope.SourceScope? <==> code.SecretUnavailable?;
      var begins := accepted && e.fault != Some(code) && e.episodeSeq < U64_MAX;
      && After(e, scope, Faulted(code)) == (if begins then Episodes(e.episodeSeq + 1, e.health, Some(code)) else e)
      && Emitted(e, scope, Faulted(code))
         == if begins then [EpisodeKey(IntegrationFault, Spelling(code), e.episodeSeq + 1)] else []
  {
  }

  /**
    A success ends both episodes and keeps the number. Whatever fails next begins a new episode under the next
    number, even if the reason or the fault is the one that was active before.
   */
  lemma SuccessStartsOver(e: Episodes, scope: EmitterScope, reason: Reason, at: int, threshold: nat, code: FaultCode)
    requires e.Valid(scope) && e.episodeSeq < U64_MAX && threshold > 0 && Accepts(scope, code)
    ensures
      var calm := Episodes(e.episodeSeq, Health(false, None, 0, None), None);
      && After(e, scope, Succeeded) == calm && Emitted(e, scope, Succeeded) == []
      && After(calm, scope, Failed(reason, true, at, threshold))
         == Episodes(e.episodeSeq + 1, Health(true, Some(reason), 1, Some(at)), None)
      && Emitted(calm, scope, Failed(reason, true, at, threshold))
         == (if threshold == 1 then [EpisodeKey(Escalation, reason, e.episodeSeq + 1)] else [])
      && After(calm, scope, Faulted(code)) == calm.(episodeSeq := e.episodeSeq + 1, fault := Some(code))
      && Emitted(calm, scope, Faulted(code)) == [EpisodeKey(IntegrationFault, Spelling(code), e.episodeSeq + 1)]
  {
    var calm := After(e, scope, Succeeded);
    OneFailure(calm, scope, reason, at, threshold);
    FaultBegins(calm, scope, code);
  }

  // ---------------------------------------------------------------- a threshold raised mid-episode

  function Repeated(reason: Reason, threshold: nat, times: nat): seq<Step> {
    if times == 0 then [] else [Failed(reason, true, 0, threshold)] + Repeated(reason, threshold, times - 1)
  }

  lemma {:induction false} RepeatedSnoc(reason: Reason, threshold: nat, n: nat)
    ensures Repeated(reason, threshold, n + 1) == Repeated(reason, threshold, n) + [Failed(reason, true, 0, threshold)]
  {
    if n > 0 {
      RepeatedSnoc(reason, threshold, n - 1);
    }
  }

  function AfterAll(e: Episodes, scope: EmitterScope, steps: seq<Step>): Episodes
    decreases |steps|
  {
    if steps == [] then e else AfterAll(After(e, scope, steps[0]), scope, steps[1..])
  }

  /** A run emits what its first part emits, then what the rest emits from there. */
  lemma {:induction false} RunsCompose(e: Episodes, scope: EmitterScope, a: seq<Step>, b: seq<Step>)
    ensures AllEmitted(e, scope, a + b) == AllEmitted(e, scope, a) + AllEmitted(AfterAll(e, scope, a), scope, b)
    ensures AfterAll(e, scope, a + b) == AfterAll(AfterAll(e, scope, a), scope, b)
    decreases |a|
  {
    if a == [] {
      assert a + b == b;
    } else {
      assert (a + b)[1..] == a[1..] + b;
      RunsCompose(After(e, scope, a[0]), scope, a[1..], b);
    }
  }

  lemma OneStep(e: Episodes, scope: EmitterScope, step: Step)
    ensures AllEmitted(e, scope, [step]) == Emitted(e, scope, step)
      && AfterAll(e, scope, [step]) == After(e, scope, step)
  {
    assert [step][1..] == [];
  }

  function Counted(e: Episodes, count: nat): Episodes {
    e.(health := e.health.(count := count))
  }

  /** An open health episode without a fault. */
  predicate Open(e: Episodes, reason: Reason) {
    e.health.suspect && e.health.reason == Some(reason) && e.fault.None?
  }

  lemma FailureCountsOn(e: Episodes, scope: EmitterScope, reason: Reason, threshold: nat)
    requires Open(e, reason) && threshold > 0 && e.health.count < U32_MAX
    ensures
      var step := Failed(reason, true, 0, threshold);
      && After(e, scope, step) == Counted(e, e.health.count + 1)
      && Emitted(e, scope, step) == if e.health.count + 1 == threshold
          then [EpisodeKey(Escalation, reason, e.episodeSeq)] else []
  {
  }

  /** `n` equal failures in a row that do not meet the threshold emit nothing and count up. */
  lemma {:induction false} QuietFailures(e: Episodes, scope: EmitterScope, reason: Reason, threshold: nat, n: nat)
    requires Open(e, reason) && threshold > 0 && e.health.count + n <= U32_MAX
    requires e.health.count + n < threshold || e.health.count >= threshold
    ensures AllEmitted(e, scope, Repeated(reason, threshold, n)) == []
    ensures AfterAll(e, scope, Repeated(reason, threshold, n)) == Counted(e, e.health.count + n)
    decreases n
  {
    if n > 0 {
      assert Repeated(reason, threshold, n)[1..] == Repeated(reason, threshold, n - 1);
      FailureCountsOn(e, scope, reason, threshold);
      QuietFailures(Counted(e, e.health.count + 1), scope, reason, threshold, n - 1);
    }
  }

  /** Failures up to the threshold escalate once, at the current episode number. */
  lemma FailuresReachThreshold(e: Episodes, scope: EmitterScope, reason: Reason, threshold: nat, n: nat)
    requires Open(e, reason) && e.health.count + n + 1 == threshold <= U32_MAX
    ensures AllEmitted(e, scope, Repeated(reason, threshold, n + 1)) == [EpisodeKey(Escalation, reason, e.episodeSeq)]
    ensures AfterAll(e, scope, Repeated(reason, threshold, n + 1)) == Counted(e, threshold)
  {
    var last := Failed(reason, true, 0, threshold);
    RepeatedSnoc(reason, threshold, n);
    RunsCompose(e, scope, Repeated(reason, threshold, n), [last]);
    QuietFailures(e, scope, reason, threshold, n);
    OneStep(Counted(e, threshold - 1), scope, last);
    FailureCountsOn(Counted(e, threshold - 1), scope, reason, threshold);
  }

  /** The first failures of a fresh emitter, up to the threshold, escalate once in episode 1. */
  lemma FirstEscalation(scope: EmitterScope, reason: Reason, threshold: nat)
    requires 0 < threshold <= U32_MAX
    ensures
      var e, steps := Episodes(0, HEALTHY, None), Repeated(reason, threshold, threshold);
      && AllEmitted(e, scope, steps) == [EpisodeKey(Escalation, reason, 1)]
      && AfterAll(e, scope, steps) == Episodes(1, Health(true, Some(reason), threshold, Some(0)), None)
  {
    var first := Failed(reason, true, 0, threshold);
    var begun := Episodes(1, Health(true, Some(reason), 1, Some(0)), None);
    assert After(Episodes(0, HEALTHY, None), scope, first) == begun;
    assert Repeated(reason, threshold, threshold)[1..] == Repeated(reason, threshold, threshold - 1);
    if threshold > 1 {
      FailuresReachThreshold(begun, scope, reason, threshold, threshold - 2);
    }
  }

  /** Escalate at `low`, count on, raise the threshold to `high`: the same episode escalates again. */
  function RaisedRun(reason: Reason, low: nat, high: nat): seq<Step>
    requires 0 < low < high
  {
    Repeated(reason, low, low) + (Repeated(reason, low, high - low - 1) + [Failed(reason, true, 0, high)])
  }

  /** The open episode, already escalated at `low`, reaches `high`. */
  lemma RaisedTail(e: Episodes, scope: EmitterScope, reason: Reason, low: nat, high: nat)
    requires Open(e, reason) && 0 < low == e.health.count < high <= U32_MAX
    ensures
      AllEmitted(e, scope, Repeated(reason, low, high - low - 1) + [Failed(reason, true, 0, high)])
      == [EpisodeKey(Escalation, reason, e.episodeSeq)]
  {
    var last := Failed(reason, true, 0, high);
    QuietFailures(e, scope, reason, low, high - low - 1);
    RunsCompose(e, scope, Repeated(reason, low, high - low - 1), [last]);
    OneStep(Counted(e, high - 1), scope, last);
    FailureCountsOn(Counted(e, high - 1), scope, reason, high);
  }

  /** From a fresh emitter, the raised run gives out one escalation key twice. */
  lemma RaisedThresholdReusesKey(scope: EmitterScope, reason: Reason, low: nat, high: nat)
    requires 0 < low < high <= U32_MAX
    ensures
      var key := EpisodeKey(Escalation, reason, 1);
      AllEmitted(Episodes(0, HEALTHY, None), scope, RaisedRun(reason, low, high)) == [key, key]
  {
    var tail := Repeated(reason, low, high - low - 1) + [Failed(reason, true, 0, high)];
    RunsCompose(Episodes(0, HEALTHY, None), scope, Repeated(reason, low, low), tail);
    FirstEscalation(scope, reason, low);
    RaisedTail(Episodes(1, Health(true, Some(reason), low, Some(0)), None), scope, reason, low, high);
  }

  lemma {:induction false} RepeatedThreshold(reason: Reason, threshold: nat, n: nat, thresholds: set<nat>)
    requires threshold in thresholds
    ensures ThresholdsIn(Repeated(reason, threshold, n), thresholds)
  {
    if n > 0 {
      RepeatedThreshold(reason, threshold, n - 1, thresholds);
    }
  }

  /** No run whose configured thresholds come from the set gives out a key twice. */
  ghost predicate NeverReuses(scope: EmitterScope, thresholds: set<nat>) {
    forall steps :: ThresholdsIn(steps, thresholds) ==> Distinct(AllEmitted(Episodes(0, HEALTHY, None), scope, steps))
  }

  /**
    Episode keys are never reused if and only if the configured threshold never changes: raising it
    by any amount while an episode is open lets the same episode escalate a second time.
   */
  lemma KeysUniqueIffThresholdFixed(scope: EmitterScope, thresholds: set<nat>)
    requires forall t :: t in thresholds ==> 0 < t <= U32_MAX
    ensures NeverReuses(scope, thresholds) <==> forall a, b :: a in thresholds && b in thresholds ==> a == b
  {
    if a, b :| a in thresholds && b in thresholds && a < b {
      var steps := RaisedRun("connect_failed", a, b);
      RaisedThresholdReusesKey(scope, "connect_failed", a, b);
      RepeatedThreshold("connect_failed", a, a, thresholds);
      RepeatedThreshold("connect_failed", a, b - a - 1, thresholds);
      assert ThresholdsIn(steps, thresholds);
      assert AllEmitted(Episodes(0, HEALTHY, None), scope, steps)[0]
        == AllEmitted(Episodes(0, HEALTHY, None), scope, steps)[1];
    } else {
      forall steps | ThresholdsIn(steps, thresholds)
        ensures Distinct(AllEmitted(Episodes(0, HEALTHY, None), scope, steps)) {
        var only := if thresholds == {} then 1 else var t :| t in thresholds; t;
        EpisodeNumbersIncrease(Episodes(0, HEALTHY, None), scope, steps, only);
      }
    }
  }
}
