/**
  Per-condition temporal policy state, maintained incrementally, and its meaning as a fold over the
  accepted observations since each definition was installed.

  Exact policy evaluation is one arbitrary function of the definition, the observation and the
  pre-run context. A definition stands for what its digest pins down.
 */
module PolicyState {
  import opened Basics
  import E = Episodes

  type ConditionId = string

  /** `contract` is the declared type with its parameters. */
  datatype Observation = Observation(value: int, contract: int)

  datatype Condition = Condition(id: ConditionId, definition: int)

  predicate DistinctConditions(conditions: seq<Condition>) {
    forall i, j :: 0 <= i < j < |conditions| ==> conditions[i].id != conditions[j].id
  }

  datatype Document = Document(contract: int, conditions: seq<Condition>) {
    /** Document validation rejects a repeated condition id. */
    predicate Valid() {
      DistinctConditions(conditions)
    }
  }

  datatype Outcome = Satisfied | NotSatisfied | Unavailable | ArithmeticOverflow | ZeroReference

  datatype Context = Context(last: Option<Observation>, baseline: Option<Observation>, transition: Option<Observation>,
    active: bool)

  datatype Decision = Decision(outcome: Outcome, trigger: bool, active: bool)

  datatype Evaluation = Evaluation(id: ConditionId, decision: Decision)

  type Evaluator = (int, Observation, Context) -> Option<Decision>

  datatype ConditionState = ConditionState(
    definition: int, result: Outcome, active: bool, baseline: Option<Observation>, transition: Option<Observation>)

  datatype PolicyFacts = PolicyFacts(
    observationSeq: nat, accepted: Option<Observation>, valueDigest: Option<int>,
    conditions: map<ConditionId, ConditionState>, revision: nat)

  const FRESH: PolicyFacts := PolicyFacts(0, None, None, map[], 0)

  predicate MatchesOption(o: Option<Observation>, contract: int) {
    o.Some? ==> o.value.contract == contract
  }

  predicate StateMatches(c: ConditionState, contract: int) {
    MatchesOption(c.baseline, contract) && MatchesOption(c.transition, contract)
  }

  predicate AllMatch(conditions: map<ConditionId, ConditionState>, contract: int) {
    forall id :: id in conditions ==> StateMatches(conditions[id], contract)
  }

  /** `validate`: an observation, its sequence number and its value digest are there together or not at all. */
  predicate Agreed(s: PolicyFacts) {
    if s.accepted.Some? then s.valueDigest.Some? && s.observationSeq > 0
      else s.valueDigest.None? && s.observationSeq == 0
  }

  /**
    `validate_for_measurement`: the state agrees with itself, and no stored observation is outside the value
    contract.
   */
  predicate MatchesContract(s: PolicyFacts, contract: int) {
    && Agreed(s)
    && MatchesOption(s.accepted, contract)
    && AllMatch(s.conditions, contract)
  }

  // ---------------------------------------------------------------- one condition

  /** `rebased_condition_state`: seeded from the latest accepted observation, emitting nothing. */
  function Seeded(definition: int, accepted: Option<Observation>, eval: Evaluator): Option<ConditionState> {
    if accepted.None? then Some(ConditionState(definition, NotSatisfied, false, None, None))
    else
      var d := eval(definition, accepted.value, Context(accepted, accepted, accepted, false));
      if d.None? then None else Some(ConditionState(definition, d.value.outcome, d.value.active, accepted, accepted))
  }

  function ContextOf(c: ConditionState, accepted: Option<Observation>): Context {
    Context(accepted, c.baseline, c.transition, c.active)
  }

  /** One accepted observation applied to one condition. */
  function Applied(c: ConditionState, observation: Observation, d: Decision): ConditionState {
    ConditionState(
      c.definition, d.outcome, d.active,
      if c.baseline.None? then Some(observation) else c.baseline,
      if c.result != d.outcome then Some(observation) else c.transition)
  }

  // ---------------------------------------------------------------- the whole state

  /** The state one declared condition has after rebasing. */
  function RebasedOne(s: PolicyFacts, c: Condition, eval: Evaluator): Option<ConditionState> {
    if c.id in s.conditions && s.conditions[c.id].definition == c.definition then Some(s.conditions[c.id])
    else Seeded(c.definition, s.accepted, eval)
  }

  /** Rebased conditions in declaration order; `None` when a seed cannot be evaluated. */
  function RebasedMap(
    s: PolicyFacts, conditions: seq<Condition>, eval: Evaluator): Option<map<ConditionId, ConditionState>>
  {
    if conditions == [] then Some(map[])
    else
      var front := RebasedMap(s, conditions[..|conditions| - 1], eval);
      var last := conditions[|conditions| - 1];
      var state := RebasedOne(s, last, eval);
      if front.None? || state.None? then None else Some(front.value[last.id := state.value])
  }

  /** `rebase_policy`; `None` leaves the state as it was. */
  function Rebased(s: PolicyFacts, doc: Document, eval: Evaluator): Option<PolicyFacts> {
    if !MatchesContract(s, doc.contract) then None
    else
      var next := RebasedMap(s, doc.conditions, eval);
      if next.None? then None
      else if next.value == s.conditions then Some(s)
      else if CheckedSucc(s.revision).None? then None
      else Some(s.(conditions := next.value, revision := s.revision + 1))
  }

  /** All declared conditions evaluated in declaration order; `None` on the first that cannot be. */
  function Evaluated(
    s: PolicyFacts, conditions: seq<Condition>, observation: Observation, eval: Evaluator): Option<seq<Evaluation>>
    requires forall i :: 0 <= i < |conditions| ==> conditions[i].id in s.conditions
  {
    if conditions == [] then Some([])
    else
      var front := Evaluated(s, conditions[..|conditions| - 1], observation, eval);
      var last := conditions[|conditions| - 1];
      var d := eval(last.definition, observation, ContextOf(s.conditions[last.id], s.accepted));
      if front.None? || d.None? then None else Some(front.value + [Evaluation(last.id, d.value)])
  }

  /** The evaluation loop: each result is written to its own condition. */
  function AppliedAll(
    conditions: map<ConditionId, ConditionState>, evaluations: seq<Evaluation>, observation: Observation)
    : map<ConditionId, ConditionState>
  {
    if evaluations == [] then conditions
    else
      var front := AppliedAll(conditions, evaluations[..|evaluations| - 1], observation);
      var last := evaluations[|evaluations| - 1];
      if last.id in front then front[last.id := Applied(front[last.id], observation, last.decision)] else front
  }

  /** What is left of the state, and the decisions or the refusal. */
  datatype Acceptance = Acceptance(state: PolicyFacts, evaluations: Option<seq<Evaluation>>)

  lemma {:induction false} RebasedKeys(s: PolicyFacts, conditions: seq<Condition>, eval: Evaluator)
    requires RebasedMap(s, conditions, eval).Some?
    ensures forall i :: 0 <= i < |conditions| ==> conditions[i].id in RebasedMap(s, conditions, eval).value
  {
    if conditions != [] {
      RebasedKeys(s, conditions[..|conditions| - 1], eval);
    }
  }

  predicate AllDeclared(s: PolicyFacts, doc: Document) {
    forall i :: 0 <= i < |doc.conditions| ==> doc.conditions[i].id in s.conditions
  }

  lemma RebasedDeclares(s: PolicyFacts, doc: Document, eval: Evaluator)
    requires Rebased(s, doc, eval).Some?
    ensures AllDeclared(Rebased(s, doc, eval).value, doc)
  {
    RebasedKeys(s, doc.conditions, eval);
  }

  /** The rebased state with the observation applied; a refusal keeps the rebased state. */
  function AcceptedOver(
    s: PolicyFacts, doc: Document, observation: Observation, digest: int, eval: Evaluator): Acceptance
    requires AllDeclared(s, doc)
  {
    if observation.contract != doc.contract then Acceptance(s, None)
    else
      var evaluations := Evaluated(s, doc.conditions, observation, eval);
      if evaluations.None? then Acceptance(s, None)
      else
        var applied := s.(conditions := AppliedAll(s.conditions, evaluations.value, observation));
        if CheckedSucc(s.observationSeq).None? then Acceptance(applied, None)
        else
          Acceptance(
            applied.(observationSeq := s.observationSeq + 1, accepted := Some(observation),
              valueDigest := Some(digest)), evaluations)
  }

  /** Rebased conditions refer to observations of the contract only. */
  lemma {:induction false} RebasedMapMatches(s: PolicyFacts, conditions: seq<Condition>, eval: Evaluator, contract: int)
    requires MatchesContract(s, contract) && RebasedMap(s, conditions, eval).Some?
    ensures AllMatch(RebasedMap(s, conditions, eval).value, contract)
  {
    if conditions != [] {
      RebasedMapMatches(s, conditions[..|conditions| - 1], eval, contract);
    }
  }

  /** The validation that ends a rebase always passes. */
  lemma RebaseMatches(s: PolicyFacts, doc: Document, eval: Evaluator)
    requires Rebased(s, doc, eval).Some?
    ensures MatchesContract(Rebased(s, doc, eval).value, doc.contract)
  {
    RebasedMapMatches(s, doc.conditions, eval, doc.contract);
  }

  lemma {:induction false} AppliedAllMatches(
    conditions: map<ConditionId, ConditionState>, evaluations: seq<Evaluation>, observation: Observation)
    requires AllMatch(conditions, observation.contract)
    ensures AllMatch(AppliedAll(conditions, evaluations, observation), observation.contract)
  {
    if evaluations != [] {
      var last := evaluations[|evaluations| - 1];
      var front := AppliedAll(conditions, evaluations[..|evaluations| - 1], observation);
      AppliedAllMatches(conditions, evaluations[..|evaluations| - 1], observation);
      if last.id in front {
        AppliedMatches(front[last.id], observation, last.decision);
      }
    }
  }

  lemma AppliedMatches(c: ConditionState, observation: Observation, d: Decision)
    requires StateMatches(c, observation.contract)
    ensures StateMatches(Applied(c, observation, d), observation.contract)
  {
  }

  /** So does the validation that ends an acceptance. */
  lemma AcceptanceMatches(s: PolicyFacts, doc: Document, observation: Observation, digest: int, eval: Evaluator)
    requires AllDeclared(s, doc) && MatchesContract(s, doc.contract)
    requires AcceptedOver(s, doc, observation, digest, eval).evaluations.Some?
    ensures MatchesContract(AcceptedOver(s, doc, observation, digest, eval).state, doc.contract)
  {
    AppliedAllMatches(s.conditions, Evaluated(s, doc.conditions, observation, eval).value, observation);
  }

  /** `apply_accepted_observation`. */
  function Accepted(s: PolicyFacts, doc: Document, observation: Observation, digest: int, eval: Evaluator): Acceptance {
    if s.valueDigest.Some? && s.valueDigest.value != digest then Acceptance(s, None)
    else
      var rebased := Rebased(s, doc, eval);
      if rebased.None? then Acceptance(s, None)
      else
        RebasedDeclares(s, doc, eval);
        AcceptedOver(rebased.value, doc, observation, digest, eval)
  }

  // ---------------------------------------------------------------- the state document

  /** The policy and episode fields of `MeasurementState`, updated step by step. */
  class MeasurementPolicy {
    var observationSeq: nat
    var accepted: Option<Observation>
    var valueDigest: Option<int>
    var conditionState: map<ConditionId, ConditionState>
    var policyRevision: nat
    /** The extraction health and the integration fault, which an accepted observation clears. */
    var episodes: E.Episodes

    function Facts(): PolicyFacts
      reads this
    {
      PolicyFacts(observationSeq, accepted, valueDigest, conditionState, policyRevision)
    }

    constructor ()
      ensures Facts() == FRESH && episodes == E.Episodes(0, E.HEALTHY, None)
    {
      observationSeq, accepted, valueDigest, conditionState, policyRevision := 0, None, None, map[], 0;
      episodes := E.Episodes(0, E.HEALTHY, None);
    }

    /** `validate_for_measurement` on the whole state document. */
    predicate ValidFor(contract: int)
      reads this
    {
      MatchesContract(Facts(), contract) && episodes.Valid(E.MeasurementScope)
    }

    method RebasePolicy(doc: Document, eval: Evaluator) returns (ok: bool)
      modifies this`conditionState, this`policyRevision
      ensures ok <==> episodes.Valid(E.MeasurementScope) && Rebased(old(Facts()), doc, eval).Some?
      ensures Facts() == if ok then Rebased(old(Facts()), doc, eval).value else old(Facts())
      ensures ok ==> ValidFor(doc.contract)
    {
      if !ValidFor(doc.contract) {
        return false;
      }
      ghost var before := Facts();
      var next: map<ConditionId, ConditionState> := map[];
      for n := 0 to |doc.conditions|
        invariant Facts() == before
        invariant RebasedMap(before, doc.conditions[..n], eval) == Some(next)
      {
        var condition := doc.conditions[n];
        assert doc.conditions[..n + 1][..n] == doc.conditions[..n];
        var state: Option<ConditionState>;
        if condition.id in conditionState && conditionState[condition.id].definition == condition.definition {
          state := Some(conditionState[condition.id]);
        } else {
          state := Seeded(condition.definition, accepted, eval);
        }
        if state.None? {
          StuckSeed(before, doc.conditions, n + 1, eval);
          return false;
        }
        next := next[condition.id := state.value];
      }
      assert doc.conditions[..|doc.conditions|] == doc.conditions;
      if next != conditionState {
        if policyRevision >= U64_MAX {
          return false;
        }
        policyRevision := policyRevision + 1;
        conditionState := next;
      }
      RebaseMatches(before, doc, eval);
      return ValidFor(doc.contract);
    }

    method ApplyAcceptedObservation(doc: Document, observation: Observation, digest: int, eval: Evaluator)
      returns (evaluations: Option<seq<Evaluation>>)
      modifies this
      ensures Acceptance(Facts(), evaluations) ==
              if old(episodes).Valid(E.MeasurementScope) then Accepted(old(Facts()), doc, observation, digest, eval)
              else Acceptance(old(Facts()), None)
      ensures episodes == if evaluations.None? then old(episodes)
                          else E.Episodes(old(episodes).episodeSeq, E.Health(false, None, 0, None), None)
      ensures evaluations.Some? ==> ValidFor(doc.contract)
    {
      if valueDigest.Some? && valueDigest.value != digest {
        return None;
      }
      var rebased := RebasePolicy(doc, eval);
      if !rebased {
        return None;
      }
      RebasedDeclares(old(Facts()), doc, eval);
      if observation.contract != doc.contract {
        return None;
      }
      ghost var before := Facts();
      assert Rebased(old(Facts()), doc, eval) == Some(before);
      assert Accepted(old(Facts()), doc, observation, digest, eval)
             == AcceptedOver(before, doc, observation, digest, eval);
      evaluations := EvaluateAll(doc.conditions, observation, eval);
      if evaluations.None? {
        return None;
      }
      ApplyAll(evaluations.value, observation);
      if observationSeq >= U64_MAX {
        return None;
      }
      observationSeq := observationSeq + 1;
      accepted := Some(observation);
      valueDigest := Some(digest);
      episodes := E.AfterSuccess(episodes);
      assert Acceptance(Facts(), evaluations) == AcceptedOver(before, doc, observation, digest, eval);
      AcceptanceMatches(before, doc, observation, digest, eval);
      assert ValidFor(doc.contract); // the final validation never refuses
    }

    /** The evaluation loop: each result is written to its own condition. */
    method ApplyAll(evaluations: seq<Evaluation>, observation: Observation)
      modifies this`conditionState
      ensures conditionState == AppliedAll(old(conditionState), evaluations, observation)
    {
      for n := 0 to |evaluations|
        invariant conditionState == AppliedAll(old(conditionState), evaluations[..n], observation)
      {
        assert evaluations[..n + 1][..n] == evaluations[..n];
        var e := evaluations[n];
        if e.id in conditionState {
          conditionState := conditionState[e.id := Applied(conditionState[e.id], observation, e.decision)];
        }
      }
      assert evaluations[..|evaluations|] == evaluations;
    }

    method EvaluateAll(
      conditions: seq<Condition>, observation: Observation, eval: Evaluator)
      returns (evaluations: Option<seq<Evaluation>>)
      requires forall i :: 0 <= i < |conditions| ==> conditions[i].id in conditionState
      ensures evaluations == Evaluated(Facts(), conditions, observation, eval)
    {
      var results: seq<Evaluation> := [];
      for n := 0 to |conditions|
        invariant Evaluated(Facts(), conditions[..n], observation, eval) == Some(results)
      {
        assert conditions[..n + 1][..n] == conditions[..n];
        var c := conditions[n];
        var d := eval(c.definition, observation, ContextOf(conditionState[c.id], accepted));
        if d.None? {
          StuckEvaluation(Facts(), conditions, n + 1, observation, eval);
          return None;
        }
        results := results + [Evaluation(c.id, d.value)];
      }
      assert conditions[..|conditions|] == conditions;
      return Some(results);
    }
  }

  /** A seed that cannot be evaluated refuses the whole rebase. */
  lemma {:induction false} StuckSeed(s: PolicyFacts, conditions: seq<Condition>, n: nat, eval: Evaluator)
    requires n <= |conditions| && RebasedMap(s, conditions[..n], eval).None?
    ensures RebasedMap(s, conditions, eval).None?
    decreases |conditions| - n
  {
    if n == |conditions| {
      assert conditions[..n] == conditions;
    } else {
      assert conditions[..n + 1][..n] == conditions[..n];
      StuckSeed(s, conditions, n + 1, eval);
    }
  }

  lemma {:induction false} StuckEvaluation(
    s: PolicyFacts, conditions: seq<Condition>, n: nat, observation: Observation, eval: Evaluator)
    requires forall i :: 0 <= i < |conditions| ==> conditions[i].id in s.conditions
    requires n <= |conditions| && Evaluated(s, conditions[..n], observation, eval).None?
    ensures Evaluated(s, conditions, observation, eval).None?
    decreases |conditions| - n
  {
    if n == |conditions| {
      assert conditions[..n] == conditions;
    } else {
      assert conditions[..n + 1][..n] == conditions[..n];
      StuckEvaluation(s, conditions, n + 1, observation, eval);
    }
  }
}
