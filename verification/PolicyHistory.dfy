/** The incremental policy state agrees with recomputation from history. */
module PolicyHistory {
  import opened Basics
  import opened PolicyState

  function Ids(conditions: seq<Condition>): set<ConditionId> {
    set i | 0 <= i < |conditions| :: conditions[i].id
  }

  lemma IdsSnoc(front: seq<Condition>, last: Condition)
    ensures Ids(front + [last]) == Ids(front) + {last.id}
  {
    var all := front + [last];
    forall id | id in Ids(front) ensures id in Ids(all) {
      var i :| 0 <= i < |front| && front[i].id == id;
      assert all[i].id == id;
    }
    assert all[|front|].id == last.id;
  }

  // ---------------------------------------------------------------- rebasing

  /** Rebasing keeps or seeds exactly the declared conditions, each by its own rule. */
  lemma {:induction false} RebasedExactly(s: PolicyFacts, conditions: seq<Condition>, eval: Evaluator)
    requires DistinctConditions(conditions) && RebasedMap(s, conditions, eval).Some?
    ensures
      var next := RebasedMap(s, conditions, eval).value;
      && next.Keys == Ids(conditions)
      && forall i :: 0 <= i < |conditions| ==> Some(next[conditions[i].id]) == RebasedOne(s, conditions[i], eval)
  {
    if conditions != [] {
      var front, last := conditions[..|conditions| - 1], conditions[|conditions| - 1];
      RebasedExactly(s, front, eval);
      assert conditions == front + [last];
      IdsSnoc(front, last);
      forall i | 0 <= i < |front| ensures conditions[i].id != last.id {}
    }
  }

  /** When every declared condition is already in place, the rebased map is the state's own. */
  lemma {:induction false} RebasedOfInPlace(s: PolicyFacts, conditions: seq<Condition>, eval: Evaluator)
    requires forall i :: 0 <= i < |conditions| ==>
      conditions[i].id in s.conditions && s.conditions[conditions[i].id].definition == conditions[i].definition
    ensures RebasedMap(s, conditions, eval).Some?
  {
    if conditions != [] {
      RebasedOfInPlace(s, conditions[..|conditions| - 1], eval);
    }
  }

  lemma SeedKeepsDefinition(s: PolicyFacts, c: Condition, eval: Evaluator)
    ensures RebasedOne(s, c, eval).Some? ==> RebasedOne(s, c, eval).value.definition == c.definition
  {
  }

  /** After rebasing every declared condition bears its declared definition. */
  lemma RebasedInPlace(s: PolicyFacts, conditions: seq<Condition>, eval: Evaluator, i: nat)
    requires DistinctConditions(conditions) && RebasedMap(s, conditions, eval).Some? && i < |conditions|
    ensures
      var next := RebasedMap(s, conditions, eval).value;
      conditions[i].id in next && next[conditions[i].id].definition == conditions[i].definition
  {
    RebasedExactly(s, conditions, eval);
    SeedKeepsDefinition(s, conditions[i], eval);
  }

  lemma RebasedTwice(s: PolicyFacts, t: PolicyFacts, conditions: seq<Condition>, eval: Evaluator)
    requires DistinctConditions(conditions) && RebasedMap(s, conditions, eval) == Some(t.conditions)
    ensures RebasedMap(t, conditions, eval) == Some(t.conditions)
  {
    RebasedExactly(s, conditions, eval);
    forall i | 0 <= i < |conditions|
      ensures conditions[i].id in t.conditions
        && t.conditions[conditions[i].id].definition == conditions[i].definition {
      RebasedInPlace(s, conditions, eval, i);
    }
    RebasedOfInPlace(t, conditions, eval);
    RebasedExactly(t, conditions, eval);
    var again := RebasedMap(t, conditions, eval).value;
    forall id | id in again ensures again[id] == t.conditions[id] {
      var i :| 0 <= i < |conditions| && conditions[i].id == id;
      assert Some(again[id]) == RebasedOne(t, conditions[i], eval);
    }
    assert again == t.conditions;
  }

  /**
    Rebasing, as a whole: its keys are exactly the declared conditions, unchanged definitions keep
    every temporal fact, observations stay, the revision rises by one exactly when some condition
    changed, and rebasing again changes nothing.
   */
  lemma RebaseExact(s: PolicyFacts, doc: Document, eval: Evaluator)
    requires doc.Valid() && Rebased(s, doc, eval).Some?
    ensures
      var t := Rebased(s, doc, eval).value;
      && t.conditions.Keys == Ids(doc.conditions)
      && t.accepted == s.accepted && t.observationSeq == s.observationSeq && t.valueDigest == s.valueDigest
      && t.revision == (if t.conditions == s.conditions then s.revision else s.revision + 1)
      && (forall i :: 0 <= i < |doc.conditions| ==>
            Some(t.conditions[doc.conditions[i].id]) == RebasedOne(s, doc.conditions[i], eval))
      && Rebased(t, doc, eval) == Some(t)
  {
    RebasedExactly(s, doc.conditions, eval);
    RebaseMatches(s, doc, eval);
    RebasedTwice(s, Rebased(s, doc, eval).value, doc.conditions, eval);
  }

  // ---------------------------------------------------------------- history

  /** A condition's life so far: what it was seeded from and what was accepted since. */
  datatype Since = Since(definition: int, seed: Option<Observation>, observed: seq<Observation>) {
    function Latest(): Option<Observation> {
      if observed == [] then seed else Some(observed[|observed| - 1])
    }

    function Before(): Since
      requires observed != []
    {
      Since(definition, seed, observed[..|observed| - 1])
    }

    function With(observation: Observation): Since {
      Since(definition, seed, observed + [observation])
    }

    function Prefix(n: nat): Since
      requires n <= |observed|
    {
      Since(definition, seed, observed[..n])
    }
  }

  /** The condition state recomputed from its whole history. */
  function Recomputed(h: Since, eval: Evaluator): Option<ConditionState>
    decreases |h.observed|
  {
    if h.observed == [] then Seeded(h.definition, h.seed, eval)
    else
      var front := Recomputed(h.Before(), eval);
      if front.None? then None
      else
        var observation := h.observed[|h.observed| - 1];
        var d := eval(h.definition, observation, ContextOf(front.value, h.Before().Latest()));
        if d.None? then None else Some(Applied(front.value, observation, d.value))
  }

  type Chronicle = map<ConditionId, Since>

  /** The chronicle tells the state: same conditions, each recomputed from its own history. */
  ghost predicate Tells(h: Chronicle, s: PolicyFacts, eval: Evaluator) {
    && h.Keys == s.conditions.Keys
    && forall id :: id in h ==> TellsOf(h[id], s.conditions[id], s.accepted, eval)
  }

  predicate TellsOf(h: Since, c: ConditionState, accepted: Option<Observation>, eval: Evaluator) {
    Recomputed(h, eval) == Some(c) && h.Latest() == accepted
  }

  function ChronicleOne(h: Chronicle, c: Condition, accepted: Option<Observation>): Since {
    if c.id in h && h[c.id].definition == c.definition then h[c.id] else Since(c.definition, accepted, [])
  }

  /** Unchanged definitions keep their history; changed and new ones begin again here. */
  function ChronicleRebased(h: Chronicle, conditions: seq<Condition>, accepted: Option<Observation>): Chronicle {
    if conditions == [] then map[]
    else
      var last := conditions[|conditions| - 1];
      ChronicleRebased(h, conditions[..|conditions| - 1], accepted)[last.id := ChronicleOne(h, last, accepted)]
  }

  function ChronicleAccepted(h: Chronicle, observation: Observation): Chronicle {
    map id | id in h :: h[id].With(observation)
  }

  lemma {:induction false} ChronicleExactly(h: Chronicle, conditions: seq<Condition>, accepted: Option<Observation>)
    requires DistinctConditions(conditions)
    ensures
      var next := ChronicleRebased(h, conditions, accepted);
      && next.Keys == Ids(conditions)
      && forall i :: 0 <= i < |conditions| ==> next[conditions[i].id] == ChronicleOne(h, conditions[i], accepted)
  {
    if conditions != [] {
      var front, last := conditions[..|conditions| - 1], conditions[|conditions| - 1];
      ChronicleExactly(h, front, accepted);
      assert conditions == front + [last];
      IdsSnoc(front, last);
      var before, next := ChronicleRebased(h, front, accepted), ChronicleRebased(h, conditions, accepted);
      assert next == before[last.id := ChronicleOne(h, last, accepted)];
      forall i | 0 <= i < |front| ensures next[conditions[i].id] == ChronicleOne(h, conditions[i], accepted) {
        assert conditions[i] == front[i] && conditions[i].id != last.id;
      }
    }
  }

  lemma {:induction false} RecomputedDefinition(h: Since, eval: Evaluator)
    requires Recomputed(h, eval).Some?
    ensures Recomputed(h, eval).value.definition == h.definition
    decreases |h.observed|
  {
    if h.observed != [] {
      RecomputedDefinition(h.Before(), eval);
    }
  }

  lemma RebaseTells(h: Chronicle, s: PolicyFacts, doc: Document, eval: Evaluator)
    requires doc.Valid() && Tells(h, s, eval) && Rebased(s, doc, eval).Some?
    ensures Tells(ChronicleRebased(h, doc.conditions, s.accepted), Rebased(s, doc, eval).value, eval)
  {
    var next, t := ChronicleRebased(h, doc.conditions, s.accepted), Rebased(s, doc, eval).value;
    RebaseExact(s, doc, eval);
    ChronicleExactly(h, doc.conditions, s.accepted);
    forall id | id in next ensures TellsOf(next[id], t.conditions[id], t.accepted, eval) {
      var i :| 0 <= i < |doc.conditions| && doc.conditions[i].id == id;
      assert Some(t.conditions[id]) == RebasedOne(s, doc.conditions[i], eval);
      if id in h {
        assert TellsOf(h[id], s.conditions[id], s.accepted, eval);
        RecomputedDefinition(h[id], eval);
      }
    }
  }

  // ---------------------------------------------------------------- accepted observations

  /** Each declared condition is evaluated once, in order, against its own pre-run context. */
  lemma {:induction false} EvaluatedExactly(
    s: PolicyFacts, conditions: seq<Condition>, observation: Observation, eval: Evaluator)
    requires forall i :: 0 <= i < |conditions| ==> conditions[i].id in s.conditions
    requires Evaluated(s, conditions, observation, eval).Some?
    ensures
      var evaluations := Evaluated(s, conditions, observation, eval).value;
      && |evaluations| == |conditions|
      && forall i :: 0 <= i < |conditions| ==>
           && evaluations[i].id == conditions[i].id
           && eval(conditions[i].definition, observation, ContextOf(s.conditions[conditions[i].id], s.accepted))
               == Some(evaluations[i].decision)
  {
    if conditions != [] {
      EvaluatedExactly(s, conditions[..|conditions| - 1], observation, eval);
    }
  }

  predicate DistinctEvaluations(evaluations: seq<Evaluation>) {
    forall i, j :: 0 <= i < j < |evaluations| ==> evaluations[i].id != evaluations[j].id
  }

  lemma {:induction false} AppliedKeys(
    conditions: map<ConditionId, ConditionState>, evaluations: seq<Evaluation>, observation: Observation)
    ensures AppliedAll(conditions, evaluations, observation).Keys == conditions.Keys
  {
    if evaluations != [] {
      AppliedKeys(conditions, evaluations[..|evaluations| - 1], observation);
    }
  }

  lemma {:induction false} AppliedElsewhere(
    conditions: map<ConditionId, ConditionState>, evaluations: seq<Evaluation>, observation: Observation,
    id: ConditionId)
    requires id in conditions && forall i :: 0 <= i < |evaluations| ==> evaluations[i].id != id
    ensures id in AppliedAll(conditions, evaluations, observation)
      && AppliedAll(conditions, evaluations, observation)[id] == conditions[id]
  {
    if evaluations != [] {
      AppliedElsewhere(conditions, evaluations[..|evaluations| - 1], observation, id);
    }
  }

  /** Each evaluation moves its own condition, from its state before the loop. */
  lemma {:induction false} AppliedExactly(
    conditions: map<ConditionId, ConditionState>, evaluations: seq<Evaluation>, observation: Observation, i: nat)
    requires DistinctEvaluations(evaluations) && i < |evaluations| && evaluations[i].id in conditions
    ensures
      var after := AppliedAll(conditions, evaluations, observation);
      evaluations[i].id in after
        && after[evaluations[i].id] == Applied(conditions[evaluations[i].id], observation, evaluations[i].decision)
  {
    var front, last := evaluations[..|evaluations| - 1], evaluations[|evaluations| - 1];
    if i < |front| {
      assert evaluations[i].id != last.id;
      AppliedExactly(conditions, front, observation, i);
    } else {
      AppliedElsewhere(conditions, front, observation, last.id);
    }
  }

  /** One condition's history, one observation longer, recomputes to its applied state. */
  lemma RecomputedStep(
    h: Since, c: ConditionState, observation: Observation, d: Decision, accepted: Option<Observation>, eval: Evaluator)
    requires Recomputed(h, eval) == Some(c) && h.Latest() == accepted
    requires eval(h.definition, observation, ContextOf(c, accepted)) == Some(d)
    ensures Recomputed(h.With(observation), eval) == Some(Applied(c, observation, d))
    ensures h.With(observation).Latest() == Some(observation)
  {
    assert h.With(observation).Before() == h;
  }

  /** The document's conditions are the state's, each under its declared definition. */
  predicate InPlace(s: PolicyFacts, doc: Document) {
    forall i :: 0 <= i < |doc.conditions| ==>
      doc.conditions[i].id in s.conditions
        && s.conditions[doc.conditions[i].id].definition == doc.conditions[i].definition
  }

  lemma AcceptOne(h: Since, s: PolicyFacts, doc: Document, observation: Observation, eval: Evaluator, i: nat)
    requires doc.Valid() && InPlace(s, doc) && i < |doc.conditions|
    requires Recomputed(h, eval) == Some(s.conditions[doc.conditions[i].id]) && h.Latest() == s.accepted
    requires Evaluated(s, doc.conditions, observation, eval).Some?
    ensures
      var after := AppliedAll(s.conditions, Evaluated(s, doc.conditions, observation, eval).value, observation);
      doc.conditions[i].id in after && Recomputed(h.With(observation), eval) == Some(after[doc.conditions[i].id])
  {
    var evaluations := Evaluated(s, doc.conditions, observation, eval).value;
    EvaluatedExactly(s, doc.conditions, observation, eval);
    RecomputedDefinition(h, eval);
    RecomputedStep(h, s.conditions[doc.conditions[i].id], observation, evaluations[i].decision, s.accepted, eval);
    AppliedExactly(s.conditions, evaluations, observation, i);
  }

  lemma AcceptEach(
    h: Chronicle, s: PolicyFacts, doc: Document, observation: Observation, eval: Evaluator, id: ConditionId)
    requires doc.Valid() && InPlace(s, doc) && Tells(h, s, eval) && id in Ids(doc.conditions) && id in h
    requires Evaluated(s, doc.conditions, observation, eval).Some?
    ensures
      var after := AppliedAll(s.conditions, Evaluated(s, doc.conditions, observation, eval).value, observation);
      id in after && TellsOf(h[id].With(observation), after[id], Some(observation), eval)
  {
    var i :| 0 <= i < |doc.conditions| && doc.conditions[i].id == id;
    assert TellsOf(h[id], s.conditions[id], s.accepted, eval);
    AcceptOne(h[id], s, doc, observation, eval, i);
  }

  /** Once every condition took the observation in, so does its chronicle. */
  lemma ChronicleTakesIn(h: Chronicle, t: PolicyFacts, observation: Observation, eval: Evaluator)
    requires h.Keys == t.conditions.Keys && t.accepted == Some(observation)
    requires forall id :: id in h ==> TellsOf(h[id].With(observation), t.conditions[id], Some(observation), eval)
    ensures Tells(ChronicleAccepted(h, observation), t, eval)
  {
    var next := ChronicleAccepted(h, observation);
    forall id | id in next ensures TellsOf(next[id], t.conditions[id], t.accepted, eval) {
      assert TellsOf(h[id].With(observation), t.conditions[id], Some(observation), eval);
    }
  }

  lemma AcceptTells(h: Chronicle, s: PolicyFacts, doc: Document, observation: Observation, digest: int, eval: Evaluator)
    requires doc.Valid() && InPlace(s, doc) && Tells(h, s, eval) && s.conditions.Keys == Ids(doc.conditions)
    requires AcceptedOver(s, doc, observation, digest, eval).evaluations.Some?
    ensures Tells(ChronicleAccepted(h, observation), AcceptedOver(s, doc, observation, digest, eval).state, eval)
  {
    AppliedKeys(s.conditions, Evaluated(s, doc.conditions, observation, eval).value, observation);
    var t := AcceptedOver(s, doc, observation, digest, eval).state;
    forall id | id in h ensures TellsOf(h[id].With(observation), t.conditions[id], Some(observation), eval) {
      AcceptEach(h, s, doc, observation, eval, id);
    }
    ChronicleTakesIn(h, t, observation, eval);
  }

  // ---------------------------------------------------------------- runs

  datatype Event = Rebase(doc: Document) | Accept(doc: Document, observation: Observation, digest: int)

  function After(s: PolicyFacts, event: Event, eval: Evaluator): PolicyFacts {
    match event
    case Rebase(doc) => if Rebased(s, doc, eval).Some? then Rebased(s, doc, eval).value else s
    case Accept(doc, observation, digest) => Accepted(s, doc, observation, digest, eval).state
  }

  /** An observation under another value digest is refused before anything is rebased. */
  predicate Refuses(s: PolicyFacts, event: Event) {
    event.Accept? && s.valueDigest.Some? && s.valueDigest.value != event.digest
  }

  /** A refused event leaves the chronicle too, except that a refused acceptance may have rebased. */
  function ChronicleAfter(h: Chronicle, s: PolicyFacts, event: Event, eval: Evaluator): Chronicle {
    if Refuses(s, event) || Rebased(s, event.doc, eval).None? then h
    else
      var rebased := ChronicleRebased(h, event.doc.conditions, s.accepted);
      if event.Accept? && Accepted(s, event.doc, event.observation, event.digest, eval).evaluations.Some?
      then ChronicleAccepted(rebased, event.observation) else rebased
  }

  function AfterAll(s: PolicyFacts, events: seq<Event>, eval: Evaluator): PolicyFacts {
    if events == [] then s else After(AfterAll(s, events[..|events| - 1], eval), events[|events| - 1], eval)
  }

  function Told(events: seq<Event>, eval: Evaluator): Chronicle {
    if events == [] then map[]
    else
      var front := events[..|events| - 1];
      ChronicleAfter(Told(front, eval), AfterAll(FRESH, front, eval), events[|events| - 1], eval)
  }

  lemma RebaseInPlace(s: PolicyFacts, doc: Document, eval: Evaluator)
    requires doc.Valid() && Rebased(s, doc, eval).Some?
    ensures InPlace(Rebased(s, doc, eval).value, doc)
  {
    forall i | 0 <= i < |doc.conditions|
      ensures
        var t := Rebased(s, doc, eval).value;
        doc.conditions[i].id in t.conditions
          && t.conditions[doc.conditions[i].id].definition == doc.conditions[i].definition
    {
      RebasedInPlace(s, doc.conditions, eval, i);
    }
  }

  /** The acceptance itself, over a state whose conditions are the document's. */
  lemma OverRebasedTells(
    h: Chronicle, t: PolicyFacts, doc: Document, observation: Observation, digest: int, eval: Evaluator)
    requires doc.Valid() && InPlace(t, doc) && t.conditions.Keys == Ids(doc.conditions)
    requires Tells(h, t, eval) && t.observationSeq < U64_MAX
    ensures
      var r := AcceptedOver(t, doc, observation, digest, eval);
      && Tells(if r.evaluations.Some? then ChronicleAccepted(h, observation) else h, r.state, eval)
      && r.state.observationSeq <= t.observationSeq + 1
  {
    if AcceptedOver(t, doc, observation, digest, eval).evaluations.Some? {
      AcceptTells(h, t, doc, observation, digest, eval);
    } else {
      RefusalKeepsRebased(t, doc, observation, digest, eval);
    }
  }

  lemma AcceptanceTells(h: Chronicle, s: PolicyFacts, event: Event, eval: Evaluator)
    requires event.Accept? && event.doc.Valid() && Tells(h, s, eval) && s.observationSeq < U64_MAX
    requires Rebased(s, event.doc, eval).Some? && !Refuses(s, event)
    ensures Tells(ChronicleAfter(h, s, event, eval), After(s, event, eval), eval)
    ensures After(s, event, eval).observationSeq <= s.observationSeq + 1
  {
    RebaseTells(h, s, event.doc, eval);
    RebaseExact(s, event.doc, eval);
    RebaseInPlace(s, event.doc, eval);
    OverRebasedTells(ChronicleRebased(h, event.doc.conditions, s.accepted), Rebased(s, event.doc, eval).value,
      event.doc, event.observation, event.digest, eval);
  }

  /** Short of the last sequence number, a refused acceptance leaves exactly the rebased state. */
  lemma RefusalKeepsRebased(t: PolicyFacts, doc: Document, observation: Observation, digest: int, eval: Evaluator)
    requires AllDeclared(t, doc) && t.observationSeq < U64_MAX
      && AcceptedOver(t, doc, observation, digest, eval).evaluations.None?
    ensures AcceptedOver(t, doc, observation, digest, eval).state == t
  {
  }

  lemma EventTells(h: Chronicle, s: PolicyFacts, event: Event, eval: Evaluator)
    requires event.doc.Valid() && Tells(h, s, eval) && s.observationSeq < U64_MAX
    ensures Tells(ChronicleAfter(h, s, event, eval), After(s, event, eval), eval)
    ensures After(s, event, eval).observationSeq <= s.observationSeq + 1
  {
    if Rebased(s, event.doc, eval).Some? && !Refuses(s, event) {
      if event.Accept? {
        AcceptanceTells(h, s, event, eval);
      } else {
        RebaseTells(h, s, event.doc, eval);
      }
    }
  }

  /**
    Incremental policy state agrees with recomputation. After any run of rebases and accepted
    observations, refused ones included, every condition's result, hysteresis, baseline and last
    transition equal a fold over the observations accepted since its definition was installed.
   */
  lemma {:induction false} IncrementalIsRecomputed(events: seq<Event>, eval: Evaluator)
    requires |events| <= U64_MAX && forall i :: 0 <= i < |events| ==> events[i].doc.Valid()
    ensures Tells(Told(events, eval), AfterAll(FRESH, events, eval), eval)
    ensures AfterAll(FRESH, events, eval).observationSeq <= |events|
  {
    if events != [] {
      var front := events[..|events| - 1];
      IncrementalIsRecomputed(front, eval);
      EventTells(Told(front, eval), AfterAll(FRESH, front, eval), events[|events| - 1], eval);
    }
  }

  /** Sequence number, observation and value digest agree after every run from a fresh state. */
  lemma {:induction false} RunsKeepAgreement(events: seq<Event>, eval: Evaluator)
    ensures Agreed(AfterAll(FRESH, events, eval))
  {
    if events != [] {
      RunsKeepAgreement(events[..|events| - 1], eval);
    }
  }

  // ---------------------------------------------------------------- what the fold says

  /** The baseline is fixed: the seed, or else the very first observation, whatever follows. */
  lemma {:induction false} BaselineIsFirst(h: Since, eval: Evaluator)
    requires Recomputed(h, eval).Some?
    ensures Recomputed(h, eval).value.baseline ==
            if h.seed.Some? then h.seed else if h.observed == [] then None else Some(h.observed[0])
    decreases |h.observed|
  {
    if h.observed != [] {
      BaselineIsFirst(h.Before(), eval);
    }
  }

  lemma {:induction false} PrefixRecomputed(h: Since, eval: Evaluator, n: nat)
    requires Recomputed(h, eval).Some? && n <= |h.observed|
    ensures Recomputed(h.Prefix(n), eval).Some?
    decreases |h.observed|
  {
    if n == |h.observed| {
      assert h.Prefix(n) == h;
    } else {
      assert h.Before().Prefix(n) == h.Prefix(n);
      PrefixRecomputed(h.Before(), eval, n);
    }
  }

  /** The result after the first `n` observations since the definition was installed. */
  function ResultAt(h: Since, eval: Evaluator, n: nat): Outcome
    requires n <= |h.observed| && Recomputed(h, eval).Some?
  {
    PrefixRecomputed(h, eval, n);
    Recomputed(h.Prefix(n), eval).value.result
  }

  /** The `n`-th observation is where the result last changed; position 0 is the seed. */
  predicate LastChangeAt(h: Since, eval: Evaluator, n: nat)
    requires Recomputed(h, eval).Some?
  {
    && n <= |h.observed|
    && (n > 0 ==> ResultAt(h, eval, n) != ResultAt(h, eval, n - 1))
    && forall k :: n < k <= |h.observed| ==> ResultAt(h, eval, k) == ResultAt(h, eval, k - 1)
  }

  lemma ResultOfPrefix(h: Since, eval: Evaluator, n: nat)
    requires Recomputed(h, eval).Some? && h.observed != [] && n < |h.observed|
    ensures Recomputed(h.Before(), eval).Some? && ResultAt(h.Before(), eval, n) == ResultAt(h, eval, n)
  {
    assert h.Before().Prefix(n) == h.Prefix(n);
  }

  /** The recorded transition is the observation at which the result last changed. */
  lemma {:induction false} TransitionIsLastChange(h: Since, eval: Evaluator) returns (n: nat)
    requires Recomputed(h, eval).Some?
    ensures LastChangeAt(h, eval, n)
    ensures Recomputed(h, eval).value.transition == if n == 0 then h.seed else Some(h.observed[n - 1])
    decreases |h.observed|
  {
    var size := |h.observed|;
    if size == 0 {
      n := 0;
    } else {
      var m := TransitionIsLastChange(h.Before(), eval);
      LastStep(h, eval);
      if ResultAt(h, eval, size) != ResultAt(h, eval, size - 1) {
        n := size;
      } else {
        n := m;
        LastChangeStays(h, eval, m);
      }
    }
  }

  /** The last observation moves the transition exactly if it moves the result. */
  lemma LastStep(h: Since, eval: Evaluator)
    requires Recomputed(h, eval).Some? && h.observed != []
    ensures Recomputed(h.Before(), eval).Some?
    ensures
      var size := |h.observed|;
      Recomputed(h, eval).value.transition ==
      if ResultAt(h, eval, size) != ResultAt(h, eval, size - 1) then Some(h.observed[size - 1])
      else Recomputed(h.Before(), eval).value.transition
  {
    var size := |h.observed|;
    assert h.Prefix(size) == h && h.Prefix(size - 1) == h.Before();
  }

  lemma LastChangeStays(h: Since, eval: Evaluator, m: nat)
    requires Recomputed(h, eval).Some? && h.observed != [] && Recomputed(h.Before(), eval).Some?
    requires LastChangeAt(h.Before(), eval, m)
    requires ResultAt(h, eval, |h.observed|) == ResultAt(h, eval, |h.observed| - 1)
    ensures LastChangeAt(h, eval, m)
  {
    forall k | 0 <= k < |h.observed| ensures ResultAt(h.Before(), eval, k) == ResultAt(h, eval, k) {
      ResultOfPrefix(h, eval, k);
    }
    forall k | m < k <= |h.observed| ensures ResultAt(h, eval, k) == ResultAt(h, eval, k - 1) {
      if k < |h.observed| {
        assert ResultAt(h.Before(), eval, k) == ResultAt(h.Before(), eval, k - 1);
      }
    }
  }

  // ---------------------------------------------------------------- what a refused acceptance leaves

  /** The state a refused acceptance should leave: rebased if the rebase went through, and otherwise as it was. */
  function KeptState(s: PolicyFacts, doc: Document, digest: int, eval: Evaluator): PolicyFacts {
    if (s.valueDigest.Some? && s.valueDigest.value != digest) || Rebased(s, doc, eval).None? then s
      else Rebased(s, doc, eval).value
  }

  /** A check ahead of the sequence number refuses: the value digest, the rebase, the contract, or an evaluation. */
  predicate RefusedEarly(s: PolicyFacts, doc: Document, observation: Observation, digest: int, eval: Evaluator) {
    || (s.valueDigest.Some? && s.valueDigest.value != digest) || Rebased(s, doc, eval).None?
      || observation.contract != doc.contract
    || (RebasedDeclares(s, doc, eval); Evaluated(Rebased(s, doc, eval).value, doc.conditions, observation, eval).None?)
  }

  /** The decision is where the condition already stands, and its baseline is set. */
  predicate Unmoved(c: ConditionState, d: Decision) {
    c.baseline.Some? && c.result == d.outcome && c.active == d.active
  }

  /** No declared condition would move. */
  predicate NothingMoves(t: PolicyFacts, doc: Document, observation: Observation, eval: Evaluator)
    requires AllDeclared(t, doc)
  {
    forall i :: 0 <= i < |doc.conditions| ==>
      var c := t.conditions[doc.conditions[i].id];
      var d := eval(doc.conditions[i].definition, observation, ContextOf(c, t.accepted));
      d.Some? && Unmoved(c, d.value)
  }

  lemma {:induction false} AppliedUnmoved(
    conditions: map<ConditionId, ConditionState>, evaluations: seq<Evaluation>, observation: Observation)
    requires forall i :: 0 <= i < |evaluations| ==>
      evaluations[i].id in conditions && Unmoved(conditions[evaluations[i].id], evaluations[i].decision)
    ensures AppliedAll(conditions, evaluations, observation) == conditions
  {
    if evaluations != [] {
      AppliedUnmoved(conditions, evaluations[..|evaluations| - 1], observation);
    }
  }

  lemma AppliedMovesIff(c: ConditionState, observation: Observation, d: Decision)
    ensures Applied(c, observation, d) == c <==> Unmoved(c, d)
  {
  }

  /** The evaluation loop changes nothing exactly when no declared condition would move. */
  lemma ApplyingChangesNothingIff(t: PolicyFacts, doc: Document, observation: Observation, eval: Evaluator)
    requires doc.Valid() && AllDeclared(t, doc) && Evaluated(t, doc.conditions, observation, eval).Some?
    ensures AppliedAll(t.conditions, Evaluated(t, doc.conditions, observation, eval).value, observation) == t.conditions
            <==> NothingMoves(t, doc, observation, eval)
  {
    var evaluations := Evaluated(t, doc.conditions, observation, eval).value;
    EvaluatedExactly(t, doc.conditions, observation, eval);
    if NothingMoves(t, doc, observation, eval) {
      AppliedUnmoved(t.conditions, evaluations, observation);
    } else {
      var i :| 0 <= i < |doc.conditions| && !Unmoved(t.conditions[doc.conditions[i].id], evaluations[i].decision);
      AppliedExactly(t.conditions, evaluations, observation, i);
      AppliedMovesIff(t.conditions[evaluations[i].id], observation, evaluations[i].decision);
    }
  }

  /**
    All or nothing, exactly. An acceptance is refused if and only if an early check refuses it or the
    sequence number is exhausted; and a refused one leaves exactly the kept state if and only if it was
    refused early, or the sequence number was not the last, or no declared condition would have moved.
   */
  lemma RefusedAcceptanceIsCleanIff(
    s: PolicyFacts, doc: Document, observation: Observation, digest: int, eval: Evaluator)
    requires doc.Valid()
    ensures
      var r, early := Accepted(s, doc, observation, digest, eval), RefusedEarly(s, doc, observation, digest, eval);
      && (r.evaluations.None? <==> early || s.observationSeq >= U64_MAX)
      && (r.evaluations.None? ==>
            (r.state == KeptState(s, doc, digest, eval) <==>
               early || s.observationSeq < U64_MAX
                 || (RebasedDeclares(s, doc, eval); NothingMoves(Rebased(s, doc, eval).value, doc, observation, eval))))
  {
    if !RefusedEarly(s, doc, observation, digest, eval) {
      RebasedDeclares(s, doc, eval);
      var t := Rebased(s, doc, eval).value;
      ApplyingChangesNothingIff(t, doc, observation, eval);
    }
  }

  /** Two observations under one contract, one condition, and an evaluator that tells them apart. */
  function Seen(value: int): Observation {
    Observation(value, 0)
  }

  const ONE_CONDITION: Document := Document(0, [Condition("c", 0)])

  function Judged(observation: Observation): Decision {
    if observation == Seen(0) then Decision(NotSatisfied, false, false) else Decision(Satisfied, true, true)
  }

  const JUDGING: Evaluator := (definition, observation, context) => Some(Judged(observation))

  const AGAIN: Event := Accept(ONE_CONDITION, Seen(0), 0)

  /** The state after `n` acceptances of the first observation. */
  function Settled(n: nat): PolicyFacts {
    PolicyFacts(n, Some(Seen(0)), Some(0), map["c" := ConditionState(0, NotSatisfied, false, Some(Seen(0)), None)], 1)
  }

  function Repeats(event: Event, n: nat): seq<Event> {
    seq(n, i => event)
  }

  lemma AfterAllSnoc(s: PolicyFacts, front: seq<Event>, last: Event, eval: Evaluator)
    ensures AfterAll(s, front + [last], eval) == After(AfterAll(s, front, eval), last, eval)
  {
    assert (front + [last])[..|front|] == front;
  }

  /** A repeated event walks along any sequence of states it steps through. */
  lemma {:induction false} RepeatsReach(event: Event, eval: Evaluator, reached: nat -> PolicyFacts, n: nat, limit: nat)
    requires n <= limit && reached(0) == FRESH
    requires forall k: nat :: k < limit ==> After(reached(k), event, eval) == reached(k + 1)
    ensures AfterAll(FRESH, Repeats(event, n), eval) == reached(n)
  {
    if n > 0 {
      RepeatsReach(event, eval, reached, n - 1, limit);
      assert Repeats(event, n) == Repeats(event, n - 1) + [event];
      AfterAllSnoc(FRESH, Repeats(event, n - 1), event, eval);
    }
  }

  /** The one condition is evaluated once, and the evaluation moves it. */
  lemma OneEvaluation(s: PolicyFacts, observation: Observation)
    requires s.conditions.Keys == {"c"}
    ensures AllDeclared(s, ONE_CONDITION)
    ensures Evaluated(s, ONE_CONDITION.conditions, observation, JUDGING) == Some([Evaluation("c", Judged(observation))])
    ensures AppliedAll(s.conditions, [Evaluation("c", Judged(observation))], observation)
            == map["c" := Applied(s.conditions["c"], observation, Judged(observation))]
  {
    var conditions, evaluations := ONE_CONDITION.conditions, [Evaluation("c", Judged(observation))];
    assert conditions[..0] == [] && evaluations[..0] == [];
    assert Evaluated(s, [], observation, JUDGING) == Some([]);
    assert [] + evaluations == evaluations;
    assert AppliedAll(s.conditions, [], observation) == s.conditions;
  }

  /** Rebasing seeds the one condition of a fresh state and leaves a settled one alone. */
  lemma OneRebase(n: nat)
    ensures Rebased(FRESH, ONE_CONDITION, JUDGING)
            == Some(FRESH.(conditions := map["c" := ConditionState(0, NotSatisfied, false, None, None)], revision := 1))
    ensures n > 0 ==> Rebased(Settled(n), ONE_CONDITION, JUDGING) == Some(Settled(n))
  {
    var conditions := ONE_CONDITION.conditions;
    assert conditions[..0] == [];
    assert RebasedMap(FRESH, [], JUDGING) == Some(map[]) && RebasedMap(Settled(n), [], JUDGING) == Some(map[]);
  }

  /** The first observation, once the one condition is declared. */
  lemma OneAcceptance(s: PolicyFacts, t: PolicyFacts)
    requires s.valueDigest == None || s.valueDigest == Some(0)
    requires Rebased(s, ONE_CONDITION, JUDGING) == Some(t)
    requires t.conditions.Keys == {"c"} && t.observationSeq < U64_MAX
    ensures After(s, AGAIN, JUDGING)
            == PolicyFacts(t.observationSeq + 1, Some(Seen(0)), Some(0),
                 map["c" := Applied(t.conditions["c"], Seen(0), Judged(Seen(0)))], t.revision)
  {
    OneEvaluation(t, Seen(0));
  }

  lemma SettledStep(n: nat)
    requires n < U64_MAX
    ensures After(Reached(n), AGAIN, JUDGING) == Reached(n + 1)
  {
    OneRebase(n);
    OneAcceptance(Reached(n), Rebased(Reached(n), ONE_CONDITION, JUDGING).value);
  }

  function Reached(n: nat): PolicyFacts {
    if n == 0 then FRESH else Settled(n)
  }

  lemma RepeatsSettle(n: nat)
    requires n <= U64_MAX
    ensures AfterAll(FRESH, Repeats(AGAIN, n), JUDGING) == Reached(n)
  {
    forall k: nat | k < n ensures After(Reached(k), AGAIN, JUDGING) == Reached(k + 1) {
      SettledStep(k);
    }
    RepeatsReach(AGAIN, JUDGING, Reached, n, n);
  }

  /** The state with its one condition moved by the second observation, and nothing else. */
  function Torn(n: nat): PolicyFacts {
    Settled(n).(conditions := map["c" := ConditionState(0, Satisfied, true, Some(Seen(0)), Some(Seen(1)))])
  }

  lemma LastAcceptanceTears()
    ensures Accepted(Settled(U64_MAX), ONE_CONDITION, Seen(1), 0, JUDGING) == Acceptance(Torn(U64_MAX), None)
  {
    OneRebase(U64_MAX);
    OneEvaluation(Settled(U64_MAX), Seen(1));
  }

  /**
    An input, reached by a run from a fresh state: after 2^64 - 1 equal observations another one is refused,
    and the condition has taken it in all the same.
   */
  lemma ExhaustedSequenceTears()
    ensures
      var s := AfterAll(FRESH, Repeats(AGAIN, U64_MAX), JUDGING);
      var r := Accepted(s, ONE_CONDITION, Seen(1), 0, JUDGING);
      && ONE_CONDITION.Valid() && MatchesContract(s, 0) && KeptState(s, ONE_CONDITION, 0, JUDGING) == s
      && r.evaluations.None? && r.state == Torn(U64_MAX) != s
  {
    RepeatsSettle(U64_MAX);
    OneRebase(U64_MAX);
    LastAcceptanceTears();
    assert Settled(U64_MAX).conditions["c"].result != Torn(U64_MAX).conditions["c"].result;
  }
}
