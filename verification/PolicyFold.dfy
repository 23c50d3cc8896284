/**
  What the incremental policy state means, spelled out: in which context each decision is taken, and what a
  rebase and an acceptance do to every condition.
 */
module PolicyFold {
  import opened Basics
  import opened PolicyState
  import opened PolicyHistory

  // ---------------------------------------------------------------- the fold

  /** Where a condition stands after some observations; `change` is the position of its last change. */
  datatype Point = Point(outcome: Outcome, active: bool, change: nat)

  /** Position `k` is where the outcome last changed up to position `n`; position 0 counts as a change. */
  predicate LastChange(points: seq<Point>, n: nat, k: nat)
    requires n < |points|
  {
    && k <= n
    && (k > 0 ==> points[k].outcome != points[k - 1].outcome)
    && forall j :: k < j <= n ==> points[j].outcome == points[j - 1].outcome
  }

  /** The observation of position `k`; position 0 is the seed. */
  function At(h: Since, k: nat): Option<Observation>
    requires k <= |h.observed|
  {
    if k == 0 then h.seed else Some(h.observed[k - 1])
  }

  /** The first observation of the definition's life among the first `n` and the seed. */
  function FirstOf(h: Since, n: nat): Option<Observation>
    requires n <= |h.observed|
  {
    if h.seed.Some? then h.seed else if n == 0 then None else Some(h.observed[0])
  }

  /** The decision leads to this point. */
  predicate Leads(d: Option<Decision>, point: Point) {
    d.Some? && d.value.outcome == point.outcome && d.value.active == point.active
  }

  /** The seed is judged in a context of nothing but itself; without a seed nothing is decided yet. */
  predicate Begins(definition: int, seed: Option<Observation>, eval: Evaluator, point: Point) {
    if seed.None? then point.outcome == NotSatisfied && !point.active
    else Leads(eval(definition, seed.value, Context(seed, seed, seed, false)), point)
  }

  /**
    Observation `n` is judged against the observation before it, the first one of all, the one at which the
    outcome last changed, and the flag of the decision before.
   */
  predicate Continues(h: Since, eval: Evaluator, points: seq<Point>, n: nat)
    requires n < |h.observed| && |points| > n + 1 && points[n].change <= n
  {
    Leads(
      eval(h.definition, h.observed[n],
        Context(At(h, n), FirstOf(h, n), At(h, points[n].change), points[n].active)),
      points[n + 1])
  }

  /** The points of a whole history, the seed's first. */
  predicate Explains(h: Since, eval: Evaluator, points: seq<Point>) {
    && |points| == |h.observed| + 1
    && Begins(h.definition, h.seed, eval, points[0])
    && (forall n :: 0 <= n <= |h.observed| ==> LastChange(points, n, points[n].change))
    && forall n :: 0 <= n < |h.observed| ==> points[n].change <= n && Continues(h, eval, points, n)
  }

  /** The state at the end of an explained history. */
  function Explained(h: Since, points: seq<Point>): ConditionState
    requires |points| == |h.observed| + 1 && points[|h.observed|].change <= |h.observed|
  {
    var n := |h.observed|;
    ConditionState(h.definition, points[n].outcome, points[n].active, FirstOf(h, n), At(h, points[n].change))
  }

  lemma LastChangeOfPrefix(points: seq<Point>, m: nat, n: nat, k: nat)
    requires n < m <= |points|
    ensures LastChange(points[..m], n, k) <==> LastChange(points, n, k)
  {
  }

  lemma ContinuesInPrefix(h: Since, eval: Evaluator, points: seq<Point>, n: nat)
    requires h.observed != [] && |points| == |h.observed| + 1 && n < |h.observed| - 1 && points[n].change <= n
    ensures Continues(h.Before(), eval, points[..|h.observed|], n) <==> Continues(h, eval, points, n)
  {
  }

  /** An explanation explains all but the last observation as well. */
  lemma ExplainsBefore(h: Since, eval: Evaluator, points: seq<Point>)
    requires Explains(h, eval, points) && h.observed != []
    ensures Explains(h.Before(), eval, points[..|h.observed|])
  {
    var m := |h.observed|;
    forall n | 0 <= n < m ensures LastChange(points[..m], n, points[n].change) {
      assert LastChange(points, n, points[n].change);
      LastChangeOfPrefix(points, m, n, points[n].change);
    }
    forall n | 0 <= n < m - 1 ensures Continues(h.Before(), eval, points[..m], n) {
      ContinuesInPrefix(h, eval, points, n);
    }
  }

  /** The last change is the new position if the outcome moved there, and otherwise stays. */
  lemma LastChangeMoves(points: seq<Point>, n: nat, before: nat)
    requires 0 < n < |points| && LastChange(points, n - 1, before)
    ensures forall now: nat ::
      LastChange(points, n, now) <==> now == if points[n].outcome != points[n - 1].outcome then n else before
  {
    forall now: nat
      ensures LastChange(points, n, now) <==>
              now == if points[n].outcome != points[n - 1].outcome then n else before
    {
      if points[n].outcome == points[n - 1].outcome && LastChange(points, n, now) {
        assert LastChange(points, n - 1, now);
        LastChangeUnique(points, n - 1, now, before);
      }
    }
  }

  lemma LastChangeUnique(points: seq<Point>, n: nat, k: nat, l: nat)
    requires n < |points| && LastChange(points, n, k) && LastChange(points, n, l)
    ensures k == l
  {
  }

  /** One step of the recomputation, spelled out. */
  lemma RecomputedFrom(h: Since, eval: Evaluator, c: ConditionState, d: Decision)
    requires h.observed != [] && Recomputed(h.Before(), eval) == Some(c)
    requires
      var n := |h.observed| - 1;
      eval(h.definition, h.observed[n], Context(At(h, n), c.baseline, c.transition, c.active)) == Some(d)
    ensures
      var o := Some(h.observed[|h.observed| - 1]);
      Recomputed(h, eval) == Some(
        ConditionState(c.definition, d.outcome, d.active, if c.baseline.None? then o else c.baseline,
          if c.result != d.outcome then o else c.transition))
  {
  }

  /** Whatever explains a history explains the state recomputed from it. */
  lemma {:induction false} ExplainedIsRecomputed(h: Since, eval: Evaluator, points: seq<Point>)
    requires Explains(h, eval, points)
    ensures LastChange(points, |h.observed|, points[|h.observed|].change)
    ensures Recomputed(h, eval) == Some(Explained(h, points))
    decreases |h.observed|
  {
    var n := |h.observed|;
    assert LastChange(points, n, points[n].change);
    if n > 0 {
      ExplainsBefore(h, eval, points);
      ExplainedIsRecomputed(h.Before(), eval, points[..n]);
      ExplainedStep(h, eval, points);
    }
  }

  /** The state one explained observation later. */
  lemma ExplainedMoves(h: Since, points: seq<Point>)
    requires h.observed != [] && |points| == |h.observed| + 1
    requires
      var n := |h.observed|;
      LastChange(points, n - 1, points[n - 1].change) && LastChange(points, n, points[n].change)
    ensures
      var n, o := |h.observed|, Some(h.observed[|h.observed| - 1]);
      var c := Explained(h.Before(), points[..n]);
      && c.baseline == FirstOf(h, n - 1) && c.transition == At(h, points[n - 1].change)
      && c.result == points[n - 1].outcome && c.active == points[n - 1].active
      && Explained(h, points)
         == ConditionState(c.definition, points[n].outcome, points[n].active,
              if c.baseline.None? then o else c.baseline,
              if c.result != points[n].outcome then o else c.transition)
  {
    LastChangeMoves(points, |h.observed|, points[|h.observed| - 1].change);
  }

  lemma ExplainedStep(h: Since, eval: Evaluator, points: seq<Point>)
    requires Explains(h, eval, points) && h.observed != []
    requires
      var n := |h.observed|;
      points[n - 1].change < n && Recomputed(h.Before(), eval) == Some(Explained(h.Before(), points[..n]))
    ensures points[|h.observed|].change <= |h.observed| && Recomputed(h, eval) == Some(Explained(h, points))
  {
    var n := |h.observed|;
    var c := Explained(h.Before(), points[..n]);
    assert LastChange(points, n - 1, points[n - 1].change) && LastChange(points, n, points[n].change);
    ExplainedMoves(h, points);
    var d := eval(h.definition, h.observed[n - 1], Context(At(h, n - 1), c.baseline, c.transition, c.active));
    assert Leads(d, points[n]) by {
      assert Continues(h, eval, points, n - 1);
    }
    RecomputedFrom(h, eval, c, d.value);
  }

  /** The point one observation later. */
  lemma ExplainsMore(h: Since, eval: Evaluator, points: seq<Point>, d: Decision) returns (longer: seq<Point>)
    requires h.observed != [] && Explains(h.Before(), eval, points)
    requires
      var n := |h.observed| - 1;
      && LastChange(points, n, points[n].change)
      && eval(h.definition, h.observed[n],
           Context(At(h, n), FirstOf(h, n), At(h, points[n].change), points[n].active)) == Some(d)
    ensures Explains(h, eval, longer)
  {
    var n := |h.observed| - 1;
    var change := if d.outcome != points[n].outcome then n + 1 else points[n].change;
    longer := points + [Point(d.outcome, d.active, change)];
    assert longer[..n + 1] == points;
    forall k | 0 <= k <= n ensures LastChange(longer, k, longer[k].change) {
      assert LastChange(points, k, points[k].change);
      LastChangeOfPrefix(longer, n + 1, k, points[k].change);
    }
    LastChangeMoves(longer, n + 1, points[n].change);
    assert Continues(h, eval, longer, n);
    forall k | 0 <= k < n ensures longer[k].change <= k && Continues(h, eval, longer, k) {
      assert Continues(h.Before(), eval, points, k);
      ContinuesInPrefix(h, eval, longer, k);
    }
  }

  /** Every recomputed state has an explanation. */
  lemma {:induction false} RecomputedIsExplained(h: Since, eval: Evaluator) returns (points: seq<Point>)
    requires Recomputed(h, eval).Some?
    ensures Explains(h, eval, points)
    decreases |h.observed|
  {
    if h.observed == [] {
      var c := Recomputed(h, eval).value;
      points := [Point(c.result, c.active, 0)];
    } else {
      var n := |h.observed| - 1;
      var before := RecomputedIsExplained(h.Before(), eval);
      ExplainedIsRecomputed(h.Before(), eval, before);
      var d := eval(h.definition, h.observed[n],
        Context(At(h, n), FirstOf(h, n), At(h, before[n].change), before[n].active));
      assert At(h.Before(), n) == At(h, n) && FirstOf(h.Before(), n) == FirstOf(h, n);
      assert At(h.Before(), before[n].change) == At(h, before[n].change);
      points := ExplainsMore(h, eval, before, d.value);
    }
  }

  /**
    After any run, every condition stands where its explained history leads: its last decision, in its own
    context, its first observation and the one at which its outcome last changed.
   */
  lemma RunsAreExplained(events: seq<Event>, eval: Evaluator, id: ConditionId) returns (points: seq<Point>)
    requires |events| <= U64_MAX && forall i :: 0 <= i < |events| ==> events[i].doc.Valid()
    requires id in AfterAll(FRESH, events, eval).conditions
    ensures id in Told(events, eval)
    ensures
      var h, s := Told(events, eval)[id], AfterAll(FRESH, events, eval);
      && Explains(h, eval, points) && points[|h.observed|].change <= |h.observed|
      && s.conditions[id] == Explained(h, points) && s.accepted == At(h, |h.observed|)
  {
    IncrementalIsRecomputed(events, eval);
    var h, s := Told(events, eval)[id], AfterAll(FRESH, events, eval);
    assert TellsOf(h, s.conditions[id], s.accepted, eval);
    points := RecomputedIsExplained(h, eval);
    ExplainedIsRecomputed(h, eval, points);
  }

  // ---------------------------------------------------------------- one rebase

  /** The state's definition of the condition is the declared one. */
  predicate Unchanged(s: PolicyFacts, c: Condition) {
    c.id in s.conditions && s.conditions[c.id].definition == c.definition
  }

  /** The condition begins at the latest accepted observation, or at nothing when there is none. */
  predicate SeededAt(c: ConditionState, definition: int, accepted: Option<Observation>, eval: Evaluator) {
    && c.definition == definition && c.baseline == accepted && c.transition == accepted
    && Begins(definition, accepted, eval, Point(c.result, c.active, 0))
  }

  /** A seed cannot be evaluated. */
  predicate SeedFails(s: PolicyFacts, c: Condition, eval: Evaluator) {
    !Unchanged(s, c) && s.accepted.Some?
      && eval(c.definition, s.accepted.value, Context(s.accepted, s.accepted, s.accepted, false)).None?
  }

  predicate SomeSeedFails(s: PolicyFacts, conditions: seq<Condition>, eval: Evaluator) {
    exists i :: 0 <= i < |conditions| && SeedFails(s, conditions[i], eval)
  }

  lemma {:induction false} SeedFailsStopsMap(s: PolicyFacts, conditions: seq<Condition>, eval: Evaluator)
    ensures RebasedMap(s, conditions, eval).None? <==> SomeSeedFails(s, conditions, eval)
  {
    if conditions != [] {
      var front, last := conditions[..|conditions| - 1], conditions[|conditions| - 1];
      SeedFailsStopsMap(s, front, eval);
      if i :| 0 <= i < |front| && SeedFails(s, front[i], eval) {
        assert SeedFails(s, conditions[i], eval);
      }
      assert SeedFails(s, last, eval) ==> SomeSeedFails(s, conditions, eval) by {
        assert conditions[|conditions| - 1] == last;
      }
    }
  }

  /** Rebasing would leave the condition states as they are. */
  predicate NothingToRebase(s: PolicyFacts, doc: Document) {
    && (forall i :: 0 <= i < |doc.conditions| ==> Unchanged(s, doc.conditions[i]))
    && forall id :: id in s.conditions ==> id in Ids(doc.conditions)
  }

  /** The observations a state holds belong to the contract, and its three facts about the latest one agree. */
  predicate InContract(s: PolicyFacts, contract: int) {
    && (s.accepted.Some? <==> s.valueDigest.Some?) && (s.accepted.Some? <==> s.observationSeq > 0)
    && (s.accepted.Some? ==> s.accepted.value.contract == contract)
    && forall id :: id in s.conditions ==>
        && (s.conditions[id].baseline.Some? ==> s.conditions[id].baseline.value.contract == contract)
        && (s.conditions[id].transition.Some? ==> s.conditions[id].transition.value.contract == contract)
  }

  /** A rebase is refused outside the contract, for a seed that cannot be evaluated, or for want of a revision. */
  lemma RebaseRefusedIff(s: PolicyFacts, doc: Document, eval: Evaluator)
    requires doc.Valid()
    ensures
      Rebased(s, doc, eval).None? <==>
      || !InContract(s, doc.contract) || SomeSeedFails(s, doc.conditions, eval)
      || (s.revision >= U64_MAX && !NothingToRebase(s, doc))
  {
    SeedFailsStopsMap(s, doc.conditions, eval);
    if RebasedMap(s, doc.conditions, eval).Some? {
      RebasedChangesIff(s, doc, eval);
    }
  }

  /**
    A rebase, spelled out. Exactly the declared conditions remain, unchanged definitions keep every fact, the
    others begin at the latest accepted observation, and the revision rises by one if and only if something
    changed.
   */
  lemma RebaseSpelledOut(s: PolicyFacts, doc: Document, eval: Evaluator)
    requires doc.Valid() && Rebased(s, doc, eval).Some?
    ensures
      var t := Rebased(s, doc, eval).value;
      && t.conditions.Keys == Ids(doc.conditions)
      && (forall i :: 0 <= i < |doc.conditions| ==>
            var c := doc.conditions[i];
            if Unchanged(s, c) then t.conditions[c.id] == s.conditions[c.id]
            else SeededAt(t.conditions[c.id], c.definition, s.accepted, eval))
      && t == s.(conditions := t.conditions, revision := s.revision + if NothingToRebase(s, doc) then 0 else 1)
  {
    RebasedExactly(s, doc.conditions, eval);
    RebasedChangesIff(s, doc, eval);
  }

  lemma RebasedChangesIff(s: PolicyFacts, doc: Document, eval: Evaluator)
    requires doc.Valid() && RebasedMap(s, doc.conditions, eval).Some?
    ensures RebasedMap(s, doc.conditions, eval).value == s.conditions <==> NothingToRebase(s, doc)
  {
    RebasedExactly(s, doc.conditions, eval);
    var next := RebasedMap(s, doc.conditions, eval).value;
    if NothingToRebase(s, doc) {
      forall id | id in s.conditions ensures id in next && next[id] == s.conditions[id] {
        var i :| 0 <= i < |doc.conditions| && doc.conditions[i].id == id;
        assert Unchanged(s, doc.conditions[i]);
      }
      assert next.Keys == s.conditions.Keys;
    } else if i :| 0 <= i < |doc.conditions| && !Unchanged(s, doc.conditions[i]) {
      SeedKeepsDefinition(s, doc.conditions[i], eval);
      assert next[doc.conditions[i].id].definition == doc.conditions[i].definition;
    }
  }

  // ---------------------------------------------------------------- one acceptance

  /** Some declared condition cannot be evaluated in the context its state gives. */
  predicate SomeVerdictFails(t: PolicyFacts, doc: Document, observation: Observation, eval: Evaluator)
    requires AllDeclared(t, doc)
  {
    exists i :: 0 <= i < |doc.conditions| &&
      var c := t.conditions[doc.conditions[i].id];
      eval(doc.conditions[i].definition, observation, Context(t.accepted, c.baseline, c.transition, c.active)).None?
  }

  lemma {:induction false} VerdictFailsStops(
    s: PolicyFacts, conditions: seq<Condition>, observation: Observation, eval: Evaluator, i: nat)
    requires forall i :: 0 <= i < |conditions| ==> conditions[i].id in s.conditions
    requires i < |conditions|
    requires
      var c := s.conditions[conditions[i].id];
      eval(conditions[i].definition, observation, Context(s.accepted, c.baseline, c.transition, c.active)).None?
    ensures Evaluated(s, conditions, observation, eval).None?
  {
    if i < |conditions| - 1 {
      VerdictFailsStops(s, conditions[..|conditions| - 1], observation, eval, i);
    }
  }

  lemma {:induction false} NoVerdictFails(
    s: PolicyFacts, conditions: seq<Condition>, observation: Observation, eval: Evaluator)
    requires forall i :: 0 <= i < |conditions| ==> conditions[i].id in s.conditions
    requires forall i :: 0 <= i < |conditions| ==>
      var c := s.conditions[conditions[i].id];
      eval(conditions[i].definition, observation, Context(s.accepted, c.baseline, c.transition, c.active)).Some?
    ensures Evaluated(s, conditions, observation, eval).Some?
  {
    if conditions != [] {
      NoVerdictFails(s, conditions[..|conditions| - 1], observation, eval);
    }
  }

  /**
    An acceptance over a rebased state, spelled out. It succeeds if and only if the observation is of the
    contract, every declared condition can be evaluated, and the sequence number has a successor.
   */
  lemma AcceptanceSucceedsIff(t: PolicyFacts, doc: Document, observation: Observation, digest: int, eval: Evaluator)
    requires AllDeclared(t, doc)
    ensures AcceptedOver(t, doc, observation, digest, eval).evaluations.Some? <==>
            && observation.contract == doc.contract && !SomeVerdictFails(t, doc, observation, eval)
            && t.observationSeq < U64_MAX
  {
    if SomeVerdictFails(t, doc, observation, eval) {
      var i :| 0 <= i < |doc.conditions| &&
        var c := t.conditions[doc.conditions[i].id];
        eval(doc.conditions[i].definition, observation, Context(t.accepted, c.baseline, c.transition, c.active)).None?;
      VerdictFailsStops(t, doc.conditions, observation, eval, i);
    } else {
      NoVerdictFails(t, doc.conditions, observation, eval);
    }
  }

  /**
    Every declared condition is judged once, in declaration order, against the previous observation and its own
    baseline, last transition and flag; its state takes the decision, its first observation, and the observation
    at which its outcome moves. All else moves on by one.
   */
  lemma AcceptanceSpelledOut(t: PolicyFacts, doc: Document, observation: Observation, digest: int, eval: Evaluator)
    requires doc.Valid() && AllDeclared(t, doc) && t.conditions.Keys == Ids(doc.conditions)
    requires AcceptedOver(t, doc, observation, digest, eval).evaluations.Some?
    ensures
      var r := AcceptedOver(t, doc, observation, digest, eval);
      var evaluations := r.evaluations.value;
      && |evaluations| == |doc.conditions| && r.state.conditions.Keys == t.conditions.Keys
      && (forall i :: 0 <= i < |doc.conditions| ==>
            var id, d := doc.conditions[i].id, evaluations[i].decision;
            var c := t.conditions[id];
            && evaluations[i].id == id
            && eval(doc.conditions[i].definition, observation,
                 Context(t.accepted, c.baseline, c.transition, c.active)) == Some(d)
            && r.state.conditions[id]
               == ConditionState(c.definition, d.outcome, d.active,
                    if c.baseline.Some? then c.baseline else Some(observation),
                    if c.result == d.outcome then c.transition else Some(observation)))
      && r.state
         == PolicyFacts(t.observationSeq + 1, Some(observation), Some(digest), r.state.conditions, t.revision)
  {
    var evaluations := Evaluated(t, doc.conditions, observation, eval).value;
    EvaluatedExactly(t, doc.conditions, observation, eval);
    AppliedKeys(t.conditions, evaluations, observation);
    forall i | 0 <= i < |doc.conditions|
      ensures
        var id := doc.conditions[i].id;
        AppliedAll(t.conditions, evaluations, observation)[id]
          == Applied(t.conditions[id], observation, evaluations[i].decision)
    {
      AppliedExactly(t.conditions, evaluations, observation, i);
    }
  }

  /** The whole acceptance: the value digest first, then the rebase, then the acceptance over it. */
  lemma AcceptanceFollowsRebase(s: PolicyFacts, doc: Document, observation: Observation, digest: int, eval: Evaluator)
    requires doc.Valid()
    ensures
      var r := Accepted(s, doc, observation, digest, eval);
      if (s.valueDigest.Some? && s.valueDigest.value != digest) || Rebased(s, doc, eval).None?
      then r == Acceptance(s, None)
      else
        && AllDeclared(Rebased(s, doc, eval).value, doc)
        && Rebased(s, doc, eval).value.conditions.Keys == Ids(doc.conditions)
        && r == AcceptedOver(Rebased(s, doc, eval).value, doc, observation, digest, eval)
  {
    if Rebased(s, doc, eval).Some? {
      RebasedDeclares(s, doc, eval);
      RebasedExactly(s, doc.conditions, eval);
    }
  }
}
