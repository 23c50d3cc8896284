/** Condition events from already staged policy decisions: a stable partition, issues first. */
module EventMaterialize {
  import opened Basics
  import opened PolicyState
  import opened PolicyHistory

  /** The varying part of a condition event's key; the observation sequence is common to all. */
  datatype ConditionEvent =
    | SatisfiedEvent(id: ConditionId, definition: int)
    | IssueEvent(id: ConditionId, definition: int, issue: Outcome)

  /** A triggered satisfaction, an evaluation issue, or nothing. */
  function EventFor(c: Condition, d: Decision): Option<ConditionEvent> {
    match d.outcome
    case Satisfied => if d.trigger then Some(SatisfiedEvent(c.id, c.definition)) else None
    case NotSatisfied => None
    case _ => Some(IssueEvent(c.id, c.definition, d.outcome))
  }

  /** Staged decisions by condition; a later one for the same condition replaces an earlier one. */
  function Staged(evaluations: seq<Evaluation>): map<ConditionId, Decision> {
    if evaluations == [] then map[]
    else
      var last := evaluations[|evaluations| - 1];
      Staged(evaluations[..|evaluations| - 1])[last.id := last.decision]
  }

  predicate AllStaged(conditions: seq<Condition>, staged: map<ConditionId, Decision>) {
    forall i :: 0 <= i < |conditions| ==> conditions[i].id in staged
  }

  /** The declared positions that emit an issue, or those that emit a satisfaction, in order. */
  function Selected(conditions: seq<Condition>, staged: map<ConditionId, Decision>, issues: bool): seq<nat>
    requires AllStaged(conditions, staged)
  {
    if conditions == [] then []
    else
      var front := Selected(conditions[..|conditions| - 1], staged, issues);
      var last := conditions[|conditions| - 1];
      var event := EventFor(last, staged[last.id]);
      if event.Some? && event.value.IssueEvent? == issues then front + [|conditions| - 1] else front
  }

  /** A position is selected exactly if its event is of that kind, and positions stay in order. */
  lemma {:induction false} SelectedExactly(conditions: seq<Condition>, staged: map<ConditionId, Decision>, issues: bool)
    requires AllStaged(conditions, staged)
    ensures
      var positions := Selected(conditions, staged, issues);
      && (forall k :: 0 <= k < |positions| ==> positions[k] < |conditions|)
      && (forall j, k :: 0 <= j < k < |positions| ==> positions[j] < positions[k])
      && (forall i :: 0 <= i < |conditions| ==>
            var event := EventFor(conditions[i], staged[conditions[i].id]);
            i in positions <==> event.Some? && event.value.IssueEvent? == issues)
  {
    if conditions != [] {
      SelectedExactly(conditions[..|conditions| - 1], staged, issues);
    }
  }

  /** The events at the selected positions. */
  function EventsOf(
    conditions: seq<Condition>, staged: map<ConditionId, Decision>, issues: bool): (events: seq<ConditionEvent>)
    requires AllStaged(conditions, staged)
    ensures |events| == |Selected(conditions, staged, issues)|
    ensures forall k :: 0 <= k < |events| ==>
              var position := Selected(conditions, staged, issues)[k];
              position < |conditions|
                && EventFor(conditions[position], staged[conditions[position].id]) == Some(events[k])
  {
    if conditions == [] then []
    else
      var front := EventsOf(conditions[..|conditions| - 1], staged, issues);
      var last := conditions[|conditions| - 1];
      var event := EventFor(last, staged[last.id]);
      if event.Some? && event.value.IssueEvent? == issues then front + [event.value] else front
  }

  /** The next condition has a result of its own: it is new, staged, and now taken out. */
  lemma TakeResult(conditions: seq<Condition>, staged: map<ConditionId, Decision>, n: nat)
    requires n < |conditions| && DistinctConditions(conditions[..n]) && AllStaged(conditions[..n], staged)
    requires conditions[n].id in staged && conditions[n].id !in Ids(conditions[..n])
    ensures DistinctConditions(conditions[..n + 1]) && AllStaged(conditions[..n + 1], staged)
    ensures staged - Ids(conditions[..n + 1]) == (staged - Ids(conditions[..n])) - {conditions[n].id}
  {
    assert conditions[..n + 1] == conditions[..n] + [conditions[n]];
    IdsSnoc(conditions[..n], conditions[n]);
    forall i | 0 <= i < n ensures conditions[i].id != conditions[n].id {
      assert conditions[..n][i].id in Ids(conditions[..n]);
    }
  }

  lemma NextEvent(conditions: seq<Condition>, staged: map<ConditionId, Decision>, n: nat, issues: bool)
    requires n < |conditions| && AllStaged(conditions[..n], staged) && conditions[n].id in staged
    ensures
      var event := EventFor(conditions[n], staged[conditions[n].id]);
      && AllStaged(conditions[..n + 1], staged)
      && EventsOf(conditions[..n + 1], staged, issues)
         == EventsOf(conditions[..n], staged, issues)
           + (if event.Some? && event.value.IssueEvent? == issues then [event.value] else [])
  {
    assert conditions[..n + 1] == conditions[..n] + [conditions[n]];
    assert conditions[..n + 1][..n] == conditions[..n];
  }

  /** `materialize_condition_events`: a map of results is emptied while two vectors grow. */
  method MaterializeConditionEvents(
    conditions: seq<Condition>, evaluations: seq<Evaluation>) returns (events: Result<seq<ConditionEvent>>)
    ensures events.Ok? <==> DistinctConditions(conditions) && Staged(evaluations).Keys == Ids(conditions)
    ensures events.Ok? ==>
              && AllStaged(conditions, Staged(evaluations))
              && events.value == Materialized(conditions, Staged(evaluations))
  {
    var results := CollectResults(evaluations);
    ghost var staged := results;
    var issues, satisfactions: seq<ConditionEvent> := [], [];
    for n := 0 to |conditions|
      invariant DistinctConditions(conditions[..n]) && AllStaged(conditions[..n], staged)
      invariant results == staged - Ids(conditions[..n])
      invariant issues == EventsOf(conditions[..n], staged, true)
      invariant satisfactions == EventsOf(conditions[..n], staged, false)
    {
      var condition := conditions[n];
      if condition.id !in results {
        MissingResult(conditions, staged, n);
        return Err;
      }
      TakeResult(conditions, staged, n);
      NextEvent(conditions, staged, n, true);
      NextEvent(conditions, staged, n, false);
      var event := EventFor(condition, results[condition.id]);
      results := results - {condition.id};
      if event.Some? {
        if event.value.IssueEvent? {
          issues := issues + [event.value];
        } else {
          satisfactions := satisfactions + [event.value];
        }
      }
    }
    assert conditions[..|conditions|] == conditions;
    AllTaken(conditions, staged);
    if results != map[] {
      return Err;
    }
    return Ok(issues + satisfactions);
  }

  lemma AllTaken(conditions: seq<Condition>, staged: map<ConditionId, Decision>)
    requires AllStaged(conditions, staged)
    ensures staged - Ids(conditions) == map[] <==> staged.Keys == Ids(conditions)
  {
    var left := staged - Ids(conditions);
    if left == map[] {
      forall id | id in staged ensures id in Ids(conditions) {
        assert id !in left;
      }
    }
  }

  /** The materialized list, as one sequence. */
  function Materialized(conditions: seq<Condition>, staged: map<ConditionId, Decision>): seq<ConditionEvent>
    requires AllStaged(conditions, staged)
  {
    EventsOf(conditions, staged, true) + EventsOf(conditions, staged, false)
  }

  /** A declared condition without a result of its own: undeclared in the staging, or repeated. */
  lemma MissingResult(conditions: seq<Condition>, staged: map<ConditionId, Decision>, n: nat)
    requires n < |conditions| && conditions[n].id !in staged - Ids(conditions[..n])
    ensures !DistinctConditions(conditions) || staged.Keys != Ids(conditions)
  {
    if conditions[n].id in Ids(conditions[..n]) {
      var i :| 0 <= i < n && conditions[..n][i].id == conditions[n].id;
      assert conditions[i].id == conditions[n].id;
    } else {
      assert conditions[n].id in Ids(conditions);
    }
  }

  method CollectResults(evaluations: seq<Evaluation>) returns (results: map<ConditionId, Decision>)
    ensures results == Staged(evaluations)
  {
    results := map[];
    for n := 0 to |evaluations|
      invariant results == Staged(evaluations[..n])
    {
      assert evaluations[..n + 1][..n] == evaluations[..n];
      results := results[evaluations[n].id := evaluations[n].decision];
    }
    assert evaluations[..|evaluations|] == evaluations;
  }

  lemma {:induction false} StagedKeys(evaluations: seq<Evaluation>)
    ensures Staged(evaluations).Keys == set i | 0 <= i < |evaluations| :: evaluations[i].id
  {
    if evaluations != [] {
      var front := evaluations[..|evaluations| - 1];
      StagedKeys(front);
      forall i | 0 <= i < |evaluations| ensures evaluations[i].id in Staged(evaluations) {
        if i < |front| { assert front[i].id in Staged(front); }
      }
    }
  }

  /** The declared position an event of the list comes from. */
  lemma PositionOf(conditions: seq<Condition>, staged: map<ConditionId, Decision>, k: nat) returns (position: nat)
    requires AllStaged(conditions, staged) && k < |Materialized(conditions, staged)|
    ensures
      var events, first := Materialized(conditions, staged), Selected(conditions, staged, true);
      && position < |conditions| && EventFor(conditions[position], staged[conditions[position].id]) == Some(events[k])
      && events[k].IssueEvent? == (k < |first|)
      && position == (if k < |first| then first[k] else Selected(conditions, staged, false)[k - |first|])
  {
    var first := Selected(conditions, staged, true);
    SelectedExactly(conditions, staged, true);
    SelectedExactly(conditions, staged, false);
    if k < |first| {
      position := first[k];
      assert position in first;
    } else {
      position := Selected(conditions, staged, false)[k - |first|];
      assert position in Selected(conditions, staged, false);
    }
  }

  /** Two events of the list come from two positions. */
  lemma PositionsDiffer(conditions: seq<Condition>, staged: map<ConditionId, Decision>, j: nat, k: nat)
    requires DistinctConditions(conditions) && AllStaged(conditions, staged)
      && j < k < |Materialized(conditions, staged)|
    ensures Materialized(conditions, staged)[j].id != Materialized(conditions, staged)[k].id
  {
    SelectedExactly(conditions, staged, true);
    SelectedExactly(conditions, staged, false);
    var p := PositionOf(conditions, staged, j);
    var q := PositionOf(conditions, staged, k);
    assert p != q;
  }

  /** At most one event per declared condition, so no two events share a key. */
  lemma EventsDistinct(conditions: seq<Condition>, staged: map<ConditionId, Decision>)
    requires DistinctConditions(conditions) && AllStaged(conditions, staged)
    ensures
      var events := Materialized(conditions, staged);
      forall j, k :: 0 <= j < k < |events| ==> events[j].id != events[k].id
  {
    var events := Materialized(conditions, staged);
    forall j, k | 0 <= j < k < |events| ensures events[j].id != events[k].id {
      PositionsDiffer(conditions, staged, j, k);
    }
  }

  /** Events `i` and `j` are of one kind and belong to the conditions at `p` and `q`. */
  predicate SameHalf(conditions: seq<Condition>, events: seq<ConditionEvent>, i: int, j: int, p: int, q: int) {
    && 0 <= i < |events| && 0 <= j < |events| && 0 <= p < |conditions| && 0 <= q < |conditions|
    && events[i].IssueEvent? == events[j].IssueEvent?
    && conditions[p].id == events[i].id && conditions[q].id == events[j].id
  }

  /**
    A stable partition: every issue precedes every satisfaction, each half is in declaration order,
    and exactly the conditions with an event appear.
   */
  lemma MaterializedIsStablePartition(conditions: seq<Condition>, staged: map<ConditionId, Decision>)
    requires DistinctConditions(conditions) && AllStaged(conditions, staged)
    ensures
      var events := Materialized(conditions, staged);
      && (forall j, k :: 0 <= j < k < |events| && events[k].IssueEvent? ==> events[j].IssueEvent?)
      && (forall i, j, p, q :: SameHalf(conditions, events, i, j, p, q) && i < j ==> p < q)
      && (forall i :: 0 <= i < |conditions| ==>
            var event := EventFor(conditions[i], staged[conditions[i].id]);
            event.Some? ==> event.value in events)
      && (forall k :: 0 <= k < |events| ==>
            exists i :: 0 <= i < |conditions| && EventFor(conditions[i], staged[conditions[i].id]) == Some(events[k]))
  {
    var events, first, second :=
      Materialized(conditions, staged), Selected(conditions, staged, true), Selected(conditions, staged, false);
    SelectedExactly(conditions, staged, true);
    SelectedExactly(conditions, staged, false);
    forall k | 0 <= k < |events|
      ensures events[k].IssueEvent? == (k < |first|)
      ensures exists i :: 0 <= i < |conditions| && EventFor(conditions[i], staged[conditions[i].id]) == Some(events[k])
    {
      var position := PositionOf(conditions, staged, k);
    }
    forall i | 0 <= i < |conditions| && EventFor(conditions[i], staged[conditions[i].id]).Some?
      ensures EventFor(conditions[i], staged[conditions[i].id]).value in events
    {
      EventPresent(conditions, staged, i);
    }
    forall i, j, p, q | SameHalf(conditions, events, i, j, p, q) && i < j ensures p < q
    {
      EventsInOrder(conditions, staged, i, j, p, q);
    }
  }

  lemma EventPresent(conditions: seq<Condition>, staged: map<ConditionId, Decision>, i: nat)
    requires AllStaged(conditions, staged) && i < |conditions|
      && EventFor(conditions[i], staged[conditions[i].id]).Some?
    ensures EventFor(conditions[i], staged[conditions[i].id]).value in Materialized(conditions, staged)
  {
    var event := EventFor(conditions[i], staged[conditions[i].id]).value;
    SelectedExactly(conditions, staged, event.IssueEvent?);
    var positions := Selected(conditions, staged, event.IssueEvent?);
    assert i in positions;
    var k :| 0 <= k < |positions| && positions[k] == i;
    assert EventsOf(conditions, staged, event.IssueEvent?)[k] == event;
    assert event in EventsOf(conditions, staged, event.IssueEvent?);
  }

  lemma EventsInOrder(conditions: seq<Condition>, staged: map<ConditionId, Decision>, i: nat, j: nat, p: nat, q: nat)
    requires DistinctConditions(conditions) && AllStaged(conditions, staged)
    requires SameHalf(conditions, Materialized(conditions, staged), i, j, p, q) && i < j
    ensures p < q
  {
    var a := PositionOf(conditions, staged, i);
    var b := PositionOf(conditions, staged, j);
    assert conditions[a].id == conditions[p].id && conditions[b].id == conditions[q].id;
    SelectedExactly(conditions, staged, true);
    SelectedExactly(conditions, staged, false);
  }

  // ---------------------------------------------------------------- which events, spelled out

  /** The decision that counts for a condition is the last one evaluated for it. */
  lemma {:induction false} StagedIsLast(evaluations: seq<Evaluation>, i: nat)
    requires i < |evaluations| && forall j :: i < j < |evaluations| ==> evaluations[j].id != evaluations[i].id
    ensures evaluations[i].id in Staged(evaluations)
      && Staged(evaluations)[evaluations[i].id] == evaluations[i].decision
  {
    var n := |evaluations| - 1;
    if i < n {
      assert evaluations[n].id != evaluations[i].id;
      StagedIsLast(evaluations[..n], i);
    }
  }

  /**
    The list holds a satisfaction for exactly the satisfied and triggered conditions, an issue for exactly those whose
    evaluation was unavailable, overflowed or had a zero reference, and nothing else; each event bears its
    condition's id and definition.
   */
  lemma EventsSpelledOut(conditions: seq<Condition>, staged: map<ConditionId, Decision>)
    requires DistinctConditions(conditions) && AllStaged(conditions, staged)
    ensures
      var events := Materialized(conditions, staged);
      && (forall i :: 0 <= i < |conditions| ==>
            var c, d := conditions[i], staged[conditions[i].id];
            && (SatisfiedEvent(c.id, c.definition) in events <==> d.outcome == Satisfied && d.trigger)
            && (IssueEvent(c.id, c.definition, d.outcome) in events <==>
                  d.outcome in {Unavailable, ArithmeticOverflow, ZeroReference}))
      && (forall event :: event in events ==>
            exists i :: 0 <= i < |conditions| && event.id == conditions[i].id
              && event.definition == conditions[i].definition
              && (event.IssueEvent? ==> event.issue == staged[conditions[i].id].outcome))
  {
    var events := Materialized(conditions, staged);
    forall i | 0 <= i < |conditions|
      ensures
        var c, d := conditions[i], staged[conditions[i].id];
        && (SatisfiedEvent(c.id, c.definition) in events <==> d.outcome == Satisfied && d.trigger)
        && (IssueEvent(c.id, c.definition, d.outcome) in events <==>
              d.outcome in {Unavailable, ArithmeticOverflow, ZeroReference})
    {
      EventIff(conditions, staged, i, SatisfiedEvent(conditions[i].id, conditions[i].definition));
      EventIff(conditions, staged, i,
        IssueEvent(conditions[i].id, conditions[i].definition, staged[conditions[i].id].outcome));
    }
    forall event | event in events
      ensures
        exists i :: 0 <= i < |conditions| && event.id == conditions[i].id
          && event.definition == conditions[i].definition
          && (event.IssueEvent? ==> event.issue == staged[conditions[i].id].outcome)
    {
      var k :| 0 <= k < |events| && events[k] == event;
      var position := PositionOf(conditions, staged, k);
    }
  }

  /** An event with this condition's id is in the list exactly if it is the condition's own event. */
  lemma EventIff(conditions: seq<Condition>, staged: map<ConditionId, Decision>, i: nat, event: ConditionEvent)
    requires DistinctConditions(conditions) && AllStaged(conditions, staged)
    requires i < |conditions| && event.id == conditions[i].id
    ensures event in Materialized(conditions, staged) <==>
      EventFor(conditions[i], staged[conditions[i].id]) == Some(event)
  {
    var events := Materialized(conditions, staged);
    if event in events {
      var k :| 0 <= k < |events| && events[k] == event;
      var position := PositionOf(conditions, staged, k);
      assert position == i;
    }
    if EventFor(conditions[i], staged[conditions[i].id]) == Some(event) {
      EventPresent(conditions, staged, i);
    }
  }
}
