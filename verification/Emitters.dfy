/**
  One emitter of a source, the source itself or a measurement, and every event it gives out within one
  lineage: its initialisation, its episodes and its conditions. Under a fixed threshold no event comes twice.
 */
module Emitters {
  import opened Basics
  import opened Episodes

  /** `contract` stands for the representation or value digest, `definition` for the condition's digest. */
  datatype EventKey =
    | Initialised(contract: int)
    | EpisodeEvent(episode: EpisodeKey, contract: int)
    | ConditionEvent(condition: ConditionFact, sequence: nat)

  /** A condition that fired, or its issue code. */
  datatype ConditionFact = ConditionFact(id: string, definition: int, issue: Option<string>)

  /** The counters of one emitter's state document that its event keys are made from. */
  datatype Emitter = Emitter(initialised: bool, sequence: nat, episodes: Episodes)

  const NEW_EMITTER: Emitter := Emitter(false, 0, Episodes(0, HEALTHY, None))

  /** What one cycle does to one emitter. An unmodified source clears its episodes and gives nothing out. */
  datatype Change =
    | Troubled(step: Step, contract: int)
    | Accepted(conditions: seq<ConditionFact>, contract: int)
    | Unmodified

  function Moved(e: Emitter, scope: EmitterScope, change: Change): Emitter {
    match change
    case Troubled(step, _) => e.(episodes := After(e.episodes, scope, step))
    case Accepted(_, _) => Emitter(true, e.sequence + 1, AfterSuccess(e.episodes))
    case Unmodified => e.(episodes := AfterSuccess(e.episodes))
  }

  function GivenOut(e: Emitter, scope: EmitterScope, change: Change): seq<EventKey> {
    match change
    case Troubled(step, contract) =>
      var keys := Emitted(e.episodes, scope, step);
      seq(|keys|, i requires 0 <= i < |keys| => EpisodeEvent(keys[i], contract))
    case Accepted(conditions, contract) =>
      (if e.initialised then [] else [Initialised(contract)])
      + seq(|conditions|, i requires 0 <= i < |conditions| => ConditionEvent(conditions[i], e.sequence + 1))
    case Unmodified => []
  }

  /** The change is measured against the emitter's one threshold. */
  predicate UnderThreshold(change: Change, threshold: nat) {
    change.Troubled? && change.step.Failed? ==> change.step.escalateAfter == threshold
  }

  /** The emitter is past this event: it will not give it out again. */
  predicate Spent(e: Emitter, threshold: nat, key: EventKey) {
    match key
    case Initialised(_) => e.initialised
    case ConditionEvent(_, sequence) => sequence <= e.sequence
    case EpisodeEvent(episode, _) =>
      && episode.episodeSeq <= e.episodes.episodeSeq
      && (episode.kind.Escalation? && 0 < e.episodes.health.count < threshold ==>
            episode.episodeSeq < e.episodes.episodeSeq)
  }

  /**
    A change gives out only events the emitter is not past yet, and is past them afterwards; what is spent
    stays spent.
   */
  lemma ChangeSpends(e: Emitter, scope: EmitterScope, change: Change, threshold: nat, key: EventKey)
    requires e.episodes.Valid(scope) && UnderThreshold(change, threshold)
    ensures Moved(e, scope, change).episodes.Valid(scope)
    ensures key in GivenOut(e, scope, change) ==>
      !Spent(e, threshold, key) && Spent(Moved(e, scope, change), threshold, key)
    ensures Spent(e, threshold, key) ==> Spent(Moved(e, scope, change), threshold, key)
  {
  }

  function AllMoved(e: Emitter, scope: EmitterScope, changes: seq<Change>): Emitter
    decreases |changes|
  {
    if changes == [] then e else AllMoved(Moved(e, scope, changes[0]), scope, changes[1..])
  }

  lemma {:induction false} SpentStaysSpent(
    e: Emitter, scope: EmitterScope, changes: seq<Change>, threshold: nat, key: EventKey)
    requires e.episodes.Valid(scope) && Spent(e, threshold, key)
    requires forall i :: 0 <= i < |changes| ==> UnderThreshold(changes[i], threshold)
    ensures AllMoved(e, scope, changes).episodes.Valid(scope) && Spent(AllMoved(e, scope, changes), threshold, key)
    decreases |changes|
  {
    if changes != [] {
      ChangeSpends(e, scope, changes[0], threshold, key);
      SpentStaysSpent(Moved(e, scope, changes[0]), scope, changes[1..], threshold, key);
    }
  }

  // ---------------------------------------------------------------- which events there are

  /** How many observations have been accepted. */
  function Acceptances(changes: seq<Change>): nat
    decreases |changes|
  {
    if changes == [] then 0 else (if changes[0].Accepted? then 1 else 0) + Acceptances(changes[1..])
  }

  /** The state counts the accepted observations. */
  lemma {:induction false} AcceptancesAreCounted(e: Emitter, scope: EmitterScope, changes: seq<Change>)
    ensures
      var after := AllMoved(e, scope, changes);
      && after.sequence == e.sequence + Acceptances(changes)
      && (after.initialised <==> e.initialised || Acceptances(changes) > 0)
    decreases |changes|
  {
    if changes != [] {
      AcceptancesAreCounted(Moved(e, scope, changes[0]), scope, changes[1..]);
    }
  }

  /**
    What a new emitter gives out after any history. The first accepted observation, and no other, announces the
    emitter; the n-th gives one event for each of its condition facts, numbered n; a failure or fault gives its
    episode's event, and everything else nothing.
   */
  lemma GivenOutExactly(scope: EmitterScope, history: seq<Change>, change: Change, key: EventKey)
    ensures
      var e := AllMoved(NEW_EMITTER, scope, history);
      key in GivenOut(e, scope, change) <==>
        match key
        case Initialised(contract) => change.Accepted? && change.contract == contract && Acceptances(history) == 0
        case ConditionEvent(fact, sequence) =>
          change.Accepted? && fact in change.conditions && sequence == Acceptances(history) + 1
        case EpisodeEvent(episode, contract) =>
          change.Troubled? && change.contract == contract && episode in Emitted(e.episodes, scope, change.step)
  {
    AcceptancesAreCounted(NEW_EMITTER, scope, history);
    var e := AllMoved(NEW_EMITTER, scope, history);
    var given := GivenOut(e, scope, change);
    match change {
      case Troubled(step, contract) =>
        var keys := Emitted(e.episodes, scope, step);
        assert |given| == |keys| && forall i :: 0 <= i < |keys| ==> given[i] == EpisodeEvent(keys[i], contract);
      case Accepted(conditions, contract) =>
        var first := if e.initialised then [] else [Initialised(contract)];
        assert |given| == |first| + |conditions|;
        assert forall i :: 0 <= i < |first| ==> given[i] == Initialised(contract);
        assert forall i :: 0 <= i < |conditions| ==>
            given[|first| + i] == ConditionEvent(conditions[i], e.sequence + 1);
      case Unmodified =>
    }
  }

  /** No event comes twice: what one change gives out, no later change gives out again. */
  lemma NoEventTwice(
    e: Emitter, scope: EmitterScope, first: Change, between: seq<Change>, later: Change, threshold: nat, key: EventKey)
    requires e.episodes.Valid(scope) && UnderThreshold(first, threshold) && UnderThreshold(later, threshold)
    requires forall i :: 0 <= i < |between| ==> UnderThreshold(between[i], threshold)
    requires key in GivenOut(e, scope, first)
    ensures key !in GivenOut(AllMoved(Moved(e, scope, first), scope, between), scope, later)
  {
    ChangeSpends(e, scope, first, threshold, key);
    SpentStaysSpent(Moved(e, scope, first), scope, between, threshold, key);
    ChangeSpends(AllMoved(Moved(e, scope, first), scope, between), scope, later, threshold, key);
  }
}
