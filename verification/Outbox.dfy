/**
  Immutable event envelopes, delivery records with append-only retry bookkeeping, dead letters,
  and bounded admission.
 */
module Outbox {
  import opened Basics
  import opened Identifiers
  import opened DeliveryConfig

  datatype EventKind =
    | ConditionSatisfied | ConditionEvaluationIssue
    | MeasurementInitialized | ExtractionEscalation | MeasurementIntegrationFault
    | SourceInitialized | SourceEscalation | SourceIntegrationFault
  {
    function Family(): RouteFamily {
      match this
      case ConditionSatisfied => OnCondition
      case ConditionEvaluationIssue => OnCondition
      case MeasurementInitialized => OnMeasurement
      case ExtractionEscalation => OnMeasurement
      case MeasurementIntegrationFault => OnMeasurement
      case SourceInitialized => OnSource
      case SourceEscalation => OnSource
      case SourceIntegrationFault => OnSource
    }
  }

  /** Lineage tokens; freshness is assumed where a token is minted. */
  type InstanceId = nat

  datatype MeasurementStamp = MeasurementStamp(id: NodeId, instance: InstanceId)

  datatype Envelope = Envelope(
    eventId: Digest, kind: EventKind, sourceId: NodeId, sourceInstance: InstanceId,
    measurement: Option<MeasurementStamp>, conditionId: Option<string>)
  {
    /** The emitter scope and the condition evidence agree with the event kind. */
    predicate Valid() {
      && (measurement.None? <==> kind.Family() == OnSource)
      && (conditionId.Some? <==> kind.Family() == OnCondition)
    }
  }

  /** The `(event_id, route_id)` key that also names the storage file. */
  datatype RecordKey = RecordKey(eventId: Digest, routeId: NodeId)

  /** `evidence` stands for the failure text; `wellFormed` is its own validation verdict. */
  datatype Failure = Failure(wellFormed: bool, evidence: int)

  datatype Attempt = Attempt(number: nat, at: int, failure: Failure)

  datatype DeliveryRecord = DeliveryRecord(
    envelope: Envelope, routeId: NodeId, family: RouteFamily, adapter: int,
    policy: DeliveryPolicy, attempts: seq<Attempt>, nextRetryAt: int)
  {
    function Key(): RecordKey {
      RecordKey(envelope.eventId, routeId)
    }

    /** Attempt numbers are 1, 2, 3, ...; instants never go back; the retry is not before them. */
    predicate ValidHistory() {
      && (forall i :: 0 <= i < |attempts| ==> attempts[i].number == i + 1 && attempts[i].failure.wellFormed)
      && (forall i, j :: 0 <= i <= j < |attempts| ==> attempts[i].at <= attempts[j].at)
      && (forall i :: 0 <= i < |attempts| ==> attempts[i].at <= nextRetryAt)
    }

    predicate ValidCommon() {
      && envelope.Valid()
      && policy.Valid()
      && family == envelope.kind.Family()
      && |attempts| <= policy.maxAttempts
      && ValidHistory()
    }

    /** A pending record still has an attempt left. */
    predicate ValidPending() {
      ValidCommon() && |attempts| < policy.maxAttempts
    }

    /** `is_single_attempt_successor_of`. */
    predicate SuccessorOf(prior: DeliveryRecord) {
      && envelope == prior.envelope && routeId == prior.routeId && family == prior.family
      && adapter == prior.adapter && policy == prior.policy
      && |attempts| == |prior.attempts| + 1
      && prior.attempts <= attempts
    }
  }

  datatype DeadLetter = DeadLetter(record: DeliveryRecord, terminalAttempt: nat) {
    predicate Valid() {
      && record.ValidCommon()
      && |record.attempts| == terminalAttempt == record.policy.maxAttempts
    }
  }

  /** The single-pass history check: one running instant instead of all pairs. */
  method ValidateCommon(record: DeliveryRecord) returns (ok: bool)
    ensures ok <==> record.ValidCommon()
  {
    if !record.envelope.Valid() || !record.policy.Valid() || record.family != record.envelope.kind.Family()
       || |record.attempts| > record.policy.maxAttempts
    {
      return false;
    }
    var previous: Option<int> := None;
    for n := 0 to |record.attempts|
      invariant previous == if n == 0 then None else Some(record.attempts[n - 1].at)
      invariant forall i :: 0 <= i < n ==> record.attempts[i].number == i + 1 && record.attempts[i].failure.wellFormed
      invariant forall i, j :: 0 <= i <= j < n ==> record.attempts[i].at <= record.attempts[j].at
    {
      var attempt := record.attempts[n];
      if attempt.number != n + 1 || !attempt.failure.wellFormed {
        return false;
      }
      if previous.Some? && attempt.at < previous.value {
        assert record.attempts[n - 1].at > record.attempts[n].at;
        return false;
      }
      previous := Some(attempt.at);
    }
    if previous.Some? && record.nextRetryAt < previous.value {
      assert record.attempts[|record.attempts| - 1].at > record.nextRetryAt;
      return false;
    }
    return true;
  }

  // ---------------------------------------------------------------- admission

  datatype Overflow = Overflow(key: RecordKey, kind: EventKind, conditionId: Option<string>, family: RouteFamily)

  datatype Admission = Admission(records: seq<DeliveryRecord>, overflow: seq<Overflow>)

  /** One event offered to one family-matching route. */
  datatype Offer = Offer(envelope: Envelope, route: Route) {
    function Key(): RecordKey {
      RecordKey(envelope.eventId, route.id)
    }
  }

  /** The routes of one event, in declaration order. */
  function OffersOf(envelope: Envelope, routes: seq<Route>): seq<Offer> {
    if routes == [] then []
    else
      var front := OffersOf(envelope, routes[..|routes| - 1]);
      var last := routes[|routes| - 1];
      if last.family == envelope.kind.Family() then front + [Offer(envelope, last)] else front
  }

  /** The event-major, route-minor fan-out. */
  function Offers(envelopes: seq<Envelope>, routes: seq<Route>): seq<Offer> {
    if envelopes == [] then []
    else Offers(envelopes[..|envelopes| - 1], routes) + OffersOf(envelopes[|envelopes| - 1], routes)
  }

  function KeysOf(offers: seq<Offer>): set<RecordKey> {
    set i | 0 <= i < |offers| :: offers[i].Key()
  }

  /** First occurrences of keys that are not taken, in offer order. */
  function Unclaimed(offers: seq<Offer>, taken: set<RecordKey>): seq<Offer> {
    if offers == [] then []
    else
      var front, last := offers[..|offers| - 1], offers[|offers| - 1];
      if last.Key() in taken || last.Key() in KeysOf(front) then Unclaimed(front, taken)
      else Unclaimed(front, taken) + [last]
  }

  function ToRecord(offer: Offer, policy: DeliveryPolicy, now: int): DeliveryRecord {
    DeliveryRecord(offer.envelope, offer.route.id, offer.route.family, offer.route.adapter, policy, [], now)
  }

  function ToOverflow(offer: Offer): Overflow {
    Overflow(offer.Key(), offer.envelope.kind, offer.envelope.conditionId, offer.route.family)
  }

  function Room(policy: DeliveryPolicy, pending: nat): nat {
    if policy.maxPending <= pending then 0 else policy.maxPending - pending
  }

  /** The simple form: drop claimed keys, then split at the remaining room. */
  function Admitted(
    taken: set<RecordKey>, pending: nat, offers: seq<Offer>, policy: DeliveryPolicy, now: int): Admission
  {
    var unclaimed := Unclaimed(offers, taken);
    var count := Min(|unclaimed|, Room(policy, pending));
    Admission(
      seq(count, i requires 0 <= i < count => ToRecord(unclaimed[i], policy, now)),
      seq(|unclaimed| - count, i requires 0 <= i < |unclaimed| - count => ToOverflow(unclaimed[count + i])))
  }

  /** Admission with its configuration and validation errors, against already taken keys. */
  function AdmitAgainst(
    taken: set<RecordKey>, pending: nat, envelopes: seq<Envelope>, routes: seq<Route>,
    policy: Option<DeliveryPolicy>, now: int): Result<Admission>
  {
    if policy.None? then
      if routes == [] then Ok(Admission([], [])) else Err
    else if !policy.value.Valid() then Err
    else if !AllEnvelopesValid(envelopes) then Err
    else Ok(Admitted(taken, pending, Offers(envelopes, routes), policy.value, now))
  }

  predicate AllEnvelopesValid(envelopes: seq<Envelope>) {
    forall i :: 0 <= i < |envelopes| ==> envelopes[i].Valid()
  }

  predicate AllPending(records: seq<DeliveryRecord>) {
    forall i :: 0 <= i < |records| ==> records[i].ValidPending()
  }

  function TakenKeys(existing: seq<DeliveryRecord>): set<RecordKey> {
    set i | 0 <= i < |existing| :: existing[i].Key()
  }

  /** `OutboxAdmission::admit`: configuration and record checks, then the accumulating loops. */
  method Admit(
    existing: seq<DeliveryRecord>, envelopes: seq<Envelope>, routes: seq<Route>,
    policy: Option<DeliveryPolicy>, now: int) returns (result: Result<Admission>)
    ensures policy.Some? && policy.value.Valid() && !AllPending(existing) ==> result.Err?
    ensures policy.None? || !policy.value.Valid() || AllPending(existing)
      ==> result == AdmitAgainst(TakenKeys(existing), |existing|, envelopes, routes, policy, now)
  {
    if policy.None? {
      return if routes == [] then Ok(Admission([], [])) else Err;
    }
    if !policy.value.Valid() || !AllPending(existing) {
      return Err;
    }
    result := AdmitEvents(TakenKeys(existing), |existing|, envelopes, routes, policy.value, now);
  }

  /** The outer loop of `admit`: every event in turn, stopping at the first invalid envelope. */
  method AdmitEvents(
    taken: set<RecordKey>, pending: nat, envelopes: seq<Envelope>, routes: seq<Route>, policy: DeliveryPolicy, now: int)
    returns (result: Result<Admission>)
    ensures result.Ok? <==> AllEnvelopesValid(envelopes)
    ensures result.Ok? ==> result.value == Admitted(taken, pending, Offers(envelopes, routes), policy, now)
  {
    var occupied := taken;
    var admission := Admission([], []);
    ghost var offers: seq<Offer> := [];
    assert KeysOf(offers) == {};
    for n := 0 to |envelopes|
      invariant offers == Offers(envelopes[..n], routes)
      invariant occupied == taken + KeysOf(offers)
      invariant admission == Admitted(taken, pending, offers, policy, now)
      invariant forall i :: 0 <= i < n ==> envelopes[i].Valid()
    {
      if !envelopes[n].Valid() {
        return Err;
      }
      occupied, admission := AdmitEvent(taken, pending, offers, envelopes[n], routes, policy, now, occupied, admission);
      OffersSnoc(envelopes, routes, n);
      offers := offers + OffersOf(envelopes[n], routes);
    }
    assert envelopes[..|envelopes|] == envelopes;
    result := Ok(admission);
  }

  /** The inner loop of `admit`: one event over every route, in declaration order. */
  method AdmitEvent(
    ghost taken: set<RecordKey>, pending: nat, ghost before: seq<Offer>, envelope: Envelope, routes: seq<Route>,
    policy: DeliveryPolicy, now: int, claimed: set<RecordKey>, sofar: Admission)
    returns (occupied: set<RecordKey>, admission: Admission)
    requires claimed == taken + KeysOf(before)
    requires sofar == Admitted(taken, pending, before, policy, now)
    ensures occupied == taken + KeysOf(before + OffersOf(envelope, routes))
    ensures admission == Admitted(taken, pending, before + OffersOf(envelope, routes), policy, now)
  {
    occupied, admission := claimed, sofar;
    ghost var offers := before;
    assert offers == before + OffersOf(envelope, routes[..0]);
    for m := 0 to |routes|
      invariant offers == before + OffersOf(envelope, routes[..m])
      invariant occupied == taken + KeysOf(offers)
      invariant admission == Admitted(taken, pending, offers, policy, now)
    {
      var route := routes[m];
      OffersGrow(before, envelope, routes, m);
      if route.family == envelope.kind.Family() {
        var offer := Offer(envelope, route);
        occupied, admission := AdmitOffer(taken, pending, offers, offer, policy, now, occupied, admission);
        offers := offers + [offer];
      }
    }
    assert routes[..|routes|] == routes;
  }

  /** The body of the inner loop: a new key becomes a record, or an overflow fact when the queue is full. */
  method AdmitOffer(
    ghost taken: set<RecordKey>, pending: nat, ghost before: seq<Offer>, offer: Offer,
    policy: DeliveryPolicy, now: int, claimed: set<RecordKey>, sofar: Admission)
    returns (occupied: set<RecordKey>, admission: Admission)
    requires claimed == taken + KeysOf(before)
    requires sofar == Admitted(taken, pending, before, policy, now)
    ensures occupied == taken + KeysOf(before + [offer])
    ensures admission == Admitted(taken, pending, before + [offer], policy, now)
  {
    KeysOfSnoc(before, offer);
    AdmittedStep(taken, pending, before, offer, policy, now);
    occupied, admission := claimed, sofar;
    var key := offer.Key();
    if key !in occupied {
      occupied := occupied + {key};
      if pending + |admission.records| >= policy.maxPending {
        admission := admission.(overflow := admission.overflow + [ToOverflow(offer)]);
      } else {
        admission := admission.(records := admission.records + [ToRecord(offer, policy, now)]);
      }
    }
  }

  /** An offer pairs a listed event with a listed route of the event's family. */
  predicate Offered(offer: Offer, envelopes: seq<Envelope>, routes: seq<Route>) {
    offer.envelope in envelopes && offer.route in routes && offer.route.family == offer.envelope.kind.Family()
  }

  lemma {:induction false} OffersOfExact(envelope: Envelope, routes: seq<Route>, offer: Offer)
    ensures offer in OffersOf(envelope, routes) <==> Offered(offer, [envelope], routes)
  {
    if routes != [] {
      var front, last := routes[..|routes| - 1], routes[|routes| - 1];
      assert routes == front + [last];
      OffersOfExact(envelope, front, offer);
    }
  }

  /** The fan-out is exactly the family-matching pairs. */
  lemma {:induction false} OffersExact(envelopes: seq<Envelope>, routes: seq<Route>, offer: Offer)
    ensures offer in Offers(envelopes, routes) <==> Offered(offer, envelopes, routes)
  {
    if envelopes != [] {
      var front, last := envelopes[..|envelopes| - 1], envelopes[|envelopes| - 1];
      assert envelopes == front + [last];
      OffersExact(front, routes, offer);
      OffersOfExact(last, routes, offer);
    }
  }

  lemma OffersSnoc(envelopes: seq<Envelope>, routes: seq<Route>, n: nat)
    requires n < |envelopes|
    ensures Offers(envelopes[..n + 1], routes) == Offers(envelopes[..n], routes) + OffersOf(envelopes[n], routes)
  {
    assert envelopes[..n + 1][..n] == envelopes[..n];
  }

  lemma OffersOfSnoc(envelope: Envelope, routes: seq<Route>, m: nat)
    requires m < |routes|
    ensures OffersOf(envelope, routes[..m + 1]) ==
            OffersOf(envelope, routes[..m])
              + (if routes[m].family == envelope.kind.Family() then [Offer(envelope, routes[m])] else [])
  {
    assert routes[..m + 1][..m] == routes[..m];
  }

  lemma OffersGrow(before: seq<Offer>, envelope: Envelope, routes: seq<Route>, m: nat)
    requires m < |routes|
    ensures before + OffersOf(envelope, routes[..m + 1])
            == if routes[m].family == envelope.kind.Family()
               then before + OffersOf(envelope, routes[..m]) + [Offer(envelope, routes[m])]
               else before + OffersOf(envelope, routes[..m])
  {
    OffersOfSnoc(envelope, routes, m);
  }

  lemma KeysOfSnoc(offers: seq<Offer>, next: Offer)
    ensures KeysOf(offers + [next]) == KeysOf(offers) + {next.Key()}
  {
    var longer := offers + [next];
    assert longer[|offers|] == next;
    forall k | k in KeysOf(offers) ensures k in KeysOf(longer) {
      var i :| 0 <= i < |offers| && offers[i].Key() == k;
      assert longer[i].Key() == k;
    }
  }

  /** One event over one matching route is one offer. */
  lemma OffersOfOne(envelope: Envelope, route: Route)
    requires route.family == envelope.kind.Family()
    ensures OffersOf(envelope, [route]) == [Offer(envelope, route)]
  {
    assert [route][..0] == [];
    assert OffersOf(envelope, []) == [];
  }

  lemma OffersOne(envelope: Envelope, routes: seq<Route>)
    ensures Offers([envelope], routes) == OffersOf(envelope, routes)
  {
    assert [envelope][..0] == [];
    assert Offers([], routes) == [];
  }

  lemma UnclaimedOne(offer: Offer, taken: set<RecordKey>)
    requires offer.Key() !in taken
    ensures Unclaimed([offer], taken) == [offer]
  {
    assert [offer][..0] == [];
    assert Unclaimed([], taken) == [] && KeysOf([]) == {};
  }

  lemma AdmittedStep(
    taken: set<RecordKey>, pending: nat, offers: seq<Offer>, next: Offer, policy: DeliveryPolicy, now: int)
    ensures
      var a, b := Admitted(taken, pending, offers, policy, now), Admitted(taken, pending, offers + [next], policy, now);
      if next.Key() in taken || next.Key() in KeysOf(offers) then b == a
      else if pending + |a.records| >= policy.maxPending then b == Admission(a.records, a.overflow + [ToOverflow(next)])
      else b == Admission(a.records + [ToRecord(next, policy, now)], a.overflow)
  {
    var longer := offers + [next];
    assert longer[..|longer| - 1] == offers;
  }

  lemma {:induction false} UnclaimedFacts(offers: seq<Offer>, taken: set<RecordKey>)
    ensures forall i :: 0 <= i < |Unclaimed(offers, taken)| ==>
      Unclaimed(offers, taken)[i] in offers && Unclaimed(offers, taken)[i].Key() !in taken
    ensures forall i, j :: 0 <= i < j < |Unclaimed(offers, taken)| ==>
      Unclaimed(offers, taken)[i].Key() != Unclaimed(offers, taken)[j].Key()
    ensures KeysOf(Unclaimed(offers, taken)) == KeysOf(offers) - taken
  {
    if offers != [] {
      var front, last := offers[..|offers| - 1], offers[|offers| - 1];
      UnclaimedFacts(front, taken);
      assert offers == front + [last];
      KeysOfSnoc(front, last);
      var shorter := Unclaimed(front, taken);
      KeysOfSnoc(shorter, last);
      forall i | 0 <= i < |shorter| ensures shorter[i].Key() in KeysOf(front) {
        assert shorter[i].Key() in KeysOf(shorter);
      }
    }
  }

  /** The split in terms of the unclaimed offers. */
  lemma AdmittedShape(taken: set<RecordKey>, pending: nat, offers: seq<Offer>, policy: DeliveryPolicy, now: int)
    ensures
      var a, unclaimed := Admitted(taken, pending, offers, policy, now), Unclaimed(offers, taken);
      && |a.records| + |a.overflow| == |unclaimed|
      && |a.records| == Min(|unclaimed|, Room(policy, pending))
      && TakenKeys(a.records) == KeysOf(unclaimed[..|a.records|])
      && OverflowKeys(a.overflow) == KeysOf(unclaimed[|a.records|..])
  {
    var a, unclaimed := Admitted(taken, pending, offers, policy, now), Unclaimed(offers, taken);
    var count := |a.records|;
    assert forall i :: 0 <= i < count ==> a.records[i].Key() == unclaimed[..count][i].Key();
    forall i | 0 <= i < |a.overflow| ensures a.overflow[i].key == unclaimed[count..][i].Key() {
      assert a.overflow[i] == ToOverflow(unclaimed[count + i]);
    }
  }

  lemma KeysSplit(offers: seq<Offer>, count: nat)
    requires count <= |offers|
    ensures KeysOf(offers) == KeysOf(offers[..count]) + KeysOf(offers[count..])
  {
    forall k | k in KeysOf(offers) ensures k in KeysOf(offers[..count]) + KeysOf(offers[count..]) {
      var i :| 0 <= i < |offers| && offers[i].Key() == k;
      assert i < count ==> offers[..count][i].Key() == k;
      assert i >= count ==> offers[count..][i - count].Key() == k;
    }
  }

  /**
    What admission means: exactly the offered keys that were not taken are split into records and
    overflow; no key is in both; the queue grows to at most the cap, and a key overflows only
    when the queue is full.
   */
  lemma AdmissionConserves(taken: set<RecordKey>, pending: nat, offers: seq<Offer>, policy: DeliveryPolicy, now: int)
    ensures
      var a := Admitted(taken, pending, offers, policy, now);
      && TakenKeys(a.records) + OverflowKeys(a.overflow) == KeysOf(offers) - taken
      && TakenKeys(a.records) !! OverflowKeys(a.overflow)
      && pending + |a.records| <= (if pending <= policy.maxPending then policy.maxPending else pending)
      && (a.overflow != [] ==> pending + |a.records| >= policy.maxPending)
  {
    AdmittedShape(taken, pending, offers, policy, now);
    UnclaimedFacts(offers, taken);
    var unclaimed := Unclaimed(offers, taken);
    KeysSplit(unclaimed, |Admitted(taken, pending, offers, policy, now).records|);
  }

  function OverflowKeys(overflow: seq<Overflow>): set<RecordKey> {
    set i | 0 <= i < |overflow| :: overflow[i].key
  }

  /** Offering the same events again admits nothing and reports the same overflow, in the same order. */
  lemma ReadmissionIsIdempotent(
    taken: set<RecordKey>, pending: nat, offers: seq<Offer>, policy: DeliveryPolicy, now: int, later: int)
    requires policy.Valid()
    ensures
      var first := Admitted(taken, pending, offers, policy, now);
      var again := Admitted(taken + TakenKeys(first.records), pending + |first.records|, offers, policy, later);
      again.records == [] && again.overflow == first.overflow
  {
    AdmittedShape(taken, pending, offers, policy, now);
    UnclaimedAfterClaim(offers, taken, |Admitted(taken, pending, offers, policy, now).records|);
  }

  lemma KeysOfPrefix(offers: seq<Offer>, count: nat)
    requires count <= |offers|
    ensures KeysOf(offers[..count]) <= KeysOf(offers)
  {
    forall k | k in KeysOf(offers[..count]) ensures k in KeysOf(offers) {
      var i :| 0 <= i < count && offers[..count][i].Key() == k;
      assert offers[i].Key() == k;
    }
  }

  /** Claiming the first `count` unclaimed keys leaves exactly the remaining unclaimed offers. */
  lemma {:induction false} UnclaimedAfterClaim(offers: seq<Offer>, taken: set<RecordKey>, count: nat)
    requires count <= |Unclaimed(offers, taken)|
    ensures Unclaimed(offers, taken + KeysOf(Unclaimed(offers, taken)[..count])) == Unclaimed(offers, taken)[count..]
  {
    if offers == [] {
      assert KeysOf([]) == {};
    } else {
      var front := offers[..|offers| - 1];
      if count <= |Unclaimed(front, taken)| {
        UnclaimedAfterClaim(front, taken, count);
        ClaimBeforeLast(offers, taken, count);
      } else {
        UnclaimedAfterClaim(front, taken, |Unclaimed(front, taken)|);
        ClaimOfLast(offers, taken);
      }
    }
  }

  /** The last offer is not among the claimed ones. */
  lemma ClaimBeforeLast(offers: seq<Offer>, taken: set<RecordKey>, count: nat)
    requires offers != [] && count <= |Unclaimed(offers[..|offers| - 1], taken)|
    requires
      var front := offers[..|offers| - 1];
      Unclaimed(front, taken + KeysOf(Unclaimed(front, taken)[..count])) == Unclaimed(front, taken)[count..]
    ensures Unclaimed(offers, taken + KeysOf(Unclaimed(offers, taken)[..count])) == Unclaimed(offers, taken)[count..]
  {
    var front := offers[..|offers| - 1];
    var shorter := Unclaimed(front, taken);
    UnclaimedFacts(front, taken);
    KeysOfPrefix(shorter, count);
    assert Unclaimed(offers, taken)[..count] == shorter[..count];
  }

  /** Every unclaimed offer is claimed, the last one included. */
  lemma ClaimOfLast(offers: seq<Offer>, taken: set<RecordKey>)
    requires offers != [] && |Unclaimed(offers, taken)| > |Unclaimed(offers[..|offers| - 1], taken)|
    requires
      var front := offers[..|offers| - 1];
      Unclaimed(front, taken + KeysOf(Unclaimed(front, taken)[..|Unclaimed(front, taken)|])) == []
    ensures Unclaimed(offers, taken + KeysOf(Unclaimed(offers, taken)[..|Unclaimed(offers, taken)|])) == []
  {
    var front, last := offers[..|offers| - 1], offers[|offers| - 1];
    var whole, shorter := Unclaimed(offers, taken), Unclaimed(front, taken);
    assert whole[..|whole|] == whole == shorter + [last] && shorter[..|shorter|] == shorter;
    KeysOfSnoc(shorter, last);
    UnclaimedIgnores(front, taken + KeysOf(shorter), last.Key());
    assert taken + KeysOf(whole) == taken + KeysOf(shorter) + {last.Key()};
  }

  lemma {:induction false} UnclaimedIgnores(offers: seq<Offer>, taken: set<RecordKey>, key: RecordKey)
    requires key !in KeysOf(offers)
    ensures Unclaimed(offers, taken + {key}) == Unclaimed(offers, taken)
  {
    if offers != [] {
      var front, last := offers[..|offers| - 1], offers[|offers| - 1];
      assert offers == front + [last];
      KeysOfSnoc(front, last);
      UnclaimedIgnores(front, taken, key);
    }
  }
}
