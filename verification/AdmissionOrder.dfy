/** The order of admission, by positions: which offers are made, which of them count, and what they become. */
module AdmissionOrder {
  import opened Basics
  import opened Identifiers
  import opened DeliveryConfig
  import opened Outbox

  // ---------------------------------------------------------------- the fan-out

  /** Event `at.0` goes to route `at.1`. */
  predicate Matches(envelopes: seq<Envelope>, routes: seq<Route>, at: (nat, nat)) {
    at.0 < |envelopes| && at.1 < |routes| && routes[at.1].family == envelopes[at.0].kind.Family()
  }

  /** Earlier event first, and for the same event the earlier route. */
  predicate Earlier(a: (nat, nat), b: (nat, nat)) {
    a.0 < b.0 || (a.0 == b.0 && a.1 < b.1)
  }

  /** The offers are those of the positions `at`: every matching pair once, event by event, route by route. */
  predicate FansOut(envelopes: seq<Envelope>, routes: seq<Route>, offers: seq<Offer>, at: seq<(nat, nat)>) {
    && |at| == |offers|
    && (forall k :: 0 <= k < |at| ==>
          Matches(envelopes, routes, at[k]) && offers[k] == Offer(envelopes[at[k].0], routes[at[k].1]))
    && (forall k, l :: 0 <= k < l < |at| ==> Earlier(at[k], at[l]))
    && (forall i, j :: 0 <= i < |envelopes| && 0 <= j < |routes| && Matches(envelopes, routes, (i, j)) ==> (i, j) in at)
  }

  /** The same for one event, over the positions of its routes. */
  predicate FansOutOne(envelope: Envelope, routes: seq<Route>, offers: seq<Offer>, at: seq<nat>) {
    && |at| == |offers|
    && (forall k :: 0 <= k < |at| ==> at[k] < |routes| && routes[at[k]].family == envelope.kind.Family())
    && (forall k :: 0 <= k < |at| && at[k] < |routes| ==> offers[k] == Offer(envelope, routes[at[k]]))
    && (forall k, l :: 0 <= k < l < |at| ==> at[k] < at[l])
    && (forall j :: 0 <= j < |routes| && routes[j].family == envelope.kind.Family() ==> j in at)
  }

  lemma OneRouteMore(envelope: Envelope, front: seq<Route>, last: Route, offers: seq<Offer>, at: seq<nat>)
    requires FansOutOne(envelope, front, offers, at)
    ensures last.family != envelope.kind.Family() ==> FansOutOne(envelope, front + [last], offers, at)
    ensures last.family == envelope.kind.Family() ==>
      FansOutOne(envelope, front + [last], offers + [Offer(envelope, last)], at + [|front|])
  {
    var longer := at + [|front|];
    assert longer[|at|] == |front|;
    forall j | j in at ensures j in longer {
      var k :| 0 <= k < |at| && at[k] == j;
      assert longer[k] == j;
    }
  }

  lemma {:induction false} OffersOfInOrder(envelope: Envelope, routes: seq<Route>) returns (at: seq<nat>)
    ensures FansOutOne(envelope, routes, OffersOf(envelope, routes), at)
  {
    if routes == [] {
      at := [];
    } else {
      var front, last := routes[..|routes| - 1], routes[|routes| - 1];
      at := OffersOfInOrder(envelope, front);
      OneRouteMore(envelope, front, last, OffersOf(envelope, front), at);
      assert routes == front + [last];
      if last.family == envelope.kind.Family() {
        at := at + [|front|];
      }
    }
  }

  /** The positions of event `n`. */
  function Row(n: nat, at: seq<nat>): seq<(nat, nat)> {
    seq(|at|, k requires 0 <= k < |at| => (n, at[k]))
  }

  lemma RowHolds(n: nat, at: seq<nat>, j: nat)
    requires j in at
    ensures (n, j) in Row(n, at)
  {
    var k :| 0 <= k < |at| && at[k] == j;
    assert Row(n, at)[k] == (n, j);
  }

  lemma RowComplete(
    front: seq<Envelope>, last: Envelope, routes: seq<Route>, offers: seq<Offer>, at: seq<(nat, nat)>,
    more: seq<Offer>, row: seq<nat>, i: nat, j: nat)
    requires FansOut(front, routes, offers, at) && FansOutOne(last, routes, more, row)
    requires i <= |front| && j < |routes| && Matches(front + [last], routes, (i, j))
    ensures (i, j) in at + Row(|front|, row)
  {
    if i < |front| {
      assert Matches(front, routes, (i, j));
      assert (i, j) in at;
    } else {
      RowHolds(|front|, row, j);
    }
  }

  lemma OneEventMore(
    front: seq<Envelope>, last: Envelope, routes: seq<Route>, offers: seq<Offer>, at: seq<(nat, nat)>,
    more: seq<Offer>, row: seq<nat>)
    requires FansOut(front, routes, offers, at) && FansOutOne(last, routes, more, row)
    ensures FansOut(front + [last], routes, offers + more, at + Row(|front|, row))
  {
    var envelopes, longer := front + [last], at + Row(|front|, row);
    forall k | 0 <= k < |longer|
      ensures Matches(envelopes, routes, longer[k])
        && (offers + more)[k] == Offer(envelopes[longer[k].0], routes[longer[k].1])
    {
      if k < |at| {
        assert Matches(front, routes, at[k]);
      } else {
        assert longer[k] == (|front|, row[k - |at|]);
      }
    }
    forall k, l | 0 <= k < l < |longer| ensures Earlier(longer[k], longer[l]) {
      assert k < |at| ==> Matches(front, routes, at[k]);
    }
    forall i, j | 0 <= i < |envelopes| && 0 <= j < |routes| && Matches(envelopes, routes, (i, j))
      ensures (i, j) in longer
    {
      RowComplete(front, last, routes, offers, at, more, row, i, j);
    }
  }

  /** The fan-out is event-major and route-minor, and complete. */
  lemma {:induction false} OffersInOrder(envelopes: seq<Envelope>, routes: seq<Route>) returns (at: seq<(nat, nat)>)
    ensures FansOut(envelopes, routes, Offers(envelopes, routes), at)
  {
    if envelopes == [] {
      at := [];
    } else {
      var front, last := envelopes[..|envelopes| - 1], envelopes[|envelopes| - 1];
      at := OffersInOrder(front, routes);
      var row := OffersOfInOrder(last, routes);
      OneEventMore(front, last, routes, Offers(front, routes), at, OffersOf(last, routes), row);
      assert envelopes == front + [last];
      at := at + Row(|front|, row);
    }
  }

  // ---------------------------------------------------------------- which offers count

  /** The offer at `k` is the first of its key, and the key is not taken. */
  predicate FirstClaim(offers: seq<Offer>, taken: set<RecordKey>, k: nat) {
    && k < |offers| && offers[k].Key() !in taken
    && forall l :: 0 <= l < k ==> offers[l].Key() != offers[k].Key()
  }

  /** The picked offers are those of the positions `at`: every first claim once, in order. */
  predicate Picks(offers: seq<Offer>, taken: set<RecordKey>, picked: seq<Offer>, at: seq<nat>) {
    && |at| == |picked|
    && (forall n :: 0 <= n < |at| ==> FirstClaim(offers, taken, at[n]) && picked[n] == offers[at[n]])
    && (forall m, n :: 0 <= m < n < |at| ==> at[m] < at[n])
    && (forall k :: 0 <= k < |offers| && FirstClaim(offers, taken, k) ==> k in at)
  }

  lemma ClaimsOneMore(front: seq<Offer>, last: Offer, taken: set<RecordKey>)
    ensures forall k: nat :: k < |front| ==> (FirstClaim(front + [last], taken, k) <==> FirstClaim(front, taken, k))
    ensures FirstClaim(front + [last], taken, |front|) <==> last.Key() !in taken && last.Key() !in KeysOf(front)
  {
    var offers := front + [last];
    assert offers[|front|] == last;
    forall k: nat | k < |front| ensures FirstClaim(offers, taken, k) <==> FirstClaim(front, taken, k) {
      assert forall l :: 0 <= l <= k ==> offers[l] == front[l];
    }
    assert forall l :: 0 <= l < |front| ==> offers[l] == front[l];
  }

  lemma OnePickMore(front: seq<Offer>, last: Offer, taken: set<RecordKey>, picked: seq<Offer>, at: seq<nat>)
    requires Picks(front, taken, picked, at)
    ensures
      if FirstClaim(front + [last], taken, |front|) then Picks(front + [last], taken, picked + [last], at + [|front|])
      else Picks(front + [last], taken, picked, at)
  {
    var offers, longer := front + [last], at + [|front|];
    ClaimsOneMore(front, last, taken);
    assert longer[|at|] == |front|;
    forall n | 0 <= n < |at| ensures FirstClaim(offers, taken, at[n]) && picked[n] == offers[at[n]] {
      assert FirstClaim(front, taken, at[n]);
    }
    forall k | 0 <= k < |front| && FirstClaim(offers, taken, k) ensures k in at && k in longer {
      assert FirstClaim(front, taken, k);
      var n :| 0 <= n < |at| && at[n] == k;
      assert longer[n] == k;
    }
  }

  /** Admission considers the first claims, in the order of the offers. */
  lemma {:induction false} UnclaimedInOrder(offers: seq<Offer>, taken: set<RecordKey>) returns (at: seq<nat>)
    ensures Picks(offers, taken, Unclaimed(offers, taken), at)
  {
    if offers == [] {
      at := [];
    } else {
      var front, last := offers[..|offers| - 1], offers[|offers| - 1];
      at := UnclaimedInOrder(front, taken);
      ClaimsOneMore(front, last, taken);
      OnePickMore(front, last, taken, Unclaimed(front, taken), at);
      assert offers == front + [last];
      if FirstClaim(offers, taken, |front|) {
        at := at + [|front|];
      }
    }
  }

  // ---------------------------------------------------------------- what they become

  /**
    The admission itself. As many of the first claims as there is room for become fresh records, with the
    event's envelope, the route's own fields, the policy, no attempt and the admission instant as first retry;
    the rest become overflow facts, in the same order.
   */
  lemma AdmittedSpelledOut(taken: set<RecordKey>, pending: nat, offers: seq<Offer>, policy: DeliveryPolicy, now: int)
    ensures
      var a, picked := Admitted(taken, pending, offers, policy, now), Unclaimed(offers, taken);
      var count := |a.records|;
      && count == Min(|picked|, if pending < policy.maxPending then policy.maxPending - pending else 0)
      && count + |a.overflow| == |picked|
      && (forall i :: 0 <= i < count ==>
            a.records[i] == DeliveryRecord(picked[i].envelope, picked[i].route.id, picked[i].route.family,
                                           picked[i].route.adapter, policy, [], now))
      && (forall i :: 0 <= i < |a.overflow| ==>
            var offer := picked[count + i];
            a.overflow[i] == Overflow(RecordKey(offer.envelope.eventId, offer.route.id), offer.envelope.kind,
                                      offer.envelope.conditionId, offer.route.family))
  {
    AdmittedShape(taken, pending, offers, policy, now);
    var a, picked := Admitted(taken, pending, offers, policy, now), Unclaimed(offers, taken);
    forall i | 0 <= i < |a.overflow| ensures a.overflow[i] == ToOverflow(picked[|a.records| + i]) {
    }
  }

  /** Admission fails exactly on routes without a policy, a bad policy, or an envelope that contradicts its kind. */
  lemma AdmissionFailsIff(
    taken: set<RecordKey>, pending: nat, envelopes: seq<Envelope>, routes: seq<Route>, policy: Option<DeliveryPolicy>,
    now: int)
    ensures AdmitAgainst(taken, pending, envelopes, routes, policy, now).Err? <==>
      if policy.None? then routes != []
      else !policy.value.Valid() || exists i :: 0 <= i < |envelopes| && !envelopes[i].Valid()
    ensures policy.None? && routes == [] ==>
      AdmitAgainst(taken, pending, envelopes, routes, policy, now) == Ok(Admission([], []))
  {
  }
}
