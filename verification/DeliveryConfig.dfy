/** Emitter-local routes and the immutable delivery policy copied into every admitted record. */
module DeliveryConfig {
  import opened Basics
  import opened Identifiers

  datatype RouteFamily = OnCondition | OnMeasurement | OnSource

  /** `adapter` stands for the whole copied adapter configuration. */
  datatype Route = Route(id: NodeId, family: RouteFamily, adapter: int)

  datatype DeliveryPolicy = DeliveryPolicy(
    maxPending: nat, maxAttempts: nat, baseBackoffMs: nat, maxBackoffMs: nat, jitterRatio: real)
  {
    predicate Valid() {
      && 1 <= maxPending <= 100_000
      && 1 <= maxAttempts <= 100
      && 1 <= baseBackoffMs <= 86_400_000
      && baseBackoffMs <= maxBackoffMs <= 604_800_000
      && 0.0 <= jitterRatio <= 1.0
    }
  }

  /** Routes and policy appear together, families are allowed, ids are pairwise distinct. */
  predicate ValidDelivery(outbox: Option<DeliveryPolicy>, routes: seq<Route>, allowed: set<RouteFamily>) {
    && (outbox.Some? <==> routes != [])
    && (outbox.Some? ==> outbox.value.Valid())
    && (forall i :: 0 <= i < |routes| ==> routes[i].family in allowed)
    && (forall i, j :: 0 <= i < j < |routes| ==> routes[i].id != routes[j].id)
  }

  /** The set-inserting loop of `validate_delivery`. */
  method ValidateDelivery(outbox: Option<DeliveryPolicy>, routes: seq<Route>, allowed: set<RouteFamily>)
    returns (ok: bool)
    ensures ok <==> ValidDelivery(outbox, routes, allowed)
  {
    if outbox.Some? != (routes != []) {
      return false;
    }
    if outbox.Some? && !outbox.value.Valid() {
      return false;
    }
    var ids: set<NodeId> := {};
    for n := 0 to |routes|
      invariant ids == set i | 0 <= i < n :: routes[i].id
      invariant forall i :: 0 <= i < n ==> routes[i].family in allowed
      invariant forall i, j :: 0 <= i < j < n ==> routes[i].id != routes[j].id
    {
      if routes[n].family !in allowed || routes[n].id in ids {
        return false;
      }
      ids := ids + {routes[n].id};
    }
    return true;
  }
}
