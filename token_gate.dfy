/**
 * The token-gate pallet: at most one token requirement per resource, set and removed by any
 * signed or root origin (there is no ownership check).
 */
module TokenGate {
  import opened Wrappers
  import opened Frame

  type U128 = x: nat | x < 0x1_0000_0000_0000_0000_0000_0000_0000_0000

  /** The token a holder must own and the balance it must reach. */
  datatype GateRequirement = GateRequirement(tokenId: U32, minBalance: U128)

  datatype Error = GateNotFound

  datatype Event =
    | GateSet(resourceId: U32, requirement: GateRequirement)
    | GateRemoved(resourceId: U32)

  /** The `Gates` map, keyed by resource id. */
  type Gates = map<U32, GateRequirement>

  type Outcome = Result<(), DispatchError<Error>>

  datatype Storage = Storage(gates: Gates, events: seq<Event>)

  /** `b` is `a` with at most the entry under `key` changed. */
  ghost predicate AgreeExcept(a: Gates, b: Gates, key: U32) {
    forall k :: k != key ==> (k in a <==> k in b) && (k in a ==> a[k] == b[k])
  }

  /** `ensure_signed_or_root`: only an unsigned origin is refused. */
  function EnsureSignedOrRoot(origin: Origin): (r: Outcome)
    ensures r.Ok? <==> !origin.Unsigned?
    ensures r.Err? ==> r == Err(BadOrigin)
  {
    if origin.Root? then Ok(())
    else
      match EnsureSigned<Error>(origin)
      case Err(e) => Err(e)
      case Ok(_) => Ok(())
  }

  /** `set_gate` as a transition: stores the requirement, replacing any earlier one. */
  function SetGate(s: Storage, origin: Origin, resourceId: U32, requirement: GateRequirement): (r: (Outcome, Storage))
    ensures r.0 == EnsureSignedOrRoot(origin)
    ensures r.0.Err? ==> r.1 == s
    ensures r.0.Ok? ==>
      && resourceId in r.1.gates && r.1.gates[resourceId] == requirement
      && AgreeExcept(s.gates, r.1.gates, resourceId)
      && r.1.events == s.events + [GateSet(resourceId, requirement)]
  {
    match EnsureSignedOrRoot(origin)
    case Err(e) => (Err(e), s)
    case Ok(_) => (Ok(()), Storage(s.gates[resourceId := requirement], s.events + [GateSet(resourceId, requirement)]))
  }

  /** `remove_gate` as a transition: an ungated resource is `GateNotFound`. */
  function RemoveGate(s: Storage, origin: Origin, resourceId: U32): (r: (Outcome, Storage))
    ensures origin.Unsigned? ==> r == (Err(BadOrigin), s)
    ensures !origin.Unsigned? && resourceId !in s.gates ==> r == (Err(Module(GateNotFound)), s)
    ensures r.0.Ok? <==> !origin.Unsigned? && resourceId in s.gates
    ensures r.0.Ok? ==>
      && resourceId !in r.1.gates
      && AgreeExcept(s.gates, r.1.gates, resourceId)
      && r.1.events == s.events + [GateRemoved(resourceId)]
  {
    match EnsureSignedOrRoot(origin)
    case Err(e) => (Err(e), s)
    case Ok(_) =>
      if resourceId !in s.gates then (Err(Module(GateNotFound)), s)
      else (Ok(()), Storage(s.gates - {resourceId}, s.events + [GateRemoved(resourceId)]))
  }

  class Pallet {
    var gates: Gates
    var events: seq<Event>

    function Snapshot(): Storage
      reads this
    {
      Storage(gates, events)
    }

    /** Genesis: no resource is gated. */
    constructor()
      ensures gates == map[] && events == []
    {
      gates := map[];
      events := [];
    }

    method SetGateCall(origin: Origin, resourceId: U32, requirement: GateRequirement) returns (r: Outcome)
      modifies this
      ensures (r, Snapshot()) == SetGate(old(Snapshot()), origin, resourceId, requirement)
    {
      r := EnsureSignedOrRoot(origin);
      if r.Err? {
        return;
      }
      gates := gates[resourceId := requirement];
      events := events + [GateSet(resourceId, requirement)];
    }

    method RemoveGateCall(origin: Origin, resourceId: U32) returns (r: Outcome)
      modifies this
      ensures (r, Snapshot()) == RemoveGate(old(Snapshot()), origin, resourceId)
    {
      r := EnsureSignedOrRoot(origin);
      if r.Err? {
        return;
      }
      if resourceId !in gates {
        return Err(Module(GateNotFound));
      }
      gates := gates - {resourceId};
      events := events + [GateRemoved(resourceId)];
    }
  }

  /** Setting the same requirement twice leaves the same gates as setting it once. */
  lemma SetGateIdempotent(s: Storage, origin: Origin, resourceId: U32, requirement: GateRequirement)
    ensures var once := SetGate(s, origin, resourceId, requirement).1;
      SetGate(once, origin, resourceId, requirement).1.gates == once.gates
  {
    var once := SetGate(s, origin, resourceId, requirement).1;
    if !origin.Unsigned? {
      assert once.gates[resourceId := requirement] == once.gates;
    }
  }

  /** Set then remove, by any two callers that may call at all, leaves the resource ungated. */
  lemma SetThenRemove(s: Storage, setter: Origin, remover: Origin, resourceId: U32, requirement: GateRequirement)
    requires !setter.Unsigned? && !remover.Unsigned?
    ensures var gated := SetGate(s, setter, resourceId, requirement).1;
      var removed := RemoveGate(gated, remover, resourceId);
      removed.0.Ok? && removed.1.gates == s.gates - {resourceId}
  {
    var gated := SetGate(s, setter, resourceId, requirement).1;
    assert gated.gates == s.gates[resourceId := requirement];
    assert (gated.gates - {resourceId}) == s.gates - {resourceId};
  }

  /** There is no ownership: any signed account may replace or remove another caller's gate. */
  lemma AnySignedAccountMayChangeGates(s: Storage, owner: AccountId, other: AccountId, resourceId: U32, requirement: GateRequirement)
    ensures var gated := SetGate(s, Signed(owner), resourceId, requirement).1;
      RemoveGate(gated, Signed(other), resourceId).0.Ok?
  {
  }
}
