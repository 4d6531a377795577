/**
 * The per-registration policy list `RegistrationContext`: requests for the registration's own key act on
 * the registration's policy set; requests for any other key go to the container's policy delegates.
 */
module PolicyContext {
  import opened Wrappers
  import opened Types
  import opened Storage
  import opened Containers

  /** The list `Get` reports through its `out` parameter. */
  datatype Answerer = ThisContext | ContainerList

  /** The policy a policy set holds for an interface, or `None` (C# `null`). */
  function PolicyIn(policies: map<Type, Policy>, kind: Type): (p: Option<Policy>)
    ensures p.Some? <==> kind in policies
    ensures p.Some? ==> p.value == policies[kind]
  {
    if kind in policies then Some(policies[kind]) else None
  }

  class RegistrationContext {
    /** `_registration`, held by value. */
    var registration: Reg
    const container: Container

    constructor (container: Container, registration: Reg)
      ensures this.container == container && this.registration == registration
    {
      this.container := container;
      this.registration := registration;
    }

    /** The request is for this registration's own key. */
    predicate Owns(k: Key, n: Name)
      reads this
    {
      registration.regType == k && registration.regName == n
    }

    /**
     * `Get`: the registration's own policy, answered by this context, for its own key; otherwise what the
     * container's `GetPolicy` delegate answers. That delegate's lookup is not part of this model:
     * `containerGet` stands for it.
     */
    function Get(k: Key, n: Name, kind: Type, containerGet: (Key, Name, Type) -> Option<Policy>): (r: (Option<Policy>, Answerer))
      reads this
      ensures r.1 == ThisContext <==> Owns(k, n)
      ensures r.1 == ThisContext ==> r.0 == PolicyIn(registration.policies, kind)
      ensures r.1 == ContainerList ==> r.0 == containerGet(k, n, kind)
    {
      if registration.regType != k || registration.regName != n then (containerGet(k, n, kind), ContainerList)
      else (PolicyIn(registration.policies, kind), ThisContext)
    }

    /** `Set`: on the own registration for its key, else through the container's `SetPolicy` delegate. */
    method Set(k: Key, n: Name, kind: Type, p: Policy)
      requires container.Valid()
      modifies this`registration, container`registrations, container`owner
      ensures container.Valid()
      ensures old(Owns(k, n)) ==> registration == old(registration).(policies := old(registration.policies)[kind := p])
      ensures old(Owns(k, n)) ==> Owns(k, n) && PolicyIn(registration.policies, kind) == Some(p)
      ensures old(Owns(k, n)) ==> unchanged(container)
      ensures !old(Owns(k, n)) ==> registration == old(registration) && container.owner == container
      ensures !old(Owns(k, n)) ==>
        var before := if old(container.registrations).Some? then old(container.registrations).value else Empty(ContainerInitialCapacity);
        container.registrations == Some(PutPolicy(before, container, k, n, kind, p))
    {
      if registration.regType != k || registration.regName != n {
        container.SetPolicy(k, n, kind, p);
      } else {
        registration := registration.(policies := registration.policies[kind := p]);
      }
    }

    /** `Clear`: on the own registration for its key, else through the container's `ClearPolicy` delegate. */
    method Clear(k: Key, n: Name, kind: Type)
      requires container.Valid()
      modifies this`registration, container`registrations
      ensures container.Valid()
      ensures old(Owns(k, n)) ==> registration == old(registration).(policies := old(registration.policies) - {kind})
      ensures old(Owns(k, n)) ==> Owns(k, n) && PolicyIn(registration.policies, kind).None?
      ensures old(Owns(k, n)) ==> unchanged(container)
      ensures !old(Owns(k, n)) ==> registration == old(registration)
      ensures !old(Owns(k, n)) && old(container.registrations).None? ==> unchanged(container)
      ensures !old(Owns(k, n)) && old(container.registrations).Some? ==>
        container.registrations == Some(ClearPolicyIn(old(container.registrations).value, k, n, kind))
    {
      if registration.regType != k || registration.regName != n {
        container.ClearPolicy(k, n, kind);
      } else {
        registration := registration.(policies := registration.policies - {kind});
      }
    }

    /** `ClearAll`: does nothing. */
    method ClearAll()
      ensures unchanged(this)
    {
    }
  }
}
