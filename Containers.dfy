/**
 * The container scope hierarchy: a root container and child containers that point at their parent,
 * share the root's strategies, and allocate a local registration store on their first local write.
 */
module Containers {
  import opened Wrappers
  import opened Types
  import opened Storage
  import BuildUp

  /** A policy object, by identity. */
  type Policy = nat

  /**
   * An `InternalRegistration`: the container whose store holds it, its key (type and name), its
   * policy set (keyed by policy interface type) and its build chain.
   */
  datatype Reg = Reg(scope: Container, regType: Key, regName: Name, policies: map<Type, Policy>, buildChain: seq<BuildUp.Stage>)

  /** The per-container store: type -> (name -> registration). */
  type Store = Registry<map<Name, Reg>>

  /** The four registration aspect factories the root container installs, in this order. */
  datatype Factory = BuildAspect | MappingAspect | LifetimeAspect | SetupAspect

  const DefaultFactories: seq<Factory> := [BuildAspect, MappingAspect, LifetimeAspect, SetupAspect]

  /** A registration delegate: `null`, or what a factory returned when given the previous delegate. */
  datatype RegisterPipeline = NullPipeline | Wrapped(factory: Factory, inner: RegisterPipeline)

  /** A container extension, by identity. */
  datatype Extension = Extension(id: nat)

  /** A lifetime manager, by identity; `singleton` says whether it implements `ISingletonLifetimePolicy`. */
  datatype Lifetime = Lifetime(id: nat, singleton: bool)

  /**
   * What `RegisterType` decides: the exception it throws, or the container it sets as the registration
   * context's `Container`, and whether it takes the open-generic path.
   */
  datatype RegisterDecision = Rejected(error: Error) | Accepted(target: Container, openGeneric: bool)

  /**
   * Initial bucket count of every registration store. Its definition is not part of this model;
   * 37 is the value in Unity 5, and nothing here depends on it beyond its being positive.
   */
  const ContainerInitialCapacity: nat := 37

  /** The registration a lookup yields when no container of the chain stores one for the key. */
  function DefaultReg(scope: Container, k: Key, n: Name): Reg {
    Reg(scope, k, n, map[], [])
  }

  /** The registrations a store holds for type `k`, by name. */
  function EntriesIn(store: Store, k: Key): map<Name, Reg> {
    match Get(store, k)
    case None => map[]
    case Some(m) => m
  }

  /** `Get(type, name)` on one store. */
  function RegIn(store: Store, k: Key, n: Name): Option<Reg> {
    var m := EntriesIn(store, k);
    if n in m then Some(m[n]) else None
  }

  /** The store after `Set(type, name, policyInterface, policy)`: the policy is set on the (possibly new) registration. */
  function PutPolicy(store: Store, scope: Container, k: Key, n: Name, kind: Type, p: Policy): Store {
    var m := EntriesIn(store, k);
    var reg := if n in m then m[n].(policies := m[n].policies[kind := p]) else Reg(scope, k, n, map[kind := p], []);
    Put(store, k, m[n := reg])
  }

  /** The store after `Clear(type, name, policyInterface)`. */
  function ClearPolicyIn(store: Store, k: Key, n: Name, kind: Type): Store {
    var m := EntriesIn(store, k);
    if n in m then Put(store, k, m[n := m[n].(policies := m[n].policies - {kind})]) else store
  }

  /** The store after `AddOrUpdate`: the registration for the key is replaced. */
  function PutReg(store: Store, k: Key, n: Name, reg: Reg): Store {
    Put(store, k, EntriesIn(store, k)[n := reg])
  }

  /** A store write changes exactly the registration it names. */
  lemma PutRegGet(store: Store, k: Key, n: Name, reg: Reg, k': Key, n': Name)
    ensures RegIn(PutReg(store, k, n, reg), k', n') == if k' == k && n' == n then Some(reg) else RegIn(store, k', n')
  {
    PutGet(store, k, EntriesIn(store, k)[n := reg], k');
  }

  /**
   * `Set` puts the policy on the registration for the key (creating that registration when there is none)
   * and leaves every other registration of the store unchanged.
   */
  lemma PutPolicyGet(store: Store, scope: Container, k: Key, n: Name, kind: Type, p: Policy, k': Key, n': Name)
    ensures var before := RegIn(store, k, n);
      RegIn(PutPolicy(store, scope, k, n, kind, p), k', n') ==
        if k' == k && n' == n then
          Some(if before.Some? then before.value.(policies := before.value.policies[kind := p])
               else Reg(scope, k, n, map[kind := p], []))
        else RegIn(store, k', n')
  {
    var m := EntriesIn(store, k);
    var reg := if n in m then m[n].(policies := m[n].policies[kind := p]) else Reg(scope, k, n, map[kind := p], []);
    PutGet(store, k, m[n := reg], k');
  }

  /** `ClearPolicy` removes the policy from the registration for the key and touches nothing else. */
  lemma ClearPolicyGet(store: Store, k: Key, n: Name, kind: Type, k': Key, n': Name)
    ensures var before := RegIn(store, k, n);
      RegIn(ClearPolicyIn(store, k, n, kind), k', n') ==
        if k' == k && n' == n then
          (if before.Some? then Some(before.value.(policies := before.value.policies - {kind})) else None)
        else RegIn(store, k', n')
  {
    var m := EntriesIn(store, k);
    if n in m {
      PutGet(store, k, m[n := m[n].(policies := m[n].policies - {kind})], k');
    }
  }

  /** The strategies grouped by build stage, in stage order. */
  function Flatten(stages: seq<seq<BuildUp.Stage>>): seq<BuildUp.Stage> {
    if stages == [] then [] else stages[0] + Flatten(stages[1..])
  }

  /** The registration delegate's factories, innermost (first applied) first. */
  function Layers(p: RegisterPipeline): seq<Factory> {
    match p
    case NullPipeline => []
    case Wrapped(f, inner) => Layers(inner) + [f]
  }

  /** A registration delegate is determined by its layers: the fold loses nothing of the factory list. */
  lemma {:induction false} LayersInjective(p: RegisterPipeline, q: RegisterPipeline)
    requires Layers(p) == Layers(q)
    ensures p == q
  {
    match p
    case NullPipeline =>
    case Wrapped(f, inner) =>
      if q.Wrapped? {
        var lp, lq := Layers(p), Layers(q);
        assert lp[..|lp| - 1] == Layers(inner);
        assert lq[..|lq| - 1] == Layers(q.inner);
        LayersInjective(inner, q.inner);
      }
  }

  /** `StagedStrategyChain`: the strategies, one list per stage; shared by a root and its children. */
  class StagedStrategyChain {
    var stages: seq<seq<BuildUp.Stage>>

    constructor (stages: seq<seq<BuildUp.Stage>>)
      ensures this.stages == stages
    {
      this.stages := stages;
    }

    /** `ToArray()`: the strategies in stage order, and in insertion order within a stage. */
    function ToArray(): seq<BuildUp.Stage>
      reads this
    {
      Flatten(stages)
    }
  }

  class Container {
    /** `_parent`: null for the root container. */
    const parent: Container?
    /** Distance from the root. */
    ghost const depth: nat
    /** All strict ancestors. */
    ghost const above: set<Container>
    /** `_strategies`, shared by reference with the parent. */
    const strategies: StagedStrategyChain

    /** `_registrations`: null in a child until its first local write. */
    var registrations: Option<Store>
    /**
     * The container whose lookup closures the delegate fields `IsTypeRegistered`, `GetRegistration`,
     * `GetPolicy` and `_get` currently hold. They are always assigned together: to the root's own
     * closures in the root, to copies of the parent's at child construction, and to this container's
     * own closures when its local store is allocated.
     */
    var owner: Container?
    /** The children added to `_lifetimeContainer`. */
    var lifetimeMembers: seq<Container>
    /** `_extensions`: null until the first `AddExtension`. */
    var extensions: Option<seq<Extension>>
    /** `_strategyChain` and `_buildChain`: snapshots of the strategies. */
    var strategyChain: seq<BuildUp.Stage>
    var buildChain: seq<BuildUp.Stage>
    /** `_registrationFactories` and `_registerPipeline`: set only in the root. */
    var registrationFactories: Option<seq<Factory>>
    var registerPipeline: RegisterPipeline

    /** The scope chain shape, which never changes: a finite parent chain ending at the shared root. */
    ghost predicate Wf()
      decreases depth
    {
      if parent == null then above == {}
      else
        && parent.depth < depth
        && above == {parent} + parent.above
        && parent.Wf()
    }

    /** `_root`: the root container assigns itself, a child copies its parent's. */
    function Root(): (r: Container)
      requires Wf()
      reads this, above
      ensures r.parent == null && r in Scope()
      decreases depth
    {
      if parent == null then this else parent.Root()
    }

    /** This container and its ancestors. */
    ghost function Scope(): set<Container> {
      {this} + above
    }

    /**
     * The container invariant along the chain: the root always has a store; a container's delegates are
     * its own exactly when it has a local store, and otherwise are those of one of its ancestors.
     */
    ghost predicate Valid()
      reads this, above
      decreases depth
    {
      && Wf()
      && owner in Scope()
      && owner.registrations.Some?
      && (parent == null ==> registrations.Some?)
      && (registrations.Some? <==> owner == this)
      && (parent != null ==> parent.Valid())
    }

    /** `Get(type, name)` on this container's own store. */
    function LocalReg(k: Key, n: Name): Option<Reg>
      reads this
    {
      match registrations
      case None => None
      case Some(store) => RegIn(store, k, n)
    }

    /** `Get(type)` on this container's own store, as a name -> registration map. */
    function LocalEntries(k: Key): map<Name, Reg>
      reads this
    {
      match registrations
      case None => map[]
      case Some(store) => EntriesIn(store, k)
    }

    /**
     * `GetRegistration(type, name)`: the local registration if there is one, else the parent's lookup;
     * the root's get-or-add yields the stored registration or a default one for the key.
     */
    function Lookup(k: Key, n: Name): (r: Reg)
      requires Wf()
      reads this, above
      decreases depth
    {
      if LocalReg(k, n).Some? then LocalReg(k, n).value
      else if parent == null then DefaultReg(this, k, n)
      else parent.Lookup(k, n)
    }

    /**
     * The intended answer of `IsRegistered(type, name)`: some container from this one up to the root
     * stores the key. The delegate fields answer `DelegatedIsRegistered`, which can miss a store that an
     * ancestor allocated after a descendant copied its delegates.
     */
    function IsRegistered(k: Key, n: Name): bool
      requires Wf()
      reads this, above
      decreases depth
    {
      LocalReg(k, n).Some? || (parent != null && parent.IsRegistered(k, n))
    }

    /**
     * `GetRegistration` as the delegate fields evaluate it: the closure held by `owner`, which for a
     * child without a local store is the one it copied from its parent when it was created.
     */
    function DelegatedLookup(k: Key, n: Name): Reg
      requires Valid()
      reads this, above
      decreases depth, 1
    {
      AncestorValid(this, owner);
      owner.BoundLookup(k, n)
    }

    /**
     * The `GetRegistration` closure installed by this container: the root's get-or-add, or, once a
     * child's store exists, its local entry falling back to the parent's `GetRegistration` delegate.
     */
    function BoundLookup(k: Key, n: Name): Reg
      requires Valid() && registrations.Some?
      reads this, above
      decreases depth, 0
    {
      if LocalReg(k, n).Some? then LocalReg(k, n).value
      else if parent == null then DefaultReg(this, k, n)
      else parent.DelegatedLookup(k, n)
    }

    /**
     * `IsTypeRegistered` as the delegate fields evaluate it: the closure held by `owner`, like
     * `DelegatedLookup`. This is also what the public `IsRegistered` answers.
     */
    function DelegatedIsRegistered(k: Key, n: Name): bool
      requires Valid()
      reads this, above
      decreases depth, 1
    {
      AncestorValid(this, owner);
      owner.BoundIsRegistered(k, n)
    }

    /**
     * The `IsTypeRegistered` closure installed by this container: the root's "stored here" test, or, once a
     * child's store exists, `IsTypeRegisteredLocally`, which falls back to the parent's delegate.
     */
    function BoundIsRegistered(k: Key, n: Name): bool
      requires Valid() && registrations.Some?
      reads this, above
      decreases depth, 0
    {
      LocalReg(k, n).Some? || (parent != null && parent.DelegatedIsRegistered(k, n))
    }

    /**
     * Every container from this one up to the root that has no store of its own still holds its
     * parent's current delegates: no ancestor allocated its store after a descendant copied them.
     */
    ghost predicate DelegatesCurrent()
      requires Valid()
      reads this, above
      decreases depth
    {
      parent != null ==> (registrations.None? ==> owner == parent.owner) && parent.DelegatesCurrent()
    }

    /** The root container constructor; `stages` are the strategies it installs, as abstract stages. */
    constructor (stages: seq<seq<BuildUp.Stage>>)
      ensures Valid() && parent == null && Root() == this && fresh(strategies)
      ensures registrations == Some(Empty(ContainerInitialCapacity)) && owner == this
      ensures strategies.stages == stages && strategyChain == Flatten(stages) && buildChain == Flatten(stages)
      ensures registrationFactories == Some(DefaultFactories) && Layers(registerPipeline) == DefaultFactories
      ensures lifetimeMembers == [] && extensions.None?
    {
      parent := null;
      depth := 0;
      above := {};
      registrations := Some(Empty(ContainerInitialCapacity));
      owner := null;
      registrationFactories := Some(DefaultFactories);
      registerPipeline := NullPipeline;
      strategies := new StagedStrategyChain(stages);
      strategyChain := Flatten(stages);
      buildChain := Flatten(stages);
      lifetimeMembers := [];
      extensions := None;
      new;
      owner := this;
      registerPipeline := BuildRegisterPipeline();
    }

    /**
     * The child container constructor: it joins the parent's lifetime container, shares the root and the
     * strategies, copies the parent's lookup delegates, and has no local store yet.
     */
    constructor Child(parent: Container)
      requires parent.Valid()
      modifies parent`lifetimeMembers
      ensures Valid() && this.parent == parent && Root() == parent.Root()
      ensures parent.lifetimeMembers == old(parent.lifetimeMembers) + [this]
      ensures registrations.None? && owner == parent.owner
      ensures strategies == parent.strategies && strategyChain == parent.strategyChain && buildChain == parent.buildChain
      ensures lifetimeMembers == [] && extensions.None? && registrationFactories.None? && registerPipeline == NullPipeline
    {
      this.parent := parent;
      depth := parent.depth + 1;
      above := {parent} + parent.above;
      strategies := parent.strategies;
      strategyChain := parent.strategyChain;
      buildChain := parent.buildChain;
      registrations := None;
      owner := parent.owner;
      lifetimeMembers := [];
      extensions := None;
      registrationFactories := None;
      registerPipeline := NullPipeline;
      new;
      AncestorValid(parent, parent);
      parent.lifetimeMembers := parent.lifetimeMembers + [this];
      NotAbove(parent);
    }

    /** `BuildRegisterPipeline`: fold the factories in order, each wrapping the delegate built so far. */
    method BuildRegisterPipeline() returns (p: RegisterPipeline)
      requires registrationFactories.Some?
      ensures Layers(p) == registrationFactories.value
    {
      var factories := registrationFactories.value;
      p := NullPipeline;
      for i := 0 to |factories|
        invariant Layers(p) == factories[..i]
      {
        p := Wrapped(factories[i], p);
        assert factories[..i + 1] == factories[..i] + [factories[i]];
      }
      assert factories[..|factories|] == factories;
    }

    /** `OnStrategiesChanged`: refresh both snapshots from the shared strategies. */
    method OnStrategiesChanged()
      requires Valid()
      modifies this`strategyChain, this`buildChain
      ensures Valid()
      ensures strategyChain == strategies.ToArray() && buildChain == strategies.ToArray()
    {
      strategyChain := strategies.ToArray();
      buildChain := strategies.ToArray();
      NotAbove(this);
    }

    /** `SetupChildContainerBehaviors`: allocate the local store and switch every delegate to this container. */
    method SetupChildContainerBehaviors()
      requires Valid()
      modifies this`registrations, this`owner
      ensures Valid()
      ensures registrations == Some(Empty(ContainerInitialCapacity)) && owner == this
    {
      registrations := Some(Empty(ContainerInitialCapacity));
      owner := this;
      NotAbove(this);
    }

    /** `Set` on the local store. */
    method Set(k: Key, n: Name, kind: Type, p: Policy)
      requires Valid() && registrations.Some?
      modifies this`registrations
      ensures Valid()
      ensures registrations == Some(PutPolicy(old(registrations).value, this, k, n, kind, p))
    {
      registrations := Some(PutPolicy(registrations.value, this, k, n, kind, p));
      NotAbove(this);
    }

    /** `AddOrUpdate` on the local store: the registration for the key is replaced. */
    method AddOrUpdate(k: Key, n: Name, policies: map<Type, Policy>, chain: seq<BuildUp.Stage>) returns (reg: Reg)
      requires Valid() && registrations.Some?
      modifies this`registrations
      ensures Valid()
      ensures reg == Reg(this, k, n, policies, chain)
      ensures registrations == Some(PutReg(old(registrations).value, k, n, reg))
    {
      reg := Reg(this, k, n, policies, chain);
      registrations := Some(PutReg(registrations.value, k, n, reg));
      NotAbove(this);
    }

    /** `CreateAndSetPolicy`: allocate the local store if there is none yet, then `Set`. */
    method CreateAndSetPolicy(k: Key, n: Name, kind: Type, p: Policy)
      requires Valid()
      modifies this`registrations, this`owner
      ensures Valid() && owner == this
      ensures var before := if old(registrations).Some? then old(registrations).value else Empty(ContainerInitialCapacity);
        registrations == Some(PutPolicy(before, this, k, n, kind, p))
    {
      if registrations.None? {
        SetupChildContainerBehaviors();
      }
      Set(k, n, kind, p);
    }

    /** `CreateAndSetOrUpdate`: allocate the local store if there is none yet, then `AddOrUpdate`. */
    method CreateAndSetOrUpdate(k: Key, n: Name, policies: map<Type, Policy>, chain: seq<BuildUp.Stage>) returns (reg: Reg)
      requires Valid()
      modifies this`registrations, this`owner
      ensures Valid() && owner == this
      ensures reg == Reg(this, k, n, policies, chain)
      ensures var before := if old(registrations).Some? then old(registrations).value else Empty(ContainerInitialCapacity);
        registrations == Some(PutReg(before, k, n, reg))
    {
      if registrations.None? {
        SetupChildContainerBehaviors();
      }
      reg := AddOrUpdate(k, n, policies, chain);
    }

    /**
     * The `SetPolicy` delegate: `Set` once this container has its own store (always, for the root),
     * `CreateAndSetPolicy` before that.
     */
    method SetPolicy(k: Key, n: Name, kind: Type, p: Policy)
      requires Valid()
      modifies this`registrations, this`owner
      ensures Valid() && owner == this
      ensures var before := if old(registrations).Some? then old(registrations).value else Empty(ContainerInitialCapacity);
        registrations == Some(PutPolicy(before, this, k, n, kind, p))
    {
      if registrations.Some? {
        Set(k, n, kind, p);
      } else {
        CreateAndSetPolicy(k, n, kind, p);
      }
    }

    /** The `ClearPolicy` delegate: a no-op until this container has its own store, `Clear` afterwards. */
    method ClearPolicy(k: Key, n: Name, kind: Type)
      requires Valid()
      modifies this`registrations
      ensures Valid()
      ensures old(registrations).None? ==> registrations.None?
      ensures old(registrations).Some? ==> registrations == Some(ClearPolicyIn(old(registrations).value, k, n, kind))
    {
      if registrations.Some? {
        registrations := Some(ClearPolicyIn(registrations.value, k, n, kind));
        NotAbove(this);
      }
    }

    /**
     * `IsTypeRegisteredLocally`: walk the bucket chain of the type; a local entry for the name answers
     * true, and otherwise the answer is the parent's `IsTypeRegistered` delegate. It agrees with the scope
     * fallback while the copied delegates are current.
     */
    method IsTypeRegisteredLocally(k: Key, n: Name) returns (found: bool)
      requires Valid() && registrations.Some?
      ensures found == BoundIsRegistered(k, n)
      ensures found == (LocalReg(k, n).Some? || (parent != null && parent.DelegatedIsRegistered(k, n)))
      ensures DelegatesCurrent() ==> found == IsRegistered(k, n)
    {
      if DelegatesCurrent() {
        DelegatedIsRegisteredWhenCurrent(this, k, n);
      }
      var store := registrations.value;
      var hashCode := Masked(k);
      var targetBucket := hashCode % |store.buckets|;
      var i := store.buckets[targetBucket];
      while i >= 0
        invariant -1 <= i < |store.entries|
        invariant FindFrom(store.entries, i, k, hashCode) == Find(store, k)
        decreases i + 1
      {
        if store.entries[i].hashCode != hashCode || store.entries[i].key != k {
          i := store.entries[i].next;
          continue;
        }
        var parentHas := parent != null && parent.DelegatedIsRegistered(k, n);
        return n in store.entries[i].value || parentHas;
      }
      return parent != null && parent.DelegatedIsRegistered(k, n);
    }

    /** `AddExtension`: the list is allocated first, then a null extension is rejected, else appended. */
    method AddExtension(extension: Option<Extension>) returns (r: Result<Container, Error>)
      requires Valid()
      modifies this`extensions
      ensures Valid()
      ensures var earlier := if old(extensions).Some? then old(extensions).value else [];
        extensions == Some(if extension.Some? then earlier + [extension.value] else earlier)
      ensures r == if extension.None? then Failure(ArgumentNull("extension")) else Success(this)
    {
      if extensions.None? {
        extensions := Some([]);
      }
      NotAbove(this);
      if extension.None? {
        return Failure(ArgumentNull("extension"));
      }
      extensions := Some(extensions.value + [extension.value]);
      return Success(this);
    }

    /** `CreateChildContainer`. */
    method CreateChildContainer() returns (child: Container)
      requires Valid()
      modifies this`lifetimeMembers
      ensures Valid() && fresh(child) && child.Valid()
      ensures child.parent == this && child.Root() == Root()
      ensures lifetimeMembers == old(lifetimeMembers) + [child]
      ensures child.registrations.None? && child.owner == owner
      ensures child.strategies == strategies && child.buildChain == buildChain
    {
      child := new Container.Child(this);
    }

    /** The `Parent` property. */
    function Parent(): (p: Container?)
      ensures p == parent
    {
      parent
    }

    /** `RegisterInstance`: its body is commented out, so it changes nothing and returns this container. */
    method RegisterInstance(k: Key, n: Name, instance: Option<BuildUp.Obj>, lifetime: Option<Lifetime>) returns (r: Container)
      ensures r == this
    {
      r := this;
    }

    /**
     * `RegisterType`: validate the arguments, then pick the container set as the registration context's
     * `Container` (the root for a singleton lifetime, this container otherwise) and the open-generic or
     * constructable path.
     * `assignable(a, b)` is `a.IsAssignableFrom(b)`.
     */
    method RegisterType(registeredType: Option<Type>, n: Name, mappedTo: Option<Type>, lifetime: Option<Lifetime>,
                        assignable: (Type, Type) -> bool) returns (r: RegisterDecision)
      requires Wf()
      ensures registeredType.None? ==> r == Rejected(ArgumentNull("registeredType"))
      ensures registeredType.Some? && mappedTo.Some? && !IsGenericType(registeredType.value)
              && !IsGenericType(mappedTo.value) && !assignable(registeredType.value, mappedTo.value)
              ==> r == Rejected(Argument("registeredType"))
      ensures r.Accepted? <==> registeredType.Some? && (mappedTo.Some? ==>
                IsGenericType(registeredType.value) || IsGenericType(mappedTo.value) || assignable(registeredType.value, mappedTo.value))
      ensures r.Accepted? ==> r.target == (if lifetime.Some? && lifetime.value.singleton then Root() else this)
      ensures r.Accepted? ==> r.openGeneric == IsGenericTypeDefinition(registeredType.value)
    {
      if registeredType.None? {
        return Rejected(ArgumentNull("registeredType"));
      }
      var t := registeredType.value;
      if mappedTo.Some? {
        var m := mappedTo.value;
        if !IsGenericType(t) && !IsGenericType(m) && !assignable(t, m) {
          return Rejected(Argument("registeredType"));
        }
      }
      var unity := if lifetime.Some? && lifetime.value.singleton then Root() else this;
      return Accepted(unity, IsGenericTypeDefinition(t));
    }
  }

  /** Every ancestor of a container lies above its parent's chain, so it is not its own ancestor. */
  lemma {:induction false} AncestorFacts(c: Container)
    requires c.Wf()
    ensures forall a :: a in c.above ==> a.Wf() && a.depth < c.depth && a.above < c.above && a.Root() == c.Root()
    decreases c.depth
  {
    if c.parent != null {
      AncestorFacts(c.parent);
    }
  }

  /** A container never appears above itself, so changing it leaves its ancestors' state alone. */
  lemma NotAbove(c: Container)
    requires c.Wf()
    ensures c !in c.above
    ensures c.parent != null ==> c !in c.parent.Scope()
  {
    AncestorFacts(c);
  }

  /** The invariant holds at every container of a valid chain. */
  lemma {:induction false} AncestorValid(c: Container, a: Container)
    requires c.Valid() && a in c.Scope()
    ensures a.Valid() && a.Scope() <= c.Scope() && a.depth <= c.depth
    decreases c.depth
  {
    AncestorFacts(c);
    if a != c {
      AncestorValid(c.parent, a);
    }
  }

  /**
   * Scope fallback: the lookup yields the registration of the nearest container, from this one up to the
   * root, that stores the key; when none does, it yields the root's default registration for the key.
   */
  lemma {:induction false} LookupIsNearest(c: Container, k: Key, n: Name)
    requires c.Wf()
    ensures var r := c.Lookup(k, n);
      || (exists a :: a in c.Scope() && a.LocalReg(k, n) == Some(r)
            && forall b :: b in c.Scope() && b.depth > a.depth ==> b.LocalReg(k, n).None?)
      || (r == DefaultReg(c.Root(), k, n) && forall a :: a in c.Scope() ==> a.LocalReg(k, n).None?)
    decreases c.depth
  {
    AncestorFacts(c);
    if c.LocalReg(k, n).Some? {
      assert c in c.Scope();
    } else if c.parent != null {
      LookupIsNearest(c.parent, k, n);
      assert c.Scope() == {c} + c.parent.Scope();
    }
  }

  /** `IsRegistered` holds exactly when some container from this one up to the root stores the key. */
  lemma {:induction false} IsRegisteredIffStored(c: Container, k: Key, n: Name)
    requires c.Wf()
    ensures c.IsRegistered(k, n) <==> exists a :: a in c.Scope() && a.LocalReg(k, n).Some?
    decreases c.depth
  {
    if c.parent != null {
      IsRegisteredIffStored(c.parent, k, n);
      assert c.Scope() == {c} + c.parent.Scope();
    }
  }

  /** While the copied delegates are current, `GetRegistration` as bound agrees with the scope fallback. */
  lemma {:induction false} DelegatedLookupWhenCurrent(c: Container, k: Key, n: Name)
    requires c.Valid() && c.DelegatesCurrent()
    ensures c.DelegatedLookup(k, n) == c.Lookup(k, n)
    decreases c.depth
  {
    if c.parent != null {
      DelegatedLookupWhenCurrent(c.parent, k, n);
    }
  }

  /** While the copied delegates are current, `IsTypeRegistered` as bound agrees with the scope fallback. */
  lemma {:induction false} DelegatedIsRegisteredWhenCurrent(c: Container, k: Key, n: Name)
    requires c.Valid() && c.DelegatesCurrent()
    ensures c.DelegatedIsRegistered(k, n) == c.IsRegistered(k, n)
    decreases c.depth
  {
    if c.parent != null {
      DelegatedIsRegisteredWhenCurrent(c.parent, k, n);
    }
  }

  /**
   * The delegates a child copies at construction are never refreshed. Root `r`, child `a` of `r`,
   * grandchild `b` of `a`; then a policy is set in `a`, which gives `a` its own store and delegates.
   * `b` still holds the root's lookup closure, so its `GetRegistration` misses what `a` now stores,
   * while the scope fallback that parent links describe finds it. The same holds of `IsTypeRegistered`,
   * and so of the public `IsRegistered`: `b` answers false for the key that `a` now stores.
   */
  method StaleDelegateWitness(k: Key, n: Name, kind: Type, p: Policy)
    returns (r: Container, a: Container, b: Container,
             asWritten: Reg, intended: Reg, asWrittenRegistered: bool, intendedRegistered: bool)
    ensures b.Valid() && b.parent == a && a.parent == r && r.parent == null
    ensures r.registrations.Some? && a.registrations.Some? && b.registrations.None?
    ensures asWritten == b.DelegatedLookup(k, n) && intended == b.Lookup(k, n)
    ensures asWrittenRegistered == b.DelegatedIsRegistered(k, n) && intendedRegistered == b.IsRegistered(k, n)
    ensures asWritten.policies == map[] && intended.policies == map[kind := p]
    ensures asWritten != intended
    ensures !asWrittenRegistered && intendedRegistered
  {
    r := new Container([]);
    a := r.CreateChildContainer();
    b := a.CreateChildContainer();
    a.SetPolicy(k, n, kind, p);
    EmptyGet<map<Name, Reg>>(ContainerInitialCapacity, k);
    PutPolicyGet(Empty(ContainerInitialCapacity), a, k, n, kind, p, k, n);
    assert r.registrations == Some(Empty(ContainerInitialCapacity)) && r.parent == null;
    assert b.owner == r && b.registrations.None? && b.parent == a;
    asWritten := b.DelegatedLookup(k, n);
    assert asWritten == r.BoundLookup(k, n) == DefaultReg(r, k, n);
    assert a.LocalReg(k, n) == RegIn(PutPolicy(Empty(ContainerInitialCapacity), a, k, n, kind, p), k, n);
    intended := b.Lookup(k, n);
    assert intended == a.Lookup(k, n) == a.LocalReg(k, n).value;
    asWrittenRegistered := b.DelegatedIsRegistered(k, n);
    assert asWrittenRegistered == r.BoundIsRegistered(k, n) == false;
    intendedRegistered := b.IsRegistered(k, n);
    assert intendedRegistered == a.IsRegistered(k, n);
  }
}
