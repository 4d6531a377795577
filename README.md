# Unity container resolution core in Dafny

A model of the resolution core of the Unity dependency-injection container (`UnityContainer`), with proofs
of what that core promises. It covers four parts.

- **The staged build-up walk** (`BuildUp.dfy`). `ThrowingBuildUp` and `NotThrowingBuildUp` step an index
  forward through a registration's build chain, calling `PreBuildUp`, until the chain ends or a stage
  sets `BuildComplete`. They then step it back, calling `PostBuildUp`.
  - Strategies are abstract stages. Each stage's pre step does one of four things:
    - nothing;
    - sets `Existing`, possibly to null;
    - completes the build, setting `Existing` or leaving it as it is;
    - throws.
  - Each post step keeps `Existing`, replaces it (possibly with null), or throws.
  - The `BuilderContext` class logs every call. The loop methods are proved against `Walk`, a closed
    form of the whole walk. Lemmas about `Walk` state the call order and the pre/post symmetry.
- **The scope hierarchy** (`Containers.dfy`). A `Container` class holds a parent link, a shared strategy
  chain, a registration store allocated lazily in child containers, extensions, and the registration
  delegate built from the aspect factories.
  - The store is the container's `HashRegistry`: buckets of entry chains (`Storage.dfy`).
  - `Lookup` is scope fallback: local registration first, then the parent's. A lemma proves that it
    finds the registration of the nearest container that stores the key.
  - The lookup delegate fields a child copies from its parent are modelled as written
    (`DelegatedLookup`, `DelegatedIsRegistered`). Lemmas prove that they agree with scope fallback while
    no ancestor has allocated its store after the copy. A witness shows they can disagree after that
    (see Findings).
  - `IsTypeRegisteredLocally` walks the bucket chain in a loop.
  - `RegisterType` validates its arguments and picks the root container for singleton lifetimes.
- **Registration enumeration** (`Enumeration.dfy`). `GetNamedRegistrations` and
  `GetNotEmptyRegistrations` recurse to the root, then add the local entries for the type and, for a
  closed generic type, those stored under its generic definition. The two differ only in their name
  filter.
- **Resolution** (`Resolution.dfy`, `PolicyContext.dfy`).
  - `Resolve` normalises the name, builds the root context and runs the `Resolve` closure once per
    dependency. Each nested context gets its registration from the `GetRegistration` delegate. A
    returned value, `null` included, is the result. Any exception becomes one `ResolutionFailed` error
    for the requested type and the normalised name.
  - The closure moves its captured "current parent" to each new context and never moves it back. So
    every nested context's parent is the context created just before it, not the context that requested
    the dependency. The `Session` invariant states this.
  - `RegistrationContext` is the per-registration policy list. A request for the registration's own key
    acts on its own policy set; a request for any other key goes to the container.

Exceptions are values: `Result`/`Failure` and `BuildResult.Failed`, or `None` where the code returns
`null`. `Types.dfy` holds the reflection vocabulary: a type is an opaque identity with a 32-bit hash code
and a generic shape.

## Model

| member | source | states |
|---|---|---|
| Types.GenericOrSelf | src/UnityContainer.Implementation.cs:371-373 | the type used for the second lookup differs from the requested type exactly when that type is a closed generic |
| Types.GenericTypeDefinition | src/UnityContainer.Implementation.cs:371 | the generic definition of a generic type is an open generic definition |
| Types.NormalizeName | src/UnityContainer.Public.cs:139 | a null or empty name becomes null, any other name is kept, and the result is never the empty name |
| Storage.Masked | src/UnityContainer.Public.cs:112 | the masked hash is non-negative and below 2^31, and equals the hash code when that is non-negative |
| Storage.Bucket | src/UnityContainer.Public.cs:113 | the bucket index is always inside the bucket array |
| Storage.FindFrom | src/UnityContainer.Public.cs:114-120 | the walk yields nothing exactly when no entry on the chain from the start matches both key and hash; otherwise it yields a matching entry on that chain with no match above it, which is the first the walk meets |
| Storage.Find | src/UnityContainer.Public.cs:114-124 | a found entry is inside the entry array and holds the requested key; nothing is found exactly when no entry on the key's bucket chain holds it under its masked hash |
| Storage.Empty | src/UnityContainer.Implementation.cs:251 | a new store has the requested number of buckets and no entries |
| Storage.PutGet | src/UnityContainer.Implementation.cs:235-246 | after storing a value for a key, that key yields the value and every other key yields what it did before |
| BuildUp.StopAt | src/UnityContainer.Implementation.cs:268 | the forward loop's stop index is the first stage that completes the build or throws, and no stage before it does |
| BuildUp.LastPostThrow | src/UnityContainer.Implementation.cs:273-276 | the backward loop stops at the highest visited stage whose post step throws, and no higher one throws |
| BuildUp.BuilderContext.PreBuildUp | src/UnityContainer.Implementation.cs:270 | one pre call is logged and its effect is applied to `Existing` and `BuildComplete` |
| BuildUp.BuilderContext.PostBuildUp | src/UnityContainer.Implementation.cs:275 | one post call is logged and its effect is applied to `Existing` |
| BuildUp.ForwardPass | src/UnityContainer.Implementation.cs:263-271 | when the build is already complete nothing is called; otherwise the pre steps of stages 0 up to the stop index run in index order, never past the chain end, and the loop reports whether one threw |
| BuildUp.BackwardPass | src/UnityContainer.Implementation.cs:273-276 | the post steps of the stages below the start index run in decreasing index order until one throws |
| BuildUp.RunStages | src/UnityContainer.Implementation.cs:266-277 | the try block produces exactly the calls, final flag, final object and throw outcome of the closed-form walk |
| BuildUp.ThrowingBuildUp | src/UnityContainer.Implementation.cs:261-286 | on a throw, the recovery hook runs once if set and the result is a resolution failure for the original build key; otherwise `Existing` is returned; a build already complete on entry calls nothing and returns `Existing` unchanged |
| BuildUp.NotThrowingBuildUp | src/UnityContainer.Implementation.cs:288-311 | the same walk, returning null on any throw and running no recovery |
| BuildUp.WalkOrder | src/UnityContainer.Implementation.cs:268-276 | every call goes to a stage of the chain; pre calls come first in increasing index order; post calls follow in strictly decreasing index order |
| BuildUp.WalkSymmetry | src/UnityContainer.Implementation.cs:268-276 | in a walk without a throw, each stage up to the stop index gets exactly one pre call; each stage below it gets exactly one post call; the completing stage and later stages get none |
| BuildUp.RecoveryIsExecutedOnException | tests/Unity.Tests/ObjectBuilder_/RecoveryFixture.cs:19-35 | a chain whose only stage throws, with a recovery hook set, fails with the build key and recovers exactly once |
| Containers.PutRegGet | src/UnityContainer.Implementation.cs:246 | `AddOrUpdate` replaces the registration for its key and leaves every other registration unchanged |
| Containers.PutPolicyGet | src/UnityContainer.Implementation.cs:235 | `Set` adds the policy to the registration for its key, creating that registration when missing, and leaves every other registration unchanged |
| Containers.ClearPolicyGet | src/UnityContainer.Implementation.cs:257 | `Clear` removes the policy from the registration for its key, if there is one, keeping the rest of that registration; a missing registration stays missing, and every other registration is unchanged |
| Containers.LayersInjective | src/UnityContainer.Implementation.cs:216-224 | a registration pipeline is determined by its list of layers |
| Containers.Container.BuildRegisterPipeline | src/UnityContainer.Implementation.cs:216-224 | the pipeline wraps the factories in list order, starting from null, so its layers, innermost first, are exactly the factory list |
| Containers.Container.Root | src/UnityContainer.Implementation.cs:169-171 | the root of any container is a container without a parent on its own ancestor chain |
| Containers.Container.constructor | src/UnityContainer.Implementation.cs:99-156 | the root container has an empty store of the initial capacity, its own delegates, the four aspect factories in order with the pipeline built from them, and strategy snapshots |
| Containers.Container.Child | src/UnityContainer.Implementation.cs:163-192 | a child joins its parent's lifetime container, shares root and strategies, copies the parent's delegates and snapshots, and has no store |
| Containers.Container.OnStrategiesChanged | src/UnityContainer.Implementation.cs:313-317 | both snapshots are refreshed from the shared strategies |
| Containers.Container.SetupChildContainerBehaviors | src/UnityContainer.Implementation.cs:249-259 | an empty local store is allocated and every delegate is switched to this container's own |
| Containers.Container.Set | src/UnityContainer.Implementation.cs:235 | the local store receives the policy for the key |
| Containers.Container.AddOrUpdate | src/UnityContainer.Implementation.cs:246 | the local store receives a registration for the key, which is returned |
| Containers.Container.CreateAndSetPolicy | src/UnityContainer.Implementation.cs:227-236 | the store is allocated only when missing, and an existing store keeps its contents, then the policy is set |
| Containers.Container.CreateAndSetOrUpdate | src/UnityContainer.Implementation.cs:238-247 | the store is allocated only when missing, and an existing store keeps its contents, then the registration is stored and returned |
| Containers.Container.SetPolicy | src/UnityContainer.Implementation.cs:175-182 | the delegate sets the policy, allocating the local store first when there is none |
| Containers.Container.ClearPolicy | src/UnityContainer.Implementation.cs:175-182 | without a local store nothing changes; with one, the policy is cleared |
| Containers.Container.IsTypeRegisteredLocally | src/UnityContainer.Public.cs:110-127 | the bucket walk answers true exactly when the name is stored here for the type or the parent's `IsTypeRegistered` delegate, as copied, answers true; with no parent a missing key gives false; while the delegates are current this is the scope-fallback answer |
| Containers.Container.AddExtension | src/UnityContainer.Public.cs:198-210 | the list is created if missing; a null extension is rejected with an argument-null error; otherwise it is appended after the earlier ones |
| Containers.Container.CreateChildContainer | src/UnityContainer.Public.cs:229-234 | the new child's parent is this container; it shares the root and is appended to this container's lifetime members |
| Containers.Container.Parent | src/UnityContainer.Public.cs:237 | the property yields the parent link |
| Containers.Container.RegisterInstance | src/UnityContainer.Public.cs:80-100 | returns this container and changes nothing |
| Containers.Container.RegisterType | src/UnityContainer.Public.cs:24-54 | a null registered type is rejected with an argument-null error; a non-generic mapping not assignable to a non-generic registered type is rejected with an argument error; otherwise the container set as the registration context's `Container` is the root for a singleton lifetime and this container for any other lifetime, and an open generic definition takes the generic path |
| Containers.LookupIsNearest | src/UnityContainer.Implementation.cs:253 | registration lookup yields the registration of the nearest container, from this one up to the root, that stores the key, or the root's default registration when none does |
| Containers.IsRegisteredIffStored | src/UnityContainer.Public.cs:108-127 | the intended `IsRegistered` answer holds exactly when some container from this one up to the root stores the key |
| Containers.DelegatedIsRegisteredWhenCurrent | src/UnityContainer.Public.cs:108-127 | while no container allocated its store after a descendant copied its delegates, `IsRegistered` through the delegate fields agrees with the scope-fallback answer |
| Containers.DelegatedLookupWhenCurrent | src/UnityContainer.Implementation.cs:175-182 | while no container allocated its store after a descendant copied its delegates, the lookup the delegate fields perform agrees with scope fallback |
| Containers.StaleDelegateWitness | src/UnityContainer.Implementation.cs:176-182 | it returns the containers it built: a root `r`, its child `a`, and `a`'s child `b`, made before `a` got a policy and its own store. For `b`, the delegated lookup misses the child's registration that scope fallback finds, and its delegated `IsRegistered` answers false where scope fallback answers true |
| Enumeration.AddKept | src/UnityContainer.Implementation.cs:361-368 | one loop over a name map adds exactly the registrations that pass the filter |
| Enumeration.Registrations | src/UnityContainer.Implementation.cs:348-389 | the recursive enumeration yields the parent's set plus, when there is a local store, the local entries for the type and, for a closed generic, for its definition |
| Enumeration.GetNamedRegistrations | src/UnityContainer.Implementation.cs:348-389 | enumeration with the filter that drops null and empty names |
| Enumeration.GetNotEmptyRegistrations | src/UnityContainer.Implementation.cs:391-430 | enumeration with the filter that drops only the empty name |
| Enumeration.EnumeratedMembers | src/UnityContainer.Implementation.cs:348-430 | a registration is enumerated exactly when its name passes the filter and some container from this one up to the root stores it for the type or, for a closed generic, for its definition |
| Enumeration.NamedIsNotEmptyWithoutDefault | src/UnityContainer.Implementation.cs:365-408 | the named enumeration is the not-empty enumeration without its null-named registrations |
| PolicyContext.RegistrationContext.constructor | src/UnityContainer.Implementation.cs:462-466 | the context holds the given container and registration |
| PolicyContext.RegistrationContext.Get | src/UnityContainer.Implementation.cs:470-477 | the context answers with its own policy exactly for its own key; any other key is answered by the container |
| PolicyContext.RegistrationContext.Set | src/UnityContainer.Implementation.cs:480-486 | for its own key the registration's policy is set and the container is untouched; otherwise the container's policy delegate sets it |
| PolicyContext.RegistrationContext.Clear | src/UnityContainer.Implementation.cs:488-494 | for its own key the registration's policy is removed and the container is untouched; otherwise the container's clear delegate runs |
| PolicyContext.RegistrationContext.ClearAll | src/UnityContainer.Implementation.cs:496-498 | nothing changes |
| Resolution.Session.constructor | src/UnityContainer.Public.cs:144-151 | the root context has no parent, the container's lifetime container, the given registration and the new closure |
| Resolution.Session.PushContext | src/UnityContainer.Public.cs:156-169 | a nested context gets the current context as parent, inherits its lifetime container and closure, gets what the `GetRegistration` delegate yields for the dependency (the scope-fallback registration while the delegates are current), and becomes current |
| Resolution.Session.ResolveDependency | src/UnityContainer.Public.cs:151-180 | resolving a dependency creates its context, then those of its own resolution, and ends as its resolve method ends: with its value, `null` included, or by rethrowing |
| Resolution.Session.Run | src/UnityContainer.Public.cs:172-183 | a resolve method's run ends with its own ending only when no dependency's exception escapes, uncaught, and appends one context per dependency resolved, in creation order, each with the registration the `GetRegistration` delegate yields for it |
| Resolution.Session.RunFrom | src/UnityContainer.Public.cs:172-183 | the dependencies from an index on are resolved in order; a caught exception lets the run go on, and the first uncaught one ends it |
| Resolution.Resolve | src/UnityContainer.Public.cs:136-190 | the root context gets the `GetRegistration` delegate's registration for the normalised name, the scope-fallback one while the delegates are current; the outcome is the value returned, `null` included, or exactly one resolution failure for the requested type and the normalised name |
| Resolution.RegsForWhenCurrent | src/UnityContainer.Public.cs:165 | while the delegates are current, every nested context gets the scope-fallback registration for its dependency |

## Left out

- Reflection is abstract. A type is an identity with a hash code and a generic shape. `IsAssignableFrom` is a parameter of `RegisterType`.
- The concrete strategies and build-plan strategies the root installs, and its default policies, are not modelled. This covers `GetDefaultPolicies`, the `Func<>` and `Lazy<>` policies, and self-registration as `IUnityContainer`. Strategies are abstract pre/post stages.
- `_strategyChain` is the same flattened stage list as `_buildChain`. `StrategyChain` is not part of this model.
- Locks, events (`Registering`, `ChildContainerCreated`, the `Invalidated` subscription), `Debug.WriteLine`, `Dispose`, `Configure`, `InitializeExtension` and the extension context are left out. They are concurrency, I/O or code outside these two files.
- `HashRegistry` resizing is not modelled. Neither are the bodies of the store's `Set`, `AddOrUpdate`, `Clear`, `Get` and `GetOrAdd`, which are not part of this model. `Storage.Put` stands for insert-or-replace.
- Containers.Container.Lookup: the root's get-or-add also stores the default registration it creates; the model returns that registration without storing it.
- Containers.Container.RegisterType: returns the chosen container and path instead of `this`. It does not model what `_genericRegistrationPipeline`, `StoreFactory`, `RegisterConstructableType` and injection members then store, since their code is not part of this model.
- `ContainerInitialCapacity` is defined outside these files. The model uses 37, and only its being positive matters.
- Enumeration.Registrations: registrations are values, so two distinct registrations with equal contents count once, where the identity-based `MiniHashSet` keeps both. The `entry is IContainerRegistration` test is taken as always true.
- PolicyContext.RegistrationContext.Set: the context's registration is a value. So the in-place update is not seen through the store that shares it.
- PolicyContext.RegistrationContext.Get: the container's `GetPolicy` lookup is not part of this model; it is a parameter of `Get`.
- PolicyContext.RegistrationContext.Clear: the context's registration is a value, so the in-place removal is not seen through the store that shares it either. The registration the store shares keeps the removed policy in the model, so `unchanged(container)` describes the model and not the shared object.
- Resolution.Resolve: a registration's resolve method is not part of this model. A `Script` parameter stands for it and captures only three things: the dependencies it requests in order, whether it catches each one's exception and goes on, and how it ends. A method that requests a different dependency after a caught exception, or changes its own ending because of one, is not modelled. Resolver overrides are ignored. `RegistrationOrDefault` is not part of this model; it is taken to be the `GetRegistration` delegate. `GetContextFactoryMethod` is modelled as appending a context; calling a context's factory again yields that same context.
- Resolution.Session.RunFrom: a caught exception lets the run go on with the next dependency and never changes the method's ending. Whether an exception is caught is data of the script, not something derived from the source.
- BuildUp.BuilderContext.PreBuildUp: a stage's pre and post steps are fixed data. A step whose effect depends on `Existing` or on earlier stages is not modelled. Only the resulting `Existing` and `BuildComplete` values matter.
- Exception messages, inner exceptions and the wrapped exception object are left out. Only the error kind and its type and name are kept.
- The `BuilUpPipeline` and `Register` delegate fields are not separate fields. `Register` is `CreateAndSetOrUpdate` until the store exists and `AddOrUpdate` after. `BuilUpPipeline` is `ThrowingBuildUp`.
- The child constructor's null-parent check is left out. It is only reached through `CreateChildContainer`, which passes `this`.
- Container methods re-establish the invariant of the container they change. They do not re-prove it for that container's existing descendants.
- The lifetime container also holds the root's strategy chains. Only its child containers are modelled.

## Findings

| source | as written | input that shows it | evidently intended | confidence | as-written member | corrected member |
|---|---|---|---|---|---|---|
| src/UnityContainer.Implementation.cs:176-182 | a child copies its parent's `IsTypeRegistered`, `GetRegistration`, `GetPolicy` and `_get` delegates once, at construction, and `SetupChildContainerBehaviors` later rebinds only the container's own delegates | root `r`; child `a` of `r`; grandchild `b` of `a`; then a policy is set in `a` (its first local write). `b`'s registration lookup still runs the root's closure and misses the registration `a` now stores, and `b`'s `IsRegistered` answers false for it | lookups from `b` fall back through `a`, as the parent links and the local-then-parent closure at line 253 describe; `Containers.LookupIsNearest` and `Containers.IsRegisteredIffStored` prove this of the corrected lookup and test | not executed | Containers.StaleDelegateWitness | Containers.Container.Lookup |
