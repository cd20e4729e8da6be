# Verified models of Ellar's stateful core

Dafny models of the parts of the Ellar web framework that carry state, recursion
or arithmetic, with the properties those parts are for.  Each model follows the
branches, edge cases and constants of the Python code; where the code and its
documentation differ, the code is followed and the difference is stated here.

`dafny verify dfyconfig.toml` checks everything.

## What is modelled

| files | part of the framework |
|---|---|
| `CacheKeys`, `CacheSpec`, `LocalCache`, `CacheConcurrency`, `CacheProgress`, `CacheInterceptor` | the in-memory TTL cache: keys, deadlines, the two dictionaries, interleaved tasks, and the route caching interceptor |
| `Injector`, `InjectorSharing`, `InjectorRuns`, `InjectorRequests`, `InjectorHanding`, `InjectorScopes`, `Resolvability`, `EllarInjectors` | dependency resolution with singleton, request and transient scopes, over whole runs of resolves and requests |
| `ModuleGraph`, `ModuleOrder`, `ModuleBuild`, `ModuleCreation`, `ModuleServices`, `ModuleDiamond`, `OrderedDicts` | reading the module graph, the build order, the three phases in which modules are configured, and when creating an application succeeds |
| `ReflectSpec`, `ReflectRuns`, `ReflectRefinement`, `ReflectHistory`, `ReflectReads`, `ReflectStore`, `DynamicModules` | the metadata store over a heap of shared objects, with contexts, and the dynamic modules that write to it |
| `RouteSorting`, `RouteCollections`, `Versioning`, `ModuleMount` | the route index and its order, version resolution, and the search through mounted routes |
| `WebsocketHandler`, `Pipeline` | the websocket receive loop; guards, interceptors and the response |
| `EndpointArgs`, `EndpointAnswers`, `EndpointResolution` | sorting an endpoint's parameters into resolvers, the names under which their values reach the handler, and running them |
| `Text`, `Base64`, `ScryptHasher`, `SaltEntropy` | the scrypt text format and salt length |
| `PathNormalizer`, `Serializer` | path normalisation and object serialisation |

## What the proofs show about the code

- A ttl of zero makes an entry expired at once (`ellar/cache/model.py:79-81`), although the
  interface documentation reads as if it never expired: `CacheSpec.ZeroTtlIsNeverFound`.
- `delete` answers True for an entry that has expired and was not swept yet.  This one answer
  is the only way in which lazy sweeping can be seen: `CacheConcurrency.Linearizable`.
- A version that holds a colon can make two pairs meet under one key: `CacheKeys.ColonVersionsCollide`.
- Requests are kept apart exactly when no singleton is built from something request-scoped,
  singletons that no run can obtain for want of a binding aside.  This holds of the objects built
  and of those that an application hands to a request:
  `InjectorHanding.RequestsAreKeptApartIffNoSingletonCaptures`.
- Registering an interface as a singleton again after it was resolved changes nothing; registering it
  in another scope does: `EllarInjectors.SingletonOutlivesRegistration`, `EllarInjectors.OtherScopesAnswerAnew`.
- Modules are built after their imports, however the import lists are written, exactly when no
  module has two importers; the smallest failing application is `ModuleOrder.DiamondBuildsTooEarly`.
- Deferred modules are configured in the opposite of the build order.  Where no module has two
  importers, or wherever else an import stands before its importer in the build order, a deferred
  module cannot be given a service that only a deferred module it imports registers:
  `ModuleCreation.DeferredImportIsNotYetConfigured`.  In a diamond that builds the importer first it can:
  `ModuleDiamond.DeferredDiamondIsCreated`.  What the
  core can build is served to all of them, decorated and automatically bound classes included, as long
  as no service is bound in two ways: `ModuleCreation.CoreServicesAreServed`.
- Redefining a dict updates the stored dict in place.  Another entry sees this exactly when it
  holds the same dict, and after a context was entered its snapshot always does, so dict
  redefinitions leak out of contexts: `ReflectHistory.DictDefinitionsLeakOutOfContexts`.
- A route is lost exactly when its hash and its salted retry are both taken:
  `RouteCollections.AddLosesNothingIffFresh`.  Assigning to an index of the collection adds a route.
- The version pattern takes any first segment with a digit in the first two places, such as
  `/a1/...`: `Versioning.VersionRegexIffLooksLikeVersion`.
- A partial match below a nested mount does not count as one: `ModuleMount.MountFallsBackToFirstPartial`.
- Building a websocket endpoint's model twice lists its body parameters twice
  (`EndpointArgs.EndpointArgsModel.BuildWebsocketBody` appends to a list that is never emptied), while a request's is worked out anew.
- A system resolver with a location of its own is never run: `EndpointArgs.EveryResolverIsRunOnceIffKnown`.
  One resolver object as the default of two parameters runs twice under the second name and never
  under the first: `EndpointAnswers.SharedResolverRunsUnderOneName`.
- An embedded JSON body, or one of several, reaches the handler under its alias and not under its
  parameter's name; of two with one alias one is lost: `EndpointAnswers.EmbeddedAliasReplacesTheName`,
  `EndpointAnswers.EqualAliasesLoseOne`.
- A form whose model is declared inside an annotation, as in `form: Form[Model]`, reaches the handler as
  the model's fields and not as the parameter: `EndpointAnswers.AnnotatedFormIsSpreadOut`.
- A password encoded with a salt that is not ASCII can never be verified again; `encode` accepts such
  salts: `ScryptHasher.EncodedVerifiesIffSaltIsAscii`, `ScryptHasher.AccentedSaltNeverVerifies`.

## Reading the models

- Time is a non-negative real.  In the concurrent cache model the clock never goes back, and an
  operation reads it where the code does (twice in `touch`).
- Pickling is taken as the identity (reading back what was written), key derivation, hashing,
  JSON decoding, route matching of the underlying library and calls into application code are
  function parameters; their results may depend on everything that happened before.
- The injector library's singleton scope is a memory per interface.  Dependency and module
  graphs are acyclic, given by a rank function; on cyclic ones the code does not return.
  Registrations are fixed during the runs of requests considered, and what an application hands to
  a request is never an object the injector made.  While an application is created registrations do
  change: each module's take effect when it is configured, the application's own when it is made.
- An application's middleware obtains a fixed list of services whenever it is built.
- Inner dictionaries, store dictionaries and collections of the metadata store are objects with
  identity.  Saved and current store are told apart by identity, not by content.
- The keys under which mounts record the child they found are distinct along a path; the code draws them at random.
- A websocket dispatch over a list of messages is still open when the list runs out.

## Model

| member | source | states |
|---|---|---|
| `CacheKeys.MakeKeyInjective` | ellar/cache/model.py:62-68 | two (version, key) pairs with colon-free versions get the same stored key iff their version texts and keys are equal |
| `CacheKeys.MissingVersionIsTheDefault` | ellar/cache/model.py:62-68 | a missing or empty version is the backend's own version |
| `CacheKeys.ColonVersionsCollide` | ellar/cache/model.py:62-68 | without the colon-free condition two different pairs do meet |
| `CacheSpec.ZeroTtlIsNeverFound` | ellar/cache/model.py:70-82 | what is stored with a ttl of zero is found by no later get, has_key, incr, decr or touch |
| `CacheSpec.StoredValueLastsItsTtl` | ellar/cache/model.py:70-82 | a stored value is found exactly until its ttl has passed since the clock was read, the backend's own ttl when none is given and minus one second for zero |
| `CacheSpec.TouchedValueLastsItsTtl` | ellar/cache/backends/local_cache.py:111-123 | touching a live entry keeps its value and gives it a ttl counted from the second reading of the clock |
| `CacheSpec.DefaultBackendKeepsFor300Seconds` | ellar/cache/model.py:16-24 | a backend made without arguments keeps values for 300 seconds under keys with an empty prefix and version 1 |
| `CacheSpec.GivenDefaultsAreUsed` | ellar/cache/model.py:16-24 | prefix, version and ttl that are given and not zero are what keys and lifetimes are made with; a zero counts as missing |
| `CacheSpec.GivenVersionIsInTheKey` | ellar/cache/model.py:62-68 | a version that is given and not empty stands in the key |
| `CacheSpec.LiveEntries` | ellar/cache/backends/local_cache.py:63-145 | a live entry is there and is read, deleting it takes it away, a number grows by the increment and keeps its deadline, anything else is no number |
| `CacheSpec.AbsentEntries` | ellar/cache/backends/local_cache.py:63-158 | a missing or expired entry is not found by anything, delete answers whether it was still stored, and nothing of it is left afterwards |
| `CacheSpec.LastSetIsFound` | ellar/cache/backends/local_cache.py:63-97 | in a legal history a get answers what the last set of its key stored, exactly as long as that lasts |
| `CacheSpec.CounterAnswersItsTally` | ellar/cache/backends/local_cache.py:129-158 | in a legal history a number that is set, counted up and down and read while it lives reads as the sum that stops at zero when counted down |
| `LocalCache.LocalMemCacheBackend.constructor` | ellar/cache/model.py:16-24 | an empty cache with defaults for missing or falsy arguments |
| `LocalCache.LocalMemCacheBackend.Expired` | ellar/cache/backends/local_cache.py:99-101 | a key is expired iff it has no deadline or its deadline has come |
| `LocalCache.LocalMemCacheBackend.Remove` | ellar/cache/backends/local_cache.py:73-79 | pops both dictionaries; False if either pop fails; both dictionaries keep the same keys |
| `LocalCache.LocalMemCacheBackend.GetAsync` | ellar/cache/backends/local_cache.py:63-71 | answers and leaves the dictionaries as the specified operation does; never meets a missing key |
| `LocalCache.LocalMemCacheBackend.HasKeyAsync` | ellar/cache/backends/local_cache.py:103-109 | the same for has_key, sweeping an expired entry |
| `LocalCache.LocalMemCacheBackend.DeleteAsync` | ellar/cache/backends/local_cache.py:81-84 | True iff the key was stored, expired or not |
| `LocalCache.LocalMemCacheBackend.SetAsync` | ellar/cache/backends/local_cache.py:86-97 | stores value and deadline together |
| `LocalCache.LocalMemCacheBackend.TouchAsync` | ellar/cache/backends/local_cache.py:111-123 | moves the deadline of a live entry and nothing else |
| `LocalCache.LocalMemCacheBackend.IncrAsync` | ellar/cache/backends/local_cache.py:137-145 | adds to a live counter keeping its deadline; an expired one is swept and reported missing |
| `LocalCache.LocalMemCacheBackend.DecrAsync` | ellar/cache/backends/local_cache.py:147-158 | takes from a live counter, topping a negative result up to zero |
| `CacheSpec.RunRefinesApply` | ellar/cache/backends/local_cache.py:63-158 | every operation on the two dictionaries answers and moves as the plain map from key to (value, deadline) does, except that delete also says True for an expired unswept entry |
| `CacheSpec.OtherKeysUntouched` | ellar/cache/backends/local_cache.py:63-158 | an operation on one stored key changes no other entry |
| `CacheSpec.PairsAreIndependent` | ellar/cache/model.py:62-68 | operations on one (version, key) pair never change what another pair reads |
| `CacheSpec.DecrStopsAtZero` | ellar/cache/backends/local_cache.py:147-158 | on a live counter n, decr by d stores and answers max(0, n - d) and leaves the deadline alone |
| `CacheSpec.CountersStayNonNegative` | ellar/cache/backends/local_cache.py:129-158 | over any run of calls without set and without negative increments a counter at zero or more stays there |
| `CacheConcurrency.Linearizable` | ellar/cache/backends/local_cache.py:63-158 | in every interleaving of single dictionary accesses, lock operations, cancellations and clock advances, the finished operations form a legal history of the plain timed map |
| `CacheConcurrency.RealTimeOrder` | ellar/cache/backends/local_cache.py:63-158 | an operation finished before another is invoked comes before it in that history |
| `CacheConcurrency.ReadingsLieWithinTheCall` | ellar/cache/backends/local_cache.py:63-158 | the instants of that history are readings of the clock between the moment an operation was invoked and any moment at which it is finished |
| `CacheConcurrency.NothingIsFoundPastItsDeadline` | ellar/cache/backends/local_cache.py:63-71 | a get invoked when the deadline that the history has for its key has come answers None |
| `CacheConcurrency.NoReadHitsAMissingKey` | ellar/cache/backends/local_cache.py:99-135 | a task about to read or rewrite the cache, or to pop the deadline of what it has popped, finds the key there; no operation ends in a KeyError |
| `CacheConcurrency.DictionariesAgreeWhenUnlocked` | ellar/cache/backends/local_cache.py:73-97 | whenever the lock is free both dictionaries have the same keys |
| `CacheConcurrency.MutualExclusion` | ellar/cache/backends/local_cache.py:61-65 | at most one task is inside an operation |
| `CacheConcurrency.AnswerIsNeverMissing` | ellar/cache/backends/local_cache.py:63-158 | no finished operation failed on a missing dictionary key |
| `CacheProgress.ClockIsElapsedTime` | ellar/cache/backends/local_cache.py:63-158 | in every run the clock shows the time that has passed |
| `CacheProgress.TasksAreTheCalls` | ellar/cache/backends/local_cache.py:63-158 | the tasks of a run are the calls made in it, with the key and operation of the first call |
| `CacheProgress.CancelledIffWhileQueued` | ellar/cache/backends/local_cache.py:63-158 | a task ends cancelled iff it was cancelled while queued for the lock |
| `CacheProgress.LoneTaskAnswers` | ellar/cache/backends/local_cache.py:63-158 | a queued task that finds the lock free ends by at most seven steps of its own, with the answer and the dictionaries of the sequential operation at that instant |
| `CacheProgress.EveryTaskCanFinish` | ellar/cache/backends/local_cache.py:63-158 | no deadlock: at every moment of every run at most thirteen steps finish any task that was not cancelled |
| `CacheInterceptor.CachedResponsesAreFresh` | ellar/cache/decorator.py:42-66 | in every run where other clients only read and delete its keys, a response served from the cache is truthy and is what an earlier request's handler returned under the same key and version less than its ttl ago |
| `CacheInterceptor.FalsyResponsesAreNeverServed` | ellar/cache/decorator.py:52-56 | a falsy response is never served from the cache, however often it is stored |
| `CacheInterceptor.RepliesComeFromOwnHandler` | ellar/cache/decorator.py:58-66 | a reply that was not served is what the own handler of the request returned, in a step of the run taken while it was handling |
| `CacheInterceptor.CachedResponsesComeFromHandlers` | ellar/cache/decorator.py:52-66 | a served reply was returned by the running handler of some request for the same key and version |
| `CacheInterceptor.AskingUsesTheCache` | ellar/cache/decorator.py:52-60 | a request that asks replies at once with a live, truthy entry under its key, and otherwise its handler runs; nothing else changes |
| `CacheInterceptor.MissRunsTheHandler` | ellar/cache/decorator.py:52-66 | without such an entry the handler runs, and what it returns is stored for the ttl of the route and sent |
| `CacheInterceptor.OtherClientsAct` | ellar/cache/decorator.py:42-66 | what other clients do to entries of their own, and deleting anywhere, takes effect at once; of the keys of the interceptor they change nothing else |
| `CacheInterceptor.WarmCacheServes` | ellar/cache/decorator.py:52-66 | after a truthy response was stored, a request for its key that asks within the ttl is served it, unless the entry was written or changed in between |
| `EllarInjectors.EllarInjector.Register` | ellar/di/injector/container.py:91-120 | the last registration of an interface is its binding, with the scope given or else declared; other interfaces keep theirs |
| `EllarInjectors.EllarInjector.GetBinding` | ellar/di/injector/container.py:63-86 | the registered binding, or an automatic one made once and stored |
| `EllarInjectors.EllarInjector.Get` | ellar/di/injector/ellar_injector.py:109-137 | resolves in the calling task's request exactly as the specification does, changing bindings, memories and objects accordingly |
| `EllarInjectors.EllarInjector.SingletonGet` | ellar/di/scopes.py:59-66 | recalls the object of the process, or builds and keeps it |
| `EllarInjectors.EllarInjector.RequestGet` | ellar/di/scopes.py:39-56 | recalls the object of the request, or builds and keeps it; without a request keeps nothing |
| `EllarInjectors.EllarInjector.GetAll` | ellar/di/injector/ellar_injector.py:109-137 | resolves dependencies in order, ending at the first failure |
| `EllarInjectors.EllarInjector.UpdateScopedContext` | ellar/di/injector/ellar_injector.py:139-149 | puts an object or provider into the current request; without one does nothing |
| `EllarInjectors.EllarInjector.OpenRequest` | ellar/di/injector/ellar_injector.py:151-155 | the calling task gets a new, empty request |
| `EllarInjectors.EllarInjector.CloseRequest` | ellar/di/injector/ellar_injector.py:156-157 | the calling task then has no request, also when it had one before |
| `EllarInjectors.SingletonOutlivesRegistration` | ellar/di/scopes.py:59-66 | a singleton resolved once is answered also after its interface was registered as a singleton again, with any provider |
| `EllarInjectors.OtherScopesAnswerAnew` | ellar/di/scopes.py:39-74 | an instance registered for it in any other scope is answered instead |
| `InjectorScopes.UndeclaredClassesAreTransient` | ellar/di/injector/container.py:49-86 | a class that is bound automatically and declares no scope gives a new object every time, in and outside requests |
| `InjectorScopes.DeclaredClassesAreSharedAsDeclared` | ellar/di/injector/container.py:49-86 | a decorated class that is not registered gives new objects, one object, or one for each request, as it declares, with or without automatic binding |
| `InjectorScopes.UnboundClassesAreRefused` | ellar/di/injector/container.py:63-86 | without automatic binding a class neither registered nor decorated is refused and nothing changes |
| `InjectorScopes.AutomaticBindingsAreStored` | ellar/di/injector/container.py:63-86 | the binding of what is asked for is stored and never changed by resolving |
| `InjectorScopes.RegisteredClassesAreSharedAsGiven` | ellar/di/injector/container.py:91-120 | a registered class is shared by the scope given, else by the one the class declares, else not at all |
| `InjectorScopes.RegisteredObjectsAreAnswered` | ellar/di/injector/container.py:91-120 | a registered object is answered and nothing is built; a base that is not a known class cannot be registered by itself |
| `InjectorScopes.LaterObjectIsAnsweredUnlessRemembered` | ellar/di/injector/container.py:91-120 | of two objects registered in turn the later is answered although the earlier was resolved in between, unless the scope given, or else declared, is singleton, or is request within a request |
| `InjectorScopes.DependenciesAreResolvedInOrder` | ellar/di/injector/ellar_injector.py:109-137 | resolving two lists of dependencies in turn is resolving them joined, up to the first failure |
| `InjectorScopes.FailureKeepsWhatWasResolved` | ellar/di/injector/ellar_injector.py:109-137 | when a dependency is not bound nothing after it is resolved, and what was resolved before it stays resolved |
| `Injector.ResolveExtends` | ellar/di/injector/ellar_injector.py:109-137 | resolving only adds: no binding, kept object or other request is changed, and everything new has a rank not above the interface asked for |
| `InjectorSharing.ResolveIsSound` | ellar/di/injector/ellar_injector.py:109-137 | resolving keeps every object on record with its scope and every dependency the one its scope answers |
| `InjectorRuns.RunIsSound` | ellar/di/injector/ellar_injector.py:109-157 | the same over every run of opening, closing, inheriting requests, resolving and handing over |
| `InjectorRuns.SingletonsAreBuiltOnce` | ellar/di/scopes.py:59-66 | no run builds two objects for one singleton interface |
| `InjectorRuns.RequestObjectsAreBuiltOnce` | ellar/di/scopes.py:39-56 | no run builds two objects for one request-scoped interface in one request |
| `InjectorRuns.RequestObjectsAreShared` | ellar/di/scopes.py:39-56 | all objects built in a request that depend on a request-scoped interface hold the same object |
| `InjectorRuns.RequestScopeOutsideRequestsIsTransient` | ellar/di/scopes.py:46-48 | with no request open, resolving gives what it gives with every request scope read as transient |
| `InjectorRequests.TasksAreInTheirRequests` | ellar/di/injector/ellar_injector.py:139-157 | in every run a task is in the request it opened last unless it closed it, a spawned task in that of its creator |
| `InjectorRequests.HandedObjectIsAnswered` | ellar/di/injector/ellar_injector.py:139-149 | an object handed to a request for a request-scoped interface is what all tasks of the request get for it, until something else is handed over for it |
| `InjectorRequests.HandedProviderBuildsAnew` | ellar/di/injector/ellar_injector.py:139-149 | a provider handed over is asked every time: each answer is a new object built from the dependencies it names |
| `InjectorRuns.RunsAreIsolated` | ellar/di/injector/ellar_injector.py:109-157 | without capturing singletons, what a task gets is made only of its own request's request-scoped objects, in every run; this is about objects that were built |
| `InjectorRuns.CapturedObjectsLeak` | ellar/di/injector/ellar_injector.py:109-157 | every singleton that can be obtained and is built from something request-scoped does hand it to a later request, in a run of two requests |
| `InjectorRuns.RequestsAreIsolatedIffNoSingletonCaptures` | ellar/di/injector/ellar_injector.py:109-157 | all runs keep requests apart iff no singleton that can be obtained is built from something request-scoped; obtained means that nothing it needs is without a binding |
| `InjectorHanding.HandedObjectsStay` | ellar/di/injector/ellar_injector.py:139-149 | without capturing singletons, every handed object that a task meets under a request-scoped interface was handed to its own request for that interface, in every run, unless it is the instance registered for it |
| `InjectorHanding.RequestsAreKeptApartIffNoSingletonCaptures` | ellar/di/injector/ellar_injector.py:109-157 | all runs keep requests apart, built and handed objects alike, iff no singleton that can be obtained is built from something request-scoped |
| `Resolvability.ResolvesIffAnswerable` | ellar/di/injector/ellar_injector.py:109-137 | outside any request an interface resolves iff it is a singleton already built, a ready instance, or bound with all its dependencies resolving in turn; resolving it changes no other answer |
| `ModuleBuild.ReadAllModule` | ellar/core/factory.py:39-61 | the loop computes the recursive reading of the graph |
| `ModuleGraph.ReadIsFilled` | ellar/core/factory.py:39-61 | nested dictionary updates amount to writing the whole depth-first unfolding into one dictionary |
| `ModuleGraph.ReadOrder` | ellar/core/factory.py:39-61 | keys are the first occurrences in the depth-first preorder unfolding; the setup kept for a module is that of its last occurrence |
| `ModuleGraph.ReadFindsExactlyTheReachable` | ellar/core/factory.py:39-61 | the keys are exactly the modules reachable through imports, each once |
| `ModuleGraph.BuildOrderIsReversedFirsts` | ellar/core/factory.py:81-84 | the build order is the reverse of root and first occurrences, without repeats |
| `ModuleGraph.RootIsBuiltLast` | ellar/core/factory.py:81-84 | the root always comes last |
| `ModuleGraph.SingleImportersBuildInOrder` | ellar/core/factory.py:39-61 | when no module has two importers, every module comes after everything it imports |
| `ModuleOrder.OrderIsRightForEveryListingIffSingleImporter` | ellar/core/factory.py:39-61 | dependencies come first for every order of the import lists iff no module has two importers |
| `ModuleOrder.DiamondBuildsTooEarly` | ellar/core/factory.py:59-60 | a concrete diamond in which a module is built before one it imports |
| `ModuleBuild.ModuleRegistries.AddModule` | ellar/di/injector/ellar_injector.py:106-107 | writes the reference into the registry of its kind and leaves the others alone |
| `ModuleBuild.ModuleRegistries.DrainDynamicModules` | ellar/di/injector/ellar_injector.py:72-78 | returns the deferred setups in order and empties their registry |
| `ModuleBuild.ModuleRegistries.DrainAppDependentModules` | ellar/di/injector/ellar_injector.py:80-88 | the same for the setups that need the application |
| `ModuleBuild.ModuleRegistries.GetServices` | ellar/core/modules/config.py:152-161 | gets the services in order from the injector, up to the first that does not resolve |
| `ModuleBuild.ModuleRegistries.Configure` | ellar/core/modules/config.py:123-150 | a plain reference, or services first and then the factory; on success what the module provides is registered, otherwise nothing is |
| `ModuleBuild.TakeAll` | ellar/core/factory.py:84-95 | immediate setups are built in place, others kept in their registries, up to the first failure |
| `ModuleBuild.BuildModules` | ellar/core/factory.py:64-106 | afterwards no deferred setup is left, the built modules are the immediate ones followed by the deferred ones from the back, and those needing the application wait |
| `ModuleBuild.CreateApp` | ellar/core/factory.py:138-168 | success, modules built and state of the injector are those of the specification: on success all modules are built in the configuration order and both waiting registries are empty, on failure the modules before the first that fails are built |
| `ModuleBuild.EveryReachableModuleIsBuiltOnce` | ellar/core/factory.py:64-106 | the configuration order holds the root and every reachable module exactly once |
| `ModuleBuild.OrderIsConfiguredBefore` | ellar/core/factory.py:84-106 | which of two modules is configured first, read off their kinds and places in the build order |
| `ModuleBuild.OrderFollowsInjection` | ellar/core/modules/config.py:107-121 | read off what the setups inject: those without a factory, or injecting nothing or only the configuration, come first in queue order; other factories follow in reverse; whatever needs the application comes last in reverse |
| `ModuleBuild.RootFollowsImmediateSetups` | ellar/core/factory.py:84-106 | a root that only imports is configured after every setup that needs nothing |
| `ModuleBuild.ConfigOnlySetupIsBuiltFirst` | ellar/cache/module.py:39-51 | a cache module set up from the configuration is built before the root that imports it |
| `ModuleCreation.CreationSucceedsIffAnswered` | ellar/core/factory.py:138-168 | for every application: creation succeeds iff every setup with a factory gets a DynamicModule, and the injector as the setups before have left it answers every service asked for, those of the middleware included |
| `ModuleCreation.CreationSucceedsIffServed` | ellar/core/factory.py:138-168 | when no service is bound in two ways, creation succeeds iff every setup with a factory gets a DynamicModule and all services asked for can be built from what is registered by then |
| `ModuleServices.ConfiguringKeeps` | ellar/core/factory.py:84-106 | what was built for the first setups is still there after all of them, also when a later one fails |
| `ModuleServices.SetupsShareSingletons` | ellar/core/modules/config.py:123-161 | a singleton given to a setup is remembered from then on, even when the setup fails for a service it asks for after it |
| `ModuleServices.CreationKeeps` | ellar/core/factory.py:138-168 | whatever the core has built and the modules were given outlives the creation of the application, failed or not |
| `ModuleServices.MiddlewareSingletonsAreKept` | ellar/core/factory.py:138-168 | the singletons that the middleware is given are remembered |
| `ModuleCreation.VisibleIffRegisteredBefore` | ellar/core/factory.py:84-106 | a setup finds a service bound iff the core binds it, a class being bound automatically included, or a module configured before registers it, or the application does and the setup needs the application |
| `ModuleCreation.CoreServicesAreServed` | ellar/core/core_services.py:36-62 | when no service is bound in two ways, whatever the core can build on its own is served to every setup |
| `ModuleCreation.CoreServicesSuffice` | ellar/core/factory.py:84-106 | under the same condition an application whose setups ask only for such services is created, whatever the order of its modules |
| `ModuleCreation.UnregisteredServiceFails` | ellar/core/factory.py:97-106 | creation fails when a deferred setup asks for a service that the core does not bind and no module configured before registers |
| `ModuleCreation.KeptFirstConfiguredLast` | ellar/core/factory.py:97-106 | creation fails when a deferred module asks for a service that only a deferred module before it in the build order registers |
| `ModuleCreation.DeferredServiceIffBuiltEarlier` | ellar/core/factory.py:97-106 | of two deferred modules one finds bound what only the other registers iff it stands before it in the build order |
| `ModuleCreation.DeferredImportIsNotYetConfigured` | ellar/core/factory.py:97-106 | creation fails whenever a deferred module asks for a service that only a deferred module it imports registers and the import stands before it in the build order, as it does when no module has two importers |
| `ModuleDiamond.DeferredDiamondIsCreated` | ellar/core/factory.py:59-106 | a diamond in which a deferred module is given what only the deferred module it imports registers, because it is built before it |
| `ModuleDiamond.DiamondApplicationIsCreated` | ellar/core/factory.py:59-106 | one application for which this happens |
| `ReflectStore.Reflect.GetOrCreateMetadata` | ellar/reflect/_reflect.py:110-120 | finds the inner dictionary of a target, making one only if asked to |
| `ReflectStore.Reflect.DefineMetadata` | ellar/reflect/_reflect.py:36-64 | stores what the heap specification of define stores, including the update of a dict in place |
| `ReflectStore.Reflect.GetMetadata` | ellar/reflect/_reflect.py:79-87 | returns the value, a collection as a new object with the same content |
| `ReflectStore.Reflect.HasMetadata` | ellar/reflect/_reflect.py:73-77 | tells whether the key is there and changes nothing |
| `ReflectStore.Reflect.DeleteMetadata` | ellar/reflect/_reflect.py:103-108 | removes the key of the target, if there |
| `ReflectStore.Reflect.CloneMetaData` | ellar/reflect/_reflect.py:122-130 | the loop makes a new store dictionary with a copy of every inner dictionary |
| `ReflectStore.Reflect.EnterContext` | ellar/reflect/_reflect.py:142-149 | the current store is kept and a copy takes its place |
| `ReflectStore.Reflect.ExitContext` | ellar/reflect/_reflect.py:150-152 | the store kept last is current again |
| `ReflectSpec.EveryStepKeepsWellFormed` | ellar/reflect/_reflect.py:36-152 | no step makes two store dictionaries share an inner dictionary |
| `ReflectSpec.OneStackIsShown` | ellar/reflect/_reflect.py:36-152 | every state shows exactly one stack of plain nested maps, one for the current store and one for each store that a context will restore |
| `ReflectRefinement.StepRefinesIffHarmless` | ellar/reflect/_reflect.py:36-152 | a step shows what it means for plain nested maps, in every layer, iff an object it changes in place is held by no other entry of any layer (or not really changed) |
| `ReflectHistory.HarmlessRunsRefine` | ellar/reflect/_reflect.py:36-152 | runs of such steps show at the end what the definitions mean for plain maps |
| `ReflectHistory.ReadIsFoldOfOwnDefinitions` | ellar/reflect/_reflect.py:36-64 | on plain nested maps, what is under a key of a target in every layer is the fold of that entry's own definitions, contexts included |
| `ReflectHistory.StoreAnswersFoldOfOwnDefinitions` | ellar/reflect/_reflect.py:36-87 | what the store answers under a key after a run of harmless steps is the fold of that entry's own definitions |
| `ReflectReads.StoreAnswersLastStretch` | ellar/reflect/_reflect.py:36-87 | after a run of harmless steps, contexts included, the values said last of one kind decide what is read: lists and tuples one after another in the kind of the first, sets as their union, a dict key as the last dict with it, anything else as the last |
| `ReflectReads.TwoListsReadInOrder` | ellar/reflect/_reflect.py:54-57 | two lists defined under a key that had nothing read as the first and then the second |
| `ReflectReads.DefinitionsShareOrCopy` | ellar/reflect/_reflect.py:54-64 | a value of another kind is stored itself; values of one kind go into a new object, and only a dict that was there is changed |
| `ReflectHistory.ContextRestoresWhatItFound` | ellar/reflect/_reflect.py:142-152 | leaving a context around harmless, well-nested steps shows exactly what entering it found |
| `ReflectHistory.ContextsShareDicts` | ellar/reflect/_reflect.py:61-63 | inside a context the first redefinition of a dict is harmless iff it changes nothing |
| `ReflectHistory.DictDefinitionsLeakOutOfContexts` | ellar/reflect/_reflect.py:61-63 | what is read after such a context is the merge |
| `ReflectHistory.RunsWithoutDictsAreHarmless` | ellar/reflect/_reflect.py:54-60 | over scalars, lists, tuples and sets every run is harmless |
| `ReflectHistory.GetReturnsAPrivateObject` | ellar/reflect/_reflect.py:79-87 | a returned collection is held nowhere in the store |
| `ReflectHistory.ChangingAReturnedObjectIsHarmless` | ellar/reflect/_reflect.py:79-87 | changing it later never changes the store, unless it was handed back to define |
| `DynamicModules.DynamicModule.ApplyConfiguration` | ellar/core/modules/config.py:42-61 | the first call deletes and redefines the metadata of every non-empty list; later calls change nothing |
| `DynamicModules.ConfigurationReplaces` | ellar/core/modules/config.py:51-59 | a non-empty list replaces what the module had instead of joining it, an empty one leaves it, and no other entry changes |
| `RouteSorting.StableSortIsUnique` | ellar/common/routing/route_collections.py:45-50 | the stable sort is the only list in key order that keeps the items of each key in order |
| `RouteCollections.IdentityForgetsListing` | ellar/common/helper/__init__.py:23-32 | a route's identity depends on its path and on which methods and versions it has, not on the order they are listed in |
| `RouteCollections.AddLosesNothingIffFresh` | ellar/common/routing/route_collections.py:52-85 | adding a route appends it and touches no other iff its hash or its salted retry is free |
| `RouteCollections.NothingIsLostIffFresh` | ellar/common/routing/route_collections.py:52-85 | over any list the index holds every route in insertion order, and has their number as its length, iff no retry ever collides |
| `RouteCollections.DifferentSaltsLoseNothing` | ellar/common/routing/route_collections.py:76-85 | with an injective hash and salts that differ every route added is served, whatever is repeated |
| `RouteCollections.TextOfOneMethod` | ellar/common/helper/__init__.py:23-32 | the hashed text of an operation: path, method and version in small letters, `no_versioning` without one, and `ws` for a websocket |
| `RouteCollections.TextOfTwoMethods` | ellar/common/helper/__init__.py:23-32 | two methods stand in it in their order with an underscore between |
| `RouteCollections.TextOfMount` | ellar/common/routing/route_collections.py:58-75 | the hashed text of a mount or host: its path, its class, and its name if it has another |
| `RouteCollections.BatchingDoesNotMatter` | ellar/common/routing/route_collections.py:32-43 | any batching of the same additions gives the same index |
| `RouteCollections.ServedIsEverythingAdded` | ellar/common/routing/route_collections.py:45-50 | the served list is the stable sort by path of everything added iff nothing was lost |
| `RouteCollections.LiteralsAreServedFirst` | ellar/common/routing/route_collections.py:45-50 | a literal character below `{` is served before a parameter starting at the same place |
| `RouteCollections.RouteCollection.Extend` | ellar/common/routing/route_collections.py:39-43 | adds all items in order and serves the stable sort |
| `RouteCollections.RouteCollection.AddOperation` | ellar/common/routing/route_collections.py:52-85 | adds one item; anything that is not a route is ignored |
| `RouteCollections.RouteCollection.Append` | ellar/common/routing/route_collections.py:32-34 | adds the item and serves the stable sort |
| `RouteCollections.RouteCollection.SetItem` | ellar/common/routing/route_collections.py:22-24 | adds the item whatever the index |
| `RouteCollections.RouteCollection.Len` | ellar/common/routing/route_collections.py:26-30 | the length of the index is also the length of what is served |
| `Versioning.SplitPathIff` | ellar/core/versioning/resolver.py:71-73 | the path pattern splits a path into version and rest iff it is a slash, a segment, a slash and the rest of a line |
| `Versioning.VersionRegexIffLooksLikeVersion` | ellar/core/versioning/resolver.py:77 | a segment passes the version pattern iff a digit comes first, second, or third after a v |
| `Versioning.LooksLikeVersionIff` | ellar/core/versioning/resolver.py:77 | the same with the ten digits and both letters spelled out |
| `Versioning.PathVersionsAreNotEmpty` | ellar/core/versioning/resolver.py:92-102 | a version taken from the path is never empty, so it is remembered |
| `Versioning.VersionResolver.ResolveUrlPrefix` | ellar/core/versioning/resolver.py:79-103 | takes the version out of the path and records it as a path parameter, or changes nothing |
| `Versioning.VersionResolver.Resolve` | ellar/core/versioning/resolver.py:24-27 | answers the version of the request and leaves nothing more to take from the path |
| `Versioning.VersionResolver.CanActivate` | ellar/core/versioning/resolver.py:37-52 | true iff versioning is off, or the version is among the route's, or the route has none and it is the default |
| `Versioning.VersionResolver.TryRoutes` | ellar/core/versioning/resolver.py:24-52 | however many routes are tried, the path loses at most one version and every answer is about the same version |
| `Versioning.WithoutVPiecewise` | ellar/core/versioning/resolver.py:92-102 | every small v goes from a version found in the path and everything else stays |
| `ModuleMount.MountMatches` | ellar/common/routing/mount.py:40-72 | the loop computes the recursive search |
| `ModuleMount.RouteMatches` | ellar/common/routing/base.py:124-141 | a full match of a route operation whose versions do not accept the request counts as none |
| `ModuleMount.FirstAcceptedPathIsTaken` | ellar/common/routing/mount.py:40-72 | a route tree matches fully iff some path through it is accepted; the first in served order is taken and the scope returned is what that path alone puts there |
| `ModuleMount.MountFallsBackToFirstPartial` | ellar/common/routing/mount.py:58-72 | with no accepted path a mount answers with its first partially matching HTTP operation and otherwise not at all |
| `ModuleMount.HandlingReachesTheChosenRoute` | ellar/common/routing/mount.py:74-84 | handling a fully matched request reaches exactly the chosen route and leaves no record in the scope |
| `ModuleMount.OperationsTakeTheirVersions` | ellar/common/routing/base.py:124-141 | a route operation matches fully iff its path and method do and versioning is off, or the version is one of its own, or it has none and it is the default |
| `ModuleMount.TakenRouteHasTheVersion` | ellar/common/routing/base.py:124-141 | in any tree of mounts a route with versions is on an accepted path only for one of them |
| `ModuleMount.LeafTextsAreInScope` | ellar/common/routing/mount.py:40-72 | what the accepted route takes from the request is in the scope that comes back |
| `ModuleMount.MountTextsReachTheChildren` | ellar/common/routing/mount.py:40-72 | the routes below a mount see what the mount takes from the request and what was in the scope before |
| `WebsocketHandler.WebSocketExtraHandler.DecodeMessage` | ellar/common/routing/websocket/handler.py:135-172 | decodes or raises as specified for each encoding |
| `WebsocketHandler.WebSocketExtraHandler.ExecuteOnReceive` | ellar/common/routing/websocket/handler.py:82-113 | runs on_receive iff the parameters resolve; validation errors are sent and raised |
| `WebsocketHandler.WebSocketExtraHandler.ReceiveLoop` | ellar/common/routing/websocket/handler.py:61-71 | ends at the first message that stops the connection, having called what the messages up to it call |
| `WebsocketHandler.WebSocketExtraHandler.Finish` | ellar/common/routing/websocket/handler.py:72-80 | closes for a WebSocketException, picks the close code and calls on_disconnect |
| `WebsocketHandler.WebSocketExtraHandler.Dispatch` | ellar/common/routing/websocket/handler.py:51-80 | the whole trace and the exception that comes out, for every list of messages |
| `WebsocketHandler.DisconnectIsOnceAndLast` | ellar/common/routing/websocket/handler.py:79-80 | once the connect step returned, on_disconnect is called exactly once and last, and not before the end |
| `WebsocketHandler.DisconnectCodes` | ellar/common/routing/websocket/handler.py:59-80 | the code is the client's after a disconnect (1000 if missing), 1011 after an exception, 1000 after a WebSocketException or cancellation; the socket is closed iff for a WebSocketException and with its code |
| `WebsocketHandler.ReceivesExactlyTheDeliverable` | ellar/common/routing/websocket/handler.py:62-71 | on_receive runs for exactly the decodable, valid messages up to the first that stops |
| `WebsocketHandler.ReceivesInOrder` | ellar/common/routing/websocket/handler.py:62-71 | it runs for them in the order of arrival, once each |
| `WebsocketHandler.DecodeClosesOnlyUnsupportedData` | ellar/common/routing/websocket/handler.py:135-168 | decoding raises a WebSocketException iff the text or bytes key is missing or JSON is malformed, with code 1003 |
| `WebsocketHandler.PayloadsAreWhatWasSent` | ellar/common/routing/websocket/handler.py:135-172 | under each encoding the payload is what the message carries |
| `WebsocketHandler.DecodingFailures` | ellar/common/routing/websocket/handler.py:135-168 | which exception it is when a message does not decode |
| `WebsocketHandler.ClientDisconnects` | ellar/common/routing/websocket/handler.py:62-80 | a client's disconnect ends the connection without an exception and passes on its code, or 1000 |
| `WebsocketHandler.OtherMessagesAreIgnored` | ellar/common/routing/websocket/handler.py:61-71 | messages of other kinds do nothing; a failed connect step is all that happens |
| `WebsocketHandler.FailedMessagesEndTheConnection` | ellar/common/routing/websocket/handler.py:59-80 | the code passed to on_disconnect, whether the socket is closed, and what comes out, for a message that does not decode, validate or get through its handler |
| `WebsocketHandler.OtherFailuresEndTheConnection` | ellar/common/routing/websocket/handler.py:59-80 | the same for a failure to receive and for a disconnect code that is no number |
| `WebsocketHandler.NoHookIsCalledWithoutOne` | ellar/common/routing/websocket/handler.py:79-80 | without an on_disconnect hook nothing is called at the end |
| `WebsocketHandler.TurnSendsErrorsIff` | ellar/common/routing/websocket/handler.py:82-113 | errors are sent for a message iff it decodes and its parameters do not validate |
| `Pipeline.GuardsRunInOrder` | ellar/core/guards/consumer.py:20-42 | each guard is made and asked in order; all pass, or the first that does not is the last touched and its exception is the result |
| `Pipeline.RefusalPreventsEverythingElse` | ellar/common/routing/base.py:71-72 | unless all guards pass nothing but guards ever runs, and the exception of the first that does not pass comes out |
| `Pipeline.HandlerIsNested` | ellar/core/interceptors/consumer.py:43-48 | interceptor calls, repeated calls of next included, are properly nested around the endpoint |
| `Pipeline.HandlerIsFold` | ellar/core/interceptors/consumer.py:43-50 | the recursion is the right fold of the interceptors over the endpoint |
| `Pipeline.PassingOnChangesNothing` | ellar/core/interceptors/consumer.py:41-52 | interceptors that call next once and return what it gives are each entered and left once around the endpoint, whose outcome is the outcome |
| `Pipeline.NotCallingNextSuppressesTheRest` | ellar/core/interceptors/consumer.py:46-48 | an interceptor that never calls next is all that runs |
| `Pipeline.EmptyListAgrees` | ellar/core/interceptors/consumer.py:41-52 | the direct call without interceptors is what the recursion comes to |
| `Pipeline.AppTraceIsNested` | ellar/common/routing/base.py:54-72 | when all guards pass the trace is guards, interceptors made in order, one nested block of calls and at most one response; there is one iff the calls return and nothing was sent before, and what comes out is then what handling the response comes to; the first interceptor that cannot be made ends everything with its exception |
| `EndpointArgs.EndpointArgsModel.ComputeRouteParameters` | ellar/common/params/args/base.py:154-237 | the loop sorts every parameter of the signature into the group of its location, up to the first that cannot be processed, and writes its name into a system resolver given as default |
| `EndpointArgs.EndpointArgsModel.ComputeExtraRouteArgs` | ellar/common/params/args/base.py:312-363 | the same for the extra arguments |
| `EndpointArgs.EndpointArgsModel.BuildRequestBody` | ellar/common/params/args/request_model.py:45-97 | no body, the only body as it is unless embedded, or all bodies as the fields of one model by their aliases, read the way of the class that the media types decide; fails iff a system resolver is in the body |
| `EndpointArgs.LastOfGreatestDecides` | ellar/common/params/args/request_model.py:68-86 | several bodies are read the way of the last one among those with the greatest media type |
| `EndpointArgs.EndpointArgsModel.BuildWebsocketBody` | ellar/common/params/args/websocket_model.py:33-39 | moves all body resolvers with a field in order to the end of the list kept from earlier builds and leaves system resolvers where they are |
| `EndpointArgs.EndpointArgsModel.BuildModel` | ellar/common/params/args/base.py:137-152 | succeeds iff no parameter fails and no body of a request lacks a field; the route models are header, path, query, cookie and system groups, each in order; system resolver objects go by the last name written |
| `EndpointArgs.EveryResolverIsRunOnceIffKnown` | ellar/common/params/args/base.py:137-152 | route models and body together hold everything placed exactly once iff no system resolver names a location of its own or the body |
| `EndpointArgs.WebsocketRunsOnceIff` | ellar/common/params/args/websocket_model.py:33-39 | after any number of builds a websocket runs everything placed exactly once iff this holds and it was the first build or the body is empty |
| `EndpointArgs.RunAsOftenAsPlaced` | ellar/common/params/args/websocket_model.py:33-39 | after n builds a websocket runs each of its body's resolvers n times as often as it was placed, and every other as often as it was placed |
| `EndpointAnswers.NamesSurviveIffUnshared` | ellar/common/params/resolvers/system_parameters/base.py:32-40 | every resolver object goes by the name of the parameter it was placed for iff no system resolver object is the default of two parameters of different names |
| `EndpointAnswers.EveryParameterIsRunOnceIff` | ellar/common/params/args/base.py:154-310 | for every signature: the handler is handed each value once, under its own name, and nothing else iff no system resolver names a location of its own or the body, none is shared by two names, fields of a body read as one model have no alias but their name and no name twice, and no form in any other body is spread out |
| `EndpointAnswers.HandlerGetsItsParametersIff` | ellar/common/params/args/base.py:289-310 | with parameters of different names the keyword arguments of the handler are exactly each parameter's own value under the same condition |
| `EndpointAnswers.ReadingDecidesTheAnswers` | ellar/common/params/args/request_model.py:76-97 | several bodies read as JSON are handed over as the fields of one model, read as a form each by itself |
| `EndpointAnswers.EmbeddedAliasReplacesTheName` | ellar/common/params/args/request_model.py:68-97 | the signature of one embedded body with an alias hands its value over under the alias |
| `EndpointAnswers.EqualAliasesLoseOne` | ellar/common/params/args/request_model.py:73-76 | of two bodies with one alias only the second is handed over |
| `EndpointAnswers.AnnotatedFormIsSpreadOut` | ellar/common/params/args/base.py:230-236 | the signature of one form model inside an annotation hands over the model's fields |
| `EndpointAnswers.SharedResolverRunsUnderOneName` | ellar/common/params/args/base.py:239-251 | the signature in which one resolver object is the default of two parameters runs it twice under the second name |
| `EndpointArgs.OpenParametersGoWhereDeclared` | ellar/common/params/args/base.py:208-237 | a parameter that is no system resolver and not part of the path goes to the location it is declared with; undeclared scalars go to the query and everything else undeclared to the body |
| `EndpointArgs.PathParametersGoToThePath` | ellar/common/params/args/base.py:192-207 | a path parameter is a scalar and goes to the path, with one exception for annotations |
| `EndpointArgs.RouteModelsRunInOrder` | ellar/common/params/args/base.py:137-152 | route models run by location (header, path, query, cookie, system) and within one in the order placed |
| `EndpointArgs.PlacementFailsIff` | ellar/common/params/args/base.py:154-237 | a parameter of the signature fails exactly when its type cannot be a field of its kind, or in the annotation cases named |
| `EndpointArgs.SkippedIff` | ellar/common/params/args/base.py:154-191 | skipped are variable parameters and a bare `self`, and no extra argument |
| `EndpointArgs.SystemParametersArePlaced` | ellar/common/params/args/base.py:173-251 | a system resolver is the one for the type when there is no default, or the default itself, under its location |
| `EndpointArgs.FieldsOfOpenParameters` | ellar/common/params/args/base.py:208-237 | name, description, alias, media type and splitting of an open parameter |
| `EndpointArgs.FieldsOfPathParameters` | ellar/common/params/args/base.py:192-207 | a scalar path parameter is described by itself if it is described for the path, and otherwise by its name |
| `EndpointArgs.FieldsOfExtras` | ellar/common/params/args/base.py:312-363 | an extra argument is described by its own default, or by its type |
| `EndpointArgs.UsualMediaTypes` | ellar/common/params/params.py:200-318 | the media types of bodies, forms and files that name none |
| `EndpointArgs.MixedBodiesAreRead` | ellar/common/params/args/request_model.py:68-97 | with these media types a file makes several bodies a multipart form, and they are a form iff all of them are forms |
| `EndpointResolution.RunResolver` | ellar/common/params/resolvers/bulk_parameter.py:29-105 | the loop of a bulk resolver computes the recursive resolution, for fields, plain forms and grouped forms |
| `EndpointResolution.RunAll` | ellar/common/params/args/base.py:299-309 | runs every resolver in order, merging values and appending errors, up to an exception |
| `EndpointResolution.ResolveDependencies` | ellar/common/params/args/base.py:289-310 | stops after body errors, and otherwise runs every resolver and returns all values and all errors |
| `EndpointResolution.ResolutionIsUnique` | ellar/common/params/args/base.py:289-310 | what is promised settles values, errors and how many resolvers were started |
| `EndpointResolution.ErrorsHoldEach` | ellar/common/params/args/base.py:303-309 | each resolver's errors are returned, after those of the resolvers before it |
| `EndpointResolution.LastValueWins` | ellar/common/params/args/base.py:301-302 | a name gets the value of the last resolver that gives one |
| `EndpointResolution.BulkReportsPartsFirst` | ellar/common/params/resolvers/bulk_parameter.py:29-105 | a bulk resolver returns all errors of its parts; only when there are none does it validate the values together, except in a plain form, and a failed validation leaves the values gathered, or in a grouped form what it returned |
| `Base64.DecodeEncode` | ellar/core/security/hashers/scrypt.py:39-41 | every byte string is read back from its base64 text |
| `Base64.EncodeDecode` | ellar/core/security/hashers/scrypt.py:39-41 | only texts that some bytes encode to are read at all, and as those bytes |
| `Base64.EncodeHasNoDollar` | ellar/core/security/hashers/scrypt.py:39-41 | base64 text never holds the separator |
| `Text.ParseIntPrinted` | ellar/core/security/hashers/scrypt.py:69-73 | reading a printed integer gives it back |
| `Text.JoinedPiecesAreTheText` | ellar/core/security/hashers/scrypt.py:62-74 | a text is its pieces joined by the separator |
| `ScryptHasher.DecodeReadsBackIffNoDollar` | ellar/core/security/hashers/scrypt.py:42-74 | what was printed is read back iff the salt holds no dollar; with one, decoding fails |
| `ScryptHasher.EncodesIff` | ellar/core/security/hashers/scrypt.py:51-60 | encoding succeeds iff there is a password, the salt is a text without dollars and the derivation does not refuse |
| `ScryptHasher.EncodedTextDecodes` | ellar/core/security/hashers/scrypt.py:51-74 | an encoded password decodes to algorithm, costs, salt and hash that went into it |
| `ScryptHasher.GeneratedSaltsAlwaysEncode` | ellar/core/security/hashers/base.py:104-113 | a generated salt is never refused and never needs updating |
| `ScryptHasher.VerifyIffSameKey` | ellar/core/security/hashers/scrypt.py:76-85 | verifying against the text of another password answers at all iff the salt is ASCII, and then whether the derived keys are the same; otherwise the comparison raises |
| `ScryptHasher.EncodedVerifiesIffSaltIsAscii` | ellar/core/security/hashers/scrypt.py:51-85 | what encode gave for a password verifies that password iff the salt is ASCII, and raises otherwise |
| `ScryptHasher.GeneratedSaltsVerify` | ellar/core/security/hashers/scrypt.py:51-85 | with a generated salt whatever was encoded verifies |
| `ScryptHasher.OtherSaltsNeverVerify` | ellar/core/security/hashers/scrypt.py:76-85 | with any salt that is not ASCII and that encode accepts, encoding succeeds and verifying any password raises |
| `ScryptHasher.AccentedSaltNeverVerifies` | ellar/core/security/hashers/scrypt.py:76-85 | one such salt, a single accented letter |
| `ScryptHasher.VerifyAnswersIff` | ellar/core/security/hashers/scrypt.py:76-85 | verifying answers at all iff the text is ASCII, decodes, and the derivation accepts what it decodes to |
| `ScryptHasher.OnlyPrintedTextsVerify` | ellar/core/security/hashers/scrypt.py:76-85 | whatever the text, a password verifies against it iff encoding that password with some dollar-free ASCII salt and costs gives it |
| `ScryptHasher.MustUpdateIffCostsDiffer` | ellar/core/security/hashers/scrypt.py:87-93 | a text needs updating iff it was printed with costs other than the hasher's own |
| `ScryptHasher.DecodableTextsAreIdentified` | ellar/core/security/hashers/scrypt.py:95-98 | everything that decodes is recognised |
| `ScryptHasher.PrintedTextsAreIdentified` | ellar/core/security/hashers/scrypt.py:95-98 | everything printed is recognised, whatever the salt |
| `ScryptHasher.EncodedTextIs` | ellar/core/security/hashers/scrypt.py:27-60 | the very text: `scrypt`, the work factor 16384, the salt, 8, 1 and the base64 hash, between dollar signs |
| `ScryptHasher.EncodingFailures` | ellar/core/security/hashers/scrypt.py:51-60 | which error it is when encoding fails |
| `ScryptHasher.PiecesAreDecoded` | ellar/core/security/hashers/scrypt.py:62-74 | what decoding makes of six pieces between dollar signs, and which error it is otherwise |
| `ScryptHasher.MissingSaltIsDrawn` | ellar/core/security/hashers/scrypt.py:51-60 | without a salt, or with an empty one, 22 characters are drawn; no password and a salt of bytes are refused |
| `SaltEntropy.SaltLength` | ellar/core/security/hashers/base.py:112 | the least n with 62^n >= 2^e |
| `SaltEntropy.MustUpdateIffShorter` | ellar/core/security/hashers/base.py:21-23 | a salt needs updating iff it is shorter than a generated one |
| `SaltEntropy.GeneratedSaltsNeedNoUpdate` | ellar/core/security/hashers/base.py:104-113 | a generated salt never needs updating |
| `SaltEntropy.SaltLengthsInUse` | ellar/core/security/hashers/base.py:30-35 | 22 characters for 128 bits, 8 for 45 |
| `SaltEntropy.AlphabetInOrder` | ellar/core/security/hashers/base.py:14 | the characters of a salt are the small letters, the capitals and the digits, each in order |
| `SaltEntropy.SaltIsAsPicked` | ellar/core/security/hashers/base.py:104-113 | each character of a salt is the one its own pick stands for |
| `SaltEntropy.EverySaltCanBeDrawn` | ellar/core/security/hashers/base.py:104-113 | every text of letters and digits of that length is drawn by some picks |
| `PathNormalizer.NormalizePath` | ellar/common/shortcuts.py:15-18 | the loop ends and returns the path with every run of slashes collapsed, holding no pair |
| `PathNormalizer.ReplaceKeepsCollapse` | ellar/common/shortcuts.py:17 | one left-to-right replacement of pairs does not change what the path collapses to |
| `PathNormalizer.NormalizingKeepsSegments` | ellar/common/shortcuts.py:15-18 | the segments stay, and the result starts and ends with a slash iff the path did |
| `PathNormalizer.NormalizingIsIdempotent` | ellar/common/shortcuts.py:15-18 | normalising twice is normalising once |
| `Serializer.SerializedIsJson` | ellar/common/serializer/base.py:109-161 | with JSON enumeration values and encoder results, whatever is returned is a JSON tree with distinct text keys |
| `Serializer.SerializesIffCovered` | ellar/common/serializer/base.py:109-161 | a result is returned iff every opaque object reached has an encoder there or a dictionary form of which the same holds |
| `Serializer.SerializedIsTheResult` | ellar/common/serializer/base.py:109-161 | whatever is returned is the result in the sense of a relation that says node by node what it must hold: items in order, the last value of a key, only the root of a model that has one, and encoders of the models above |
| `Serializer.JsonIsUnchanged` | ellar/common/serializer/base.py:109-161 | JSON comes back as it is under any encoders, so serialising is idempotent |
| `Serializer.OnlyConsultedEncodersMatter` | ellar/common/serializer/base.py:114-131 | the result depends only on the encoders of opaque objects not covered by a model above them: a model's own encoders affect only its subtree |

## Left out

- Redis and memcached backends, static files, templating, socket.io, sessions and command-line tools: input and output, or wrappers over other libraries.
- Key-length and key-character warnings of the cache: no effect on results. Counters that are not integers answer with a TypeError here; floating-point counters are not modelled.
- The order of the cache's dictionary, which nothing reads.
- Cyclic dependency and module graphs, and parent containers of the injector.
- The subclass check in `Container.register`, provider wrappers, and special interfaces of the injector library.
- Garbage collection of metadata targets, the check that a target is a type or callable, and targets that redirect to another one through their own marker attribute.
- The order of keys in metadata dicts; overlapping asynchronous metadata contexts.
- A custom `ref_type` of a module setup, plain module references, constructor arguments of modules, and the routes that late modules add to the application. Applying a dynamic module is modelled by itself and not as part of reading the graph.
- ModuleBuild.ModuleRegistries.Configure: what a module registers is given for each module and not read from its metadata, which the DynamicModule returned by a factory may change; a registration that raises, and a request that is open while the application is created, are not modelled.
- The middleware classes an application is configured with; the services they obtain are a parameter.
- A system resolver object that several endpoints share.
- Numbers in an encoded password written with digits other than ASCII ones, which Python reads; such a text is refused in verification either way.
- Lower-casing in route identities is for ASCII letters.
- The header, query and host sources of a version are given as the text they find.
- Invalid-version errors raised by the application's default handler.
- Newlines in versions from headers; the path pattern is modelled with them.
- EndpointArgs.EndpointArgsModel.BuildRequestBody: does not model the embed and required flags of a grouped body, which pydantic reads, nor what a flag set in a description shared by several endpoints does to the others.
- EndpointArgs.EndpointArgsModel.BuildWebsocketBody: does not model the embed flags set when there are several bodies.
- Nested models turned into dictionaries, and the exception for an absent optional body, when several bodies are read as one model; forms on websockets.
- A plain pydantic field description as a default, and the key that lets a subclass file extra arguments under a name of its own.
- How the guards and interceptors of a route are chosen between handler, controller and application; the lists chosen are what the model starts from.
- Routes waiting to be built in module routers, and the remembered controller type of an operation.
- Validation of single values by pydantic, and OpenAPI documents.
- Passwords given as bytes, and the passlib hashers.
- Dataclass types (as opposed to their instances) and generators that fail half-way in serialisation; the filter settings, which only choose what a model's `dict()` returns.
- WebsocketHandler.WebSocketExtraHandler.Dispatch: the keyword arguments passed to on_receive are not modelled, only that it is called and with which decoded data.
