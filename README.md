# fundi-alt scopes and injection, modelled in Dafny

This project models the core of `fundi_alt`, an alternative scope and
injection layer for the FunDI dependency-injection library:

- **Scopes** (`fundi_alt/scope.py`). A `Scope` holds named values and
  resolvers in two insertion-ordered dicts. A resolver is a dependency
  descriptor registered under the normalized form of a type. A scope may
  have a parent scope. Lookups go by type (values first, then resolvers,
  then the parent chain) or by name.
- **Annotation normalization** (`fundi_alt/util.py`). An annotation becomes
  the tuple of types it stands for: one `Annotated` layer is stripped, a
  union becomes its members without `NoneType`, and any other subscripted
  form becomes its origin.
- **Parameter resolution** (`fundi_alt/resolve.py`). For each parameter of a
  target, `resolve` decides a value or a dependency still to be injected.
  The parameter's own attributes select exactly one rule:
  - with an explicit dependency (`from_`), the cache decides;
  - otherwise, when it is marked to resolve by type, a by-type lookup;
  - otherwise a by-name lookup.

  A failed lookup falls back only to the declared default. A by-type miss
  never falls back to a by-name lookup.
- **Injection** (`fundi_alt/inject.py`). `inject` (blocking) and `ainject`
  (suspendable) work in four steps:
  - reject a dependency cycle;
  - inject every pending dependency first, in a child scope that carries the
    parameter under `__fundi_parameter__`;
  - cache the result of each cacheable dependency;
  - invoke the target with one keyword argument per parameter.

## Layout

| file | module | contents |
|---|---|---|
| `model.dfy` | `Model` | the model's values: annotations, runtime values, descriptors, parameters, errors; the runtime services used (`isinstance` and invoking a target) passed in as functions; `FirstWhere` |
| `dict.dfy` | `OrderedDict` | Python `dict` as a sequence of entries: get, assignment, deletion, and their laws |
| `annotations.dfy` | `Annotations` | `normalize_annotation` |
| `scopes.dfy` | `Scopes` | `ScopeState` (the value a scope chain stands for) and the lookups defined on it; the class `Scope` with its mutable tables, its methods proved against those lookups |
| `resolution.dfy` | `Resolution` | `resolve`, one parameter at a time |
| `injector.dfy` | `Injector` | `injection_impl`, `inject` and `ainject` in three forms: the functions `Injection`/`Collect`/`Supplied`; the methods `Inject`/`SupplyArgument` on `Scope` objects, proved equal to those functions; and the properties of injection as lemmas |

## Where the model follows the code rather than the documentation

- `resolve_by_name` is documented to fall back to the parent scope. The
  code does query the parent on a local miss, but it discards the answer
  and raises the miss (`fundi_alt/scope.py:160-168`). The model does the
  same.
  - `Scopes.LookupName` only consults the scope's own values.
    `Scopes.Scope.ResolveByName` makes the parent call and ignores its result.
  - Consequence: a dependency injected in a child scope sees no value by
    name except `__fundi_parameter__` (`Injector.ChildHoldsOnlyParameter`).
- `inject` and `ainject` inject a dependency with a copy of `visited` and
  no cache (`fundi_alt/inject.py:104`, `:142`). So each nested injection
  starts from an empty cache. Only the direct dependencies of the outermost
  target are stored in the caller's cache.
  - `Injector.CacheWritesDirectDependencies` states this for every input.
    `Injector.DiamondNotShared` shows an example of the consequence: a
    dependency shared by two sibling dependencies is invoked twice.
- Only `types.UnionType` (the `X | Y` form) is a union to
  `normalize_annotation`. Up to Python 3.13, a `typing.Union[...]` or
  `Optional[...]` annotation has another origin, `typing.Union`, so it
  becomes that origin. From Python 3.14 on the two forms are one type and
  both are unions. The model follows Python 3.13 and earlier. In the model
  such an annotation is a `Generic` with origin `typing.Union`.

## Model

| member | source | states |
|---|---|---|
| `OrderedDict.Get` | fundi_alt/scope.py:160-161 | a lookup finds a value exactly when the key is present, and the value found is the value stored with that key |
| `OrderedDict.Put` | fundi_alt/scope.py:105 | assignment adds an entry exactly when the key is new; `PutKeys`, `PutGet`, `PutDistinct` and `PutAppends` give its full behaviour |
| `OrderedDict.Remove` | fundi_alt/scope.py:110 | deletion drops at most one entry; `RemoveEntry`, `RemoveGet`, `RemoveDistinct` and `RemoveKeysShrink` give its full behaviour |
| `OrderedDict.PutKeys` | fundi_alt/scope.py:105 | assignment keeps the key order when the key exists and appends the key when it is new |
| `OrderedDict.PutGet` | fundi_alt/scope.py:105 | after `d[k] = v`, `k` maps to `v` and every other key keeps its value |
| `OrderedDict.PutDistinct` | fundi_alt/scope.py:99 | assignment keeps keys unique |
| `OrderedDict.PutAppends` | fundi_alt/scope.py:99 | assigning an absent key appends exactly one entry at the end |
| `OrderedDict.KeyIndex` | fundi_alt/scope.py:110 | the position of a key, below the length exactly when the key is present |
| `OrderedDict.RemoveEntry` | fundi_alt/scope.py:110 | `del d[k]` removes exactly the entry for `k` and keeps the rest in order |
| `OrderedDict.RemoveGet` | fundi_alt/scope.py:110 | deletion leaves every other key's value unchanged |
| `OrderedDict.RemoveDistinct` | fundi_alt/scope.py:122 | deletion keeps keys unique and the deleted key is gone |
| `OrderedDict.RemoveKeysShrink` | fundi_alt/scope.py:122 | deletion adds no key |
| `OrderedDict.RemovePut` | fundi_alt/scope.py:103-112 | assigning a new key and deleting it again restores the dict |
| `OrderedDict.GetEntry` | fundi_alt/scope.py:161 | with unique keys, looking up an entry's key yields that entry's value |
| `Annotations.WithoutNone` | fundi_alt/util.py:17-18 | the members kept are exactly the union members other than `NoneType`; the result is never longer; without `NoneType` the members are unchanged |
| `Annotations.WithoutNoneKeepsOrder` | fundi_alt/util.py:18 | dropping `NoneType` keeps member order: it distributes over concatenation |
| `Annotations.NormalizeCases` | fundi_alt/util.py:5-22 | a plain type stands for itself; a union becomes its members without `NoneType`; another subscripted form becomes its origin; one `Annotated` layer is transparent. (A nested `Annotated` inside another cannot occur at runtime, because Python flattens it.) |
| `Annotations.Normalize` | fundi_alt/util.py:5-22 | a union, bare or under one `Annotated` layer, never keeps `NoneType`; every other annotation yields exactly one type |
| `Annotations.NormalizeUnionMembers` | fundi_alt/util.py:17-18 | a type is in a union's tuple exactly when it is a member other than `NoneType` |
| `Scopes.LookupType` | fundi_alt/scope.py:126-151 | a failed by-type lookup raises the resolution error naming the requested tuple |
| `Scopes.LookupName` | fundi_alt/scope.py:153-173 | a by-name lookup succeeds exactly when the name is among this scope's own values; a failure names the name |
| `Scopes.LocalMatch` | fundi_alt/scope.py:137-146 | one scope's own tables match a request exactly when some value matches it or some resolver serves it; `LocalValueWins` and `LocalResolverFound` say which one is chosen |
| `Scopes.LookupTypeNearest` | fundi_alt/scope.py:126-151 | the answer of a by-type lookup comes from the nearest scope in the chain with a matching value or resolver; the lookup fails exactly when no scope in the chain has one |
| `Scopes.LocalValueWins` | fundi_alt/scope.py:137-142 | the first matching value in insertion order wins over later values, every resolver and the parents |
| `Scopes.TypeCastFound` | fundi_alt/scope.py:137-139 | a value stored as `TypeCast(alias, u)` is found as `u` by a tuple containing `alias`, and as `u` by name, when no earlier value in that scope matches the tuple |
| `Scopes.LocalResolverFound` | fundi_alt/scope.py:144-146 | with no matching value, the first resolver whose tuple shares a type with the request yields its descriptor |
| `Scopes.NoLocalMatch` | fundi_alt/scope.py:148-151 | with no local match, the lookup is the parent's, or fails at the root |
| `Scopes.LookupNameIgnoresParent` | fundi_alt/scope.py:160-168 | the parent never changes a by-name answer; a local miss is always an error |
| `Scopes.Registered` | fundi_alt/scope.py:65-75 | the initial resolver table has unique keys, and its keys are exactly the normalized return annotations of the given descriptors |
| `Scopes.RegisteredStep` | fundi_alt/scope.py:68-75 | registering one more descriptor puts it under its normalized return annotation and leaves every other tuple's descriptor alone |
| `Scopes.RegisteredLastWins` | fundi_alt/scope.py:68-75 | in the initial table, each tuple holds the last descriptor registered under it |
| `Scopes.ValueThenLookupName` | fundi_alt/scope.py:103-105 | after `value(name, v)`, `name` is found as `v`, unwrapped if it is a `TypeCast`; other names are unaffected |
| `Scopes.DropValueThenLookupName` | fundi_alt/scope.py:107-112 | after `drop_value(name)`, `name` is not found; other names are unaffected |
| `Scopes.DropUndoesAdd` | fundi_alt/scope.py:103-124 | adding a new name or tuple and dropping it again restores the table |
| `Scopes.NewResolverServes` | fundi_alt/scope.py:91-101 | a resolver registered under a new tuple serves a request when nothing earlier in the scope does |
| `Scopes.Scope.constructor` | fundi_alt/scope.py:47-75 | the new scope has the given parent, a copy of the values, and the resolver table `Registered` of the descriptors |
| `Scopes.Scope.Child` | fundi_alt/scope.py:87-89 | a new, empty scope whose parent is this one |
| `Scopes.Scope.Resolver` | fundi_alt/scope.py:91-101 | registers the descriptor under the normalized `resolves_to` (by default its return annotation); the values are untouched and keys stay unique |
| `Scopes.Scope.Value` | fundi_alt/scope.py:103-105 | binds the name in this scope's values only; the resolvers are untouched |
| `Scopes.Scope.DropValue` | fundi_alt/scope.py:107-112 | removes a present name; a missing name fails with the resolution error naming it and changes nothing |
| `Scopes.Scope.DropResolver` | fundi_alt/scope.py:114-124 | removes the resolver under the normalized annotation; a missing one fails naming the annotation as given and changes nothing |
| `Scopes.Scope.ResolveByType` | fundi_alt/scope.py:126-151 | the scan of values, then resolvers, then the parent computes `LookupType` of the chain's state |
| `Scopes.Scope.ResolveByName` | fundi_alt/scope.py:153-173 | the method computes `LookupName` of the chain's state, whatever the parent answers |
| `Resolution.Resolve` | fundi_alt/resolve.py:12-62 | a pending dependency is never cached; an error only arises for a parameter with no `from_` and no default, and it is a resolution error |
| `Resolution.ResolvePriority` | fundi_alt/resolve.py:15-62 | `from_` decides alone, independent of scope and other attributes; by-type ignores the name; by-name ignores annotation and cache |
| `Resolution.PendingExactly` | fundi_alt/resolve.py:16-53 | a parameter waits on `d` exactly when `d` is uncached and is either its `from_` or what its by-type lookup found, unless the annotation asks for a `CallableInfo` |
| `Resolution.FailsExactly` | fundi_alt/resolve.py:26-62 | resolution fails exactly when there is no `from_`, no default, and the lookup fails; the error names the tuple or the name |
| `Resolution.DefaultOnMiss` | fundi_alt/resolve.py:28-34 | a failed lookup yields the declared default |
| `Resolution.ByTypeFound` | fundi_alt/resolve.py:36-44 | a by-type result that is not a descriptor, or that was asked for as `CallableInfo`, is used as found |
| `Resolution.Dependency` | fundi_alt/resolve.py:16-53 | the descriptor a parameter depends on (its `from_`, or a by-type descriptor not asked for as `CallableInfo`) is exactly what it waits on when nothing is cached |
| `Resolution.DependencyFromCache` | fundi_alt/resolve.py:16-53 | a parameter with a dependency takes `cache[id(call)]` when that call is cached and waits on it otherwise; for any other parameter the cache changes nothing |
| `Resolution.ByNameFound` | fundi_alt/resolve.py:55-56 | a by-name parameter whose name is found receives the value found |
| `Resolution.CacheMonotone` | fundi_alt/resolve.py:16-53 | a larger cache never undoes a decision, and turns a pending dependency into its cached value |
| `Injector.Inject` | fundi_alt/inject.py:75-112 | the injector on scope objects returns what `Injection` defines, and leaves the caller's `visited` and cache as `Injection` defines, for both modes |
| `Injector.SupplyArgument` | fundi_alt/inject.py:49-67 | one parameter's value on scope objects, in a new child scope when a dependency is injected, is what `Supplied` defines |
| `Injector.Injection` | fundi_alt/inject.py:75-112 | `inject`/`ainject` on a scope's state: the caller's `visited` only grows, and every entry already in its cache is kept unchanged; `InjectionSteps`, `SyncRejectsAsyncTarget` and `CycleRejected` give the exact outcome |
| `Injector.InjectionSteps` | fundi_alt/inject.py:85-109 | for every target that passes both checks: `visited` becomes `visited + {call}`, the cache is the one the parameter loop leaves, a failed parameter's own error is the result, and otherwise the target's return value or its exception (as `Raised`) is |
| `Injector.Collect` | fundi_alt/inject.py:47-69 | the parameter loop of `injection_impl`: cache entries are kept, and the collected arguments extend the ones already collected |
| `Injector.Supplied` | fundi_alt/inject.py:49-67 | one parameter's value: existing cache entries are kept, and a failure leaves the cache as it was |
| `Injector.SuppliedReusesCache` | fundi_alt/inject.py:64-65 | a parameter whose dependency is already cached takes the cached value; nothing is injected or invoked |
| `Injector.SuppliedInjectsDependency` | fundi_alt/inject.py:59-67 | an uncached dependency is injected in the parameter's child scope with a fresh cache; its result is stored under its call exactly when it succeeded and is cacheable |
| `Injector.CacheWritesDirectDependencies` | fundi_alt/inject.py:93-104 | every key added to the caller's cache is the call of one of the target's own cacheable dependencies, never of a nested one |
| `Injector.SyncRejectsAsyncTarget` | fundi_alt/inject.py:82-83 | the blocking injector rejects an async target first; it invokes nothing and changes neither `visited` nor the cache |
| `Injector.CycleRejected` | fundi_alt/inject.py:88-89 | a target already on the path (for `inject`, unless the target is async) fails with the cycle error naming it and the path, and nothing is invoked |
| `Injector.CycleErrorOnPath` | fundi_alt/inject.py:88-104 | a cycle error raised anywhere below a target names a call on its path, and that path contains the caller's path and the target |
| `Injector.SyncInvokesNoAsyncTarget` | fundi_alt/inject.py:82-104 | the blocking injector never invokes an async target, at any depth |
| `Injector.ModesAgree` | fundi_alt/inject.py:75-153 | unless the blocking injector stops on an async target, `inject` and `ainject` give the same result, the same invocations in the same order, and the same `visited` and cache |
| `Injector.AsyncInTreeFailsSync` | fundi_alt/inject.py:82-104 | if `ainject` would invoke an async target anywhere in the tree, `inject` fails with the blocking injector's error |
| `Injector.AsyncAcceptsAsyncTargets` | fundi_alt/inject.py:115-153 | `ainject` never raises the blocking injector's error |
| `Injector.CacheOnlyGrows` | fundi_alt/inject.py:64-65 | the caller's cache only grows; every added entry is the call of a cacheable target that was invoked |
| `Injector.InvokedLast` | fundi_alt/inject.py:69-109 | a target that returns a value was invoked last, after its dependencies, and its result is that invocation's result on the collected arguments |
| `Injector.ArgumentsNameEveryParameter` | fundi_alt/inject.py:47-69 | the arguments collected are keyed by exactly the target's parameter names |
| `Injector.ChildHoldsOnlyParameter` | fundi_alt/inject.py:59-60 | a dependency's scope holds its parameter under `__fundi_parameter__`, and a by-name lookup of any other name fails there |
| `Injector.SelfDependencyIsCycle` | fundi_alt/inject.py:88-89 | a target that depends on itself fails with a cycle on its own call |
| `Injector.MutualDependencyIsCycle` | fundi_alt/inject.py:88-104 | two targets that depend on each other fail with a cycle whose path holds both, and nothing is invoked |
| `Injector.LeafInvoked` | fundi_alt/inject.py:96-109 | a target without parameters is invoked once, with no arguments |
| `Injector.SingleDependency` | fundi_alt/inject.py:59-69 | a target with one dependency invokes the dependency, caches it, then invokes the target with the dependency's result |
| `Injector.CacheSharedAcrossParameters` | fundi_alt/inject.py:64-65 | example: when a target has two parameters on one leaf dependency, the leaf is invoked once if it is cacheable and twice if it is not; the general law is `SuppliedReusesCache` |
| `Injector.DiamondNotShared` | fundi_alt/inject.py:104 | example: in a diamond, the shared dependency is invoked once for each sibling, and only the two siblings reach the caller's cache; the general law is `CacheWritesDirectDependencies` |
| `Injector.AsyncDependency` | fundi_alt/inject.py:82-142 | an async dependency stops `inject` before anything is invoked; `ainject` invokes it and then the target |

## Left out

- Signature scanning (`fundi.scan`) and the decorator `resolver`, which
  returns the function it registers. The model works on the descriptors
  scanning produces. `Scopes.Scope.constructor` and `Scopes.Scope.Resolver`
  take descriptors rather than callables.
- Calling a target (`call_sync`/`call_async` with an `ExitStack`), context
  manager cleanup, and awaiting.
  - A target's invocation is the function `Runtime.invoke`: a result or an
    exception number.
  - Exit-stack cleanup is not modelled.
  - `ainject` chooses between `call_async` and `call_sync`
    (`fundi_alt/inject.py:147-150`). The model does not tell them apart:
    both are `invoke`.
- `isinstance` is the parameter `Runtime.isInstance`. The `TypeError` it can
  raise for an annotation that is not a class is not modelled.
- The generator protocol between `injection_impl` and `inject`
  (`send`/`throw`), and `add_injection_trace`. An exception propagates
  unchanged through every level, and that is what the model states. The
  trace attached to it is not modelled.
- Exception messages and types beyond the ones in `Model.Error`
  (`fundi_alt/exceptions.py` is not part of this model). The `ValueError`
  of the blocking injector is `AsyncNotSupported`.
- The `values` and `resolvers` properties, which return copies of the
  tables. `Scopes.Scope.State` exposes the same tables.
- `fundi_alt/wrapper.py` and `fundi_alt/__init__.py` are not part of this
  model.
- Side effects of targets on scopes. In the source, `resolve` reads the
  scope lazily (`fundi_alt/resolve.py:29`, `56`), after earlier
  dependencies have run. A target that changes a scope it holds a
  reference to therefore changes later lookups. The model runs every
  lookup of one injection on the unchanged scope state.
- Object identity:
  - The injection path (`visited`, which holds callables) and the cache
    (keyed by `id(call)`) both use `CallId`, a 64-bit address.
  - Two descriptors of the same callable share a `CallId`.
  - Python's recursion limit is not modelled.
- `Resolution.Resolve` decides one parameter per call. The lazy generator
  is not modelled. Instead, `Injector.Collect` asks for the decisions in
  parameter order and hands each one the cache as the earlier parameters
  left it, which is when the generator reads the cache.
