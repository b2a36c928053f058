/** `inject` / `ainject` and `injection_impl`: the recursive injector. For
    each parameter of a target, in declaration order, it takes the decision
    of `Resolution.Resolve`; a pending dependency is injected first, in a
    child scope stamped with the parameter, and its result is cached when
    the dependency is cacheable. Once every parameter has a value, the
    target is invoked with them.

    `Injection` and `Collect` state the algorithm as functions of the scope
    chain's state; the method `Inject` performs it on `Scope` objects and is
    proved to agree with them. The blocking (`inject`) and suspendable
    (`ainject`) variants are one algorithm with a `Mode`. */
module Injector {
  import opened Model
  import opened OrderedDict
  import opened Scopes
  import opened Resolution

  /** The name under which a child scope carries the parameter it was created for. */
  const ParameterKey: string := "__fundi_parameter__"

  /** `Sync` is `inject`, which refuses async targets; `Async` is `ainject`. */
  datatype Mode = Sync | Async

  /** What one injection produces: the target's result or the error raised,
      the caller's `visited` set as the call leaves it, the cache as the
      call leaves it, and the targets invoked, in order. */
  datatype Outcome = Outcome(result: Result<Value, Error>, visited: set<CallId>, cache: Cache, invoked: seq<CallableInfo>)

  /** The progress of collecting a target's arguments: the argument map (or
      the error that stopped it), the cache and the targets invoked so far. */
  datatype Collected = Collected(args: Result<map<string, Value>, Error>, cache: Cache, invoked: seq<CallableInfo>)

  /** What supplying one parameter produces: its value or the error that
      stops the injection, the cache afterwards, and the targets invoked. */
  datatype Supply = Supply(value: Result<Value, Error>, cache: Cache, invoked: seq<CallableInfo>)

  /** The state a dependency of parameter `p` is injected in: a child of `s`
      whose only value is `p`, under `ParameterKey`. */
  function ChildState(s: ScopeState, p: Parameter): ScopeState {
    ScopeState([(ParameterKey, Param(p))], [], Some(s))
  }

  /** Invoking a target: an exception it raises surfaces unchanged, as `Raised`. */
  function Invoke(rt: Runtime, info: CallableInfo, args: map<string, Value>): Result<Value, Error> {
    match rt.invoke(info, args)
    case Ok(v) => Ok(v)
    case Err(x) => Err(Raised(x))
  }

  /** `inject(scope, info, stack, visited, cache)` (mode `Sync`) and
      `ainject(...)` (mode `Async`), on the state `s` of the scope. */
  function Injection(s: ScopeState, info: CallableInfo, visited: set<CallId>, cache: Cache, mode: Mode, rt: Runtime): (o: Outcome)
    ensures visited <= o.visited
    ensures forall k :: k in cache ==> k in o.cache && o.cache[k] == cache[k]
    decreases AllCalls - (visited + {info.call}), if info.call in visited then 0 else 3, 0
  {
    if mode == Sync && info.isAsync then Outcome(Err(AsyncNotSupported), visited, cache, [])
    else if info.call in visited then Outcome(Err(DependencyCycle(info.call, visited)), visited, cache, [])
    else
      var path := visited + {info.call};
      var c := Collect(s, info, 0, map[], path, cache, [], mode, rt);
      match c.args
      case Err(e) => Outcome(Err(e), path, c.cache, c.invoked)
      case Ok(args) => Outcome(Invoke(rt, info, args), path, c.cache, c.invoked + [info])
  }

  /** `injection_impl` from parameter `i` on: `args`, `cache` and `invoked`
      are what the earlier parameters left. The first parameter without a
      value stops the collection with its error. */
  function Collect(s: ScopeState, info: CallableInfo, i: nat, args: map<string, Value>, path: set<CallId>,
                   cache: Cache, invoked: seq<CallableInfo>, mode: Mode, rt: Runtime): (c: Collected)
    requires i <= |info.parameters|
    ensures forall k :: k in cache ==> k in c.cache && c.cache[k] == cache[k]
    ensures c.args.Ok? ==> args.Keys <= c.args.value.Keys
    decreases AllCalls - path, 2, |info.parameters| - i
  {
    if i == |info.parameters| then Collected(Ok(args), cache, invoked)
    else
      var p := info.parameters[i];
      var a := Supplied(s, p, path, cache, mode, rt);
      match a.value
      case Err(e) => Collected(Err(e), a.cache, invoked + a.invoked)
      case Ok(v) => Collect(s, info, i + 1, args[p.name := v], path, a.cache, invoked + a.invoked, mode, rt)
  }

  /** The value one parameter receives: the decision of `Resolve`, and for a
      pending dependency the result of injecting it, with a copy of `path`
      and a fresh, empty cache, in a child scope stamped with the parameter.
      A cacheable dependency's result is added to the cache. */
  function Supplied(s: ScopeState, p: Parameter, path: set<CallId>, cache: Cache, mode: Mode, rt: Runtime): (a: Supply)
    ensures forall k :: k in cache ==> k in a.cache && a.cache[k] == cache[k]
    ensures a.value.Err? ==> a.cache == cache
    decreases AllCalls - path, 1, 0
  {
    match Resolve(s, cache, p, rt.isInstance)
    case Err(e) => Supply(Err(e), cache, [])
    case Ok(Resolved(v, _)) => Supply(Ok(v), cache, [])
    case Ok(Pending(d)) =>
      var sub := Injection(ChildState(s, p), d, path, map[], mode, rt);
      match sub.result
      case Err(e) => Supply(Err(e), cache, sub.invoked)
      case Ok(v) => Supply(Ok(v), if d.useCache then cache[d.call := v] else cache, sub.invoked)
  }

  /** The injector on `Scope` objects. It changes no existing scope: each
      dependency gets a new child scope. The returned set and cache are the
      caller's `visited` and `cache` as the call leaves them. */
  method Inject(scope: Scope, info: CallableInfo, visited: set<CallId>, cache: Cache, mode: Mode, rt: Runtime)
    returns (r: Result<Value, Error>, visitedAfter: set<CallId>, cacheAfter: Cache)
    requires scope.Linked()
    ensures var o := Injection(scope.State(), info, visited, cache, mode, rt);
      r == o.result && visitedAfter == o.visited && cacheAfter == o.cache
    decreases AllCalls - (visited + {info.call}), if info.call in visited then 0 else 3
  {
    if mode == Sync && info.isAsync {
      return Err(AsyncNotSupported), visited, cache;
    }
    if info.call in visited {
      return Err(DependencyCycle(info.call, visited)), visited, cache;
    }
    visitedAfter := visited + {info.call};
    cacheAfter := cache;
    ghost var s := scope.State();
    var args: map<string, Value> := map[];
    ghost var invoked: seq<CallableInfo> := [];
    var i := 0;
    while i < |info.parameters|
      invariant 0 <= i <= |info.parameters|
      invariant scope.State() == s
      invariant Collect(s, info, i, args, visitedAfter, cacheAfter, invoked, mode, rt) ==
                Collect(s, info, 0, map[], visitedAfter, cache, [], mode, rt)
    {
      var p := info.parameters[i];
      ghost var a := Supplied(s, p, visitedAfter, cacheAfter, mode, rt);
      var value;
      value, cacheAfter := SupplyArgument(scope, p, visitedAfter, cacheAfter, mode, rt);
      if value.Err? {
        return Err(value.error), visitedAfter, cacheAfter;
      }
      args := args[p.name := value.value];
      invoked := invoked + a.invoked;
      i := i + 1;
    }
    r := Invoke(rt, info, args);
  }

  /** `Supplied` on `Scope` objects: the dependency, when there is one, is
      injected in a new child of `scope`. */
  method SupplyArgument(scope: Scope, p: Parameter, path: set<CallId>, cache: Cache, mode: Mode, rt: Runtime)
    returns (value: Result<Value, Error>, cacheAfter: Cache)
    requires scope.Linked()
    ensures var a := Supplied(scope.State(), p, path, cache, mode, rt);
      value == a.value && cacheAfter == a.cache
    decreases AllCalls - path, 1
  {
    var decision := Resolve(scope.State(), cache, p, rt.isInstance);
    cacheAfter := cache;
    match decision {
      case Err(e) =>
        value := Err(e);
      case Ok(Resolved(v, _)) =>
        value := Ok(v);
      case Ok(Pending(d)) =>
        var child := scope.Child();
        child.Value(ParameterKey, Param(p));
        assert child.State() == ChildState(scope.State(), p);
        var sub, _, _ := Inject(child, d, path, map[], mode, rt);
        value := sub;
        if sub.Ok? && d.useCache {
          cacheAfter := cache[d.call := sub.value];
        }
    }
  }

  /** The calls of the cacheable targets in `invoked`. */
  function CacheableCalls(invoked: seq<CallableInfo>): set<CallId> {
    set t | t in invoked && t.useCache :: t.call
  }

  /** `cache` extends `base` without changing any entry of it, and every
      entry it adds is the call of a cacheable target in `invoked`. */
  ghost predicate CachedBy(base: Cache, cache: Cache, invoked: seq<CallableInfo>) {
    (forall k :: k in base ==> k in cache && cache[k] == base[k]) &&
    (forall k :: k in cache && k !in base ==> k in CacheableCalls(invoked))
  }

  /** The names of the declared parameters. */
  function ParameterNames(parameters: seq<Parameter>): set<string> {
    set p | p in parameters :: p.name
  }

  // ---------------------------------------------------------------------
  // Rejections

  /** The blocking injector refuses an async target before anything else:
      nothing is invoked and the caller's `visited` and `cache` are untouched. */
  lemma SyncRejectsAsyncTarget(s: ScopeState, info: CallableInfo, visited: set<CallId>, cache: Cache, rt: Runtime)
    requires info.isAsync
    ensures Injection(s, info, visited, cache, Sync, rt) == Outcome(Err(AsyncNotSupported), visited, cache, [])
  {
  }

  /** A target whose call is already on the injection path is a cycle: the
      error names the call and the path, and nothing is invoked. */
  lemma CycleRejected(s: ScopeState, info: CallableInfo, visited: set<CallId>, cache: Cache, mode: Mode, rt: Runtime)
    requires info.call in visited && !(mode == Sync && info.isAsync)
    ensures Injection(s, info, visited, cache, mode, rt) ==
            Outcome(Err(DependencyCycle(info.call, visited)), visited, cache, [])
  {
  }

  /** A dependency cycle error, wherever it is raised below a target, names
      a call on the path it was found on, and that path extends the path the
      target was injected with, target included. */
  lemma {:induction false} CycleErrorOnPath(s: ScopeState, info: CallableInfo, visited: set<CallId>, cache: Cache, mode: Mode, rt: Runtime)
    ensures var r := Injection(s, info, visited, cache, mode, rt).result;
      r.Err? && r.error.DependencyCycle? ==>
        r.error.call in r.error.visited && visited + {info.call} <= r.error.visited
    decreases AllCalls - (visited + {info.call}), if info.call in visited then 0 else 3, 0
  {
    if !(mode == Sync && info.isAsync) && info.call !in visited {
      CollectCycleErrorOnPath(s, info, 0, map[], visited + {info.call}, cache, [], mode, rt);
    }
  }

  lemma {:induction false} CollectCycleErrorOnPath(s: ScopeState, info: CallableInfo, i: nat, args: map<string, Value>, path: set<CallId>,
                                                   cache: Cache, invoked: seq<CallableInfo>, mode: Mode, rt: Runtime)
    requires i <= |info.parameters|
    ensures var r := Collect(s, info, i, args, path, cache, invoked, mode, rt).args;
      r.Err? && r.error.DependencyCycle? ==> r.error.call in r.error.visited && path <= r.error.visited
    decreases AllCalls - path, 2, |info.parameters| - i
  {
    if i < |info.parameters| {
      var p := info.parameters[i];
      SuppliedCycleErrorOnPath(s, p, path, cache, mode, rt);
      var a := Supplied(s, p, path, cache, mode, rt);
      if a.value.Ok? {
        CollectCycleErrorOnPath(s, info, i + 1, args[p.name := a.value.value], path, a.cache, invoked + a.invoked, mode, rt);
      }
    }
  }

  lemma {:induction false} SuppliedCycleErrorOnPath(s: ScopeState, p: Parameter, path: set<CallId>, cache: Cache, mode: Mode, rt: Runtime)
    ensures var r := Supplied(s, p, path, cache, mode, rt).value;
      r.Err? && r.error.DependencyCycle? ==> r.error.call in r.error.visited && path <= r.error.visited
    decreases AllCalls - path, 1, 0
  {
    match Resolve(s, cache, p, rt.isInstance)
    case Ok(Pending(d)) =>
      CycleErrorOnPath(ChildState(s, p), d, path, map[], mode, rt);
    case _ =>
  }

  // ---------------------------------------------------------------------
  // The two injectors

  /** The blocking injector never invokes an async target, however deep. */
  lemma {:induction false} SyncInvokesNoAsyncTarget(s: ScopeState, info: CallableInfo, visited: set<CallId>, cache: Cache, rt: Runtime)
    ensures forall t :: t in Injection(s, info, visited, cache, Sync, rt).invoked ==> !t.isAsync
    decreases AllCalls - (visited + {info.call}), if info.call in visited then 0 else 3, 0
  {
    if !info.isAsync && info.call !in visited {
      CollectInvokesNoAsyncTarget(s, info, 0, map[], visited + {info.call}, cache, [], rt);
    }
  }

  lemma {:induction false} CollectInvokesNoAsyncTarget(s: ScopeState, info: CallableInfo, i: nat, args: map<string, Value>, path: set<CallId>,
                                                       cache: Cache, invoked: seq<CallableInfo>, rt: Runtime)
    requires i <= |info.parameters|
    requires forall t :: t in invoked ==> !t.isAsync
    ensures forall t :: t in Collect(s, info, i, args, path, cache, invoked, Sync, rt).invoked ==> !t.isAsync
    decreases AllCalls - path, 2, |info.parameters| - i
  {
    if i < |info.parameters| {
      var p := info.parameters[i];
      var a := Supplied(s, p, path, cache, Sync, rt);
      var r := Resolve(s, cache, p, rt.isInstance);
      if r.Ok? && r.value.Pending? {
        SyncInvokesNoAsyncTarget(ChildState(s, p), r.value.dependency, path, map[], rt);
      }
      if a.value.Ok? {
        CollectInvokesNoAsyncTarget(s, info, i + 1, args[p.name := a.value.value], path, a.cache, invoked + a.invoked, rt);
      }
    }
  }

  /** Unless the blocking injector stops on an async target, the two
      injectors do the same thing: same result, same calls in the same
      order, same `visited` and cache afterwards. */
  lemma {:induction false} ModesAgree(s: ScopeState, info: CallableInfo, visited: set<CallId>, cache: Cache, rt: Runtime)
    requires Injection(s, info, visited, cache, Sync, rt).result != Err(AsyncNotSupported)
    ensures Injection(s, info, visited, cache, Sync, rt) == Injection(s, info, visited, cache, Async, rt)
    decreases AllCalls - (visited + {info.call}), if info.call in visited then 0 else 3, 0
  {
    if info.call !in visited {
      CollectModesAgree(s, info, 0, map[], visited + {info.call}, cache, [], rt);
    }
  }

  lemma {:induction false} CollectModesAgree(s: ScopeState, info: CallableInfo, i: nat, args: map<string, Value>, path: set<CallId>,
                                             cache: Cache, invoked: seq<CallableInfo>, rt: Runtime)
    requires i <= |info.parameters|
    requires Collect(s, info, i, args, path, cache, invoked, Sync, rt).args != Err(AsyncNotSupported)
    ensures Collect(s, info, i, args, path, cache, invoked, Sync, rt) == Collect(s, info, i, args, path, cache, invoked, Async, rt)
    decreases AllCalls - path, 2, |info.parameters| - i
  {
    if i < |info.parameters| {
      var p := info.parameters[i];
      var a := Supplied(s, p, path, cache, Sync, rt);
      var r := Resolve(s, cache, p, rt.isInstance);
      if r.Ok? && r.value.Pending? {
        ModesAgree(ChildState(s, p), r.value.dependency, path, map[], rt);
      }
      if a.value.Ok? {
        CollectModesAgree(s, info, i + 1, args[p.name := a.value.value], path, a.cache, invoked + a.invoked, rt);
      }
    }
  }

  /** The suspendable injector never raises the blocking injector's error. */
  lemma {:induction false} AsyncAcceptsAsyncTargets(s: ScopeState, info: CallableInfo, visited: set<CallId>, cache: Cache, rt: Runtime)
    ensures Injection(s, info, visited, cache, Async, rt).result != Err(AsyncNotSupported)
    decreases AllCalls - (visited + {info.call}), if info.call in visited then 0 else 3, 0
  {
    if info.call !in visited {
      CollectAcceptsAsyncTargets(s, info, 0, map[], visited + {info.call}, cache, [], rt);
    }
  }

  lemma {:induction false} CollectAcceptsAsyncTargets(s: ScopeState, info: CallableInfo, i: nat, args: map<string, Value>, path: set<CallId>,
                                                      cache: Cache, invoked: seq<CallableInfo>, rt: Runtime)
    requires i <= |info.parameters|
    ensures Collect(s, info, i, args, path, cache, invoked, Async, rt).args != Err(AsyncNotSupported)
    decreases AllCalls - path, 2, |info.parameters| - i
  {
    if i < |info.parameters| {
      var p := info.parameters[i];
      var a := Supplied(s, p, path, cache, Async, rt);
      var r := Resolve(s, cache, p, rt.isInstance);
      if r.Ok? && r.value.Pending? {
        AsyncAcceptsAsyncTargets(ChildState(s, p), r.value.dependency, path, map[], rt);
      }
      if a.value.Ok? {
        CollectAcceptsAsyncTargets(s, info, i + 1, args[p.name := a.value.value], path, a.cache, invoked + a.invoked, rt);
      }
    }
  }

  /** An async target anywhere in the tree makes the blocking injector fail
      with its error: whatever `ainject` would invoke that is async, `inject`
      stops before. */
  lemma AsyncInTreeFailsSync(s: ScopeState, info: CallableInfo, visited: set<CallId>, cache: Cache, rt: Runtime, t: CallableInfo)
    requires t in Injection(s, info, visited, cache, Async, rt).invoked && t.isAsync
    ensures Injection(s, info, visited, cache, Sync, rt).result == Err(AsyncNotSupported)
  {
    if Injection(s, info, visited, cache, Sync, rt).result != Err(AsyncNotSupported) {
      ModesAgree(s, info, visited, cache, rt);
      SyncInvokesNoAsyncTarget(s, info, visited, cache, rt);
    }
  }

  // ---------------------------------------------------------------------
  // The cache and the invocation

  /** The caller's cache only grows: no entry is changed or dropped, and
      every entry added is the call of a cacheable target that was invoked. */
  lemma {:induction false} CacheOnlyGrows(s: ScopeState, info: CallableInfo, visited: set<CallId>, cache: Cache, mode: Mode, rt: Runtime)
    ensures var o := Injection(s, info, visited, cache, mode, rt); CachedBy(cache, o.cache, o.invoked)
  {
    if !(mode == Sync && info.isAsync) && info.call !in visited {
      var path := visited + {info.call};
      CollectCacheOnlyGrows(s, info, 0, map[], path, cache, cache, [], mode, rt);
      var c := Collect(s, info, 0, map[], path, cache, [], mode, rt);
      if c.args.Ok? {
        assert CacheableCalls(c.invoked) <= CacheableCalls(c.invoked + [info]);
      }
    }
  }

  lemma {:induction false} CollectCacheOnlyGrows(s: ScopeState, info: CallableInfo, i: nat, args: map<string, Value>, path: set<CallId>,
                                                 base: Cache, cache: Cache, invoked: seq<CallableInfo>, mode: Mode, rt: Runtime)
    requires i <= |info.parameters|
    requires CachedBy(base, cache, invoked)
    ensures var c := Collect(s, info, i, args, path, cache, invoked, mode, rt); CachedBy(base, c.cache, c.invoked)
    decreases |info.parameters| - i
  {
    if i < |info.parameters| {
      var p := info.parameters[i];
      var a := Supplied(s, p, path, cache, mode, rt);
      SuppliedCacheOnlyGrows(s, p, path, cache, mode, rt);
      assert CacheableCalls(invoked) + CacheableCalls(a.invoked) == CacheableCalls(invoked + a.invoked);
      assert CachedBy(base, a.cache, invoked + a.invoked);
      if a.value.Ok? {
        CollectCacheOnlyGrows(s, info, i + 1, args[p.name := a.value.value], path, base, a.cache, invoked + a.invoked, mode, rt);
      }
    }
  }

  lemma {:induction false} SuppliedCacheOnlyGrows(s: ScopeState, p: Parameter, path: set<CallId>, cache: Cache, mode: Mode, rt: Runtime)
    ensures var a := Supplied(s, p, path, cache, mode, rt); CachedBy(cache, a.cache, a.invoked)
  {
    match Resolve(s, cache, p, rt.isInstance)
    case Ok(Pending(d)) =>
      var sub := Injection(ChildState(s, p), d, path, map[], mode, rt);
      if sub.result.Ok? && d.useCache {
        InvokedLast(ChildState(s, p), d, path, map[], mode, rt);
        assert d in sub.invoked;
      }
    case _ =>
  }

  /** A parameter whose dependency is already cached takes the cached value:
      the dependency is not injected again and nothing is invoked. */
  lemma SuppliedReusesCache(s: ScopeState, p: Parameter, path: set<CallId>, cache: Cache, mode: Mode, rt: Runtime)
    requires Dependency(s, p, rt.isInstance).Some? && Dependency(s, p, rt.isInstance).value.call in cache
    ensures Supplied(s, p, path, cache, mode, rt) ==
            Supply(Ok(cache[Dependency(s, p, rt.isInstance).value.call]), cache, [])
  {
    DependencyFromCache(s, cache, p, rt.isInstance);
  }

  /** A parameter whose dependency `d` is not cached gets the result of
      injecting `d` in its child scope with a fresh cache; the caller's
      cache then holds that result under `d`'s call exactly when `d` is
      cacheable and the injection succeeded, and is otherwise unchanged. */
  lemma SuppliedInjectsDependency(s: ScopeState, p: Parameter, path: set<CallId>, cache: Cache, mode: Mode, rt: Runtime)
    requires Dependency(s, p, rt.isInstance).Some? && Dependency(s, p, rt.isInstance).value.call !in cache
    ensures var d := Dependency(s, p, rt.isInstance).value;
      var sub := Injection(ChildState(s, p), d, path, map[], mode, rt);
      var a := Supplied(s, p, path, cache, mode, rt);
      a.value == sub.result && a.invoked == sub.invoked &&
      a.cache == if sub.result.Ok? && d.useCache then cache[d.call := sub.result.value] else cache
  {
    DependencyFromCache(s, cache, p, rt.isInstance);
  }

  /** The calls of the cacheable dependencies of the parameters, in scope `s`. */
  function CacheableDependencies(s: ScopeState, parameters: seq<Parameter>, isInstance: (Value, Ann) -> bool): set<CallId> {
    set j | 0 <= j < |parameters| && Dependency(s, parameters[j], isInstance).Some? && Dependency(s, parameters[j], isInstance).value.useCache
      :: Dependency(s, parameters[j], isInstance).value.call
  }

  /** Only the target's own cacheable dependencies reach the caller's cache:
      the dependencies of a dependency are cached in that dependency's own,
      fresh cache. */
  lemma {:induction false} CacheWritesDirectDependencies(s: ScopeState, info: CallableInfo, visited: set<CallId>, cache: Cache, mode: Mode, rt: Runtime)
    ensures var o := Injection(s, info, visited, cache, mode, rt);
      forall k :: k in o.cache && k !in cache ==> k in CacheableDependencies(s, info.parameters, rt.isInstance)
  {
    if !(mode == Sync && info.isAsync) && info.call !in visited {
      CollectWritesDirectDependencies(s, info, 0, map[], visited + {info.call}, cache, cache, [], mode, rt);
    }
  }

  lemma {:induction false} CollectWritesDirectDependencies(s: ScopeState, info: CallableInfo, i: nat, args: map<string, Value>, path: set<CallId>,
                                                           base: Cache, cache: Cache, invoked: seq<CallableInfo>, mode: Mode, rt: Runtime)
    requires i <= |info.parameters|
    requires forall k :: k in cache && k !in base ==> k in CacheableDependencies(s, info.parameters, rt.isInstance)
    ensures var c := Collect(s, info, i, args, path, cache, invoked, mode, rt);
      forall k :: k in c.cache && k !in base ==> k in CacheableDependencies(s, info.parameters, rt.isInstance)
    decreases |info.parameters| - i
  {
    if i < |info.parameters| {
      var p := info.parameters[i];
      var a := Supplied(s, p, path, cache, mode, rt);
      var dep := Dependency(s, p, rt.isInstance);
      DependencyFromCache(s, cache, p, rt.isInstance);
      if dep.Some? && dep.value.call !in cache && dep.value.useCache {
        assert dep.value.call in CacheableDependencies(s, info.parameters, rt.isInstance);
      }
      assert forall k :: k in a.cache && k !in base ==> k in CacheableDependencies(s, info.parameters, rt.isInstance);
      if a.value.Ok? {
        CollectWritesDirectDependencies(s, info, i + 1, args[p.name := a.value.value], path, base, a.cache, invoked + a.invoked, mode, rt);
      }
    }
  }

  /** A target that returns a value was invoked last, after everything it
      depends on, with one argument per declared parameter, and its result is
      what that invocation returned. */
  /** A target that passes both checks joins the path, collects its
      arguments with the caller's cache, and then either fails with the
      first failing parameter's own error or is invoked; an exception the
      target raises is the injection's error, as `Raised`. */
  lemma InjectionSteps(s: ScopeState, info: CallableInfo, visited: set<CallId>, cache: Cache, mode: Mode, rt: Runtime)
    requires !(mode == Sync && info.isAsync) && info.call !in visited
    ensures var o := Injection(s, info, visited, cache, mode, rt);
      var c := Collect(s, info, 0, map[], visited + {info.call}, cache, [], mode, rt);
      o.visited == visited + {info.call} && o.cache == c.cache &&
      (c.args.Err? ==> o.result == Err(c.args.error) && o.invoked == c.invoked) &&
      (c.args.Ok? && rt.invoke(info, c.args.value).Err? ==> o.result == Err(Raised(rt.invoke(info, c.args.value).error))) &&
      (c.args.Ok? && rt.invoke(info, c.args.value).Ok? ==> o.result == Ok(rt.invoke(info, c.args.value).value))
  {
  }

  lemma InvokedLast(s: ScopeState, info: CallableInfo, visited: set<CallId>, cache: Cache, mode: Mode, rt: Runtime)
    ensures var o := Injection(s, info, visited, cache, mode, rt);
      o.result.Ok? ==>
        var c := Collect(s, info, 0, map[], visited + {info.call}, cache, [], mode, rt);
        c.args.Ok? && o.result == Invoke(rt, info, c.args.value) && o.invoked == c.invoked + [info]
  {
  }

  /** The arguments collected for a target are keyed by exactly its parameter names. */
  lemma {:induction false} ArgumentsNameEveryParameter(s: ScopeState, info: CallableInfo, i: nat, args: map<string, Value>, path: set<CallId>,
                                                       cache: Cache, invoked: seq<CallableInfo>, mode: Mode, rt: Runtime)
    requires i <= |info.parameters|
    ensures var c := Collect(s, info, i, args, path, cache, invoked, mode, rt);
      c.args.Ok? ==> c.args.value.Keys == args.Keys + ParameterNames(info.parameters[i..])
    decreases |info.parameters| - i
  {
    var ps := info.parameters;
    if i == |ps| {
      assert ps[i..] == [];
    } else {
      var p := ps[i];
      var a := Supplied(s, p, path, cache, mode, rt);
      assert ps[i..] == [p] + ps[i + 1..];
      assert ParameterNames(ps[i..]) == {p.name} + ParameterNames(ps[i + 1..]);
      if a.value.Ok? {
        ArgumentsNameEveryParameter(s, info, i + 1, args[p.name := a.value.value], path, a.cache, invoked + a.invoked, mode, rt);
      }
    }
  }

  // ---------------------------------------------------------------------
  // Child scopes

  /** A dependency's scope holds its parameter under `ParameterKey` and no
      other name: a by-name parameter of a dependency finds nothing but that. */
  lemma ChildHoldsOnlyParameter(s: ScopeState, p: Parameter, name: string)
    ensures LookupName(ChildState(s, p), ParameterKey) == Ok(Param(p))
    ensures name != ParameterKey ==> LookupName(ChildState(s, p), name) == Err(ScopeResolution(NameKey(name)))
  {
  }

  // ---------------------------------------------------------------------
  // Scenarios

  /** A parameter that names its dependency explicitly (`from_`). */
  function DependsOn(name: string, d: CallableInfo): Parameter {
    Parameter(name, Atom("object"), None, Some(d), false)
  }

  /** A synchronous, cacheable target without parameters. */
  function Leaf(call: CallId): CallableInfo {
    CallableInfo(call, [], Atom("object"), false, true)
  }

  /** A synchronous, cacheable target with the given parameters. */
  function Node(call: CallId, parameters: seq<Parameter>): CallableInfo {
    CallableInfo(call, parameters, Atom("object"), false, true)
  }

  /** A target that depends on itself is a cycle on its own call. */
  lemma SelfDependencyIsCycle(s: ScopeState, mode: Mode, rt: Runtime)
    ensures var a := Node(1, [DependsOn("a", Leaf(1))]);
      Injection(s, a, {}, map[], mode, rt).result == Err(DependencyCycle(1, {1}))
  {
    var a := Node(1, [DependsOn("a", Leaf(1))]);
    var p := a.parameters[0];
    var path: set<CallId> := {1};
    assert {} + {a.call} == path;
    assert Resolve(s, map[], p, rt.isInstance) == Ok(Pending(Leaf(1)));
    assert Injection(ChildState(s, p), Leaf(1), path, map[], mode, rt).result == Err(DependencyCycle(1, path));
    assert Supplied(s, p, path, map[], mode, rt).value == Err(DependencyCycle(1, path));
    assert Collect(s, a, 0, map[], path, map[], [], mode, rt).args == Err(DependencyCycle(1, path));
  }

  /** Two targets that depend on each other: injecting the first reaches the
      first again through the second, with both on the path, and nothing is
      invoked. */
  lemma MutualDependencyIsCycle(s: ScopeState, mode: Mode, rt: Runtime)
    ensures var a := Node(1, [DependsOn("b", Node(2, [DependsOn("a", Leaf(1))]))]);
      var o := Injection(s, a, {}, map[], mode, rt);
      o.result == Err(DependencyCycle(1, {1, 2})) && o.invoked == []
  {
    var b := Node(2, [DependsOn("a", Leaf(1))]);
    var a := Node(1, [DependsOn("b", b)]);
    var pa := a.parameters[0];
    var pb := b.parameters[0];
    var sb := ChildState(s, pa);
    var err := Err(DependencyCycle(1, {1, 2}));
    assert {} + {a.call} == {1};
    assert {1} + {b.call} == {1, 2};
    assert Resolve(sb, map[], pb, rt.isInstance) == Ok(Pending(Leaf(1)));
    assert Injection(ChildState(sb, pb), Leaf(1), {1, 2}, map[], mode, rt) == Outcome(err, {1, 2}, map[], []);
    assert Supplied(sb, pb, {1, 2}, map[], mode, rt) == Supply(err, map[], []);
    assert Collect(sb, b, 0, map[], {1, 2}, map[], [], mode, rt) == Collected(Err(err.error), map[], []);
    assert Injection(sb, b, {1}, map[], mode, rt) == Outcome(err, {1, 2}, map[], []);
    assert Resolve(s, map[], pa, rt.isInstance) == Ok(Pending(b));
    assert Supplied(s, pa, {1}, map[], mode, rt) == Supply(err, map[], []);
    assert Collect(s, a, 0, map[], {1}, map[], [], mode, rt) == Collected(Err(err.error), map[], []);
  }

  /** A target without parameters is invoked with no arguments; with an
      empty cache and nothing on the path, it is all that is invoked. */
  lemma LeafInvoked(s: ScopeState, d: CallableInfo, visited: set<CallId>, mode: Mode, rt: Runtime)
    requires d.parameters == [] && !d.isAsync && d.call !in visited
    requires rt.invoke(d, map[]).Ok?
    ensures Injection(s, d, visited, map[], mode, rt) ==
            Outcome(Ok(rt.invoke(d, map[]).value), visited + {d.call}, map[], [d])
  {
    assert Collect(s, d, 0, map[], visited + {d.call}, map[], [], mode, rt) == Collected(Ok(map[]), map[], []);
  }

  /** Within one target the cache is shared: two parameters on the same
      cacheable dependency invoke it once; on a dependency that is not
      cacheable, twice. */
  lemma CacheSharedAcrossParameters(s: ScopeState, mode: Mode, rt: Runtime)
    requires forall t, args :: rt.invoke(t, args).Ok?
    ensures var d := Leaf(1);
      var t := Node(2, [DependsOn("x", d), DependsOn("y", d)]);
      Injection(s, t, {}, map[], mode, rt).invoked == [d, t]
    ensures var d := Leaf(1).(useCache := false);
      var t := Node(2, [DependsOn("x", d), DependsOn("y", d)]);
      Injection(s, t, {}, map[], mode, rt).invoked == [d, d, t]
  {
    var d := Leaf(1);
    var t := Node(2, [DependsOn("x", d), DependsOn("y", d)]);
    var v := rt.invoke(d, map[]).value;
    var path: set<CallId> := {2};
    assert {} + {t.call} == path;
    LeafInvoked(ChildState(s, t.parameters[0]), d, path, mode, rt);
    assert Supplied(s, t.parameters[0], path, map[], mode, rt) == Supply(Ok(v), map[1 := v], [d]);
    assert Supplied(s, t.parameters[1], path, map[1 := v], mode, rt) == Supply(Ok(v), map[1 := v], []);
    var args := map["x" := v, "y" := v];
    assert Collect(s, t, 2, args, path, map[1 := v], [d], mode, rt).invoked == [d];
    assert Collect(s, t, 1, map["x" := v], path, map[1 := v], [d], mode, rt).invoked == [d];
    assert Collect(s, t, 0, map[], path, map[], [], mode, rt).invoked == [d];

    var d' := Leaf(1).(useCache := false);
    var t' := Node(2, [DependsOn("x", d'), DependsOn("y", d')]);
    var v' := rt.invoke(d', map[]).value;
    LeafInvoked(ChildState(s, t'.parameters[0]), d', path, mode, rt);
    LeafInvoked(ChildState(s, t'.parameters[1]), d', path, mode, rt);
    assert Supplied(s, t'.parameters[0], path, map[], mode, rt) == Supply(Ok(v'), map[], [d']);
    assert Supplied(s, t'.parameters[1], path, map[], mode, rt) == Supply(Ok(v'), map[], [d']);
    assert Collect(s, t', 2, map["x" := v', "y" := v'], path, map[], [d', d'], mode, rt).invoked == [d', d'];
    assert Collect(s, t', 1, map["x" := v'], path, map[], [d'], mode, rt).invoked == [d', d'];
    assert Collect(s, t', 0, map[], path, map[], [], mode, rt).invoked == [d', d'];
  }

  /** A dependency is injected with a fresh cache of its own: in a diamond,
      where `c` depends on `a` and `b` and both depend on `d`, the shared
      `d` is invoked once for `a` and once again for `b`. Only the direct
      dependencies of `c` reach the caller's cache. */
  lemma DiamondNotShared(s: ScopeState, mode: Mode, rt: Runtime)
    requires forall t, args :: rt.invoke(t, args).Ok?
    ensures var d := Leaf(1);
      var a := Node(2, [DependsOn("d", d)]);
      var b := Node(3, [DependsOn("d", d)]);
      var c := Node(4, [DependsOn("a", a), DependsOn("b", b)]);
      var o := Injection(s, c, {}, map[], mode, rt);
      o.result.Ok? && o.invoked == [d, a, d, b, c] && o.cache.Keys == {2, 3}
  {
    var d := Leaf(1);
    var a := Node(2, [DependsOn("d", d)]);
    var b := Node(3, [DependsOn("d", d)]);
    var c := Node(4, [DependsOn("a", a), DependsOn("b", b)]);
    var vd := rt.invoke(d, map[]).value;
    SingleDependency(ChildState(s, c.parameters[0]), a, d, {4}, mode, rt);
    SingleDependency(ChildState(s, c.parameters[1]), b, d, {4}, mode, rt);
    var va := rt.invoke(a, map["d" := vd]).value;
    var vb := rt.invoke(b, map["d" := vd]).value;
    var path: set<CallId> := {4};
    assert {} + {c.call} == path;
    assert Supplied(s, c.parameters[0], path, map[], mode, rt) == Supply(Ok(va), map[2 := va], [d, a]);
    assert Supplied(s, c.parameters[1], path, map[2 := va], mode, rt) == Supply(Ok(vb), map[2 := va, 3 := vb], [d, b]);
    var cache := map[2 := va, 3 := vb];
    assert Collect(s, c, 2, map["a" := va, "b" := vb], path, cache, [d, a, d, b], mode, rt) ==
           Collected(Ok(map["a" := va, "b" := vb]), cache, [d, a, d, b]);
    assert Collect(s, c, 1, map["a" := va], path, map[2 := va], [d, a], mode, rt) ==
           Collected(Ok(map["a" := va, "b" := vb]), cache, [d, a, d, b]);
    assert [] + [d, a] == [d, a];
    assert [d, a] + [d, b] == [d, a, d, b];
    assert Collect(s, c, 0, map[], path, map[], [], mode, rt) ==
           Collected(Ok(map["a" := va, "b" := vb]), cache, [d, a, d, b]);
  }

  /** A target whose one parameter depends on a leaf, injected with a fresh
      cache: the leaf is invoked, then the target with the leaf's result. */
  lemma SingleDependency(s: ScopeState, a: CallableInfo, d: CallableInfo, visited: set<CallId>, mode: Mode, rt: Runtime)
    requires forall t, args :: rt.invoke(t, args).Ok?
    requires d == Leaf(1) && a.call !in visited && d.call !in visited + {a.call}
    requires a == Node(a.call, [DependsOn("d", d)])
    ensures var vd := rt.invoke(d, map[]).value;
      Injection(s, a, visited, map[], mode, rt) ==
        Outcome(Ok(rt.invoke(a, map["d" := vd]).value), visited + {a.call}, map[1 := vd], [d, a])
  {
    var path := visited + {a.call};
    var p := a.parameters[0];
    var vd := rt.invoke(d, map[]).value;
    LeafInvoked(ChildState(s, p), d, path, mode, rt);
    assert Supplied(s, p, path, map[], mode, rt) == Supply(Ok(vd), map[1 := vd], [d]);
    assert Collect(s, a, 1, map["d" := vd], path, map[1 := vd], [d], mode, rt) ==
           Collected(Ok(map["d" := vd]), map[1 := vd], [d]);
    assert Collect(s, a, 0, map[], path, map[], [], mode, rt) ==
           Collected(Ok(map["d" := vd]), map[1 := vd], [d]);
  }

  /** The blocking injector stops at an async dependency before invoking
      anything; the suspendable one invokes it and then the target. */
  lemma AsyncDependency(s: ScopeState, rt: Runtime)
    requires forall t, args :: rt.invoke(t, args).Ok?
    ensures var d := Leaf(1).(isAsync := true);
      var t := Node(2, [DependsOn("x", d)]);
      Injection(s, t, {}, map[], Sync, rt) == Outcome(Err(AsyncNotSupported), {2}, map[], []) &&
      Injection(s, t, {}, map[], Async, rt).invoked == [d, t]
  {
    var d := Leaf(1).(isAsync := true);
    var t := Node(2, [DependsOn("x", d)]);
    var p := t.parameters[0];
    var path: set<CallId> := {2};
    assert {} + {t.call} == path;
    var v := rt.invoke(d, map[]).value;
    assert Supplied(s, p, path, map[], Sync, rt) == Supply(Err(AsyncNotSupported), map[], []);
    assert Collect(s, t, 0, map[], path, map[], [], Sync, rt) == Collected(Err(AsyncNotSupported), map[], []);
    assert Injection(ChildState(s, p), d, path, map[], Async, rt) == Outcome(Ok(v), {1, 2}, map[], [d]) by {
      assert Collect(ChildState(s, p), d, 0, map[], {1, 2}, map[], [], Async, rt) == Collected(Ok(map[]), map[], []);
      assert path + {d.call} == {1, 2};
    }
    assert Supplied(s, p, path, map[], Async, rt) == Supply(Ok(v), map[1 := v], [d]);
    assert Collect(s, t, 1, map["x" := v], path, map[1 := v], [d], Async, rt) == Collected(Ok(map["x" := v]), map[1 := v], [d]);
    assert Collect(s, t, 0, map[], path, map[], [], Async, rt) == Collected(Ok(map["x" := v]), map[1 := v], [d]);
  }
}
