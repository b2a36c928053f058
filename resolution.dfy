/** `resolve`: the decision taken for one parameter of a target, given a
    scope and the cache of results already computed (call identity to
    value). The parameter is either resolved now or pending on a
    dependency that must be injected first. The generator of the code
    yields these decisions one parameter at a time, in declaration order;
    here each decision is one call, and the injector asks for them in that
    order (see `Injection.Collect`). */
module Resolution {
  import opened Model
  import opened Annotations
  import opened Scopes

  type Cache = map<CallId, Value>

  /** `ParameterResult`: resolved with a value (and the dependency it came
      from, when it came from the cache), or pending on a dependency. */
  datatype ParamResult = Resolved(value: Value, via: Option<CallableInfo>) | Pending(dependency: CallableInfo)

  /** A dependency checked against the cache. */
  function FromCache(d: CallableInfo, cache: Cache): ParamResult {
    if d.call in cache then Resolved(cache[d.call], Some(d)) else Pending(d)
  }

  /** The fallback of a failed lookup: the default when there is one, else the lookup's error. */
  function OrDefault(p: Parameter, e: Error): Result<ParamResult, Error> {
    if p.defaultValue.Some? then Ok(Resolved(p.defaultValue.value, None)) else Err(e)
  }

  function Resolve(s: ScopeState, cache: Cache, p: Parameter, isInstance: (Value, Ann) -> bool): (r: Result<ParamResult, Error>)
    ensures r.Ok? && r.value.Pending? ==> r.value.dependency.call !in cache
    ensures r.Err? ==> p.fromDependency.None? && p.defaultValue.None? && r.error.ScopeResolution?
  {
    if p.fromDependency.Some? then Ok(FromCache(p.fromDependency.value, cache))
    else if p.byType then
      var annotation := Normalize(p.annotation);
      match LookupType(s, annotation, isInstance)
      case Err(e) => OrDefault(p, e)
      case Ok(v) =>
        if !v.Info? then Ok(Resolved(v, None))
        else if CallableInfoType in annotation then Ok(Resolved(v, None))
        else Ok(FromCache(v.info, cache))
    else
      match LookupName(s, p.name)
      case Ok(v) => Ok(Resolved(v, None))
      case Err(e) => OrDefault(p, e)
  }

  /** An explicit dependency (`from_`) takes priority: the decision depends on
      the dependency and the cache only, not on the scope or on any other
      attribute of the parameter. A by-type parameter does not depend on
      its name, and a by-name parameter neither on its annotation nor on
      the cache. */
  lemma ResolvePriority(s: ScopeState, s': ScopeState, cache: Cache, cache': Cache, p: Parameter, q: Parameter, isInstance: (Value, Ann) -> bool)
    ensures p.fromDependency.Some? && q.fromDependency == p.fromDependency ==>
      Resolve(s, cache, p, isInstance) == Resolve(s', cache, q, isInstance)
    ensures p.fromDependency.None? && p.byType && q == p.(name := q.name) ==>
      Resolve(s, cache, p, isInstance) == Resolve(s, cache, q, isInstance)
    ensures p.fromDependency.None? && !p.byType && q == p.(annotation := q.annotation) ==>
      Resolve(s, cache, p, isInstance) == Resolve(s, cache', q, isInstance)
  {
  }

  /** A parameter is pending on `d` exactly when `d` is not cached and `d` is
      its explicit dependency, or it is resolved by type to the descriptor
      `d` while the annotation does not ask for a descriptor. */
  lemma PendingExactly(s: ScopeState, cache: Cache, p: Parameter, isInstance: (Value, Ann) -> bool, d: CallableInfo)
    ensures Resolve(s, cache, p, isInstance) == Ok(Pending(d)) <==>
      d.call !in cache &&
      (p.fromDependency == Some(d) ||
       (p.fromDependency.None? && p.byType &&
        LookupType(s, Normalize(p.annotation), isInstance) == Ok(Info(d)) &&
        CallableInfoType !in Normalize(p.annotation)))
  {
  }

  /** Resolution fails exactly when the parameter has no explicit dependency,
      no default, and its lookup (by type or by name) fails; the failure is
      that lookup's, naming the normalized tuple or the parameter's name. */
  lemma FailsExactly(s: ScopeState, cache: Cache, p: Parameter, isInstance: (Value, Ann) -> bool)
    ensures Resolve(s, cache, p, isInstance).Err? <==>
      p.fromDependency.None? && p.defaultValue.None? &&
      (if p.byType then LookupType(s, Normalize(p.annotation), isInstance).Err?
       else LookupName(s, p.name).Err?)
    ensures Resolve(s, cache, p, isInstance).Err? ==>
      Resolve(s, cache, p, isInstance).error ==
        ScopeResolution(if p.byType then TypesKey(Normalize(p.annotation)) else NameKey(p.name))
  {
  }

  /** A failed lookup falls back to the declared default. */
  lemma DefaultOnMiss(s: ScopeState, cache: Cache, p: Parameter, isInstance: (Value, Ann) -> bool)
    requires p.fromDependency.None? && p.defaultValue.Some?
    requires if p.byType then LookupType(s, Normalize(p.annotation), isInstance).Err? else LookupName(s, p.name).Err?
    ensures Resolve(s, cache, p, isInstance) == Ok(Resolved(p.defaultValue.value, None))
  {
  }

  /** A by-type lookup that finds a descriptor hands the descriptor itself to
      a parameter annotated with `CallableInfo`, whatever the cache holds;
      any other result that is not a descriptor is used as found. */
  lemma ByTypeFound(s: ScopeState, cache: Cache, p: Parameter, isInstance: (Value, Ann) -> bool, v: Value)
    requires p.fromDependency.None? && p.byType
    requires LookupType(s, Normalize(p.annotation), isInstance) == Ok(v)
    requires !v.Info? || CallableInfoType in Normalize(p.annotation)
    ensures Resolve(s, cache, p, isInstance) == Ok(Resolved(v, None))
  {
  }

  /** The cache is only read, and only at the identity of the dependency in
      question: a larger cache never undoes a resolution, and turns a
      pending dependency into its cached value once that is present. */
  lemma CacheMonotone(s: ScopeState, cache: Cache, larger: Cache, p: Parameter, isInstance: (Value, Ann) -> bool)
    requires forall k :: k in cache ==> k in larger && larger[k] == cache[k]
    ensures var r := Resolve(s, cache, p, isInstance);
      var r' := Resolve(s, larger, p, isInstance);
      (r.Err? ==> r' == r) &&
      (r.Ok? && r.value.Resolved? ==> r' == r) &&
      (r.Ok? && r.value.Pending? ==> r' == Ok(FromCache(r.value.dependency, larger)))
  {
  }

  /** The descriptor a parameter depends on, if any: its `from_`, or the
      descriptor its by-type lookup finds when the annotation does not ask
      for a `CallableInfo`. It is what the parameter waits on when nothing is
      cached. */
  function Dependency(s: ScopeState, p: Parameter, isInstance: (Value, Ann) -> bool): (r: Option<CallableInfo>)
    ensures r.Some? <==> Resolve(s, map[], p, isInstance).Ok? && Resolve(s, map[], p, isInstance).value.Pending?
    ensures r.Some? ==> Resolve(s, map[], p, isInstance).value.dependency == r.value
  {
    if p.fromDependency.Some? then p.fromDependency
    else if p.byType then
      var annotation := Normalize(p.annotation);
      match LookupType(s, annotation, isInstance)
      case Ok(Info(d)) => if CallableInfoType in annotation then None else Some(d)
      case _ => None
    else None
  }

  /** The cache matters only for a parameter with a dependency: such a
      parameter takes `cache[id(call)]` when its call is cached and waits on
      the dependency otherwise; any other parameter's decision is the same
      whatever the cache holds. */
  lemma DependencyFromCache(s: ScopeState, cache: Cache, p: Parameter, isInstance: (Value, Ann) -> bool)
    ensures var dep := Dependency(s, p, isInstance);
      dep.Some? ==> Resolve(s, cache, p, isInstance) == Ok(FromCache(dep.value, cache))
    ensures var dep := Dependency(s, p, isInstance);
      dep.Some? && dep.value.call in cache ==>
        Resolve(s, cache, p, isInstance) == Ok(Resolved(cache[dep.value.call], Some(dep.value)))
    ensures Dependency(s, p, isInstance).None? ==> Resolve(s, cache, p, isInstance) == Resolve(s, map[], p, isInstance)
  {
  }

  /** A by-name parameter whose name is found receives the value found. */
  lemma ByNameFound(s: ScopeState, cache: Cache, p: Parameter, isInstance: (Value, Ann) -> bool, v: Value)
    requires p.fromDependency.None? && !p.byType && LookupName(s, p.name) == Ok(v)
    ensures Resolve(s, cache, p, isInstance) == Ok(Resolved(v, None))
  {
  }
}
