/** `Scope`: a chained lookup context holding named values and resolvers
    (dependency descriptors registered under a type tuple), with lookups
    that delegate to the parent scope.

    `ScopeState` is the value a scope chain denotes: its two ordered tables
    and its parent's state. The lookups are first defined on it; the class
    `Scope` then carries the mutable tables and its methods are proved
    against those definitions. */
module Scopes {
  import opened Model
  import opened OrderedDict
  import opened Annotations

  type Values = Dict<string, Value>
  type Resolvers = Dict<seq<Ann>, CallableInfo>

  datatype ScopeState = ScopeState(keyed: Values, resolvers: Resolvers, parent: Option<ScopeState>)

  /** `isinstance(v, ts)` for a tuple of types. */
  predicate InstanceOfAny(v: Value, ts: seq<Ann>, isInstance: (Value, Ann) -> bool) {
    exists i | 0 <= i < |ts| :: isInstance(v, ts[i])
  }

  /** What one stored value yields for a by-type lookup of `ts`: the inner
      value of a `TypeCast` whose alias is one of `ts`, else the value itself
      when it is an instance of one of `ts`. */
  function ValueMatch(v: Value, ts: seq<Ann>, isInstance: (Value, Ann) -> bool): Option<Value> {
    if v.TypeCast? && v.alias in ts then Some(v.value)
    else if InstanceOfAny(v, ts, isInstance) then Some(v)
    else None
  }

  /** A resolver registered under `key` serves a request for `ts` when the two share a type. */
  predicate Serves(key: seq<Ann>, ts: seq<Ann>) {
    exists i | 0 <= i < |ts| :: ts[i] in key
  }

  /** What one scope's own tables yield for `ts`: the first matching value in
      insertion order, else the descriptor of the first serving resolver. */
  function LocalMatch(s: ScopeState, ts: seq<Ann>, isInstance: (Value, Ann) -> bool): (r: Option<Value>)
    ensures r.Some? <==>
      (exists j | 0 <= j < |s.keyed| :: ValueMatch(s.keyed[j].1, ts, isInstance).Some?) ||
      (exists j | 0 <= j < |s.resolvers| :: Serves(s.resolvers[j].0, ts))
  {
    var vi := FirstWhere(s.keyed, (e: (string, Value)) => ValueMatch(e.1, ts, isInstance).Some?);
    if vi < |s.keyed| then ValueMatch(s.keyed[vi].1, ts, isInstance)
    else
      var ri := FirstWhere(s.resolvers, (e: (seq<Ann>, CallableInfo)) => Serves(e.0, ts));
      if ri < |s.resolvers| then Some(Info(s.resolvers[ri].1)) else None
  }

  /** `resolve_by_type`: this scope's tables, then the parent chain. */
  function LookupType(s: ScopeState, ts: seq<Ann>, isInstance: (Value, Ann) -> bool): (r: Result<Value, Error>)
    ensures r.Err? ==> r.error == ScopeResolution(TypesKey(ts))
    decreases s
  {
    match LocalMatch(s, ts, isInstance)
    case Some(v) => Ok(v)
    case None =>
      if s.parent.Some? then LookupType(s.parent.value, ts, isInstance)
      else Err(ScopeResolution(TypesKey(ts)))
  }

  function Unwrap(v: Value): Value {
    if v.TypeCast? then v.value else v
  }

  /** `resolve_by_name` as the code behaves: only this scope's own values are
      consulted (a parent's answer is computed and discarded). */
  function LookupName(s: ScopeState, name: string): (r: Result<Value, Error>)
    ensures r.Ok? <==> name in Keys(s.keyed)
    ensures r.Err? ==> r.error == ScopeResolution(NameKey(name))
  {
    match Get(s.keyed, name)
    case Some(v) => Ok(Unwrap(v))
    case None => Err(ScopeResolution(NameKey(name)))
  }

  /** The states of a scope and of all its ancestors, nearest first. */
  function Ancestry(s: ScopeState): (a: seq<ScopeState>)
    ensures |a| > 0 && a[0] == s
    decreases s
  {
    [s] + if s.parent.Some? then Ancestry(s.parent.value) else []
  }

  /** The parent chain is searched nearest first: a by-type lookup yields
      what the nearest scope with a local match yields, and fails, naming
      the requested tuple, exactly when no scope in the chain has one. */
  lemma {:induction false} LookupTypeNearest(s: ScopeState, ts: seq<Ann>, isInstance: (Value, Ann) -> bool)
    ensures var chain := Ancestry(s);
      var k := FirstWhere(chain, (a: ScopeState) => LocalMatch(a, ts, isInstance).Some?);
      LookupType(s, ts, isInstance) ==
        if k < |chain| then Ok(LocalMatch(chain[k], ts, isInstance).value)
        else Err(ScopeResolution(TypesKey(ts)))
    decreases s
  {
    var chain := Ancestry(s);
    var p := (a: ScopeState) => LocalMatch(a, ts, isInstance).Some?;
    if LocalMatch(s, ts, isInstance).None? && s.parent.Some? {
      LookupTypeNearest(s.parent.value, ts, isInstance);
      assert chain[1..] == Ancestry(s.parent.value);
      assert FirstWhere(chain, p) == 1 + FirstWhere(chain[1..], p);
    }
  }

  /** The first local value that matches wins over every later value, every
      resolver of this scope and everything in the parent chain. */
  lemma LocalValueWins(s: ScopeState, ts: seq<Ann>, isInstance: (Value, Ann) -> bool, i: nat)
    requires i < |s.keyed| && ValueMatch(s.keyed[i].1, ts, isInstance).Some?
    requires forall j :: 0 <= j < i ==> ValueMatch(s.keyed[j].1, ts, isInstance).None?
    ensures LookupType(s, ts, isInstance) == Ok(ValueMatch(s.keyed[i].1, ts, isInstance).value)
  {
    FirstWhereIs(s.keyed, (e: (string, Value)) => ValueMatch(e.1, ts, isInstance).Some?, i);
  }

  /** A value stored as `TypeCast(alias, u)` is found as `u` both by name and,
      when no earlier value matches, by a type tuple containing `alias`. */
  lemma {:induction false} TypeCastFound(s: ScopeState, ts: seq<Ann>, isInstance: (Value, Ann) -> bool, i: nat, alias: Ann, u: Value)
    requires DistinctKeys(s.keyed) && i < |s.keyed| && s.keyed[i].1 == TypeCast(alias, u) && alias in ts
    requires forall j :: 0 <= j < i ==> ValueMatch(s.keyed[j].1, ts, isInstance).None?
    ensures LookupType(s, ts, isInstance) == Ok(u)
    ensures LookupName(s, s.keyed[i].0) == Ok(u)
  {
    LocalValueWins(s, ts, isInstance, i);
    GetEntry(s.keyed, i);
  }

  /** As the code behaves, a name missing from a scope is not found there,
      whatever its parent holds. */
  lemma LookupNameIgnoresParent(s: ScopeState, name: string, parent: Option<ScopeState>)
    ensures LookupName(s.(parent := parent), name) == LookupName(s, name)
    ensures name !in Keys(s.keyed) ==> LookupName(s, name) == Err(ScopeResolution(NameKey(name)))
  {
  }

  /** The tables a scope starts with when given descriptors: each registered
      under its normalized return annotation, a later one replacing an
      earlier one under the same tuple. */
  function Registered(descriptors: seq<CallableInfo>): (r: Resolvers)
    ensures DistinctKeys(r)
    ensures forall key :: key in Keys(r) <==> exists d :: d in descriptors && Normalize(d.returnAnnotation) == key
  {
    if descriptors == [] then []
    else
      var init := descriptors[..|descriptors| - 1];
      var last := descriptors[|descriptors| - 1];
      var prev := Registered(init);
      PutKeys(prev, Normalize(last.returnAnnotation), last);
      PutDistinct(prev, Normalize(last.returnAnnotation), last);
      assert descriptors == init + [last];
      Put(prev, Normalize(last.returnAnnotation), last)
  }

  /** Registering one more descriptor: its tuple now holds it, every other
      tuple holds what it held. */
  lemma RegisteredStep(descriptors: seq<CallableInfo>, key: seq<Ann>)
    requires descriptors != []
    ensures var last := descriptors[|descriptors| - 1];
      Get(Registered(descriptors), key) ==
        if key == Normalize(last.returnAnnotation) then Some(last)
        else Get(Registered(descriptors[..|descriptors| - 1]), key)
  {
    var last := descriptors[|descriptors| - 1];
    PutGet(Registered(descriptors[..|descriptors| - 1]), Normalize(last.returnAnnotation), last, key);
  }

  /** In the initial resolver table each normalized return annotation holds
      the last descriptor registered under it. */
  lemma {:induction false} RegisteredLastWins(descriptors: seq<CallableInfo>, j: nat)
    requires j < |descriptors|
    requires forall k | j < k < |descriptors| ::
      Normalize(descriptors[k].returnAnnotation) != Normalize(descriptors[j].returnAnnotation)
    ensures Get(Registered(descriptors), Normalize(descriptors[j].returnAnnotation)) == Some(descriptors[j])
    decreases |descriptors|
  {
    var n := |descriptors|;
    var key := Normalize(descriptors[j].returnAnnotation);
    RegisteredStep(descriptors, key);
    if j < n - 1 {
      var init := descriptors[..n - 1];
      forall k | j < k < |init|
        ensures Normalize(init[k].returnAnnotation) != Normalize(init[j].returnAnnotation)
      {
        assert init[k] == descriptors[k] && init[j] == descriptors[j];
      }
      RegisteredLastWins(init, j);
    }
  }

  class Scope {
    const parent: Scope?
    /** The length of the parent chain: what lookups through it decrease. */
    ghost const depth: nat
    /** This scope and all its ancestors. */
    ghost const Chain: set<Scope>
    var keyed: Values
    var resolvers: Resolvers

    /** The parent chain is finite and `Chain` holds exactly its scopes. */
    ghost predicate Linked()
      decreases depth
    {
      this in Chain &&
      if parent == null then Chain == {this}
      else parent.depth < depth && Chain == {this} + parent.Chain && parent.Linked()
    }

    /** Both tables have unique keys, as dicts do. */
    ghost predicate Valid()
      reads this
    {
      DistinctKeys(keyed) && DistinctKeys(resolvers)
    }

    /** The state of the chain starting at this scope. */
    function State(): ScopeState
      requires Linked()
      reads Chain
      decreases depth
    {
      ScopeState(keyed, resolvers, if parent == null then None else Some(parent.State()))
    }

    /** `Scope(values, resolvers, parent)`. */
    constructor (values: Values, descriptors: seq<CallableInfo>, parent: Scope?)
      requires DistinctKeys(values)
      requires parent != null ==> parent.Linked()
      ensures Linked() && Valid()
      ensures this.parent == parent && keyed == values && resolvers == Registered(descriptors)
    {
      var table: Resolvers := [];
      var i := 0;
      while i < |descriptors|
        invariant 0 <= i <= |descriptors|
        invariant table == Registered(descriptors[..i])
      {
        var d := descriptors[i];
        assert descriptors[..i + 1][..i] == descriptors[..i];
        table := Put(table, Normalize(d.returnAnnotation), d);
        i := i + 1;
      }
      assert descriptors[..i] == descriptors;
      this.parent := parent;
      depth := if parent == null then 0 else parent.depth + 1;
      Chain := if parent == null then {this} else {this} + parent.Chain;
      keyed := values;
      resolvers := table;
    }

    /** `child()`: a new, empty scope whose parent is this one. */
    method Child() returns (c: Scope)
      requires Linked()
      ensures fresh(c) && c.Linked() && c.Valid()
      ensures c.parent == this && c.keyed == [] && c.resolvers == []
    {
      c := new Scope([], [], this);
    }

    /** `resolver(fn, resolves_to)`: registers the descriptor under the
        normalized `resolves_to`, by default its return annotation. */
    method Resolver(info: CallableInfo, resolvesTo: Option<Ann>)
      requires Valid()
      modifies this
      ensures Valid() && keyed == old(keyed)
      ensures resolvers == Put(old(resolvers), Normalize(if resolvesTo.Some? then resolvesTo.value else info.returnAnnotation), info)
    {
      var annotation := if resolvesTo.Some? then resolvesTo.value else info.returnAnnotation;
      PutDistinct(resolvers, Normalize(annotation), info);
      resolvers := Put(resolvers, Normalize(annotation), info);
    }

    /** `value(name, v)`: binds `name` in this scope only. */
    method Value(name: string, v: Model.Value)
      requires Valid()
      modifies this
      ensures Valid() && resolvers == old(resolvers)
      ensures keyed == Put(old(keyed), name, v)
    {
      PutDistinct(keyed, name, v);
      keyed := Put(keyed, name, v);
    }

    /** `drop_value(name)`: removes a local name, or fails naming it. */
    method DropValue(name: string) returns (err: Option<Error>)
      requires Valid()
      modifies this
      ensures Valid() && resolvers == old(resolvers)
      ensures name in Keys(old(keyed)) ==> err == None && keyed == Remove(old(keyed), name)
      ensures name !in Keys(old(keyed)) ==> err == Some(ScopeResolution(NameKey(name))) && keyed == old(keyed)
    {
      if name in Keys(keyed) {
        RemoveDistinct(keyed, name);
        keyed := Remove(keyed, name);
        err := None;
      } else {
        err := Some(ScopeResolution(NameKey(name)));
      }
    }

    /** `drop_resolver(resolves_to)`: removes the resolver registered under the
        normalized annotation, or fails naming the annotation as given. */
    method DropResolver(resolvesTo: Ann) returns (err: Option<Error>)
      requires Valid()
      modifies this
      ensures Valid() && keyed == old(keyed)
      ensures Normalize(resolvesTo) in Keys(old(resolvers)) ==>
        err == None && resolvers == Remove(old(resolvers), Normalize(resolvesTo))
      ensures Normalize(resolvesTo) !in Keys(old(resolvers)) ==>
        err == Some(ScopeResolution(AnnotationKey(resolvesTo))) && resolvers == old(resolvers)
    {
      var annotation := Normalize(resolvesTo);
      if annotation in Keys(resolvers) {
        RemoveDistinct(resolvers, annotation);
        resolvers := Remove(resolvers, annotation);
        err := None;
      } else {
        err := Some(ScopeResolution(AnnotationKey(resolvesTo)));
      }
    }

    /** `resolve_by_type(types)`: the values of this scope in insertion order,
        then its resolvers, then the parent. */
    method ResolveByType(types: seq<Ann>, isInstance: (Value, Ann) -> bool) returns (r: Result<Model.Value, Error>)
      requires Linked()
      ensures r == LookupType(State(), types, isInstance)
      decreases depth
    {
      var i := 0;
      while i < |keyed|
        invariant 0 <= i <= |keyed|
        invariant forall j :: 0 <= j < i ==> ValueMatch(keyed[j].1, types, isInstance).None?
      {
        var v := keyed[i].1;
        if v.TypeCast? && v.alias in types {
          r := Ok(v.value);
          LocalValueWins(State(), types, isInstance, i);
          return;
        }
        if exists t | t in types :: isInstance(v, t) {
          r := Ok(v);
          LocalValueWins(State(), types, isInstance, i);
          return;
        }
        i := i + 1;
      }
      var k := 0;
      while k < |resolvers|
        invariant 0 <= k <= |resolvers|
        invariant forall j :: 0 <= j < k ==> !Serves(resolvers[j].0, types)
      {
        var entry := resolvers[k];
        if exists t | t in types :: t in entry.0 {
          r := Ok(Info(entry.1));
          LocalResolverFound(State(), types, isInstance, k);
          return;
        }
        k := k + 1;
      }
      NoLocalMatch(State(), types, isInstance);
      if parent != null {
        r := parent.ResolveByType(types, isInstance);
        return;
      }
      r := Err(ScopeResolution(TypesKey(types)));
    }

    /** `resolve_by_name(name)` as written: a local miss consults the parent,
        discards its answer and fails. */
    method ResolveByName(name: string) returns (r: Result<Model.Value, Error>)
      requires Linked()
      ensures r == LookupName(State(), name)
      decreases depth
    {
      match Get(keyed, name) {
        case Some(v) =>
          r := Ok(if v.TypeCast? then v.value else v);
        case None =>
          if parent != null {
            var discarded := parent.ResolveByName(name);
          }
          r := Err(ScopeResolution(NameKey(name)));
      }
    }
  }

  /** When no local value matches, the first serving resolver's descriptor is the answer. */
  lemma LocalResolverFound(s: ScopeState, ts: seq<Ann>, isInstance: (Value, Ann) -> bool, k: nat)
    requires forall j :: 0 <= j < |s.keyed| ==> ValueMatch(s.keyed[j].1, ts, isInstance).None?
    requires k < |s.resolvers| && Serves(s.resolvers[k].0, ts)
    requires forall j :: 0 <= j < k ==> !Serves(s.resolvers[j].0, ts)
    ensures LookupType(s, ts, isInstance) == Ok(Info(s.resolvers[k].1))
  {
    FirstWhereIs(s.keyed, (e: (string, Value)) => ValueMatch(e.1, ts, isInstance).Some?, |s.keyed|);
    FirstWhereIs(s.resolvers, (e: (seq<Ann>, CallableInfo)) => Serves(e.0, ts), k);
  }

  /** With no local match, a by-type lookup is the parent's (or fails). */
  lemma NoLocalMatch(s: ScopeState, ts: seq<Ann>, isInstance: (Value, Ann) -> bool)
    requires forall j :: 0 <= j < |s.keyed| ==> ValueMatch(s.keyed[j].1, ts, isInstance).None?
    requires forall j :: 0 <= j < |s.resolvers| ==> !Serves(s.resolvers[j].0, ts)
    ensures LookupType(s, ts, isInstance) ==
      if s.parent.Some? then LookupType(s.parent.value, ts, isInstance) else Err(ScopeResolution(TypesKey(ts)))
  {
    FirstWhereIs(s.keyed, (e: (string, Value)) => ValueMatch(e.1, ts, isInstance).Some?, |s.keyed|);
    FirstWhereIs(s.resolvers, (e: (seq<Ann>, CallableInfo)) => Serves(e.0, ts), |s.resolvers|);
  }

  /** After `value(name, v)` a by-name lookup of `name` finds `v` (unwrapped
      when it is a `TypeCast`); every other name is found as before. */
  lemma {:induction false} ValueThenLookupName(s: ScopeState, name: string, v: Value, other: string)
    ensures LookupName(s.(keyed := Put(s.keyed, name, v)), name) == Ok(Unwrap(v))
    ensures other != name ==> LookupName(s.(keyed := Put(s.keyed, name, v)), other) == LookupName(s, other)
  {
    PutGet(s.keyed, name, v, name);
    PutGet(s.keyed, name, v, other);
  }

  /** After `drop_value(name)` a by-name lookup of `name` fails; every other
      name is found as before. */
  lemma {:induction false} DropValueThenLookupName(s: ScopeState, name: string, other: string)
    requires DistinctKeys(s.keyed)
    ensures LookupName(s.(keyed := Remove(s.keyed, name)), name) == Err(ScopeResolution(NameKey(name)))
    ensures other != name ==> LookupName(s.(keyed := Remove(s.keyed, name)), other) == LookupName(s, other)
  {
    RemoveDistinct(s.keyed, name);
    if other != name {
      RemoveGet(s.keyed, name, other);
    }
  }

  /** `value` of a new name followed by `drop_value` of it restores the
      table; so does `resolver` under a new tuple followed by `drop_resolver`. */
  lemma {:induction false} DropUndoesAdd(s: ScopeState, name: string, v: Value, key: seq<Ann>, info: CallableInfo)
    requires name !in Keys(s.keyed) && key !in Keys(s.resolvers)
    ensures Remove(Put(s.keyed, name, v), name) == s.keyed
    ensures Remove(Put(s.resolvers, key, info), key) == s.resolvers
  {
    RemovePut(s.keyed, name, v);
    RemovePut(s.resolvers, key, info);
  }

  /** A resolver registered under a new tuple comes after the earlier ones:
      a by-type request it serves yields its descriptor when no local value
      matches and no earlier resolver serves the request. */
  lemma {:induction false} NewResolverServes(s: ScopeState, ts: seq<Ann>, isInstance: (Value, Ann) -> bool, key: seq<Ann>, info: CallableInfo)
    requires key !in Keys(s.resolvers) && Serves(key, ts)
    requires forall j :: 0 <= j < |s.keyed| ==> ValueMatch(s.keyed[j].1, ts, isInstance).None?
    requires forall j :: 0 <= j < |s.resolvers| ==> !Serves(s.resolvers[j].0, ts)
    ensures LookupType(s.(resolvers := Put(s.resolvers, key, info)), ts, isInstance) == Ok(Info(info))
  {
    PutAppends(s.resolvers, key, info);
    var s' := s.(resolvers := Put(s.resolvers, key, info));
    LocalResolverFound(s', ts, isInstance, |s.resolvers|);
  }
}
