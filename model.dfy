/** The values the resolution engine works on: type annotations, runtime
    values, the dependency descriptors produced by signature scanning, the
    errors the engine raises, and the two runtime services it relies on
    (the instance-of test and the invocation of a target). */
module Model {

  datatype Option<+T> = None | Some(value: T)

  datatype Result<+T, +E> = Ok(value: T) | Err(error: E)

  /** The identity of a callable, as `id(call)` gives it: an object address,
      so a 64-bit value. The universe of identities is therefore finite. */
  newtype CallId = x: int | 0 <= x < 0x1_0000_0000_0000_0000

  /** Every callable identity there is. */
  ghost const AllCalls: set<CallId> := set c: CallId | true

  /** A type annotation, as `typing.get_origin` and `typing.get_args` see it. */
  datatype Ann =
    | Atom(name: string)                           // a class or any annotation without an origin
    | Annotated(base: Ann, metadata: seq<string>)  // Annotated[base, *metadata]; origin typing.Annotated
    | UnionOf(members: seq<Ann>)                   // X | Y; origin types.UnionType
    | Generic(origin: string, args: seq<Ann>)      // any other subscripted form, such as list[int]

  const NoneType: Ann := Atom("NoneType")
  const CallableInfoType: Ann := Atom("CallableInfo")
  /** The origin `typing.get_origin` reports for an `Annotated[...]` annotation. */
  const AnnotatedOrigin: string := "typing.Annotated"

  /** A runtime value held in a scope, passed as an argument or returned by a target. */
  datatype Value =
    | Obj(id: nat)                        // any other object
    | TypeCast(alias: Ann, value: Value)  // TypeCast(alias, value): matched under `alias` by type lookups
    | Info(info: CallableInfo)            // a dependency descriptor (CallableInfo) used as a value
    | Param(parameter: Parameter)         // a parameter description, as stamped on child scopes

  /** A dependency descriptor: what scanning a callable yields. */
  datatype CallableInfo = CallableInfo(
    call: CallId,
    parameters: seq<Parameter>,
    returnAnnotation: Ann,
    isAsync: bool,
    useCache: bool)

  /** One declared parameter of a callable. `fromDependency` is `from_`,
      `byType` is `resolve_by_type`, `defaultValue` is `default` when
      `has_default` holds. */
  datatype Parameter = Parameter(
    name: string,
    annotation: Ann,
    defaultValue: Option<Value>,
    fromDependency: Option<CallableInfo>,
    byType: bool)

  /** What a failed lookup names: a value name, a type tuple, or the
      annotation a resolver was dropped under. */
  datatype LookupKey = NameKey(name: string) | TypesKey(types: seq<Ann>) | AnnotationKey(annotation: Ann)

  datatype Error =
    | ScopeResolution(key: LookupKey)                    // ScopeResolutionError
    | DependencyCycle(call: CallId, visited: set<CallId>) // DependencyCycleError
    | AsyncNotSupported                                  // the ValueError of the blocking injector
    | Raised(exception: nat)                             // an exception raised by a target itself

  /** The services of the Python runtime the engine calls into:
      `isinstance(value, t)`, and calling a target with keyword arguments
      (`call_sync` or awaiting `call_async`), which returns a value or
      raises an exception. */
  datatype Runtime = Runtime(
    isInstance: (Value, Ann) -> bool,
    invoke: (CallableInfo, map<string, Value>) -> Result<Value, nat>)

  /** The index of the first element of `s` satisfying `p`, or `|s|` when none does. */
  function FirstWhere<T>(s: seq<T>, p: T -> bool): (i: nat)
    ensures i <= |s|
    ensures forall j :: 0 <= j < i ==> !p(s[j])
    ensures i < |s| ==> p(s[i])
  {
    if s == [] then 0
    else if p(s[0]) then 0
    else 1 + FirstWhere(s[1..], p)
  }

  /** `FirstWhere` finds the first element that satisfies `p`. */
  lemma {:induction false} FirstWhereIs<T>(s: seq<T>, p: T -> bool, i: nat)
    requires i <= |s| && (i < |s| ==> p(s[i]))
    requires forall j :: 0 <= j < i ==> !p(s[j])
    ensures FirstWhere(s, p) == i
  {
    if s != [] && i > 0 {
      assert !p(s[0]);
      assert forall j :: 0 <= j < i - 1 ==> s[1..][j] == s[j + 1];
      FirstWhereIs(s[1..], p, i - 1);
    }
  }
}
