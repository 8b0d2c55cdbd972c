/** A weakly-typed Kubernetes object, as decoded from JSON into Go's
    `map[string]interface{}`, and the outcomes of the field accessors the
    TrainJob grouper uses on it (`NestedSlice`, `NestedInt64`). */
module Unstructured {
  import opened Ints

  /** One JSON value. Integral numbers decode to int64; strings, booleans and
      floating-point numbers are not inspected by this core and are `Other`. */
  datatype Value =
    | Object(fields: map<string, Value>)
    | Array(items: seq<Value>)
    | Int(n: Int64)
    | Null
    | Other

  /** What a nested lookup finds: the value at the path, nothing (a key is
      missing, or an intermediate value is null), or an accessor error (an
      intermediate value is not an object). */
  datatype Lookup = Found(v: Value) | NotFound | AccessError

  /** The value at `path` below `v`, walking one object key per path element. */
  function NestedField(v: Value, path: seq<string>): (r: Lookup)
    ensures path == [] ==> r == Found(v)
    ensures r.Found? && path != [] ==> v.Object? && path[0] in v.fields
    ensures r.AccessError? ==> path != [] && !v.Null?
    ensures path != [] && v.Null? ==> r == NotFound
    ensures path != [] && v.Object? && path[0] !in v.fields ==> r == NotFound
    ensures path != [] && !v.Object? && !v.Null? ==> r == AccessError
    decreases |path|
  {
    if path == [] then Found(v)
    else match v
      case Null => NotFound
      case Object(m) => if path[0] in m then NestedField(m[path[0]], path[1..]) else NotFound
      case _ => AccessError
  }

  /** Outcome of a typed accessor: the field's value, absent, or a type error. */
  datatype Field<T> = Present(value: T) | Absent | TypeError

  /** `NestedInt64`: the int64 at `path`; any value other than an integer there,
      null included, is a type error. */
  function NestedInt64(obj: map<string, Value>, path: seq<string>): (r: Field<Int64>)
    ensures r.Present? <==> NestedField(Object(obj), path).Found? && NestedField(Object(obj), path).v.Int?
    ensures r.Present? ==> NestedField(Object(obj), path) == Found(Int(r.value))
    ensures r.Absent? <==> NestedField(Object(obj), path).NotFound?
  {
    match NestedField(Object(obj), path)
    case Found(Int(n)) => Present(n)
    case Found(_) => TypeError
    case NotFound => Absent
    case AccessError => TypeError
  }

  /** `NestedSlice`: the list at `path`; any value other than a list there is a type error. */
  function NestedSlice(obj: map<string, Value>, path: seq<string>): (r: Field<seq<Value>>)
    ensures r.Present? <==> NestedField(Object(obj), path).Found? && NestedField(Object(obj), path).v.Array?
    ensures r.Present? ==> NestedField(Object(obj), path) == Found(Array(r.value))
    ensures r.Absent? <==> NestedField(Object(obj), path).NotFound?
  {
    match NestedField(Object(obj), path)
    case Found(Array(items)) => Present(items)
    case Found(_) => TypeError
    case NotFound => Absent
    case AccessError => TypeError
  }
}
