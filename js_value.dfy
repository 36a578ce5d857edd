/** The slice of JavaScript's value model that the application's logic depends on:
    plain objects are maps from property names to values, a missing property reads
    as `undefined`, and conditions test truthiness. Numbers that the application
    stores are integers (ids, ages, parsed sleep hours, day numbers) or NaN. */
module JsValue {

  datatype Value =
    | Undefined
    | Null
    | Bool(b: bool)
    | Num(n: int)
    | NaN
    | Str(s: string)
    | Arr(items: seq<Value>)
    | Obj(fields: Record)

  /** A plain object: its own enumerable properties. */
  type Record = map<string, Value>

  /** Property read `r[key]`: an absent property is `undefined`. */
  function Get(r: Record, key: string): Value
  {
    if key in r then r[key] else Undefined
  }

  /** JavaScript truthiness (ToBoolean). */
  predicate Truthy(v: Value)
  {
    match v
    case Undefined => false
    case Null => false
    case Bool(b) => b
    case Num(n) => n != 0
    case NaN => false
    case Str(s) => s != ""
    case Arr(_) => true
    case Obj(_) => true
  }

  /** `a || b`: the first operand when it is truthy, otherwise the second. */
  function Or(a: Value, b: Value): (r: Value)
    ensures Truthy(a) ==> r == a
    ensures !Truthy(a) ==> r == b
  {
    if Truthy(a) then a else b
  }

  /** `{ ...base, ...over }`: every key of `over` takes its value from `over`,
      every other key of `base` keeps its value. */
  function Spread(base: Record, over: Record): (r: Record)
    ensures r.Keys == base.Keys + over.Keys
    ensures forall k :: k in over ==> r[k] == over[k]
    ensures forall k :: k in base && k !in over ==> r[k] == base[k]
  {
    base + over
  }

  /** A value that `JSON.stringify` writes out in full and `JSON.parse` rebuilds
      unchanged: no `undefined` and no NaN anywhere inside it. */
  predicate JsonSafe(v: Value)
  {
    match v
    case Undefined => false
    case NaN => false
    case Arr(xs) => forall i :: 0 <= i < |xs| ==> JsonSafe(xs[i])
    case Obj(m) => forall k :: k in m ==> JsonSafe(m[k])
    case _ => true
  }
}
