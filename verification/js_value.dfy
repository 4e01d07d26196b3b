/**
 * JSON-shaped JavaScript values as the dashboard component sees them after
 * `response.json()`, with `undefined` for absent properties, and the two
 * JavaScript operations its view logic is built from: truthiness with `||`,
 * and property access.
 */
module JsValues {

  datatype JsValue =
    | Undefined
    | Null
    | Bool(b: bool)
    | Num(n: real)
    | Str(s: string)
    | Arr(items: seq<JsValue>)
    | Obj(fields: map<string, JsValue>)

  predicate Nullish(v: JsValue) {
    v.Undefined? || v.Null?
  }

  /** JavaScript truthiness: `undefined`, `null`, `false`, `0` and `""` are falsy. */
  predicate Truthy(v: JsValue) {
    match v
    case Undefined => false
    case Null => false
    case Bool(b) => b
    case Num(n) => n != 0.0
    case Str(s) => s != ""
    case Arr(_) => true
    case Obj(_) => true
  }

  /** `a || b`: the left operand when it is truthy, the right one otherwise. */
  function Or(a: JsValue, b: JsValue): (r: JsValue)
    ensures Truthy(a) ==> r == a
    ensures !Truthy(a) ==> r == b
  {
    if Truthy(a) then a else b
  }

  /**
   * `o.key` on an own data property. Reading a property of `null` or
   * `undefined` throws, so those receivers are excluded.
   */
  function Get(o: JsValue, key: string): (r: JsValue)
    requires !Nullish(o)
    ensures o.Obj? && key in o.fields ==> r == o.fields[key]
    ensures !(o.Obj? && key in o.fields) ==> r == Undefined
  {
    if o.Obj? && key in o.fields then o.fields[key] else Undefined
  }
}

/** `getSafeArray` and `getSafeNumber`, the defensive readers every widget goes through. */
module SafeAccess {
  import opened JsValues

  /** `Array.isArray(v) ? v : []`. */
  function SafeArray(v: JsValue): (r: JsValue)
    ensures r.Arr?
    ensures v.Arr? ==> r == v
    ensures !v.Arr? ==> r == Arr([])
  {
    if v.Arr? then v else Arr([])
  }

  /** `v || 0`: the value itself when truthy, the number 0 otherwise. */
  function SafeNumber(v: JsValue): (r: JsValue)
    ensures Truthy(v) ==> r == v
    ensures !Truthy(v) ==> r == Num(0.0)
  {
    Or(v, Num(0.0))
  }

  /** The result is never `undefined`, `null` or another falsy value than 0. */
  lemma SafeNumberNeverNullish(v: JsValue)
    ensures !Nullish(SafeNumber(v))
    ensures Truthy(SafeNumber(v)) || SafeNumber(v) == Num(0.0)
  {
  }

  /** A genuine 0 and an absent field both read as 0: the two are indistinguishable. */
  lemma SafeNumberFalsyInputs()
    ensures SafeNumber(Undefined) == Num(0.0)
    ensures SafeNumber(Null) == Num(0.0)
    ensures SafeNumber(Num(0.0)) == Num(0.0)
    ensures SafeNumber(Str("")) == Num(0.0)
    ensures SafeNumber(Bool(false)) == Num(0.0)
  {
  }

  lemma SafeArrayIdempotent(v: JsValue)
    ensures SafeArray(SafeArray(v)) == SafeArray(v)
  {
  }

  lemma SafeNumberIdempotent(v: JsValue)
    ensures SafeNumber(SafeNumber(v)) == SafeNumber(v)
  {
  }
}
