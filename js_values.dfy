/**
 * The JavaScript values the three components pass around once JSON has been parsed.
 * TypeScript's `as` casts check nothing at run time, so a field that is declared a
 * string may hold any of these.
 */
module JsValues {
  datatype JsValue =
    | Undefined
    | Null
    | Bool(b: bool)
    | Num(n: real)
    | Str(s: string)
    | Arr(items: seq<JsValue>)
    | Obj(props: map<string, JsValue>)

  /** `v == null` in the loose sense: the values on which `??` falls through and `?.` stops. */
  predicate Nullish(v: JsValue) {
    v.Undefined? || v.Null?
  }

  /** JavaScript truthiness (JSON never yields NaN, so a number is falsy exactly when it is zero). */
  predicate Truthy(v: JsValue) {
    match v
    case Undefined => false
    case Null => false
    case Bool(b) => b
    case Num(n) => n != 0.0
    case Str(s) => s != ""
    case Arr(_) => true
    case Obj(_) => true
  }

  /** `a ?? b` */
  function Coalesce(a: JsValue, b: JsValue): JsValue {
    if Nullish(a) then b else a
  }

  /** `a || b` */
  function Or(a: JsValue, b: JsValue): JsValue {
    if Truthy(a) then a else b
  }

  /** `Boolean(v)` */
  function ToBoolean(v: JsValue): JsValue {
    Bool(Truthy(v))
  }

  /**
   * `v.key` on a value that is not `null`/`undefined` (on those it throws). Primitives and
   * arrays have none of the property names this model reads, so those give `undefined`.
   */
  function Get(v: JsValue, key: string): JsValue
    requires !Nullish(v)
  {
    match v
    case Obj(m) => if key in m then m[key] else Undefined
    case _ => Undefined
  }

  /** `v?.key` */
  function OptGet(v: JsValue, key: string): JsValue {
    if Nullish(v) then Undefined else Get(v, key)
  }

  /**
   * `a === b`. Primitives compare by value; arrays and objects compare by identity, and no two
   * values compared in this model are the same object, so those are never equal.
   */
  predicate StrictEquals(a: JsValue, b: JsValue) {
    match (a, b)
    case (Undefined, Undefined) => true
    case (Null, Null) => true
    case (Bool(x), Bool(y)) => x == y
    case (Num(x), Num(y)) => x == y
    case (Str(x), Str(y)) => x == y
    case _ => false
  }

  lemma StrictEqualsString(a: JsValue, s: string)
    ensures StrictEquals(a, Str(s)) <==> a == Str(s)
  {
  }
}
