/** The JavaScript values that flow through the parser options bag. */
module JsValues {

  /** A JavaScript value. Numbers are integers here (fractions and NaN are not
      modelled); an object is the map of its own enumerable properties. */
  datatype Value =
    | Undefined
    | Null
    | Bool(b: bool)
    | Num(n: int)
    | Str(s: string)
    | Obj(fields: map<string, Value>)

  /** A plain object's own properties. */
  type Bag = map<string, Value>

  /** JavaScript truthiness: `undefined`, `null`, `false`, `0` and `""` are falsy. */
  predicate Truthy(v: Value) {
    match v
    case Undefined => false
    case Null => false
    case Bool(b) => b
    case Num(n) => n != 0
    case Str(s) => s != ""
    case Obj(_) => true
  }

  /** Property read `bag[k]`: a missing key reads as `undefined`. */
  function Get(bag: Bag, k: string): Value {
    if k in bag then bag[k] else Undefined
  }

  /** The own properties copied by the object spread `{ ...v }`: an object's
      properties, and nothing for `undefined`, `null`, booleans and numbers. */
  function Spread(v: Value): Bag {
    if v.Obj? then v.fields else map[]
  }
}
