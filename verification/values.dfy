/**
 * The JavaScript values that flow through the adapter, as far as the adapter
 * looks at them: their truthiness and their `.value` property.
 */
module Values {

  datatype Value =
    | Undefined
    | Null
    | Bool(b: bool)
    | Num(n: int)                  // numbers; NaN and fractions are not distinguished
    | Str(s: string)
    | Date(iso: string)            // a JavaScript Date, identified by its toISOString() text
    | Time(iso: string)            // a timestamp as stored: `to` writes the query expression
                                   // `Time(iso)`, the store evaluates it and sends back a
                                   // timestamp whose `.value` property is the ISO text; the
                                   // model names both by this one variant
    | Arr(elems: seq<Value>)
    | Obj(props: map<string, Value>)

  /** A plain object: its own enumerable keys and their values. */
  type Record = map<string, Value>

  /** JavaScript's truthiness. */
  predicate Truthy(v: Value) {
    match v
    case Undefined => false
    case Null => false
    case Bool(b) => b
    case Num(n) => n != 0
    case Str(s) => s != ""
    case _ => true
  }

  /** `v.value` for a truthy `v`: only timestamps and objects carrying a `value` key have one. */
  function ValueProp(v: Value): Value {
    match v
    case Time(iso) => Str(iso)
    case Obj(props) => if "value" in props then props["value"] else Undefined
    case _ => Undefined
  }

  /** `object[key]`: a missing key reads as `undefined`. */
  function Field(r: Record, key: string): Value {
    if key in r then r[key] else Undefined
  }
}
