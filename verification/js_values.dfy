/** The slice of JavaScript value semantics the two caches depend on:
    the values `JSON.parse` produces, property reads that may yield
    `undefined`, truthiness (`if (x)`, `x || y`) and the `ToNumber`
    coercion that `now - timestamp` applies. */
module JsValues {
  import opened Wrappers

  /** `localStorage`: string keys to string values. */
  type Storage = map<string, string>

  /** Milliseconds in a day, the unit of `Date.now()` differences. */
  const MS_PER_DAY: int := 1000 * 60 * 60 * 24

  /** A value as `JSON.parse` produces it. JSON text has no NaN and no
      Infinity, so every number is finite and is modelled exactly as a real. */
  datatype Json =
    | JNull
    | JBool(b: bool)
    | JNum(n: real)
    | JStr(s: string)
    | JArr(items: seq<Json>)
    | JObj(fields: map<string, Json>)

  /** The result of a property read: a JSON value or `undefined`. */
  datatype JsValue = Undefined | Val(json: Json)

  /** The platform's JSON codec and string-to-number conversion, which the
      model takes as given capabilities. `parse` answers `None` exactly when
      `JSON.parse` throws a SyntaxError; `toNumber` answers `None` for NaN. */
  datatype JsRuntime = JsRuntime(
    parse: string -> Option<Json>,
    stringify: Json -> string,
    toNumber: string -> Option<real>)

  /** `JSON.parse(JSON.stringify(j))` gives `j` back, and the text is non-empty
      (the text of an object always starts with a brace). */
  predicate RoundTrips(js: JsRuntime, j: Json) {
    js.stringify(j) != "" && js.parse(js.stringify(j)) == Some(j)
  }

  /** JavaScript truthiness of a value that can come out of parsed JSON. */
  predicate Truthy(v: JsValue) {
    match v
    case Undefined => false
    case Val(j) =>
      match j
      case JNull => false
      case JBool(b) => b
      case JNum(n) => n != 0.0
      case JStr(s) => s != ""
      case JArr(_) => true
      case JObj(_) => true
  }

  /** `a || b` */
  function Or(a: JsValue, b: JsValue): JsValue {
    if Truthy(a) then a else b
  }

  /** The property read `o.key` on a non-null, non-undefined value. Only
      objects carry the data properties read here ("timestamp", "coords",
      "latitude", "longitude", "accuracy"); no built-in prototype of a
      parsed value defines any of them, so every other read is `undefined`. */
  function Get(o: Json, key: string): JsValue {
    if o.JObj? && key in o.fields then Val(o.fields[key]) else Undefined
  }

  /** `ToNumber(v)` as the binary `-` applies it; `None` is NaN.
      An array converts through its joined text: `[]` is `""`, a one-element
      array is its element's text (`null` gives `""`), and two or more
      elements give text holding a comma, which is never numeric. A number's
      own text converts back to that number exactly. */
  function ToNumber(js: JsRuntime, v: JsValue): (r: Option<real>)
    ensures v.Val? && v.json.JNum? ==> r == Some(v.json.n)
    ensures v == Val(JNull) ==> r == Some(0.0)
    ensures v.Undefined? ==> r.None?
  {
    match v
    case Undefined => None
    case Val(j) => JsonToNumber(js, j)
  }

  function JsonToNumber(js: JsRuntime, j: Json): Option<real>
    decreases j
  {
    match j
    case JNull => Some(0.0)
    case JBool(b) => Some(if b then 1.0 else 0.0)
    case JNum(n) => Some(n)
    case JStr(s) => js.toNumber(s)
    case JArr(items) =>
      if |items| == 0 then js.toNumber("")
      else if |items| == 1 then
        (if items[0].JNull? then js.toNumber("")
         else if items[0].JBool? then js.toNumber(if items[0].b then "true" else "false")
         else JsonToNumber(js, items[0]))
      else None
    case JObj(_) => js.toNumber("[object Object]")
  }
}
