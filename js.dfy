/**
 * The JavaScript values the routes receive (JSON request bodies, parsed query strings),
 * store (documents with dates and object ids) and send back, together with the
 * language's truthiness and its `String(...)` and `Number(...)` conversions.
 */
module Js {
  import opened Wrappers
  import Text

  /** A JavaScript number: NaN or a numeric value (infinities and -0 are not distinguished). */
  datatype JsNumber = NaN | Num(value: real)

  /** A JavaScript value as it appears in a body, a query string or a stored document. */
  datatype Value =
    | Null
    | Bool(b: bool)
    | Number(n: JsNumber)
    | Str(s: string)
    | Array(elems: seq<Value>)
    | Object(fields: map<string, Value>)
    | Date(ms: int)
    | ObjectId(hex: string)

  /**
   * The host's conversions that the model does not spell out: `Number(string)`
   * (whitespace, hex, exponents, `Infinity`), number-to-string formatting and date
   * formatting. They are given to every operation that needs them.
   */
  datatype Runtime = Runtime(
    parseNumber: string -> JsNumber,
    numberToString: JsNumber -> string,
    dateToString: int -> string)

  /** JavaScript truthiness of a value that may be `undefined` (`None`). */
  predicate Truthy(v: Option<Value>) {
    match v
    case None => false
    case Some(Null) => false
    case Some(Bool(b)) => b
    case Some(Number(n)) => n.Num? && n.value != 0.0
    case Some(Str(s)) => s != ""
    case Some(_) => true
  }

  /** `typeof v === "object"` for a value that is also truthy (so not `null`). */
  predicate IsObjectLike(v: Option<Value>) {
    v.Some? && (v.value.Array? || v.value.Object? || v.value.Date? || v.value.ObjectId?)
  }

  /** `String(v)`; inside an array, `null` elements print as the empty string. */
  function ToStr(rt: Runtime, v: Value): string
    decreases v
  {
    match v
    case Null => "null"
    case Bool(b) => if b then "true" else "false"
    case Number(n) => rt.numberToString(n)
    case Str(s) => s
    case Array(es) =>
      Text.Join(seq(|es|, i requires 0 <= i < |es| => if es[i].Null? then "" else ToStr(rt, es[i])), ',')
    case Object(_) => "[object Object]"
    case Date(ms) => rt.dateToString(ms)
    case ObjectId(h) => h
  }

  /** `Number(v)`: objects are first turned into their string form. */
  function ToNumber(rt: Runtime, v: Value): JsNumber {
    match v
    case Null => Num(0.0)
    case Bool(b) => if b then Num(1.0) else Num(0.0)
    case Number(n) => n
    case Str(s) => rt.parseNumber(s)
    case Date(ms) => Num(ms as real)
    case _ => rt.parseNumber(ToStr(rt, v))
  }

  /** Reading property `key` of a value: an own member of a JSON object, `undefined` otherwise. */
  function Prop(v: Option<Value>, key: string): (r: Option<Value>)
    ensures r.Some? ==> v.Some? && v.value.Object? && key in v.value.fields && r.value == v.value.fields[key]
    ensures v.Some? && v.value.Object? && key in v.value.fields ==> r.Some?
  {
    if v.Some? && v.value.Object? && key in v.value.fields then Some(v.value.fields[key]) else None
  }

  /** `Object.keys(v).length` for an object or an array. */
  function KeyCount(v: Value): nat {
    match v
    case Object(f) => |f|
    case Array(es) => |es|
    case _ => 0
  }

  /** `Math.min` on two numbers: NaN if either is NaN. */
  function MathMin(a: JsNumber, b: JsNumber): (r: JsNumber)
    ensures r.NaN? <==> a.NaN? || b.NaN?
    ensures r.Num? ==> r.value <= a.value && r.value <= b.value && (r == a || r == b)
  {
    if a.NaN? || b.NaN? then NaN else if a.value <= b.value then a else b
  }

  /** `Math.max` on two numbers: NaN if either is NaN. */
  function MathMax(a: JsNumber, b: JsNumber): (r: JsNumber)
    ensures r.NaN? <==> a.NaN? || b.NaN?
    ensures r.Num? ==> r.value >= a.value && r.value >= b.value && (r == a || r == b)
  {
    if a.NaN? || b.NaN? then NaN else if a.value >= b.value then a else b
  }
}
