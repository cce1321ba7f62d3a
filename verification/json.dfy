/** JavaScript values as a request handler sees them after `request.json()`, and JSON responses. */
module Json {

  /** A parsed JSON value, plus `undefined` for a member that is absent. Numbers are integers
      (no fractions, no NaN). */
  datatype JsValue =
    | Undefined
    | Null
    | Bool(b: bool)
    | Number(n: int)
    | Str(s: string)
    | Array(items: seq<JsValue>)
    | Object(fields: map<string, JsValue>)

  /** JavaScript truthiness: `undefined`, `null`, `false`, `0` and `""` are falsy. */
  predicate Truthy(v: JsValue)
  {
    match v
    case Undefined => false
    case Null => false
    case Bool(b) => b
    case Number(n) => n != 0
    case Str(s) => |s| > 0
    case Array(_) => true
    case Object(_) => true
  }

  /** Property `key` of an object, `undefined` when it has none. Arrays and primitives carry
      none of the member names the handlers look up. */
  function Member(v: JsValue, key: string): (r: JsValue)
    ensures v.Object? && key in v.fields ==> r == v.fields[key]
    ensures !(v.Object? && key in v.fields) ==> r == Undefined
  {
    if v.Object? && key in v.fields then v.fields[key] else Undefined
  }

  /** Reading a property (`value.length`, `const { key } = value`) throws a TypeError exactly
      when the value is null or undefined. */
  predicate PropertyAccessThrows(v: JsValue)
  {
    v.Null? || v.Undefined?
  }

  /** The body a handler reads: `request.json()` either throws or yields a value. */
  datatype Body = Malformed | Parsed(value: JsValue)

  /** A `NextResponse.json(body, { status })` reply. */
  datatype Response = Response(status: nat, body: map<string, JsValue>)

  /** Field `key` of a response body, `undefined` when absent (JSON omits it). */
  function BodyField(r: Response, key: string): JsValue
  {
    if key in r.body then r.body[key] else Undefined
  }
}
