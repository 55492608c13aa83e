/** The parsed JSON request bodies the handlers destructure, with JavaScript's
    truthiness and property access. */
module Json {
  import opened Wrappers

  datatype Json =
    | JNull
    | JBool(b: bool)
    | JNum(n: int)
    | JStr(s: string)
    | JArr(items: seq<Json>)
    | JObj(fields: map<string, Json>)

  /** `body.name` on a non-null value: an own field of an object, `undefined` otherwise.
      Reading a property of `null` throws instead; the handlers test `JNull?` first. */
  function Prop(v: Json, name: string): (r: Option<Json>)
    ensures r.Some? ==> v.JObj? && name in v.fields && r.value == v.fields[name]
    ensures v.JObj? && name in v.fields ==> r.Some?
  {
    if v.JObj? && name in v.fields then Some(v.fields[name]) else None
  }

  /** JavaScript truthiness of a property read: `undefined`, `null`, `false`, `0` and
      `""` are falsy, every other value (including `[]` and `{}`) is truthy. */
  predicate Truthy(v: Option<Json>) {
    match v
    case None => false
    case Some(JNull) => false
    case Some(JBool(b)) => b
    case Some(JNum(n)) => n != 0
    case Some(JStr(s)) => s != ""
    case Some(_) => true
  }

  /** The source's `!x || typeof x !== 'string'` test, negated: a non-empty string. */
  function NonEmptyString(v: Option<Json>): (r: Option<string>)
    ensures r.Some? <==> Truthy(v) && v.value.JStr?
    ensures r.Some? ==> r.value != "" && v == Some(JStr(r.value))
  {
    match v
    case Some(JStr(s)) => if s != "" then Some(s) else None
    case _ => None
  }

  /** `request.json()` rejected, or the body is JSON `null` and destructuring it throws:
      both end in the handler's `catch`. */
  predicate Unreadable(body: Option<Json>) {
    body.None? || body.value.JNull?
  }
}
