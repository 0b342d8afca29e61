/**
 The JavaScript values the create-todo handler works with: what JSON.parse
 yields, the `undefined` a missing property reads as, and the three pieces of
 JavaScript semantics the handler relies on — truthiness (`!x`, `x || y`),
 `typeof`, and reading a property (which throws a TypeError on `null`).
 */
module JsValues {

  datatype Option<T> = None | Some(value: T)

  /** A value as JSON.parse produces it. A number holds the double that
      JSON.parse produced, as a real: JSON text cannot denote NaN, and -0 is
      the real 0 here, which is also how JavaScript compares it. */
  datatype Json =
    | JNull
    | JBool(b: bool)
    | JNum(n: real)
    | JStr(s: string)
    | JArr(elems: seq<Json>)
    | JObj(fields: map<string, Json>)

  /** The result of reading a property: `undefined` or a parsed value. */
  datatype JsValue = Undefined | Defined(v: Json)

  /** The falsy values among those above (ECMAScript ToBoolean): undefined,
      null, false, 0 and the empty string. */
  const Falsy: set<JsValue> :=
    {Undefined, Defined(JNull), Defined(JBool(false)), Defined(JNum(0.0)), Defined(JStr(""))}

  /** `!!x`: every value outside the falsy list is truthy, including every
      array and every object, empty or not. */
  predicate Truthy(x: JsValue)
    ensures Truthy(x) <==> x !in Falsy
  {
    match x
    case Undefined => false
    case Defined(j) =>
      match j
      case JNull => false
      case JBool(b) => b
      case JNum(n) => n != 0.0
      case JStr(s) => |s| > 0
      case JArr(_) => true
      case JObj(_) => true
  }

  /** The `typeof` operator. Only a parsed boolean has type "boolean", and
      `null` has type "object", as arrays and objects do. */
  function TypeOf(x: JsValue): (t: string)
    ensures t in {"undefined", "object", "boolean", "number", "string"}
    ensures t == "boolean" <==> x.Defined? && x.v.JBool?
    ensures t == "object" <==> x.Defined? && (x.v.JNull? || x.v.JArr? || x.v.JObj?)
  {
    match x
    case Undefined => "undefined"
    case Defined(j) =>
      match j
      case JNull => "object"
      case JBool(_) => "boolean"
      case JNum(_) => "number"
      case JStr(_) => "string"
      case JArr(_) => "object"
      case JObj(_) => "object"
  }

  /** The property names the handler reads. None of them is an array index,
      `length`, or a member inherited from a prototype, so on anything but an
      object with that own property they read as undefined. */
  const HandlerKeys: set<string> := {"id", "description", "isCompleted"}

  datatype Read = Got(value: JsValue) | ThrewTypeError

  /** `target[key]`: a TypeError on null, the own property of an object when
      it has one, and undefined otherwise. */
  function GetProperty(target: Json, key: string): (r: Read)
    requires key in HandlerKeys
    ensures r.ThrewTypeError? <==> target.JNull?
    ensures r.Got? && r.value.Defined? <==> target.JObj? && key in target.fields
    ensures r.Got? && r.value.Defined? ==> r.value.v == target.fields[key]
  {
    match target
    case JNull => ThrewTypeError
    case JObj(fields) => Got(if key in fields then Defined(fields[key]) else Undefined)
    case _ => Got(Undefined)
  }

  /** `x || fallback` where `x` is a string or undefined: `x` when it is
      truthy, `fallback` otherwise. */
  function StringOr(x: Option<string>, fallback: string): (r: string)
    ensures x.Some? && Truthy(Defined(JStr(x.value))) ==> r == x.value
    ensures x.None? || !Truthy(Defined(JStr(x.value))) ==> r == fallback
  {
    match x
    case Some(s) => if s != "" then s else fallback
    case None => fallback
  }
}
