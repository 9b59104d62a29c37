/**
 * The slice of JavaScript's value universe the kernel bridge inspects:
 * truthiness (`!x`, `x || d`) and the `typeof` operator.
 */
module JsValues {

  /** A JavaScript value. Numbers are restricted to integers. */
  datatype JsValue =
    | Undefined
    | Null
    | Bool(b: bool)
    | Number(n: int)
    | Str(s: string)
    | Array(elems: seq<JsValue>)
    | Object(fields: map<string, JsValue>)
    | Function(id: nat)

  /** The object literal `{}`. */
  const EmptyObject: JsValue := Object(map[])

  /**
   * The values `!v` maps to true: undefined, null, false, 0 and "".
   * Every object, array and function is truthy, `{}` included.
   */
  predicate IsFalsy(v: JsValue): (r: bool)
    ensures r ==> TypeOf(v) != "object" || v.Null?
    ensures v.Array? || v.Object? || v.Function? ==> !r
  {
    match v
    case Undefined => true
    case Null => true
    case Bool(b) => !b
    case Number(n) => n == 0
    case Str(s) => s == ""
    case _ => false
  }

  /** `a || b`: the first operand when it is truthy, the second otherwise. */
  function Or(a: JsValue, b: JsValue): (r: JsValue)
    ensures !IsFalsy(a) ==> r == a
    ensures IsFalsy(a) ==> r == b
    ensures r == a || r == b
    ensures IsFalsy(r) <==> IsFalsy(a) && IsFalsy(b)
    ensures !IsFalsy(b) ==> !IsFalsy(r)
  {
    if IsFalsy(a) then b else a
  }

  /** The string the `typeof` operator yields. */
  function TypeOf(v: JsValue): (t: string)
    ensures t == "object" <==> v.Null? || v.Array? || v.Object?
    ensures t in {"undefined", "object", "boolean", "number", "string", "function"}
  {
    match v
    case Undefined => "undefined"
    case Null => "object"
    case Bool(_) => "boolean"
    case Number(_) => "number"
    case Str(_) => "string"
    case Array(_) => "object"
    case Object(_) => "object"
    case Function(_) => "function"
  }
}
