/** JavaScript runtime notions shared by the whole model: optional values,
    thrown exceptions, completions of a call, and the dynamically typed
    values that `typeof`, `instanceof` and string conversion inspect. */
module Js {

  datatype Option<+T> = None | Some(value: T)

  /** A thrown exception, by the constructor that built it.  Node's file-system
      errors and libsql's errors are `Error`s carrying a `code` property. */
  datatype Exception =
    | Error(message: string)
    | TypeError(message: string)
    | SyntaxError(message: string)
    | SystemError(code: string, message: string)
    | LibsqlError(code: string, message: string)
  {
    /** `error instanceof Error && "code" in error && error.code === c` */
    predicate HasCode(c: string) {
      (SystemError? || LibsqlError?) && code == c
    }
  }

  /** How a call ends: it returns a value or it throws. */
  datatype Completion<+T> = Normal(value: T) | Throw(exc: Exception)

  /** A JavaScript value.  Numbers are modelled by their integral values.
      Objects and functions carry their prototype chain (as identifiers of the
      constructors whose `prototype` is on it) and the text `String(value)`
      gives for them. */
  datatype JsValue =
    | Undefined
    | Null
    | Bool(b: bool)
    | Number(n: int)
    | BigInt(i: int)
    | Str(s: string)
    | Symbol(description: string)
    | Object(protos: seq<nat>, text: string)
    | Function(protos: seq<nat>, text: string)

  /** The `typeof` operator. */
  function TypeOf(v: JsValue): (r: string)
    ensures r in {"undefined", "object", "boolean", "number", "bigint", "string", "symbol", "function"}
    ensures r == "object" <==> v.Null? || v.Object?
  {
    match v
    case Undefined => "undefined"
    case Null => "object"
    case Bool(_) => "boolean"
    case Number(_) => "number"
    case BigInt(_) => "bigint"
    case Str(_) => "string"
    case Symbol(_) => "symbol"
    case Object(_, _) => "object"
    case Function(_, _) => "function"
  }

  /** `value instanceof C`, for the constructor identified by `ctor`: true
      exactly for objects and functions with `C.prototype` on their chain. */
  predicate InstanceOf(v: JsValue, ctor: nat) {
    (v.Object? || v.Function?) && ctor in v.protos
  }

  /** Decimal digits of a natural number, most significant first. */
  function NatToString(n: nat): (r: string)
    ensures |r| >= 1
    ensures forall i :: 0 <= i < |r| ==> '0' <= r[i] <= '9'
    decreases n
  {
    var d := [(n % 10) as char + '0' as char];
    if n < 10 then d else NatToString(n / 10) + d
  }

  /** `n.toString()` for an integral number. */
  function IntToString(n: int): (r: string)
    ensures |r| >= 1
    ensures forall i :: 0 <= i < |r| ==> ('0' <= r[i] <= '9') || (i == 0 && r[i] == '-')
  {
    if n < 0 then "-" + NatToString(-n) else NatToString(n)
  }

  /** `String(value)`, as a template literal applies it; a symbol cannot be
      converted and makes the conversion throw. */
  function ToStr(v: JsValue): (r: Completion<string>)
    ensures r.Throw? <==> v.Symbol?
    ensures v.Str? ==> r == Normal(v.s)
  {
    match v
    case Undefined => Normal("undefined")
    case Null => Normal("null")
    case Bool(b) => Normal(if b then "true" else "false")
    case Number(n) => Normal(IntToString(n))
    case BigInt(i) => Normal(IntToString(i))
    case Str(s) => Normal(s)
    case Symbol(_) => Throw(TypeError("Cannot convert a Symbol value to a string"))
    case Object(_, text) => Normal(text)
    case Function(_, text) => Normal(text)
  }
}
