// JavaScript values as they travel between the MQTT payload decoder
// (src/platform.ts) and the thermostat handlers (src/thermostatAccessory.ts).
// The handlers receive the decoded payload through a TypeScript cast, which
// converts nothing, so the state keeps whatever the payload decoded to.

datatype Option<T> = None | Some(value: T)

/** A decoded payload: what JSON.parse, parseFloat or the raw text yields. */
datatype Value =
  | Num(n: real)     // a finite JavaScript number
  | Bool(b: bool)
  | Str(s: string)
  | Null             // JSON `null`
  | Other            // a JSON object or array

/** JavaScript truthiness, used by `active ? ACTIVE : INACTIVE` and `!(value as boolean)`. */
predicate Truthy(v: Value)
  ensures Truthy(v) <==> v != Bool(false) && v != Num(0.0) && v != Str("") && v != Null
{
  match v
  case Num(n) => n != 0.0
  case Bool(b) => b
  case Str(s) => s != ""
  case Null => false
  case Other => true
}

/**
 * A character `Number(s)` trims from a string: the white space and line
 * terminators of ECMAScript (StrWhiteSpaceChar, section 7.1.4.1.1 of
 * ECMA-262), with every space separator of Unicode category Zs.
 */
predicate StrWhiteSpaceChar(c: char)
{
  || c == '\t' || c == '\U{B}' || c == '\U{C}' || c == ' ' || c == '\U{A0}' || c == '\U{FEFF}'
  || c == '\n' || c == '\r' || c == '\U{2028}' || c == '\U{2029}'
  || c == '\U{1680}' || ('\U{2000}' <= c <= '\U{200A}') || c == '\U{202F}' || c == '\U{205F}' || c == '\U{3000}'
}

/**
 * The number JavaScript's `-` operator takes from a value; None stands for NaN.
 * A string of white space only (the empty string included) is 0; any other
 * string, and every object or array, is taken as NaN here.
 */
function NumberOf(v: Value): (r: Option<real>)
  ensures v.Num? ==> r == Some(v.n)
  ensures v.Null? ==> r == Some(0.0)
  ensures v.Bool? ==> r == Some(if v.b then 1.0 else 0.0)
  ensures v.Str? ==> (r.Some? <==> forall i :: 0 <= i < |v.s| ==> StrWhiteSpaceChar(v.s[i]))
  ensures v.Str? && r.Some? ==> r.value == 0.0
  ensures v.Other? ==> r.None?
{
  match v
  case Num(n) => Some(n)
  case Bool(b) => Some(if b then 1.0 else 0.0)
  case Null => Some(0.0)
  case Str(s) => if forall i :: 0 <= i < |s| ==> StrWhiteSpaceChar(s[i]) then Some(0.0) else None
  case Other => None
}

/** The value a command carries: `publishCommand`'s `string | number | boolean`. */
datatype Scalar = SNum(n: real) | SBool(b: bool) | SStr(s: string)

/**
 * Payload decoding of `handleMessage`: JSON first; when JSON.parse throws,
 * parseFloat's result unless it is NaN; otherwise the raw text.
 * `parseJson` and `parseFloat` stand for the JavaScript built-ins (None: throws / NaN).
 */
function Decode(text: string, parseJson: string -> Option<Value>, parseFloat: string -> Option<real>): (v: Value)
  ensures parseJson(text).Some? ==> v == parseJson(text).value
  ensures parseJson(text).None? ==> v.Num? || v == Str(text)
  ensures parseJson(text).None? && v.Num? ==> parseFloat(text) == Some(v.n)
  ensures v == Str(text) && parseJson(text) != Some(Str(text)) ==> parseJson(text).None? && parseFloat(text).None?
{
  match parseJson(text)
  case Some(json) => json
  case None =>
    match parseFloat(text)
    case Some(n) => Num(n)
    case None => Str(text)
}
