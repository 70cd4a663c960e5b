/** Values of the browser scripts' JavaScript world that the model needs:
    optional values, primitive values with their truthiness, and decoded
    JSON documents (what `JSON.parse` hands back from browser storage). */
module Js {

  /** An optional value; `None` stands for `null`/`undefined` where the
      scripts test a value for presence. */
  datatype Option<+T> = None | Some(value: T)

  /** A primitive JavaScript value. Numbers are modelled as integers. */
  datatype Value = Undefined | Null | Bool(b: bool) | Num(n: int) | Str(s: string)

  /** JavaScript truthiness: `undefined`, `null`, `false`, `0` and `""` are
      falsy, every other primitive is truthy. */
  predicate Truthy(v: Value)
    ensures !Truthy(v) <==> v in {Undefined, Null, Bool(false), Num(0), Str("")}
  {
    match v
    case Undefined => false
    case Null => false
    case Bool(b) => b
    case Num(n) => n != 0
    case Str(s) => s != ""
  }

  /** A decoded JSON document. */
  datatype Json =
    | JNull
    | JBool(b: bool)
    | JNum(n: int)
    | JStr(s: string)
    | JArr(items: seq<Json>)
    | JObj(fields: map<string, Json>)

  /** Decimal text of an integer, as `'' + n` produces it. */
  function IntToText(n: int): (r: string)
    ensures |r| >= 1
    decreases if n < 0 then 1 - n else n
  {
    if n < 0 then "-" + IntToText(-n)
    else if n < 10 then [DigitChar(n)]
    else IntToText(n / 10) + [DigitChar(n % 10)]
  }

  function DigitChar(d: int): char
    requires 0 <= d < 10
  {
    "0123456789"[d]
  }

  /** The text `'' + v` of a primitive value. */
  function ToText(v: Value): (r: string)
    ensures v.Str? ==> r == v.s
    ensures r == "" <==> v == Str("")
  {
    match v
    case Undefined => "undefined"
    case Null => "null"
    case Bool(b) => if b then "true" else "false"
    case Num(n) => IntToText(n)
    case Str(s) => s
  }
}
