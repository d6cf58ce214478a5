/** JavaScript values as the console sees them in settings, form controls and
    gateway responses, with JavaScript's truthiness and string conversion. */
module JsValues {

  datatype Option<+T> = None | Some(value: T)

  /** A scalar JavaScript value. Numbers are restricted to integers. */
  datatype Value =
    | Undefined
    | Null
    | Bool(b: bool)
    | Num(n: int)
    | Str(s: string)

  /** `if (v)` in JavaScript: everything is truthy except undefined, null,
      false, 0 and the empty string. */
  predicate Truthy(v: Value)
  {
    match v
    case Undefined => false
    case Null => false
    case Bool(b) => b
    case Num(n) => n != 0
    case Str(s) => s != ""
  }

  /** `v || d` in JavaScript. */
  function Or(v: Value, d: Value): Value
  {
    if Truthy(v) then v else d
  }

  /** The number a string of decimal digits spells, most significant first. */
  function DigitsValue(s: string): int
    decreases |s|
  {
    if s == [] then 0
    else DigitsValue(s[..|s| - 1]) * 10 + (s[|s| - 1] as int - '0' as int)
  }

  /** The decimal digits of a natural number, most significant first, with
      no leading zero. */
  function Decimal(n: nat): (r: string)
    ensures |r| > 0
    ensures forall i :: 0 <= i < |r| ==> '0' <= r[i] <= '9'
    ensures DigitsValue(r) == n
    ensures |r| > 1 ==> r[0] != '0'
    ensures n < 10 <==> |r| == 1
    decreases n
  {
    var d := [('0' as int + n % 10) as char];
    if n < 10 then d
    else
      var hi := Decimal(n / 10);
      assert (hi + d)[..|hi + d| - 1] == hi;
      hi + d
  }

  /** `String(v)`, as used when a value is concatenated into a message. */
  function JsString(v: Value): string
  {
    match v
    case Undefined => "undefined"
    case Null => "null"
    case Bool(b) => if b then "true" else "false"
    case Num(n) => if n < 0 then "-" + Decimal(-n) else Decimal(n)
    case Str(s) => s
  }
}
