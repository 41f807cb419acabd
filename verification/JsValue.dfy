/** JavaScript values as JSON and YAML produce them, with the conversions and equalities the agent relies on. */
module JsValue {
  import opened Strings

  /** A number. Rounding is not modelled: finite numbers are reals. */
  datatype Number = Finite(r: real) | PosInf | NegInf | NaN

  datatype Value =
    | Undefined
    | Null
    | Bool(b: bool)
    | Num(n: Number)
    | Str(s: string)
    | List(items: seq<Value>)
    | Obj(props: map<string, Value>)

  /**
   The pieces of the host that are left abstract: which numbers it can hold, number parsing and printing, regular
   expressions, IP syntax.
   */
  datatype Js = Js(
    double: Number -> bool,
    parse: string -> Number,
    show: Number -> string,
    compiles: string -> bool,
    portable: string -> bool,
    matches: (string, string) -> bool,
    isFqdn: string -> bool,
    ipVersion: string -> int)
  {
    /**
     What is assumed of number printing and parsing: 0 is a number of the host, a printed number of the host reads
     back, and the words below are not numbers.
     */
    ghost predicate Lawful() {
      && double(Finite(0.0))
      && (forall n :: double(n) && n != NaN ==> parse(show(n)) == n)
      && (forall n :: show(n) != "")
      && show(NaN) == "NaN"
      && parse("") == Finite(0.0)
      && parse("NaN") == NaN
      && parse("true") == NaN
      && parse("false") == NaN
      && parse("null") == NaN
      && parse("undefined") == NaN
      && parse("[object Object]") == NaN
    }
  }

  /** `String(v)`. */
  function Text(js: Js, v: Value): string {
    match v
    case Undefined => "undefined"
    case Null => "null"
    case Bool(b) => if b then "true" else "false"
    case Num(n) => js.show(n)
    case Str(s) => s
    case List(items) => TextOfItems(js, items)
    case Obj(_) => "[object Object]"
  }

  function TextOfItems(js: Js, items: seq<Value>): string {
    if |items| == 0 then ""
    else
      var first := if items[0] == Undefined || items[0] == Null then "" else Text(js, items[0]);
      if |items| == 1 then first else first + "," + TextOfItems(js, items[1..])
  }

  /** `Number(v)`. */
  function ToNumber(js: Js, v: Value): Number {
    match v
    case Undefined => NaN
    case Null => Finite(0.0)
    case Bool(b) => if b then Finite(1.0) else Finite(0.0)
    case Num(n) => n
    case Str(s) => js.parse(s)
    case _ => js.parse(Text(js, v))
  }

  predicate Truthy(v: Value) {
    match v
    case Undefined => false
    case Null => false
    case Bool(b) => b
    case Num(n) => n != NaN && n != Finite(0.0)
    case Str(s) => s != ""
    case _ => true
  }

  /** `a < b` on numbers. */
  predicate Less(a: Number, b: Number) {
    match (a, b)
    case (NaN, _) => false
    case (_, NaN) => false
    case (Finite(x), Finite(y)) => x < y
    case (NegInf, _) => b != NegInf
    case (_, PosInf) => a != PosInf
    case _ => false
  }

  /** `a <= b` on numbers. */
  predicate AtMost(a: Number, b: Number) {
    Less(a, b) || (a == b && a != NaN)
  }

  /** `a === b`. Two lists or maps are never the same object: nothing here is shared by reference. */
  predicate StrictEq(a: Value, b: Value) {
    !a.List? && !a.Obj? && a != Num(NaN) && a == b
  }

  /** `list.includes(v)`: strict equality, except that NaN is found. */
  predicate Includes(list: seq<Value>, v: Value) {
    exists i :: 0 <= i < |list| && !v.List? && !v.Obj? && list[i] == v
  }

  function Get(v: Value, key: string): Value {
    if v.Obj? && key in v.props then v.props[key] else Undefined
  }

  /** `ctx[key]`. */
  function Lookup(ctx: map<string, Value>, key: string): Value {
    if key in ctx then ctx[key] else Undefined
  }
}
