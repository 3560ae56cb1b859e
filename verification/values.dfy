/** The dynamically typed values that catalog records carry, as Python and
    DynamoDB see them, with Python's truthiness and `str()`. */
module Values {
  import opened Ascii
  import opened Numerals

  /** A string, a `Decimal` (or `int`) worth `digits / 10^scale`, a boolean,
      `None`, or a list. */
  datatype Value = VStr(s: string) | VNum(digits: int, scale: nat) | VBool(b: bool) | VNull | VList(elems: seq<Value>)

  /** A catalog record: attribute name to value. */
  type Item = map<string, Value>

  function Int(n: int): Value { VNum(n, 0) }

  /** Python's `bool(v)`. */
  predicate Truthy(v: Value) {
    match v
    case VStr(s) => s != ""
    case VNum(d, _) => d != 0
    case VBool(b) => b
    case VNull => false
    case VList(xs) => xs != []
  }

  /** `dict.get(key)` followed by a truthiness test. */
  predicate TruthyAt(m: Item, key: string) {
    key in m && Truthy(m[key])
  }

  function Zeros(n: nat): (z: string)
    ensures |z| == n
  {
    if n == 0 then "" else "0" + Zeros(n - 1)
  }

  /** `str(Decimal)` in positional notation: the digits with a point placed
      `scale` places from the right, padded with leading zeros. */
  function DecimalText(digits: int, scale: nat): string {
    if scale == 0 then IntToString(digits)
    else
      var ds := NatToString(if digits < 0 then -digits else digits);
      var padded := if |ds| <= scale then Zeros(scale + 1 - |ds|) + ds else ds;
      (if digits < 0 then "-" else "") + padded[..|padded| - scale] + "." + padded[|padded| - scale..]
  }

  /** `str(v)` */
  function Render(v: Value): string
    decreases v, 1
  {
    match v
    case VStr(s) => s
    case VNum(d, e) => DecimalText(d, e)
    case VBool(b) => if b then "True" else "False"
    case VNull => "None"
    case VList(xs) => "[" + ReprAll(xs) + "]"
  }

  /** An approximation of `repr(v)`, which is what `str` shows for list
      elements: a string is always put in single quotes with nothing escaped,
      and every number shows as a `Decimal`. Python instead switches to double
      quotes for a string holding `'`, escapes control characters, and shows a
      plain `int` element as `5`. No modelled path depends on the difference:
      Discogs fields join their list elements instead of printing the list, and
      the migrations render only scalars. */
  function Repr(v: Value): string
    decreases v, 2
  {
    match v
    case VStr(s) => "'" + s + "'"
    case VNum(d, e) => "Decimal('" + DecimalText(d, e) + "')"
    case _ => Render(v)
  }

  /** The elements' representations separated by ", ". */
  function ReprAll(xs: seq<Value>): string
    decreases xs
  {
    if xs == [] then ""
    else if |xs| == 1 then Repr(xs[0])
    else Repr(xs[0]) + ", " + ReprAll(xs[1..])
  }
}
