/** The JSON bodies the search endpoint returns and the two `DecimalEncoder`
    classes that turn DynamoDB numbers into JSON numbers. The float branch of
    the first encoder is kept abstract: `JFloat` carries the decimal it came
    from. */
module Json {
  import opened Values
  import opened Numerals

  datatype Json = JNull | JBool(b: bool) | JStr(s: string) | JInt(i: int) | JFloat(digits: int, scale: nat) | JArr(elems: seq<Json>) | JObj(fields: map<string, Json>)

  /** The first encoder: `int(obj) if obj % 1 == 0 else float(obj)`. */
  function EncodeNumExact(digits: int, scale: nat): (j: Json)
    ensures j.JInt? <==> digits % Pow10(scale) == 0
    ensures j.JInt? ==> j.i * Pow10(scale) == digits
    ensures j.JFloat? ==> j == JFloat(digits, scale)
  {
    var p := Pow10(scale);
    if digits % p == 0 then
      var q := TruncDiv(digits, p);
      ExactQuotient(digits, p);
      JInt(q)
    else JFloat(digits, scale)
  }

  /** The second encoder: `int(obj)` for every decimal, dropping any fraction. */
  function EncodeNumTrunc(digits: int, scale: nat): (j: Json)
    ensures j.JInt?
    ensures Abs(j.i) * Pow10(scale) <= Abs(digits) < (Abs(j.i) + 1) * Pow10(scale)
    ensures j.i == 0 || (j.i > 0 <==> digits > 0)
  {
    JInt(TruncDiv(digits, Pow10(scale)))
  }

  /** Which `DecimalEncoder` a handler serialises with. */
  datatype Encoder = Exact | Truncating

  function EncodeValue(v: Value, enc: Encoder): (j: Json)
    ensures v.VStr? <==> j.JStr?
    ensures v.VNull? <==> j.JNull?
    ensures v.VList? <==> j.JArr?
    ensures v.VList? ==> |j.elems| == |v.elems|
    ensures !j.JObj?
    ensures v.VStr? ==> j == JStr(v.s)
    ensures v.VBool? ==> j == JBool(v.b)
    ensures v.VNum? && enc == Exact ==> j == EncodeNumExact(v.digits, v.scale)
    ensures v.VNum? && enc == Truncating ==> j == EncodeNumTrunc(v.digits, v.scale)
    ensures v.VList? ==> forall i :: 0 <= i < |v.elems| ==> j.elems[i] == EncodeValue(v.elems[i], enc)
  {
    match v
    case VStr(s) => JStr(s)
    case VBool(b) => JBool(b)
    case VNull => JNull
    case VNum(d, e) => if enc == Exact then EncodeNumExact(d, e) else EncodeNumTrunc(d, e)
    case VList(xs) => JArr(seq(|xs|, i requires 0 <= i < |xs| => EncodeValue(xs[i], enc)))
  }

  /** A record becomes an object with the same keys. */
  function EncodeItem(item: Item, enc: Encoder): (j: Json)
    ensures j.JObj? && j.fields.Keys == item.Keys
    ensures forall k :: k in item ==> j.fields[k] == EncodeValue(item[k], enc)
  {
    JObj(map k | k in item :: EncodeValue(item[k], enc))
  }

  function EncodeItems(items: seq<Item>, enc: Encoder): (j: Json)
    ensures j.JArr? && |j.elems| == |items|
    ensures forall i :: 0 <= i < |items| ==> j.elems[i] == EncodeItem(items[i], enc)
  {
    JArr(seq(|items|, i requires 0 <= i < |items| => EncodeItem(items[i], enc)))
  }

  /** `{"error": message}` */
  function ErrorBody(message: string): (j: Json)
    ensures j.JObj? && j.fields.Keys == {"error"} && j.fields["error"] == JStr(message)
  {
    JObj(map["error" := JStr(message)])
  }

  /** A body shows attribute `key` when it is an object with that key or a
      list holding such an object. */
  predicate Shows(body: Json, key: string) {
    match body
    case JObj(f) => key in f
    case JArr(xs) => exists i :: 0 <= i < |xs| && xs[i].JObj? && key in xs[i].fields
    case _ => false
  }

  const CorsHeaders: map<string, string> :=
    map["Access-Control-Allow-Origin" := "*", "Content-Type" := "application/json"]

  /** What `response(code, body)` hands to the API gateway. */
  datatype Response = Response(status: int, headers: map<string, string>, body: Json)

  function Respond(code: int, body: Json): (r: Response)
    ensures r.status == code && r.body == body && r.headers == CorsHeaders
    ensures "Access-Control-Allow-Origin" in r.headers && r.headers["Access-Control-Allow-Origin"] == "*"
    ensures "Content-Type" in r.headers && r.headers["Content-Type"] == "application/json"
  {
    Response(code, CorsHeaders, body)
  }
}
