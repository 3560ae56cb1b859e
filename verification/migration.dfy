/** What the `migrar_aws*` scripts share: turning a Postgres row into a
    DynamoDB item. Python's `x if x else d`, `int(x)` and `str(x)`, the
    filter that drops `None` and `""` values, and the lower-cased keyword
    string the search endpoint scans. */
module Migration {
  import opened Wrappers
  import opened Ascii
  import opened Numerals
  import opened Values
  import Store

  /** The 21 columns `migrar_aws.py` and `migrar_aws_modo_venezuela.py` read. */
  datatype WideRow = WideRow(
    dbId: Value, driveId: Value, title: Value, artist: Value, album: Value, genre: Value,
    duration: Value, cover: Value, link: Value, summary: Value, origin: Value, curator: Value, mbid: Value,
    nationality: Value, realName: Value,
    releaseYear: Value, country: Value, style: Value, recordLabel: Value, format: Value, discogsId: Value)

  /** The 10 columns the two older scripts read. */
  datatype NarrowRow = NarrowRow(
    dbId: Value, driveId: Value, title: Value, artist: Value, album: Value, genre: Value,
    duration: Value, cover: Value, link: Value, summary: Value)

  /** `v if v else d` */
  function OrElse(v: Value, d: Value): (r: Value)
    ensures Truthy(v) ==> r == v
    ensures !Truthy(v) ==> r == d
  {
    if Truthy(v) then v else d
  }

  /** A value the item filter drops: `None` or `""`. */
  predicate Blank(v: Value) { v == VNull || v == VStr("") }

  lemma TruthyNotBlank(v: Value)
    requires Truthy(v)
    ensures !Blank(v)
  {
  }

  /** `{k: v for k, v in item.items() if v is not None and v != ""}` */
  function DropBlank(item: Item): (r: Item)
    ensures r.Keys <= item.Keys
    ensures forall k :: k in r ==> r[k] == item[k] && !Blank(r[k])
    ensures forall k :: k in item && !Blank(item[k]) ==> k in r
  {
    map k | k in item && !Blank(item[k]) :: item[k]
  }

  /** An optional sign followed by digits. */
  predicate SignedDigits(t: string) {
    |t| > 1 && (t[0] == '-' || t[0] == '+') && IsDigitString(t[1..])
  }

  /** `int(s)` for a string: an optionally signed run of digits with at most
      whitespace around it. */
  function ParseInt(s: string): (r: Result<int>)
    ensures r.Ok? <==> IsDigitString(Strip(s)) || SignedDigits(Strip(s))
    ensures IsDigitString(Strip(s)) ==> r == Ok(ParseDigits(Strip(s)))
    ensures SignedDigits(Strip(s)) && Strip(s)[0] == '-' ==> r == Ok(-(ParseDigits(Strip(s)[1..]) as int))
    ensures SignedDigits(Strip(s)) && Strip(s)[0] == '+' ==> r == Ok(ParseDigits(Strip(s)[1..]))
  {
    var t := Strip(s);
    if IsDigitString(t) then Ok(ParseDigits(t))
    else if SignedDigits(t) then Ok(if t[0] == '-' then -(ParseDigits(t[1..]) as int) else ParseDigits(t[1..]))
    else Err("ValueError: invalid literal for int() with base 10")
  }

  /** Python's `int(v)` on what Postgres returns: a number loses its fraction
      toward zero, a string is parsed, `None` and lists raise. */
  function IntOf(v: Value): (r: Result<int>)
    ensures v.VNum? ==> r.Ok? && Abs(r.value) * Pow10(v.scale) <= Abs(v.digits) < (Abs(r.value) + 1) * Pow10(v.scale)
    ensures v.VNum? ==> r.value == 0 || (r.value > 0 <==> v.digits > 0)
    ensures v.VNum? && v.scale == 0 ==> r == Ok(v.digits)
    ensures v.VBool? ==> r == Ok(if v.b then 1 else 0)
    ensures v.VStr? ==> r == ParseInt(v.s)
    ensures v.VNull? || v.VList? ==> r.Err?
  {
    match v
    case VNum(d, e) => Ok(TruncDiv(d, Pow10(e)))
    case VBool(b) => Ok(if b then 1 else 0)
    case VStr(s) => ParseInt(s)
    case VNull => Err("TypeError: int() argument must be a string or a real number, not 'NoneType'")
    case VList(_) => Err("TypeError: int() argument must be a string or a real number, not 'list'")
  }

  /** `int(str(n)) == n` */
  lemma IntOfText(n: int)
    ensures IntOf(VStr(IntToString(n))) == Ok(n)
  {
    var s := IntToString(n);
    if n >= 0 {
      StripDigits(s);
    } else {
      var d := NatToString(-n);
      assert s == "-" + d;
      StripSigned(d);
      assert s[1..] == d;
      assert !IsDigitString(s);
    }
  }

  lemma StripDigits(s: string)
    requires IsDigitString(s)
    ensures Strip(s) == s
  {
    assert SpacesEnd(s, 0) == 0;
    assert SpacesStart(s, |s|) == |s|;
  }

  lemma StripSigned(d: string)
    requires IsDigitString(d)
    ensures Strip("-" + d) == "-" + d
  {
    var s := "-" + d;
    assert SpacesEnd(s, 0) == 0;
    assert s[|s| - 1] == d[|d| - 1];
    assert SpacesStart(s, |s|) == |s|;
  }

  /** `int(v) if v else None` */
  function OptionalInt(v: Value): (r: Result<Value>)
    ensures !Truthy(v) ==> r == Ok(VNull)
    ensures Truthy(v) ==> (r.Ok? <==> IntOf(v).Ok?)
    ensures Truthy(v) && r.Ok? ==> r.value == Int(IntOf(v).value)
  {
    if !Truthy(v) then Ok(VNull)
    else
      var n :- IntOf(v);
      Ok(Int(n))
  }

  /** `str(v) if v else ""` */
  function TextIfTruthy(v: Value): string {
    if Truthy(v) then Render(v) else ""
  }

  /** `f"{p0} {p1} ...".lower()`: the parts space-separated and lower-cased,
      so each part occurs in it lower-cased. */
  function KeywordText(parts: seq<string>): (k: string)
    ensures |k| == |Join(" ", parts)|
    ensures |parts| > 1 ==> k != ""
    ensures forall i :: 0 <= i < |parts| ==> Contains(k, LowerStr(parts[i]))
  {
    KeywordTextHolds(parts);
    LowerStr(Join(" ", parts))
  }

  lemma KeywordTextHolds(parts: seq<string>)
    ensures forall i :: 0 <= i < |parts| ==> Contains(LowerStr(Join(" ", parts)), LowerStr(parts[i]))
  {
    forall i | 0 <= i < |parts|
      ensures Contains(LowerStr(Join(" ", parts)), LowerStr(parts[i]))
    {
      JoinHoldsParts(" ", parts, i);
      LowerKeepsContains(Join(" ", parts), parts[i]);
    }
  }

  /** After the blank filter, a column copied with `v if v else ""` is
      present exactly when the row's value is truthy, and holds that value. */
  predicate CopiedIfTruthy(item: Item, key: string, v: Value) {
    (key in item <==> Truthy(v)) && (Truthy(v) ==> item[key] == v)
  }

  lemma DropBlankCopies(item: Item, key: string, v: Value)
    requires key in item && item[key] == OrElse(v, VStr(""))
    ensures CopiedIfTruthy(DropBlank(item), key, v)
  {
  }

  /** A column written as read survives the blank filter unless it is blank. */
  predicate KeptUnlessBlank(item: Item, key: string, v: Value) {
    (key in item <==> !Blank(v)) && (!Blank(v) ==> item[key] == v)
  }

  lemma DropBlankKeeps(item: Item, key: string, v: Value)
    requires key in item && item[key] == v
    ensures KeptUnlessBlank(DropBlank(item), key, v)
  {
  }

  /** The item's keywords hold `text` lower-cased. */
  predicate KeywordsHold(item: Item, text: string) {
    "search_keywords" in item && item["search_keywords"].VStr? && Contains(item["search_keywords"].s, LowerStr(text))
  }

  lemma ContainsTrans(a: string, b: string, c: string)
    requires Contains(a, b) && Contains(b, c)
    ensures Contains(a, c)
  {
    var i :| 0 <= i <= |a| && OccursAt(a, b, i);
    var j :| 0 <= j <= |b| && OccursAt(b, c, j);
    assert a[i + j..i + j + |c|] == c by {
      assert forall k :: 0 <= k < |c| ==> a[i + j + k] == b[j + k] == c[k];
    }
    assert OccursAt(a, c, i + j);
  }

  /** The search endpoint's scan finds an item for every query whose words
      all occur in a text the item's keywords hold lower-cased. */
  lemma FoundByWordsOf(item: Item, text: string, words: seq<string>)
    requires KeywordsHold(item, text)
    requires forall k :: 0 <= k < |words| ==> Contains(LowerStr(text), words[k])
    ensures Store.Matches(item, words)
  {
    forall k | 0 <= k < |words|
      ensures Store.KeywordsContain(item["search_keywords"], words[k])
    {
      ContainsTrans(item["search_keywords"].s, LowerStr(text), words[k]);
    }
  }
}
