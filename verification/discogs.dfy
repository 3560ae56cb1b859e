/** The Discogs miner's handling of one search hit: the year check, the
    list-valued fields turned into bounded text, and the row update.

    A hit is the first object of the search's `results`, read with
    `meta.get(key)`; a missing key reads as `None` (or as `[]` where the
    script gives that default). */
module Discogs {
  import opened Wrappers
  import opened Ascii
  import opened Values

  /** The width of the text columns the miner writes. */
  const ColumnWidth: nat := 255

  /** `s[:255]` */
  function Truncate(s: string): (r: string)
    ensures |r| <= ColumnWidth
    ensures |r| <= |s| && r == s[..|r|]
    ensures |s| <= ColumnWidth ==> r == s
    ensures |s| > ColumnWidth ==> |r| == ColumnWidth
  {
    if |s| <= ColumnWidth then s else s[..ColumnWidth]
  }

  /** A truthy year whose text is not all digits is dropped. */
  function NormalizeYear(year: Value): (r: Value)
    ensures r == year || r == VNull
    ensures Truthy(r) ==> IsDigitString(Render(r))
    ensures !Truthy(year) || IsDigitString(Render(year)) ==> r == year
  {
    if Truthy(year) && !IsDigitString(Render(year)) then VNull else year
  }

  lemma NormalizeYearIdempotent(year: Value)
    ensures NormalizeYear(NormalizeYear(year)) == NormalizeYear(year)
  {
  }

  /** The strings of a list whose elements are all strings. */
  function Strings(xs: seq<Value>): (r: Option<seq<string>>)
    ensures r.Some? <==> forall i :: 0 <= i < |xs| ==> xs[i].VStr?
    ensures r.Some? ==> |r.value| == |xs| && forall i :: 0 <= i < |xs| ==> r.value[i] == xs[i].s
  {
    if xs == [] then Some([])
    else if !xs[0].VStr? then None
    else
      var rest := Strings(xs[1..]);
      if rest.None? then
        assert exists i :: 0 <= i < |xs[1..]| && !xs[1..][i].VStr?;
        None
      else
        var r := [xs[0].s] + rest.value;
        assert forall i :: 0 < i < |xs| ==> xs[i] == xs[1..][i - 1];
        Some(r)
  }

  /** `", ".join(v)[:255]` for a list and `str(v)[:255]` otherwise; `v` is
      `None` when the key is missing, which reads as the default `[]`.
      Joining a list with a non-string element raises `TypeError`. */
  function FieldText(v: Option<Value>): (r: Result<string>)
    ensures r.Ok? ==> |r.value| <= ColumnWidth
    ensures r.Err? <==> v.Some? && v.value.VList? && Strings(v.value.elems).None?
    ensures v.None? ==> r == Ok("")
    ensures v.Some? && !v.value.VList? ==> r == Ok(Truncate(Render(v.value)))
  {
    if v.None? then Ok("")
    else if v.value.VList? then
      var strs := Strings(v.value.elems);
      if strs.None? then Err("TypeError: sequence item: expected str instance")
      else Ok(Truncate(Join(", ", strs.value)))
    else Ok(Truncate(Render(v.value)))
  }

  /** A key that is present with the value `None` is written as the text
      "None", not left empty. */
  lemma NullFieldIsText()
    ensures FieldText(Some(VNull)) == Ok("None")
  {
  }

  /** A short list of strings is written joined, in order, unshortened. */
  lemma ShortListJoined(xs: seq<string>)
    requires |Join(", ", xs)| <= ColumnWidth
    ensures FieldText(Some(VList(seq(|xs|, i requires 0 <= i < |xs| => VStr(xs[i]))))) == Ok(Join(", ", xs))
  {
    var vs := seq(|xs|, i requires 0 <= i < |xs| => VStr(xs[i]));
    assert Strings(vs).value == xs;
  }

  /** The Discogs columns of `musica_startup`. */
  datatype Row = Row(
    releaseYear: Value,
    country: Value,
    style: Value,
    recordLabel: Value,
    originalFormat: Value,
    discogsId: Value,
    processed: bool)               // discogs_processed

  /** `meta.get(key)` */
  function Get(meta: Item, key: string): Value {
    if key in meta then meta[key] else VNull
  }

  /** `meta.get(key, [])` before the list test. */
  function Field(meta: Item, key: string): Option<Value> {
    if key in meta then Some(meta[key]) else None
  }

  /** The texts written for a hit's style, labels and formats are each at
      most one column wide. */
  predicate Bounded(r: Row) {
    && r.style.VStr? && |r.style.s| <= ColumnWidth
    && r.recordLabel.VStr? && |r.recordLabel.s| <= ColumnWidth
    && r.originalFormat.VStr? && |r.originalFormat.s| <= ColumnWidth
  }

  /** One row of `mina_de_datos`: a hit (a non-empty object) overwrites the
      six Discogs columns, no hit leaves them alone; both mark the row done.
      A field that cannot be joined raises, which ends the run with the row
      unwritten. */
  function MarkRow(row: Row, meta: Option<Item>): (r: Result<Row>)
    ensures r.Ok? ==> r.value.processed
    ensures meta.None? || meta.value == map[] ==> r == Ok(row.(processed := true))
    ensures meta.Some? && meta.value != map[] && r.Ok? ==> Bounded(r.value)
    ensures meta.Some? && meta.value != map[] && r.Ok? ==> r.value.releaseYear == NormalizeYear(Get(meta.value, "year"))
    ensures meta.Some? && meta.value != map[] && r.Ok? ==>
      r.value.country == Get(meta.value, "country") && r.value.discogsId == Get(meta.value, "id")
    ensures meta.Some? && meta.value != map[] ==> (r.Err? <==> FieldText(Field(meta.value, "style")).Err? || FieldText(Field(meta.value, "label")).Err? || FieldText(Field(meta.value, "format")).Err?)
    ensures meta.Some? && meta.value != map[] && r.Ok? ==>
      && r.value.style == VStr(FieldText(Field(meta.value, "style")).value)
      && r.value.recordLabel == VStr(FieldText(Field(meta.value, "label")).value)
      && r.value.originalFormat == VStr(FieldText(Field(meta.value, "format")).value)
  {
    if meta.None? || meta.value == map[] then Ok(row.(processed := true))
    else
      var m := meta.value;
      var style := FieldText(Field(m, "style"));
      var labels := FieldText(Field(m, "label"));
      var formats := FieldText(Field(m, "format"));
      if style.Err? then Err(style.message)
      else if labels.Err? then Err(labels.message)
      else if formats.Err? then Err(formats.message)
      else
        Ok(Row(NormalizeYear(Get(m, "year")), Get(m, "country"), VStr(style.value), VStr(labels.value),
               VStr(formats.value), Get(m, "id"), true))
  }

  /** A hit's update does not depend on what the row held before. */
  lemma HitOverwrites(row1: Row, row2: Row, meta: Item)
    requires meta != map[]
    ensures MarkRow(row1, Some(meta)) == MarkRow(row2, Some(meta))
  {
  }
}
