/** `migrar_aws_vieja.py`: the earlier migration of the ten basic columns,
    which replaces `None` and `""` by per-field defaults instead of
    filtering the item. */
module MigrateOld {
  import opened Wrappers
  import opened Ascii
  import opened Values
  import opened Migration

  /** `limpiar_para_dynamo(value, default)` */
  function Default(v: Value, d: Value): (r: Value)
    ensures Blank(v) ==> r == d
    ensures !Blank(v) ==> r == v
  {
    if Blank(v) then d else v
  }

  /** Cleaning twice with the same default is cleaning once, as long as the
      default itself survives cleaning. */
  lemma DefaultIdempotent(v: Value, d: Value)
    requires !Blank(d)
    ensures Default(Default(v, d), d) == Default(v, d)
    ensures !Blank(Default(v, d))
  {
  }

  /** A value the cleaning keeps is truthy exactly when it was before: only
      falsy values are ever replaced. */
  lemma DefaultNullKeepsTruthiness(v: Value)
    ensures Truthy(Default(v, VNull)) <==> Truthy(v)
  {
  }

  function Title(row: NarrowRow): Value { Default(row.title, VStr("Desconocido")) }
  function Artist(row: NarrowRow): Value { Default(row.artist, VStr("Varios")) }
  function Album(row: NarrowRow): Value { Default(row.album, VNull) }

  function KeywordParts(row: NarrowRow): seq<string> {
    [Render(Title(row)), Render(Artist(row)), TextIfTruthy(Album(row))]
  }

  /** `f"{title} {artist} {album if album else ''}".lower()` */
  function Keywords(row: NarrowRow): (k: string)
    ensures k != ""
    ensures Contains(k, LowerStr(Render(Title(row))))
    ensures Contains(k, LowerStr(Render(Artist(row))))
    ensures Contains(k, LowerStr(TextIfTruthy(row.album)))
    ensures forall i :: 0 <= i < |KeywordParts(row)| ==> Contains(k, LowerStr(KeywordParts(row)[i]))
  {
    var parts := KeywordParts(row);
    var k := KeywordText(parts);
    assert Contains(k, LowerStr(parts[0])) && Contains(k, LowerStr(parts[1])) && Contains(k, LowerStr(parts[2]));
    assert TextIfTruthy(Album(row)) == TextIfTruthy(row.album);
    k
  }

  /** The item without its album and its `updated_at` stamp. */
  function BaseItem(row: NarrowRow, duration: int, keywords: string): Item {
    map[
      "id" := VStr(Render(row.dbId)),
      "drive_file_id" := row.driveId,
      "clean_title" := Title(row),
      "artist" := Artist(row),
      "genre" := Default(row.genre, VStr("General")),
      "duration_ms" := Int(duration),
      "cover_image" := Default(row.cover, VNull),
      "web_view_link" := row.link,
      "search_keywords" := VStr(keywords),
      "music_summary" := Default(row.summary, VNull)]
  }

  /** The item `migrar` writes for one row, or the exception `int(dur)`
      raises; the album is added only when there is one. */
  function BuildItem(row: NarrowRow): (r: Result<Item>)
    ensures r.Err? <==> Truthy(row.duration) && IntOf(row.duration).Err?
    ensures r.Ok? ==> ("album" in r.value <==> Truthy(row.album))
    ensures r.Ok? && Truthy(row.album) ==> r.value["album"] == row.album
  {
    var duration :- if Truthy(row.duration) then IntOf(row.duration) else Ok(0);
    var base := BaseItem(row, duration, Keywords(row));
    assert "album" !in base;
    Ok(if Truthy(Album(row)) then base["album" := Album(row)] else base)
  }

  function Duration(row: NarrowRow): int
    requires BuildItem(row).Ok?
  {
    if Truthy(row.duration) then IntOf(row.duration).value else 0
  }

  lemma KeepsBase(row: NarrowRow, duration: int, keywords: string)
    ensures var item := BaseItem(row, duration, keywords);
      && "clean_title" in item && item["clean_title"] == Title(row)
      && "artist" in item && item["artist"] == Artist(row)
      && "genre" in item && item["genre"] == Default(row.genre, VStr("General"))
      && "duration_ms" in item && item["duration_ms"] == Int(duration)
      && "search_keywords" in item && item["search_keywords"] == VStr(keywords)
  {
  }

  /** The title, artist and genre defaults, the duration, and the keywords
      holding the title, the artist and the album. */
  lemma Defaults(row: NarrowRow)
    requires BuildItem(row).Ok?
    ensures var item := BuildItem(row).value;
      && "clean_title" in item && item["clean_title"] == Title(row)
      && "artist" in item && item["artist"] == Artist(row)
      && "genre" in item && item["genre"] == Default(row.genre, VStr("General"))
      && "duration_ms" in item && item["duration_ms"] == Int(Duration(row))
      && "search_keywords" in item && item["search_keywords"] == VStr(Keywords(row))
      && KeywordsHold(item, Render(Title(row))) && KeywordsHold(item, Render(Artist(row)))
      && KeywordsHold(item, TextIfTruthy(row.album))
    ensures Blank(row.title) ==> Title(row) == VStr("Desconocido")
    ensures Blank(row.artist) ==> Artist(row) == VStr("Varios")
    ensures !Truthy(row.duration) ==> Duration(row) == 0
  {
    var base := BaseItem(row, Duration(row), Keywords(row));
    KeepsBase(row, Duration(row), Keywords(row));
    assert BuildItem(row).value == if Truthy(Album(row)) then base["album" := Album(row)] else base;
  }

  /** A query all of whose words occur in the title, the artist or the album
      finds the item in the keyword scan. */
  lemma FoundByKeywordPart(row: NarrowRow, i: nat, words: seq<string>)
    requires BuildItem(row).Ok?
    requires i < |KeywordParts(row)|
    requires forall k :: 0 <= k < |words| ==> Contains(LowerStr(KeywordParts(row)[i]), words[k])
    ensures Store.Matches(BuildItem(row).value, words)
  {
    Defaults(row);
    FoundByWordsOf(BuildItem(row).value, KeywordParts(row)[i], words);
  }
}
