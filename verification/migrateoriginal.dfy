/** `migrar_aws_original.py`: the first migration, which writes every field
    as read, `None` included, and an empty mood list. */
module MigrateOriginal {
  import opened Ascii
  import opened Values
  import opened Migration

  function Title(row: NarrowRow): Value { OrElse(row.title, VStr("Desconocido")) }
  function Artist(row: NarrowRow): Value { OrElse(row.artist, VStr("Varios")) }
  function Album(row: NarrowRow): Value { OrElse(row.album, VStr("")) }

  function KeywordParts(row: NarrowRow): seq<string> {
    [Render(Title(row)), Render(Artist(row)), Render(Album(row))]
  }

  /** `f"{titulo} {artista} {album}".lower()` */
  function Keywords(row: NarrowRow): (k: string)
    ensures k != ""
    ensures Contains(k, LowerStr(Render(Title(row))))
    ensures Contains(k, LowerStr(Render(Artist(row))))
    ensures Contains(k, LowerStr(Render(Album(row))))
    ensures forall i :: 0 <= i < |KeywordParts(row)| ==> Contains(k, LowerStr(KeywordParts(row)[i]))
  {
    var parts := KeywordParts(row);
    var k := KeywordText(parts);
    assert Contains(k, LowerStr(parts[0])) && Contains(k, LowerStr(parts[1])) && Contains(k, LowerStr(parts[2]));
    k
  }

  function ItemOf(row: NarrowRow, keywords: string): Item {
    map[
      "id" := VStr(Render(row.dbId)),
      "drive_file_id" := row.driveId,
      "clean_title" := Title(row),
      "artist" := Artist(row),
      "album" := Album(row),
      "genre" := row.genre,
      "duration_ms" := OrElse(row.duration, Int(0)),
      "cover_image" := row.cover,
      "web_view_link" := row.link,
      "search_keywords" := VStr(keywords),
      "music_summary" := OrElse(row.summary, VNull),
      "mood_tags" := VList([])]
  }

  /** The item `migrar` writes for one row: no conversion can fail, and
      nothing is filtered. */
  function BuildItem(row: NarrowRow): (item: Item)
    ensures KeywordsHold(item, Render(Title(row))) && KeywordsHold(item, Render(Artist(row)))
  {
    var k := Keywords(row);
    var item := ItemOf(row, k);
    assert item["search_keywords"] == VStr(k);
    item
  }

  /** The same twelve keys for every row; the key `str(id)`; the title,
      artist, album, duration and summary defaults; file id, genre, cover and
      link as read, possibly `None`; the keyword string. */
  lemma Fields(row: NarrowRow)
    ensures var item := BuildItem(row);
      && item.Keys == {"id", "drive_file_id", "clean_title", "artist", "album", "genre", "duration_ms",
                       "cover_image", "web_view_link", "search_keywords", "music_summary", "mood_tags"}
      && item["id"] == VStr(Render(row.dbId)) && item["search_keywords"] == VStr(Keywords(row))
      && item["clean_title"] == Title(row) && item["artist"] == Artist(row)
      && item["drive_file_id"] == row.driveId && item["web_view_link"] == row.link
      && item["album"] == Album(row) && item["mood_tags"] == VList([])
      && item["genre"] == row.genre && item["cover_image"] == row.cover
      && item["duration_ms"] == OrElse(row.duration, Int(0))
      && item["music_summary"] == OrElse(row.summary, VNull)
    ensures !Truthy(row.title) ==> Title(row) == VStr("Desconocido")
    ensures !Truthy(row.artist) ==> Artist(row) == VStr("Varios")
    ensures !Truthy(row.album) ==> Album(row) == VStr("")
  {
    ItemOfFields(row, Keywords(row));
  }

  lemma ItemOfFields(row: NarrowRow, k: string)
    ensures var item := ItemOf(row, k);
      && item.Keys == {"id", "drive_file_id", "clean_title", "artist", "album", "genre", "duration_ms",
                       "cover_image", "web_view_link", "search_keywords", "music_summary", "mood_tags"}
      && item["id"] == VStr(Render(row.dbId)) && item["search_keywords"] == VStr(k)
      && item["clean_title"] == Title(row) && item["artist"] == Artist(row)
      && item["drive_file_id"] == row.driveId && item["web_view_link"] == row.link
      && item["album"] == Album(row) && item["mood_tags"] == VList([])
      && item["genre"] == row.genre && item["cover_image"] == row.cover
      && item["duration_ms"] == OrElse(row.duration, Int(0))
      && item["music_summary"] == OrElse(row.summary, VNull)
  {
    var item := ItemOf(row, k);
    assert item["album"] == Album(row) && item["mood_tags"] == VList([]);
    assert item["genre"] == row.genre && item["cover_image"] == row.cover;
    assert item["id"] == VStr(Render(row.dbId)) && item["clean_title"] == Title(row) && item["artist"] == Artist(row);
    assert item["drive_file_id"] == row.driveId && item["web_view_link"] == row.link;
  }

  /** Every word of the title, or every word of the artist, finds the item
      in the search endpoint's keyword scan. */
  lemma FoundByTitleOrArtist(row: NarrowRow, words: seq<string>)
    requires (forall k :: 0 <= k < |words| ==> Contains(LowerStr(Render(Title(row))), words[k]))
          || (forall k :: 0 <= k < |words| ==> Contains(LowerStr(Render(Artist(row))), words[k]))
    ensures Store.Matches(BuildItem(row), words)
  {
    if forall k :: 0 <= k < |words| ==> Contains(LowerStr(Render(Title(row))), words[k]) {
      FoundByWordsOf(BuildItem(row), Render(Title(row)), words);
    } else {
      FoundByWordsOf(BuildItem(row), Render(Artist(row)), words);
    }
  }

  /** A query all of whose words occur in the title, the artist or the album
      finds the item in the keyword scan. */
  lemma FoundByKeywordPart(row: NarrowRow, i: nat, words: seq<string>)
    requires i < |KeywordParts(row)|
    requires forall k :: 0 <= k < |words| ==> Contains(LowerStr(KeywordParts(row)[i]), words[k])
    ensures Store.Matches(BuildItem(row), words)
  {
    Fields(row);
    FoundByWordsOf(BuildItem(row), KeywordParts(row)[i], words);
  }
}
