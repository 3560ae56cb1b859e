/** `migrar_aws.py`: the final migration, which also carries the Last.fm
    identity fields and the Discogs fields into each item. */
module MigrateAws {
  import opened Wrappers
  import opened Ascii
  import opened Values
  import opened Migration

  const UnknownTitle: Value := VStr("Desconocido")
  const VariousArtists: Value := VStr("Varios")
  const DefaultGenre: Value := VStr("General")
  const DefaultSummary: Value := VStr("Sin descripción disponible.")
  const UnknownNationality: Value := VStr("No especificada")

  /** The title and artist the item is written with. */
  function Title(row: WideRow): Value { OrElse(row.title, UnknownTitle) }
  function Artist(row: WideRow): Value { OrElse(row.artist, VariousArtists) }

  /** What the keyword string is made of, in order; a missing value leaves
      its slot empty. */
  function KeywordParts(row: WideRow, year: Value): seq<string> {
    [Render(Title(row)), Render(Artist(row)), TextIfTruthy(row.album), TextIfTruthy(row.nationality),
     TextIfTruthy(row.realName), TextIfTruthy(year), TextIfTruthy(row.style), TextIfTruthy(row.country)]
  }

  /** Title, artist, album, nationality, real name, year, style and country,
      space-separated and lower-cased. */
  function Keywords(row: WideRow, year: Value): (k: string)
    ensures k != ""
    ensures Contains(k, LowerStr(Render(Title(row))))
    ensures Contains(k, LowerStr(Render(Artist(row))))
    ensures Contains(k, LowerStr(TextIfTruthy(row.album)))
    ensures Contains(k, LowerStr(TextIfTruthy(row.nationality)))
    ensures Contains(k, LowerStr(TextIfTruthy(row.realName)))
    ensures Contains(k, LowerStr(TextIfTruthy(year)))
    ensures Contains(k, LowerStr(TextIfTruthy(row.style)))
    ensures Contains(k, LowerStr(TextIfTruthy(row.country)))
    ensures forall i :: 0 <= i < |KeywordParts(row, year)| ==> Contains(k, LowerStr(KeywordParts(row, year)[i]))
  {
    var parts := KeywordParts(row, year);
    var k := KeywordText(parts);
    assert Contains(k, LowerStr(parts[0])) && Contains(k, LowerStr(parts[1])) && Contains(k, LowerStr(parts[2]))
      && Contains(k, LowerStr(parts[3])) && Contains(k, LowerStr(parts[4])) && Contains(k, LowerStr(parts[5]))
      && Contains(k, LowerStr(parts[6])) && Contains(k, LowerStr(parts[7]));
    k
  }

  /** The item before the blank filter. */
  function RawItem(row: WideRow, id: string, year: Value, discogsId: Value, duration: int, keywords: string): Item
  {
    var artist := Artist(row);
    map[
      "id" := VStr(id),
      "drive_file_id" := row.driveId,
      "clean_title" := Title(row),
      "artist" := artist,
      "album" := OrElse(row.album, VStr("")),
      "genre" := OrElse(row.genre, DefaultGenre),
      "duration_ms" := Int(duration),
      "cover_image" := OrElse(row.cover, VStr("")),
      "web_view_link" := row.link,
      "search_keywords" := VStr(keywords),
      "music_summary" := OrElse(row.summary, DefaultSummary),
      "nationality" := OrElse(row.nationality, UnknownNationality),
      "real_name" := OrElse(row.realName, artist),
      "release_year" := year,
      "country" := OrElse(row.country, VStr("")),
      "style" := OrElse(row.style, VStr("")),
      "record_label" := OrElse(row.recordLabel, VStr("")),
      "original_format" := OrElse(row.format, VStr("")),
      "discogs_id" := discogsId]
  }

  /** The item `migrar` writes for one row, or the exception an `int()`
      conversion raises. */
  function BuildItem(row: WideRow): (r: Result<Item>)
    ensures r.Ok? ==> forall k :: k in r.value ==> !Blank(r.value[k])
    ensures r.Err? <==> (OptionalInt(row.releaseYear).Err? || OptionalInt(row.discogsId).Err?
                         || (Truthy(row.duration) && IntOf(row.duration).Err?))
  {
    var year :- OptionalInt(row.releaseYear);
    var discogsId :- OptionalInt(row.discogsId);
    var duration :- if Truthy(row.duration) then IntOf(row.duration) else Ok(0);
    Ok(DropBlank(RawItem(row, Render(row.dbId), year, discogsId, duration, Keywords(row, year))))
  }

  /** The pieces `BuildItem` computes before the item, for a row it accepts. */
  function Year(row: WideRow): Value
    requires BuildItem(row).Ok?
  {
    OptionalInt(row.releaseYear).value
  }

  function Duration(row: WideRow): int
    requires BuildItem(row).Ok?
  {
    if Truthy(row.duration) then IntOf(row.duration).value else 0
  }

  lemma BuildItemIs(row: WideRow)
    requires BuildItem(row).Ok?
    ensures BuildItem(row).value
      == DropBlank(RawItem(row, Render(row.dbId), Year(row), OptionalInt(row.discogsId).value, Duration(row), Keywords(row, Year(row))))
  {
  }

  lemma KeepsTitleAndArtist(row: WideRow, id: string, year: Value, discogsId: Value, duration: int, keywords: string)
    ensures var item := DropBlank(RawItem(row, id, year, discogsId, duration, keywords));
      "clean_title" in item && item["clean_title"] == Title(row) && "artist" in item && item["artist"] == Artist(row)
  {
    var raw := RawItem(row, id, year, discogsId, duration, keywords);
    assert raw["clean_title"] == Title(row) && raw["artist"] == Artist(row);
  }

  /** A missing title or artist is replaced by "Desconocido" or "Varios". */
  lemma TitleAndArtistDefaults(row: WideRow)
    requires BuildItem(row).Ok?
    ensures "clean_title" in BuildItem(row).value && BuildItem(row).value["clean_title"] == Title(row)
    ensures "artist" in BuildItem(row).value && BuildItem(row).value["artist"] == Artist(row)
    ensures !Truthy(row.title) ==> Title(row) == UnknownTitle
    ensures !Truthy(row.artist) ==> Artist(row) == VariousArtists
  {
    BuildItemIs(row);
    KeepsTitleAndArtist(row, Render(row.dbId), Year(row), OptionalInt(row.discogsId).value, Duration(row), Keywords(row, Year(row)));
  }

  lemma KeepsGenreAndSummary(row: WideRow, id: string, year: Value, discogsId: Value, duration: int, keywords: string)
    ensures var item := DropBlank(RawItem(row, id, year, discogsId, duration, keywords));
      && "genre" in item && item["genre"] == OrElse(row.genre, DefaultGenre)
      && "music_summary" in item && item["music_summary"] == OrElse(row.summary, DefaultSummary)
  {
    var raw := RawItem(row, id, year, discogsId, duration, keywords);
    assert raw["genre"] == OrElse(row.genre, DefaultGenre) && raw["music_summary"] == OrElse(row.summary, DefaultSummary);
  }

  /** A missing genre is "General" and a missing summary gets the stock text. */
  lemma GenreAndSummaryDefaults(row: WideRow)
    requires BuildItem(row).Ok?
    ensures "genre" in BuildItem(row).value && BuildItem(row).value["genre"] == OrElse(row.genre, DefaultGenre)
    ensures "music_summary" in BuildItem(row).value && BuildItem(row).value["music_summary"] == OrElse(row.summary, DefaultSummary)
  {
    BuildItemIs(row);
    KeepsGenreAndSummary(row, Render(row.dbId), Year(row), OptionalInt(row.discogsId).value, Duration(row), Keywords(row, Year(row)));
  }

  lemma KeepsIdentity(row: WideRow, id: string, year: Value, discogsId: Value, duration: int, keywords: string)
    ensures var item := DropBlank(RawItem(row, id, year, discogsId, duration, keywords));
      && "nationality" in item && item["nationality"] == OrElse(row.nationality, UnknownNationality)
      && "real_name" in item && item["real_name"] == OrElse(row.realName, Artist(row))
  {
    var raw := RawItem(row, id, year, discogsId, duration, keywords);
    assert raw["nationality"] == OrElse(row.nationality, UnknownNationality) && raw["real_name"] == OrElse(row.realName, Artist(row));
  }

  /** A missing nationality is "No especificada" and a missing real name is
      the artist written. */
  lemma IdentityDefaults(row: WideRow)
    requires BuildItem(row).Ok?
    ensures "nationality" in BuildItem(row).value && BuildItem(row).value["nationality"] == OrElse(row.nationality, UnknownNationality)
    ensures "real_name" in BuildItem(row).value && BuildItem(row).value["real_name"] == OrElse(row.realName, Artist(row))
  {
    BuildItemIs(row);
    KeepsIdentity(row, Render(row.dbId), Year(row), OptionalInt(row.discogsId).value, Duration(row), Keywords(row, Year(row)));
  }

  lemma KeepsNumbers(row: WideRow, id: string, year: Value, discogsId: Value, duration: int, keywords: string)
    ensures var item := DropBlank(RawItem(row, id, year, discogsId, duration, keywords));
      && "duration_ms" in item && item["duration_ms"] == Int(duration)
      && (Blank(year) <==> "release_year" !in item) && (!Blank(year) ==> item["release_year"] == year)
      && (Blank(discogsId) <==> "discogs_id" !in item) && (!Blank(discogsId) ==> item["discogs_id"] == discogsId)
  {
    var raw := RawItem(row, id, year, discogsId, duration, keywords);
    assert raw["duration_ms"] == Int(duration) && raw["release_year"] == year && raw["discogs_id"] == discogsId;
  }

  /** The duration is `int(duration)`, or 0 when it is missing; a year or
      Discogs id that is missing, zero or empty leaves its key out, and one
      that is present is written as an integer. */
  lemma Numbers(row: WideRow)
    requires BuildItem(row).Ok?
    ensures "duration_ms" in BuildItem(row).value
    ensures Truthy(row.duration) ==> BuildItem(row).value["duration_ms"] == Int(IntOf(row.duration).value)
    ensures !Truthy(row.duration) ==> BuildItem(row).value["duration_ms"] == Int(0)
    ensures !Truthy(row.releaseYear) ==> "release_year" !in BuildItem(row).value
    ensures !Truthy(row.discogsId) ==> "discogs_id" !in BuildItem(row).value
    ensures Truthy(row.releaseYear) ==>
      "release_year" in BuildItem(row).value
      && BuildItem(row).value["release_year"] == Int(IntOf(row.releaseYear).value)
    ensures Truthy(row.discogsId) ==>
      "discogs_id" in BuildItem(row).value
      && BuildItem(row).value["discogs_id"] == Int(IntOf(row.discogsId).value)
  {
    BuildItemIs(row);
    KeepsNumbers(row, Render(row.dbId), Year(row), OptionalInt(row.discogsId).value, Duration(row), Keywords(row, Year(row)));
  }

  lemma KeepsKeywords(row: WideRow, id: string, year: Value, discogsId: Value, duration: int, keywords: string)
    requires keywords != ""
    ensures var item := DropBlank(RawItem(row, id, year, discogsId, duration, keywords));
      "search_keywords" in item && item["search_keywords"] == VStr(keywords)
  {
    assert RawItem(row, id, year, discogsId, duration, keywords)["search_keywords"] == VStr(keywords);
  }

  /** The item's keywords hold its title and its artist, lower-cased. */
  lemma KeywordsHoldTitleAndArtist(row: WideRow)
    requires BuildItem(row).Ok?
    ensures KeywordsHold(BuildItem(row).value, Render(Title(row)))
    ensures KeywordsHold(BuildItem(row).value, Render(Artist(row)))
  {
    BuildItemIs(row);
    KeepsKeywords(row, Render(row.dbId), Year(row), OptionalInt(row.discogsId).value, Duration(row), Keywords(row, Year(row)));
  }

  lemma KeepsKeys(row: WideRow, id: string, year: Value, discogsId: Value, duration: int, keywords: string)
    ensures var item := DropBlank(RawItem(row, id, year, discogsId, duration, keywords));
      KeptUnlessBlank(item, "id", VStr(id))
      && KeptUnlessBlank(item, "drive_file_id", row.driveId) && KeptUnlessBlank(item, "web_view_link", row.link)
  {
    var raw := RawItem(row, id, year, discogsId, duration, keywords);
    DropBlankKeeps(raw, "id", VStr(id));
    DropBlankKeeps(raw, "drive_file_id", row.driveId);
    DropBlankKeeps(raw, "web_view_link", row.link);
  }

  lemma KeepsAlbumAndCover(row: WideRow, id: string, year: Value, discogsId: Value, duration: int, keywords: string)
    ensures var item := DropBlank(RawItem(row, id, year, discogsId, duration, keywords));
      CopiedIfTruthy(item, "album", row.album) && CopiedIfTruthy(item, "cover_image", row.cover)
  {
    var raw := RawItem(row, id, year, discogsId, duration, keywords);
    DropBlankCopies(raw, "album", row.album);
    DropBlankCopies(raw, "cover_image", row.cover);
  }

  lemma KeepsDiscogs(row: WideRow, id: string, year: Value, discogsId: Value, duration: int, keywords: string)
    ensures var item := DropBlank(RawItem(row, id, year, discogsId, duration, keywords));
      && CopiedIfTruthy(item, "country", row.country) && CopiedIfTruthy(item, "style", row.style)
      && CopiedIfTruthy(item, "record_label", row.recordLabel) && CopiedIfTruthy(item, "original_format", row.format)
  {
    var raw := RawItem(row, id, year, discogsId, duration, keywords);
    DropBlankCopies(raw, "country", row.country);
    DropBlankCopies(raw, "style", row.style);
    DropBlankCopies(raw, "record_label", row.recordLabel);
    DropBlankCopies(raw, "original_format", row.format);
  }

  /** The item's key is `str(db_id)`; the file id and link are written as
      read; album, cover, country, style, label and format are copied when
      truthy and left out otherwise (an empty string is filtered). */
  lemma Copies(row: WideRow)
    requires BuildItem(row).Ok?
    ensures var item := BuildItem(row).value;
      && ("id" in item <==> Render(row.dbId) != "") && (Render(row.dbId) != "" ==> item["id"] == VStr(Render(row.dbId)))
      && KeptUnlessBlank(item, "drive_file_id", row.driveId) && KeptUnlessBlank(item, "web_view_link", row.link)
      && CopiedIfTruthy(item, "album", row.album) && CopiedIfTruthy(item, "cover_image", row.cover)
      && CopiedIfTruthy(item, "country", row.country) && CopiedIfTruthy(item, "style", row.style)
      && CopiedIfTruthy(item, "record_label", row.recordLabel) && CopiedIfTruthy(item, "original_format", row.format)
  {
    BuildItemIs(row);
    var year, discogsId, keywords := Year(row), OptionalInt(row.discogsId).value, Keywords(row, Year(row));
    KeepsKeys(row, Render(row.dbId), year, discogsId, Duration(row), keywords);
    KeepsAlbumAndCover(row, Render(row.dbId), year, discogsId, Duration(row), keywords);
    KeepsDiscogs(row, Render(row.dbId), year, discogsId, Duration(row), keywords);
  }

  /** A query all of whose words occur in any one keyword part (the album,
      the year, the style, ...) finds the item in the keyword scan. */
  lemma FoundByKeywordPart(row: WideRow, i: nat, words: seq<string>)
    requires BuildItem(row).Ok?
    requires i < |KeywordParts(row, Year(row))|
    requires forall k :: 0 <= k < |words| ==> Contains(LowerStr(KeywordParts(row, Year(row))[i]), words[k])
    ensures Store.Matches(BuildItem(row).value, words)
  {
    BuildItemIs(row);
    KeepsKeywords(row, Render(row.dbId), Year(row), OptionalInt(row.discogsId).value, Duration(row), Keywords(row, Year(row)));
    FoundByWordsOf(BuildItem(row).value, KeywordParts(row, Year(row))[i], words);
  }

  /** Every word of the title, or every word of the artist, finds the item
      in the search endpoint's keyword scan. */
  lemma FoundByTitleOrArtist(row: WideRow, words: seq<string>)
    requires BuildItem(row).Ok?
    requires (forall k :: 0 <= k < |words| ==> Contains(LowerStr(Render(Title(row))), words[k]))
          || (forall k :: 0 <= k < |words| ==> Contains(LowerStr(Render(Artist(row))), words[k]))
    ensures Store.Matches(BuildItem(row).value, words)
  {
    KeywordsHoldTitleAndArtist(row);
    if forall k :: 0 <= k < |words| ==> Contains(LowerStr(Render(Title(row))), words[k]) {
      FoundByWordsOf(BuildItem(row).value, Render(Title(row)), words);
    } else {
      FoundByWordsOf(BuildItem(row).value, Render(Artist(row)), words);
    }
  }
}
