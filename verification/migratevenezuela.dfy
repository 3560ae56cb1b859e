/** `migrar_aws_modo_venezuela.py`: the same migration with a catalogue tag
    on every item, a shorter keyword string, and a pause after every 25
    items to stay within the free write capacity. */
module MigrateVenezuela {
  import opened Wrappers
  import opened Ascii
  import opened Values
  import opened Migration

  /** `ITEMS_POR_LOTE` */
  const BatchSize: nat := 25

  const CatalogTag: Value := VStr("CATALOGO")
  const UnknownTitle: Value := VStr("Desconocido")
  const VariousArtists: Value := VStr("Varios Artistas")

  function Title(row: WideRow): Value { OrElse(row.title, UnknownTitle) }
  function Artist(row: WideRow): Value { OrElse(row.artist, VariousArtists) }

  /** What the keyword string is made of, in order; `x or ''` leaves a
      missing value's slot empty. */
  function KeywordParts(row: WideRow, year: Value): seq<string> {
    [Render(Title(row)), Render(Artist(row)), TextIfTruthy(row.album), TextIfTruthy(row.nationality),
     TextIfTruthy(year), TextIfTruthy(row.style)]
  }

  /** Title, artist, album, nationality, year and style, space-separated and
      lower-cased. */
  function Keywords(row: WideRow, year: Value): (k: string)
    ensures k != ""
    ensures Contains(k, LowerStr(Render(Title(row))))
    ensures Contains(k, LowerStr(Render(Artist(row))))
    ensures Contains(k, LowerStr(TextIfTruthy(row.album)))
    ensures Contains(k, LowerStr(TextIfTruthy(row.nationality)))
    ensures Contains(k, LowerStr(TextIfTruthy(year)))
    ensures Contains(k, LowerStr(TextIfTruthy(row.style)))
    ensures forall i :: 0 <= i < |KeywordParts(row, year)| ==> Contains(k, LowerStr(KeywordParts(row, year)[i]))
  {
    var parts := KeywordParts(row, year);
    var k := KeywordText(parts);
    assert Contains(k, LowerStr(parts[0])) && Contains(k, LowerStr(parts[1])) && Contains(k, LowerStr(parts[2]))
      && Contains(k, LowerStr(parts[3])) && Contains(k, LowerStr(parts[4])) && Contains(k, LowerStr(parts[5]));
    k
  }

  /** The item before the blank filter. */
  function RawItem(row: WideRow, id: string, year: Value, discogsId: Value, duration: int, keywords: string): Item {
    var artist := Artist(row);
    map[
      "tipo" := CatalogTag,
      "id" := VStr(id),
      "drive_file_id" := row.driveId,
      "clean_title" := Title(row),
      "artist" := artist,
      "album" := OrElse(row.album, VStr("")),
      "genre" := OrElse(row.genre, VStr("General")),
      "duration_ms" := Int(duration),
      "cover_image" := OrElse(row.cover, VStr("")),
      "web_view_link" := row.link,
      "search_keywords" := VStr(keywords),
      "music_summary" := OrElse(row.summary, VStr("")),
      "nationality" := OrElse(row.nationality, VStr("")),
      "real_name" := OrElse(row.realName, artist),
      "release_year" := year,
      "country" := OrElse(row.country, VStr("")),
      "style" := OrElse(row.style, VStr("")),
      "record_label" := OrElse(row.recordLabel, VStr("")),
      "original_format" := OrElse(row.format, VStr("")),
      "discogs_id" := discogsId]
  }

  /** The item written for one row, or the exception an `int()` conversion
      raises. */
  function BuildItem(row: WideRow): (r: Result<Item>)
    ensures r.Ok? ==> forall k :: k in r.value ==> !Blank(r.value[k])
    ensures r.Err? <==> (OptionalInt(row.releaseYear).Err? || OptionalInt(row.discogsId).Err?
                         || (Truthy(row.duration) && IntOf(row.duration).Err?))
  {
    var year :- OptionalInt(row.releaseYear);
    var discogsId :- OptionalInt(row.discogsId);
    var duration :- if Truthy(row.duration) then IntOf(row.duration) else Ok(0);
    Ok(DropBlank(RawItem(row, Render(row.dbId), year, discogsId, duration, Keywords(row, year))))
  }

  function Year(row: WideRow): Value
    requires BuildItem(row).Ok?
  {
    OptionalInt(row.releaseYear).value
  }

  function Duration(row: WideRow): int
    requires BuildItem(row).Ok?
  {
    if Truthy(row.duration) then IntOf(row.duration).value else 0
  }

  lemma BuildItemIs(row: WideRow)
    requires BuildItem(row).Ok?
    ensures BuildItem(row).value
      == DropBlank(RawItem(row, Render(row.dbId), Year(row), OptionalInt(row.discogsId).value, Duration(row), Keywords(row, Year(row))))
  {
  }

  lemma KeepsIdentity(row: WideRow, id: string, year: Value, discogsId: Value, duration: int, keywords: string)
    ensures var item := DropBlank(RawItem(row, id, year, discogsId, duration, keywords));
      && "tipo" in item && item["tipo"] == CatalogTag
      && "clean_title" in item && item["clean_title"] == Title(row)
      && "artist" in item && item["artist"] == Artist(row)
      && "real_name" in item && item["real_name"] == OrElse(row.realName, Artist(row))
  {
    var raw := RawItem(row, id, year, discogsId, duration, keywords);
    assert raw["tipo"] == CatalogTag && raw["clean_title"] == Title(row) && raw["artist"] == Artist(row);
    assert raw["real_name"] == OrElse(row.realName, Artist(row));
  }

  /** Every item is tagged "CATALOGO"; a missing title or artist becomes
      "Desconocido" or "Varios Artistas", and a missing real name is the
      artist written. */
  lemma TagAndDefaults(row: WideRow)
    requires BuildItem(row).Ok?
    ensures "tipo" in BuildItem(row).value && BuildItem(row).value["tipo"] == VStr("CATALOGO")
    ensures "clean_title" in BuildItem(row).value && BuildItem(row).value["clean_title"] == Title(row)
    ensures "artist" in BuildItem(row).value && BuildItem(row).value["artist"] == Artist(row)
    ensures "real_name" in BuildItem(row).value && BuildItem(row).value["real_name"] == OrElse(row.realName, Artist(row))
    ensures !Truthy(row.title) ==> Title(row) == VStr("Desconocido")
    ensures !Truthy(row.artist) ==> Artist(row) == VStr("Varios Artistas")
  {
    BuildItemIs(row);
    KeepsIdentity(row, Render(row.dbId), Year(row), OptionalInt(row.discogsId).value, Duration(row), Keywords(row, Year(row)));
  }

  lemma KeepsKeywords(row: WideRow, id: string, year: Value, discogsId: Value, duration: int, keywords: string)
    requires keywords != ""
    ensures var item := DropBlank(RawItem(row, id, year, discogsId, duration, keywords));
      "search_keywords" in item && item["search_keywords"] == VStr(keywords)
  {
    assert RawItem(row, id, year, discogsId, duration, keywords)["search_keywords"] == VStr(keywords);
  }

  lemma KeepsKeys(row: WideRow, id: string, year: Value, discogsId: Value, duration: int, keywords: string)
    ensures var item := DropBlank(RawItem(row, id, year, discogsId, duration, keywords));
      KeptUnlessBlank(item, "id", VStr(id))
      && KeptUnlessBlank(item, "drive_file_id", row.driveId) && KeptUnlessBlank(item, "web_view_link", row.link)
  {
    var raw := RawItem(row, id, year, discogsId, duration, keywords);
    DropBlankKeeps(raw, "id", VStr(id));
    DropBlankKeeps(raw, "drive_file_id", row.driveId);
    DropBlankKeeps(raw, "web_view_link", row.link);
  }

  lemma KeepsAlbumAndCover(row: WideRow, id: string, year: Value, discogsId: Value, duration: int, keywords: string)
    ensures var item := DropBlank(RawItem(row, id, year, discogsId, duration, keywords));
      CopiedIfTruthy(item, "album", row.album) && CopiedIfTruthy(item, "cover_image", row.cover)
  {
    var raw := RawItem(row, id, year, discogsId, duration, keywords);
    DropBlankCopies(raw, "album", row.album);
    DropBlankCopies(raw, "cover_image", row.cover);
  }

  lemma KeepsDiscogs(row: WideRow, id: string, year: Value, discogsId: Value, duration: int, keywords: string)
    ensures var item := DropBlank(RawItem(row, id, year, discogsId, duration, keywords));
      && CopiedIfTruthy(item, "country", row.country) && CopiedIfTruthy(item, "style", row.style)
      && CopiedIfTruthy(item, "record_label", row.recordLabel) && CopiedIfTruthy(item, "original_format", row.format)
  {
    var raw := RawItem(row, id, year, discogsId, duration, keywords);
    DropBlankCopies(raw, "country", row.country);
    DropBlankCopies(raw, "style", row.style);
    DropBlankCopies(raw, "record_label", row.recordLabel);
    DropBlankCopies(raw, "original_format", row.format);
  }

  /** The item's key is `str(db_id)`; the file id and link are written as
      read; album, cover, country, style, label and format are copied when
      truthy and left out otherwise (an empty string is filtered). */
  lemma Copies(row: WideRow)
    requires BuildItem(row).Ok?
    ensures var item := BuildItem(row).value;
      && ("id" in item <==> Render(row.dbId) != "") && (Render(row.dbId) != "" ==> item["id"] == VStr(Render(row.dbId)))
      && KeptUnlessBlank(item, "drive_file_id", row.driveId) && KeptUnlessBlank(item, "web_view_link", row.link)
      && CopiedIfTruthy(item, "album", row.album) && CopiedIfTruthy(item, "cover_image", row.cover)
      && CopiedIfTruthy(item, "country", row.country) && CopiedIfTruthy(item, "style", row.style)
      && CopiedIfTruthy(item, "record_label", row.recordLabel) && CopiedIfTruthy(item, "original_format", row.format)
  {
    BuildItemIs(row);
    var year, discogsId, keywords := Year(row), OptionalInt(row.discogsId).value, Keywords(row, Year(row));
    KeepsKeys(row, Render(row.dbId), year, discogsId, Duration(row), keywords);
    KeepsAlbumAndCover(row, Render(row.dbId), year, discogsId, Duration(row), keywords);
    KeepsDiscogs(row, Render(row.dbId), year, discogsId, Duration(row), keywords);
  }

  /** A query all of whose words occur in any one keyword part (the album,
      the year, the style, ...) finds the item in the keyword scan. */
  lemma FoundByKeywordPart(row: WideRow, i: nat, words: seq<string>)
    requires BuildItem(row).Ok?
    requires i < |KeywordParts(row, Year(row))|
    requires forall k :: 0 <= k < |words| ==> Contains(LowerStr(KeywordParts(row, Year(row))[i]), words[k])
    ensures Store.Matches(BuildItem(row).value, words)
  {
    BuildItemIs(row);
    KeepsKeywords(row, Render(row.dbId), Year(row), OptionalInt(row.discogsId).value, Duration(row), Keywords(row, Year(row)));
    FoundByWordsOf(BuildItem(row).value, KeywordParts(row, Year(row))[i], words);
  }

  /** Every word of the title, or every word of the artist, finds the item
      in the search endpoint's keyword scan. */
  lemma FoundByTitleOrArtist(row: WideRow, words: seq<string>)
    requires BuildItem(row).Ok?
    requires (forall k :: 0 <= k < |words| ==> Contains(LowerStr(Render(Title(row))), words[k]))
          || (forall k :: 0 <= k < |words| ==> Contains(LowerStr(Render(Artist(row))), words[k]))
    ensures Store.Matches(BuildItem(row).value, words)
  {
    BuildItemIs(row);
    KeepsKeywords(row, Render(row.dbId), Year(row), OptionalInt(row.discogsId).value, Duration(row), Keywords(row, Year(row)));
    var item := BuildItem(row).value;
    if forall k :: 0 <= k < |words| ==> Contains(LowerStr(Render(Title(row))), words[k]) {
      FoundByWordsOf(item, Render(Title(row)), words);
    } else {
      FoundByWordsOf(item, Render(Artist(row)), words);
    }
  }

  /** The items of the rows before the first one that `build` rejects, and
      that row's error if there is one. */
  function Items(rows: seq<WideRow>, build: WideRow -> Result<Item>): (r: (seq<Item>, Option<string>))
    ensures |r.0| <= |rows|
    ensures r.1.None? <==> forall i :: 0 <= i < |rows| ==> build(rows[i]).Ok?
    ensures r.1.None? ==> |r.0| == |rows|
    ensures forall i :: 0 <= i < |r.0| ==> build(rows[i]) == Ok(r.0[i])
    ensures r.1.Some? ==> |r.0| < |rows| && build(rows[|r.0|]) == Err(r.1.value)
  {
    if rows == [] then ([], None)
    else
      match build(rows[0])
      case Err(e) => ([], Some(e))
      case Ok(item) =>
        var rest := Items(rows[1..], build);
        assert forall i :: 0 < i < |rows| ==> rows[i] == rows[1..][i - 1];
        ([item] + rest.0, rest.1)
  }

  /** `migrar`'s loop: each item is put, then the batch counter advances and
      wraps to 0 with a pause once it reaches 25. A conversion error ends the
      run after the items already put. */
  method Upload(rows: seq<WideRow>, build: WideRow -> Result<Item>)
    returns (written: seq<Item>, failure: Option<string>, pauses: nat, pending: nat)
    ensures (written, failure) == Items(rows, build)
    ensures pending < BatchSize
    ensures pauses == |written| / BatchSize && pending == |written| % BatchSize
  {
    written, failure, pauses, pending := [], None, 0, 0;
    var i := 0;
    while i < |rows|
      invariant 0 <= i <= |rows| && |written| == i
      invariant forall j :: 0 <= j < i ==> build(rows[j]) == Ok(written[j])
      invariant pending < BatchSize
      invariant pauses * BatchSize + pending == |written|
    {
      var built := build(rows[i]);
      if built.Err? {
        failure := Some(built.message);
        break;
      }
      written := written + [built.value];
      pending := pending + 1;
      if pending >= BatchSize {
        pauses := pauses + 1;
        pending := 0;
      }
      i := i + 1;
    }
    ItemsPrefix(rows, build, written, failure);
  }

  /** What the loop gathered is what `Items` describes. */
  lemma {:induction false} ItemsPrefix(rows: seq<WideRow>, build: WideRow -> Result<Item>, written: seq<Item>, failure: Option<string>)
    requires |written| <= |rows|
    requires forall j :: 0 <= j < |written| ==> build(rows[j]) == Ok(written[j])
    requires failure.None? ==> |written| == |rows|
    requires failure.Some? ==> |written| < |rows| && build(rows[|written|]) == Err(failure.value)
    ensures (written, failure) == Items(rows, build)
    decreases |rows|
  {
    if rows != [] {
      if written != [] {
        ItemsPrefix(rows[1..], build, written[1..], failure);
        assert written == [written[0]] + written[1..];
      }
    }
  }

  /** The script's run over the selected rows: the items written are those
      `BuildItem` gives, none of them holds a blank value, and there was one
      pause per 25 items. */
  method Migrate(rows: seq<WideRow>) returns (written: seq<Item>, failure: Option<string>, pauses: nat)
    ensures failure.None? <==> forall i :: 0 <= i < |rows| ==> BuildItem(rows[i]).Ok?
    ensures |written| <= |rows| && (failure.None? ==> |written| == |rows|)
    ensures forall i :: 0 <= i < |written| ==> BuildItem(rows[i]) == Ok(written[i])
    ensures failure.Some? ==> BuildItem(rows[|written|]) == Err(failure.value)
    ensures forall i, k :: 0 <= i < |written| && k in written[i] ==> !Blank(written[i][k])
    ensures pauses == |written| / BatchSize
  {
    var pending;
    written, failure, pauses, pending := Upload(rows, BuildItem);
  }
}
