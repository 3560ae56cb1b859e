/** The Last.fm enrichment scripts' effect on one catalog row, as pure record
    functions, and the batch loop of the first script.

    Each script looks a song up, gathers what it found into an `info` record
    and writes it back with one `UPDATE`. SQL's `COALESCE(a, b)` is the first
    non-NULL of `a` and `b` (an empty string is not NULL) and `GREATEST`
    ignores NULL arguments. */
module LastFm {
  import opened Wrappers
  import opened Ascii
  import FileNames

  /** The columns of `musica_startup` the scripts read or write. */
  datatype Row = Row(
    name: string,                 // the audio file name
    cleanTitle: Option<string>,
    mbid: Option<string>,
    album: Option<string>,
    cover: Option<string>,
    genre: Option<string>,
    summary: Option<string>,
    duration: Option<int>,
    raw: Option<string>,
    processed: bool)              // lastfm_processed

  /** What `consultar_lastfm` of the later scripts returns. */
  datatype Info = Info(
    found: bool,
    mbid: Option<string>,
    album: Option<string>,
    image: Option<string>,
    genre: Option<string>,
    summary: Option<string>,
    duration: int,
    raw: Option<string>)

  /** SQL `COALESCE(a, b)`. */
  function Coalesce<T>(a: Option<T>, b: Option<T>): (r: Option<T>)
    ensures r.Some? <==> a.Some? || b.Some?
    ensures a.Some? ==> r == a
  {
    if a.Some? then a else b
  }

  /** SQL `GREATEST(prior, latest)` with a non-NULL `latest`. */
  function Greatest(prior: Option<int>, latest: int): (r: Option<int>)
    ensures r.Some? && r.value >= latest
    ensures prior.Some? ==> r.value >= prior.value
    ensures r.value == latest || (prior.Some? && r.value == prior.value)
  {
    if prior.Some? && prior.value > latest then prior else Some(latest)
  }

  /** The column `r` holds the first value when it is not NULL, and the
      second otherwise. */
  predicate Prefers<T(==)>(first: Option<T>, second: Option<T>, r: Option<T>) {
    (first.Some? ==> r == first) && (first.None? ==> r == second)
  }

  /** Python truthiness of an optional string. */
  predicate Present(s: Option<string>) { s.Some? && s.value != "" }

  /** The artist's genre replaces the track's only when the track has none
      (llenar_datos_v2.py and llenar_datos.py); `artistGenre` is what
      `obtener_genero_artista` returned. */
  function WithArtistGenre(info: Info, artistGenre: Option<string>): (r: Info)
    ensures Present(info.genre) ==> r == info
    ensures !Present(info.genre) && Present(artistGenre) ==> r == info.(genre := artistGenre)
    ensures !Present(info.genre) && !Present(artistGenre) ==> r == info
  {
    if !Present(info.genre) && Present(artistGenre) then info.(genre := artistGenre) else info
  }

  /** The later script: a row is written only when the track was found or a
      genre was obtained, and then every non-NULL new value overwrites the
      old one. */
  function MergeV2(row: Row, info: Info): (r: Row)
    ensures !(info.found || Present(info.genre)) ==> r == row
    ensures info.found || Present(info.genre) ==> r.processed
    ensures info.found || Present(info.genre) ==>
      && Prefers(info.mbid, row.mbid, r.mbid) && Prefers(info.album, row.album, r.album)
      && Prefers(info.image, row.cover, r.cover) && Prefers(info.genre, row.genre, r.genre)
      && Prefers(info.summary, row.summary, r.summary) && Prefers(info.raw, row.raw, r.raw)
    ensures info.found || Present(info.genre) ==> r.duration == Greatest(row.duration, info.duration)
    ensures r.name == row.name && r.cleanTitle == row.cleanTitle
  {
    if info.found || Present(info.genre) then
      row.(processed := true,
           mbid := Coalesce(info.mbid, row.mbid),
           album := Coalesce(info.album, row.album),
           cover := Coalesce(info.image, row.cover),
           genre := Coalesce(info.genre, row.genre),
           summary := Coalesce(info.summary, row.summary),
           duration := Greatest(row.duration, info.duration),
           raw := Coalesce(info.raw, row.raw))
    else row
  }

  /** The earlier script: the same update except that a genre already on
      the row is kept, and a row with nothing found is still marked done. */
  function MergeV1(row: Row, info: Info): (r: Row)
    ensures r.processed
    ensures row.genre.Some? ==> r.genre == row.genre
    ensures !(info.found || Present(info.genre)) ==> r == row.(processed := true)
    ensures info.found || Present(info.genre) ==>
      && Prefers(info.mbid, row.mbid, r.mbid) && Prefers(info.album, row.album, r.album)
      && Prefers(info.image, row.cover, r.cover) && Prefers(row.genre, info.genre, r.genre)
      && Prefers(info.summary, row.summary, r.summary) && Prefers(info.raw, row.raw, r.raw)
    ensures info.found || Present(info.genre) ==> r.duration == Greatest(row.duration, info.duration)
    ensures r.name == row.name && r.cleanTitle == row.cleanTitle
  {
    if info.found || Present(info.genre) then
      row.(processed := true,
           mbid := Coalesce(info.mbid, row.mbid),
           album := Coalesce(info.album, row.album),
           cover := Coalesce(info.image, row.cover),
           genre := Coalesce(row.genre, info.genre),
           summary := Coalesce(info.summary, row.summary),
           duration := Greatest(row.duration, info.duration),
           raw := Coalesce(info.raw, row.raw))
    else row.(processed := true)
  }

  /** Writing the same lookup twice changes nothing more. */
  lemma MergeV2Idempotent(row: Row, info: Info)
    ensures MergeV2(MergeV2(row, info), info) == MergeV2(row, info)
  {
  }

  lemma MergeV1Idempotent(row: Row, info: Info)
    ensures MergeV1(MergeV1(row, info), info) == MergeV1(row, info)
  {
  }

  /** The two merges agree except on the genre of a row that had one. */
  lemma MergesAgreeWithoutGenre(row: Row, info: Info)
    requires row.genre.None?
    requires info.found || Present(info.genre)
    ensures MergeV1(row, info) == MergeV2(row, info)
  {
  }

  /** One entry of Last.fm's `album.image` list. */
  datatype Image = Image(size: string, url: string)

  /** The first image of size "extralarge", if any: the cover the later
      scripts choose. */
  function FirstExtraLarge(imgs: seq<Image>): (r: Option<string>)
    ensures r.Some? <==> exists i :: 0 <= i < |imgs| && imgs[i].size == "extralarge"
    ensures r.Some? ==> exists i :: 0 <= i < |imgs| && imgs[i].size == "extralarge" && imgs[i].url == r.value
  {
    if imgs == [] then None
    else if imgs[0].size == "extralarge" then
      assert imgs[0].size == "extralarge" && imgs[0].url == imgs[0].url;
      Some(imgs[0].url)
    else
      var r := FirstExtraLarge(imgs[1..]);
      assert forall i :: 0 < i < |imgs| ==> imgs[i] == imgs[1..][i - 1];
      r
  }

  /** The answer is the url of the earliest extralarge image. */
  lemma {:induction false} FirstExtraLargeIsFirst(imgs: seq<Image>, i: nat)
    requires i < |imgs| && imgs[i].size == "extralarge"
    requires forall j :: 0 <= j < i ==> imgs[j].size != "extralarge"
    ensures FirstExtraLarge(imgs) == Some(imgs[i].url)
  {
    if i > 0 {
      FirstExtraLargeIsFirst(imgs[1..], i - 1);
    }
  }

  /** The first script's cover: the first extralarge image, else the last
      image. The fallback `imgs[-1]` is evaluated even when unused, so an
      empty list raises `IndexError` and the whole lookup reports not found. */
  function CoverOriginal(imgs: seq<Image>): (r: Result<string>)
    ensures r.Err? <==> imgs == []
    ensures r.Ok? && FirstExtraLarge(imgs).None? ==> r.value == imgs[|imgs| - 1].url
    ensures r.Ok? ==> exists i :: 0 <= i < |imgs| && imgs[i].url == r.value
  {
    if imgs == [] then Err("IndexError: list index out of range")
    else
      var fallback := imgs[|imgs| - 1].url;
      Ok(FirstExtraLarge(imgs).GetOr(fallback))
  }

  /** What `consultar_lastfm` of the first script returns when it finds the
      track; `None` stands for `{"found": False}`. */
  datatype Found = Found(duration: int, image: Option<string>, summary: string, mbid: Option<string>, album: Option<string>)

  /** The first script's update: a found track overwrites the title, duration,
      cover, summary and mbid and fills the album only if it was NULL; a
      missing one gets only its title. Either way the row is marked done. */
  function MergeOriginal(row: Row, title: string, found: Option<Found>): (r: Row)
    ensures r.processed && r.cleanTitle == Some(title)
    ensures r.name == row.name
    ensures row.album.Some? ==> r.album == row.album
    ensures found.None? ==> r == row.(cleanTitle := Some(title), processed := true)
    ensures found.Some? ==> r.cover == found.value.image && r.mbid == found.value.mbid && r.summary == Some(found.value.summary)
    ensures found.Some? ==> r.duration == Some(found.value.duration) && Prefers(row.album, found.value.album, r.album)
  {
    if found.None? then row.(cleanTitle := Some(title), processed := true)
    else
      var f := found.value;
      row.(cleanTitle := Some(title),
           duration := Some(f.duration),
           cover := f.image,
           summary := Some(f.summary),
           mbid := f.mbid,
           album := Coalesce(row.album, f.album),
           processed := true)
  }

  /** The table, by primary key. */
  type Table = map<nat, Row>

  /** The ids still waiting for the first script. */
  function Pending(t: Table): (p: set<nat>)
    ensures forall id :: id in p <==> id in t && !t[id].processed
  {
    set id | id in t && !t[id].processed
  }

  /** The `SELECT … WHERE lastfm_processed = FALSE … LIMIT 50` of one round
      returns pending rows only. */
  ghost predicate SelectsPending(select: Table -> seq<nat>) {
    forall t, i :: 0 <= i < |select(t)| ==> select(t)[i] in Pending(t)
  }

  /** Marking one row done takes exactly that row out of the pending set. */
  lemma PendingAfterMark(t: Table, id: nat, row: Row)
    requires id in t && row.processed
    ensures Pending(t[id := row]) == Pending(t) - {id}
  {
  }

  lemma ElementsCons(batch: seq<nat>)
    requires batch != []
    ensures (set x | x in batch) == {batch[0]} + set x | x in batch[1..]
  {
    assert batch == [batch[0]] + batch[1..];
  }

  /** One row of a round: its clean title and lookup are written. */
  function VisitRow(row: Row, lookup: Row -> Option<Found>): (r: Row)
    ensures r.processed && r.name == row.name
    ensures r.cleanTitle == Some(FileNames.CleanFileName(row.name))
  {
    MergeOriginal(row, FileNames.CleanFileName(row.name), lookup(row))
  }

  function Visit(t: Table, id: nat, lookup: Row -> Option<Found>): (r: Table)
    requires id in t
    ensures r.Keys == t.Keys
    ensures Pending(r) == Pending(t) - {id}
  {
    var merged := VisitRow(t[id], lookup);
    PendingAfterMark(t, id, merged);
    t[id := merged]
  }

  /** One round: every selected row gets its clean title and lookup written. */
  function Round(t: Table, batch: seq<nat>, lookup: Row -> Option<Found>): (r: Table)
    requires forall i :: 0 <= i < |batch| ==> batch[i] in t
    ensures r.Keys == t.Keys
    ensures Pending(r) == Pending(t) - set x | x in batch
    decreases |batch|
  {
    if batch == [] then t
    else
      var t1 := Visit(t, batch[0], lookup);
      var r := Round(t1, batch[1..], lookup);
      ElementsCons(batch);
      r
  }

  /** `procesar_musica` of the first script: rounds run until the selection
      comes back empty. Each round marks every row it selected, so the loop
      runs at most once per row that was pending at the start. */
  method Drain(t: Table, select: Table -> seq<nat>, lookup: Row -> Option<Found>) returns (r: Table, rounds: nat)
    requires SelectsPending(select)
    ensures select(r) == []
    ensures r.Keys == t.Keys
    ensures Pending(r) <= Pending(t)
    ensures rounds <= |Pending(t)|
  {
    r, rounds := t, 0;
    while select(r) != []
      invariant r.Keys == t.Keys
      invariant Pending(r) <= Pending(t)
      invariant rounds + |Pending(r)| <= |Pending(t)|
      decreases |Pending(r)|
    {
      var batch := select(r);
      assert batch[0] in Pending(r);
      var next := Round(r, batch, lookup);
      assert batch[0] !in Pending(next);
      assert Pending(next) < Pending(r);
      r, rounds := next, rounds + 1;
    }
  }
}
