/** `lambda_handler` of the general catalog endpoint: `id`, then an exact
    `artist` listing over every index page, then an exact `song_name`
    listing, then the free-text `q` search with a shortcut and a longer
    bounded scan. A raised store call becomes a 500 response whose body holds
    only the exception text; decimals are serialised by truncation. */
module FuncionLambda {
  import opened Wrappers
  import opened Ascii
  import opened Values
  import opened Store
  import opened Json
  import opened Sanitize
  import Token

  type Params = map<string, string>

  /** The scan reads at most `PageLimit + 1` pages. */
  const PageLimit: nat := 10

  const MissingParams: string := "Faltan parámetros"
  const NotFound: string := "ID no encontrado"
  const EmptyQuery: string := "Consulta vacía"
  const Unsupported: string := "Parámetro no soportado"

  /** The body reveals neither the file id nor its viewing link. */
  predicate Private(body: Json) {
    !Shows(body, "drive_file_id") && !Shows(body, "web_view_link")
  }

  function ServerError(message: string): (r: Response)
    ensures r.status == 500 && r.headers == CorsHeaders && r.body == ErrorBody(message)
  {
    Respond(500, ErrorBody(message))
  }

  /** A 200 body holding the cleaned records. */
  function Listing(items: seq<Item>, now: nat): (r: Response)
    ensures r.status == 200 && r.headers == CorsHeaders
    ensures r.body.JArr? && |r.body.elems| == |items|
    ensures forall i :: 0 <= i < |items| ==> r.body.elems[i] == EncodeItem(CleanGeneral(items[i], now), Truncating)
    ensures Private(r.body)
    ensures forall i :: 0 <= i < |items| ==> r.body.elems[i].JObj? && "drive_token" in r.body.elems[i].fields
  {
    Respond(200, EncodeItems(CleanAllGeneral(items, now), Truncating))
  }

  /** Element `i` of a list response carries a token that, until it expires,
      resolves to the drive id of record `i`; a record without one carries
      the empty string. */
  lemma ListingTokenResolves(items: seq<Item>, now: nat, i: int, at: int)
    requires 0 <= i < |items|
    ensures Listing(items, now).body.elems[i].fields["drive_token"]
            == JStr(Token.Obfuscate(Get(items[i], "drive_file_id"), now))
    ensures TruthyAt(items[i], "drive_file_id") ==>
              Token.Resolve(Token.Obfuscate(Get(items[i], "drive_file_id"), now), at)
              == if at <= now + Token.Ttl then Some(Render(items[i]["drive_file_id"])) else None
    ensures !TruthyAt(items[i], "drive_file_id") ==>
              Listing(items, now).body.elems[i].fields["drive_token"] == JStr("")
  {
    if TruthyAt(items[i], "drive_file_id") {
      CleanGeneralTokenResolves(items[i], now, at);
    }
  }

  /** The `id` branch, as in the metadata endpoint but with this cleaner. */
  function ById(id: string, store: Store, now: nat): (r: Response)
    ensures r.headers == CorsHeaders
    ensures r.status == 500 <==> store.getItem(id).Err?
    ensures r.status == 404 <==> store.getItem(id).Ok? && (store.getItem(id).value.None? || store.getItem(id).value.value == map[])
    ensures r.status == 200 <==> store.getItem(id).Ok? && store.getItem(id).value.Some? && store.getItem(id).value.value != map[]
    ensures r.status == 200 ==> r.body == EncodeItem(CleanGeneral(store.getItem(id).value.value, now), Truncating)
    ensures r.status == 200 ==> Private(r.body) && Shows(r.body, "drive_token")
  {
    match store.getItem(id)
    case Err(m) => ServerError(m)
    case Ok(found) =>
      if found.Some? && found.value != map[] then Respond(200, EncodeItem(CleanGeneral(found.value, now), Truncating))
      else Respond(404, ErrorBody(NotFound))
  }

  /** The `artist` branch: the equality query is followed through every
      continuation, and the pages are concatenated in order. */
  function ByArtist(artist: string, store: Store, now: nat): (r: Response)
    ensures r.headers == CorsHeaders && r.status in {200, 500}
    ensures r.status == 200 <==> forall i :: 0 <= i < |store.artistEquals(artist)| ==> store.artistEquals(artist)[i].Ok?
    ensures r.status == 200 ==> r == Listing(Gather(store.artistEquals(artist)).value, now)
    ensures r.status == 500 ==> exists i :: FirstFailure(store.artistEquals(artist), i)
                                    && r == ServerError(store.artistEquals(artist)[i].message)
  {
    match Gather(store.artistEquals(artist))
    case Err(m) => ServerError(m)
    case Ok(items) => Listing(items, now)
  }

  /** The `song_name` branch: one page of the title index, no continuation. */
  function BySongName(name: string, store: Store, now: nat): (r: Response)
    ensures r.headers == CorsHeaders && r.status in {200, 500}
    ensures r.status == 200 <==> store.titleEquals(name).Ok?
    ensures r.status == 200 ==> r == Listing(store.titleEquals(name).value, now)
    ensures r.status == 500 ==> r == ServerError(store.titleEquals(name).message)
  {
    match store.titleEquals(name)
    case Err(m) => ServerError(m)
    case Ok(items) => Listing(items, now)
  }

  function ScanAnswer(pages: Pages, words: seq<string>, now: nat): (r: Response)
    ensures r.headers == CorsHeaders && r.status in {200, 500}
    ensures r.status == 200 ==> r.body.JArr? && Private(r.body)
  {
    match Scan(pages, words, PageLimit)
    case Err(m) => ServerError(m)
    case Ok(data) => Listing(data, now)
  }

  /** The `q` branch given the shortcut's hits. Here the shortcut comes first:
      a blank query is refused only when the shortcut found nothing. */
  function Answer(q: string, hits: seq<Item>, pages: Pages, now: nat): (r: Response)
    ensures r.headers == CorsHeaders && r.status in {200, 400, 500}
    ensures r.status == 400 <==> QueryWords(q) == [] && hits == []
    ensures |hits| > 0 ==> r == Listing(hits, now)
    ensures r.status == 200 ==> r.body.JArr? && Private(r.body)
  {
    if |hits| > 0 then Listing(hits, now)
    else WordsAnswer(QueryWords(q), pages, now)
  }

  /** After a fruitless shortcut: 400 for no words, else the scan. */
  function WordsAnswer(words: seq<string>, pages: Pages, now: nat): (r: Response)
    ensures r.headers == CorsHeaders && r.status in {200, 400, 500}
    ensures r.status == 400 <==> words == []
    ensures r.status == 200 ==> r.body.JArr? && Private(r.body)
  {
    if words == [] then Respond(400, ErrorBody(EmptyQuery))
    else ScanAnswer(pages, words, now)
  }

  function ByQuery(q: string, store: Store, now: nat): (r: Response)
    ensures r.headers == CorsHeaders && r.status in {200, 400, 500}
    ensures r.status == 200 ==> r.body.JArr? && Private(r.body)
  {
    Answer(q, ShortcutHits(store, Title(Strip(q))), store.scan, now)
  }

  /** Which branch of the handler a request takes. */
  datatype Route =
    | NoParams
    | IdRoute(id: string)
    | ArtistRoute(artist: string)
    | SongRoute(name: string)
    | QueryRoute(q: string)
    | UnknownRoute

  /** The handler's parameter tests, in the order it makes them. */
  function Dispatch(params: Option<Params>): (rt: Route)
    ensures rt == NoParams <==> params.None? || params.value == map[]
    ensures rt == UnknownRoute <==> params.Some? && params.value != map[] && params.value.Keys !! {"id", "artist", "song_name", "q"}
    ensures params.Some? && "id" in params.value ==> rt == IdRoute(params.value["id"])
    ensures params.Some? && "id" !in params.value && "artist" in params.value ==> rt == ArtistRoute(params.value["artist"])
    ensures params.Some? && "id" !in params.value && "artist" !in params.value && "song_name" in params.value ==>
              rt == SongRoute(params.value["song_name"])
    ensures (params.Some? && "id" !in params.value && "artist" !in params.value && "song_name" !in params.value
             && "q" in params.value) ==> rt == QueryRoute(params.value["q"])
  {
    if params.None? || params.value == map[] then NoParams
    else
      var ps := params.value;
      if "id" in ps then IdRoute(ps["id"])
      else if "artist" in ps then ArtistRoute(ps["artist"])
      else if "song_name" in ps then SongRoute(ps["song_name"])
      else if "q" in ps then QueryRoute(ps["q"])
      else UnknownRoute
  }

  /** The response of one branch. */
  function Serve(rt: Route, store: Store, now: nat): (r: Response)
    ensures r.headers == CorsHeaders
    ensures r.status in {200, 400, 404, 500}
    ensures rt == NoParams ==> r == Respond(400, ErrorBody(MissingParams))
    ensures rt == UnknownRoute ==> r == Respond(400, ErrorBody(Unsupported))
    ensures rt.IdRoute? ==> r == ById(rt.id, store, now)
    ensures rt.ArtistRoute? ==> r == ByArtist(rt.artist, store, now)
    ensures rt.SongRoute? ==> r == BySongName(rt.name, store, now)
    ensures rt.QueryRoute? ==> r == ByQuery(rt.q, store, now)
    ensures r.status == 200 ==> Private(r.body)
  {
    match rt
    case NoParams => Respond(400, ErrorBody(MissingParams))
    case IdRoute(id) => ById(id, store, now)
    case ArtistRoute(artist) => ByArtist(artist, store, now)
    case SongRoute(name) => BySongName(name, store, now)
    case QueryRoute(q) => ByQuery(q, store, now)
    case UnknownRoute => Respond(400, ErrorBody(Unsupported))
  }

  /** `lambda_handler(event, context)` */
  function Handle(params: Option<Params>, store: Store, now: nat): (r: Response)
    ensures r.headers == CorsHeaders
    ensures r.status in {200, 400, 404, 500}
    ensures params.None? || params.value == map[] ==> r == Respond(400, ErrorBody(MissingParams))
    ensures r.status == 200 ==> Private(r.body)
    ensures params.Some? && params.value != map[] && params.value.Keys !! {"id", "artist", "song_name", "q"} ==>
              r == Respond(400, ErrorBody(Unsupported))
    ensures params.Some? && "id" in params.value ==> r == ById(params.value["id"], store, now)
    ensures params.Some? && "id" !in params.value && "artist" in params.value ==> r == ByArtist(params.value["artist"], store, now)
    ensures params.Some? && "id" !in params.value && "artist" !in params.value && "song_name" in params.value ==>
              r == BySongName(params.value["song_name"], store, now)
    ensures (params.Some? && "id" !in params.value && "artist" !in params.value && "song_name" !in params.value
             && "q" in params.value) ==> r == ByQuery(params.value["q"], store, now)
  {
    Serve(Dispatch(params), store, now)
  }

  /** The parameters are consulted in the order `id`, `artist`, `song_name`,
      `q`: the first one present decides, and the rest are ignored. */
  lemma IdTakesPrecedence(ps: Params, store: Store, now: nat)
    requires "id" in ps
    ensures Handle(Some(ps), store, now) == Handle(Some(map["id" := ps["id"]]), store, now) == ById(ps["id"], store, now)
  {
    var empty: Params := map[];
    assert "id" !in empty;
    assert Dispatch(Some(ps)) == Dispatch(Some(map["id" := ps["id"]])) == IdRoute(ps["id"]);
  }

  lemma ArtistComesSecond(ps: Params, store: Store, now: nat)
    requires "id" !in ps && "artist" in ps
    ensures Handle(Some(ps), store, now) == Handle(Some(map["artist" := ps["artist"]]), store, now)
              == ByArtist(ps["artist"], store, now)
  {
    var solo := map["artist" := ps["artist"]];
    assert "id" !in solo && "artist" in solo;
    assert Dispatch(Some(ps)) == Dispatch(Some(solo)) == ArtistRoute(ps["artist"]);
  }

  lemma SongNameComesThird(ps: Params, store: Store, now: nat)
    requires "id" !in ps && "artist" !in ps && "song_name" in ps
    ensures Handle(Some(ps), store, now) == Handle(Some(map["song_name" := ps["song_name"]]), store, now)
              == BySongName(ps["song_name"], store, now)
  {
    var solo := map["song_name" := ps["song_name"]];
    assert "id" !in solo && "artist" !in solo && "song_name" in solo;
    assert Dispatch(Some(ps)) == Dispatch(Some(solo)) == SongRoute(ps["song_name"]);
  }

  lemma QueryComesLast(ps: Params, store: Store, now: nat)
    requires "id" !in ps && "artist" !in ps && "song_name" !in ps && "q" in ps
    ensures Handle(Some(ps), store, now) == Handle(Some(map["q" := ps["q"]]), store, now) == ByQuery(ps["q"], store, now)
  {
    var solo := map["q" := ps["q"]];
    assert "id" !in solo && "artist" !in solo && "song_name" !in solo && "q" in solo;
    assert Dispatch(Some(ps)) == Dispatch(Some(solo)) == QueryRoute(ps["q"]);
  }

  /** A blank query still consults the shortcut, with the empty prefix, and
      answers with its hits when it has any. */
  lemma BlankQueryUsesShortcut(q: string, store: Store, now: nat)
    requires AllSpace(q)
    ensures Strip(q) == "" && Title(Strip(q)) == ""
    ensures ShortcutHits(store, "") != [] ==> ByQuery(q, store, now) == Listing(ShortcutHits(store, ""), now)
    ensures ShortcutHits(store, "") == [] ==> ByQuery(q, store, now) == Respond(400, ErrorBody(EmptyQuery))
  {
    QueryWordsBlank(q);
  }

  /** A shortcut query that raises is treated exactly like one with no hits. */
  lemma ShortcutFailureIsNoHit(q: string, store: Store, message: string, now: nat)
    requires store.artistPrefix(Title(Strip(q))) == Err(message)
    ensures ByQuery(q, store, now) == ByQuery(q, store.(artistPrefix := _ => Ok([])), now)
  {
    assert ShortcutHits(store, Title(Strip(q))) == ShortcutHits(store.(artistPrefix := _ => Ok([])), Title(Strip(q)));
  }

  /** When the shortcut finds something the scan never runs. */
  lemma ShortcutPreemptsScan(q: string, store: Store, pages: Pages, now: nat)
    requires |ShortcutHits(store, Title(Strip(q)))| > 0
    ensures ByQuery(q, store, now) == ByQuery(q, store.(scan := pages), now)
    ensures ByQuery(q, store, now) == Listing(ShortcutHits(store, Title(Strip(q))), now)
  {
  }

  lemma ScanAnswerStops(pages: Pages, words: seq<string>, now: nat)
    ensures var k := ScanRun(pages, words, PageLimit).1;
            (Prefix(pages, words, k).Ok? ==> ScanAnswer(pages, words, now) == Listing(Prefix(pages, words, k).value, now))
            && (Prefix(pages, words, k).Err? ==> ScanAnswer(pages, words, now) == ServerError(Prefix(pages, words, k).message))
  {
  }

  /** Without shortcut hits, a query with words answers with the cleaned
      matches of the first `k` scanned pages, where `k` is the page count at
      which the bounded loop stops, at most eleven. */
  lemma QueryFallsBackToScan(q: string, store: Store, now: nat)
    requires !AllSpace(q)
    requires ShortcutHits(store, Title(Strip(q))) == []
    ensures var k := ScanRun(store.scan, QueryWords(q), PageLimit).1;
            StopPoint(store.scan, QueryWords(q), PageLimit, k) && k <= PageLimit + 1
              && (Prefix(store.scan, QueryWords(q), k).Ok? ==>
                    ByQuery(q, store, now) == Listing(Prefix(store.scan, QueryWords(q), k).value, now))
              && (Prefix(store.scan, QueryWords(q), k).Err? ==>
                    ByQuery(q, store, now) == ServerError(Prefix(store.scan, QueryWords(q), k).message))
  {
    var words := QueryWords(q);
    QueryWordsBlank(q);
    assert ByQuery(q, store, now) == WordsAnswer(words, store.scan, now) == ScanAnswer(store.scan, words, now);
    ScanAnswerStops(store.scan, words, now);
  }
}
