/** `lambda_handler` of the song-metadata endpoint: look a record up by `id`,
    or search free text `q` with an artist-prefix shortcut and a bounded
    keyword scan. A raised store call becomes a 500 response carrying the
    exception text. */
module SongMetadata {
  import opened Wrappers
  import opened Ascii
  import opened Values
  import opened Store
  import opened Json
  import opened Sanitize
  import Token

  /** Query-string parameters; `None` when the gateway passes none. */
  type Params = map<string, string>

  /** The scan reads at most `PageLimit + 1` pages. */
  const PageLimit: nat := 5

  const MissingParams: string := "Faltan parámetros. Usa ?q=busqueda"
  const NotFound: string := "ID no encontrado"
  const EmptyQuery: string := "Consulta vacía"
  const Unsupported: string := "Parámetro no soportado. Usa ?q=, ?id= o ?artist="
  const InternalError: string := "Error interno del servidor"

  /** The body reveals none of the attributes the endpoint hides. */
  predicate Private(body: Json) {
    !Shows(body, "drive_file_id") && !Shows(body, "web_view_link") && !Shows(body, "search_keywords")
  }

  function ServerError(message: string): (r: Response)
    ensures r.status == 500 && r.headers == CorsHeaders
    ensures r.body == JObj(map["error" := JStr(InternalError), "details" := JStr(message)])
  {
    Respond(500, JObj(map["error" := JStr(InternalError), "details" := JStr(message)]))
  }

  /** A 200 body holding the cleaned records. */
  function Listing(items: seq<Item>, now: nat): (r: Response)
    ensures r.status == 200 && r.headers == CorsHeaders
    ensures r.body.JArr? && |r.body.elems| == |items|
    ensures forall i :: 0 <= i < |items| ==> r.body.elems[i] == EncodeItem(CleanMeta(items[i], now), Exact)
    ensures Private(r.body)
  {
    Respond(200, EncodeItems(CleanAllMeta(items, now), Exact))
  }

  /** Element `i` of a list response for a record with a drive id carries a
      token that, until it expires, resolves to that id. */
  lemma ListingTokenResolves(items: seq<Item>, now: nat, i: int, at: int)
    requires 0 <= i < |items| && TruthyAt(items[i], "drive_file_id")
    ensures "drive_token" in Listing(items, now).body.elems[i].fields
    ensures Listing(items, now).body.elems[i].fields["drive_token"]
            == JStr(Token.Obfuscate(Get(items[i], "drive_file_id"), now))
    ensures Token.Resolve(Token.Obfuscate(Get(items[i], "drive_file_id"), now), at)
            == if at <= now + Token.Ttl then Some(Render(items[i]["drive_file_id"])) else None
  {
    CleanMetaTokenResolves(items[i], now, at);
  }

  /** The `id` branch: one cleaned record, or 404 when the key is absent or
      maps to an empty record; no fallback to a search. */
  function ById(id: string, store: Store, now: nat): (r: Response)
    ensures r.headers == CorsHeaders
    ensures r.status == 500 <==> store.getItem(id).Err?
    ensures r.status == 404 <==> store.getItem(id).Ok? && (store.getItem(id).value.None? || store.getItem(id).value.value == map[])
    ensures r.status == 200 <==> store.getItem(id).Ok? && store.getItem(id).value.Some? && store.getItem(id).value.value != map[]
    ensures r.status == 200 ==> r.body == EncodeItem(CleanMeta(store.getItem(id).value.value, now), Exact)
    ensures r.status == 200 ==> Private(r.body)
  {
    match store.getItem(id)
    case Err(m) => ServerError(m)
    case Ok(found) =>
      if found.Some? && found.value != map[] then Respond(200, EncodeItem(CleanMeta(found.value, now), Exact))
      else Respond(404, ErrorBody(NotFound))
  }

  /** What a scan answers: the cleaned matches, or 500 if a page read raised. */
  function ScanAnswer(pages: Pages, words: seq<string>, now: nat): (r: Response)
    ensures r.headers == CorsHeaders && r.status in {200, 500}
    ensures r.status == 200 ==> r.body.JArr? && Private(r.body)
  {
    match Scan(pages, words, PageLimit)
    case Err(m) => ServerError(m)
    case Ok(data) => Listing(data, now)
  }

  /** The `q` branch, given the shortcut's hits and the table's scan pages. */
  function Answer(q: string, hits: seq<Item>, pages: Pages, now: nat): (r: Response)
    ensures r.headers == CorsHeaders
    ensures r.status in {200, 400, 500}
    ensures r.status == 400 <==> AllSpace(q)
    ensures r.status == 200 ==> r.body.JArr? && Private(r.body)
  {
    var raw := Strip(q);
    var query := LowerStr(raw);
    LowerKeepsSpace(raw);
    if query == [] then Respond(400, ErrorBody(EmptyQuery))
    else if |hits| > 0 then Listing(hits, now)
    else ScanAnswer(pages, Split(query), now)
  }

  /** The `q` branch: the shortcut guesses an artist from the title-cased
      query; its hits are consulted only for a non-blank query. */
  function ByQuery(q: string, store: Store, now: nat): (r: Response)
    ensures r.headers == CorsHeaders
    ensures r.status in {200, 400, 500}
    ensures r.status == 400 <==> AllSpace(q)
    ensures r.status == 200 ==> r.body.JArr? && Private(r.body)
  {
    Answer(q, ShortcutHits(store, Title(Strip(q))), store.scan, now)
  }

  /** Which branch of the handler a request takes. */
  datatype Route = NoParams | IdRoute(id: string) | QueryRoute(q: string) | UnknownRoute

  /** The handler's parameter tests, in the order it makes them. */
  function Dispatch(params: Option<Params>): (rt: Route)
    ensures rt == NoParams <==> params.None? || params.value == map[]
    ensures rt == UnknownRoute <==> params.Some? && params.value != map[] && "id" !in params.value && "q" !in params.value
    ensures params.Some? && "id" in params.value ==> rt == IdRoute(params.value["id"])
    ensures params.Some? && "id" !in params.value && "q" in params.value ==> rt == QueryRoute(params.value["q"])
  {
    if params.None? || params.value == map[] then NoParams
    else
      var ps := params.value;
      if "id" in ps then IdRoute(ps["id"])
      else if "q" in ps then QueryRoute(ps["q"])
      else UnknownRoute
  }

  /** The response of one branch. */
  function Serve(rt: Route, store: Store, now: nat): (r: Response)
    ensures r.headers == CorsHeaders
    ensures r.status in {200, 400, 404, 500}
    ensures rt == NoParams ==> r == Respond(400, ErrorBody(MissingParams))
    ensures rt == UnknownRoute ==> r == Respond(400, ErrorBody(Unsupported))
    ensures rt.IdRoute? ==> r == ById(rt.id, store, now)
    ensures rt.QueryRoute? ==> r == ByQuery(rt.q, store, now)
    ensures r.status == 200 ==> Private(r.body)
  {
    match rt
    case NoParams => Respond(400, ErrorBody(MissingParams))
    case IdRoute(id) => ById(id, store, now)
    case QueryRoute(q) => ByQuery(q, store, now)
    case UnknownRoute => Respond(400, ErrorBody(Unsupported))
  }

  /** `lambda_handler(event, context)` */
  function Handle(params: Option<Params>, store: Store, now: nat): (r: Response)
    ensures r.headers == CorsHeaders
    ensures r.status in {200, 400, 404, 500}
    ensures params.None? || params.value == map[] ==> r == Respond(400, ErrorBody(MissingParams))
    ensures r.status == 200 ==> Private(r.body)
    ensures params.Some? && params.value != map[] && "id" !in params.value && "q" !in params.value ==>
              r == Respond(400, ErrorBody(Unsupported))
    ensures params.Some? && "id" in params.value ==> r == ById(params.value["id"], store, now)
    ensures params.Some? && "id" !in params.value && "q" in params.value ==> r == ByQuery(params.value["q"], store, now)
  {
    Serve(Dispatch(params), store, now)
  }

  /** With an `id` every other parameter is ignored. */
  lemma IdTakesPrecedence(ps: Params, store: Store, now: nat)
    requires "id" in ps
    ensures Handle(Some(ps), store, now) == Handle(Some(map["id" := ps["id"]]), store, now) == ById(ps["id"], store, now)
  {
    var empty: Params := map[];
    assert "id" !in empty;
    assert Dispatch(Some(ps)) == Dispatch(Some(map["id" := ps["id"]])) == IdRoute(ps["id"]);
  }

  /** Without an `id`, `q` decides and every other parameter is ignored. */
  lemma QueryIgnoresOthers(ps: Params, store: Store, now: nat)
    requires "id" !in ps && "q" in ps
    ensures Handle(Some(ps), store, now) == Handle(Some(map["q" := ps["q"]]), store, now) == ByQuery(ps["q"], store, now)
  {
    var solo := map["q" := ps["q"]];
    assert "id" !in solo && "q" in solo;
    assert Dispatch(Some(ps)) == Dispatch(Some(solo)) == QueryRoute(ps["q"]);
  }

  /** A blank query is answered with 400 before the store is consulted. */
  lemma BlankQueryTouchesNoStore(q: string, s1: Store, s2: Store, now: nat)
    requires AllSpace(q)
    ensures Handle(Some(map["q" := q]), s1, now) == Handle(Some(map["q" := q]), s2, now) == Respond(400, ErrorBody(EmptyQuery))
  {
    assert "id" !in map["q" := q] && "q" in map["q" := q];
    assert Dispatch(Some(map["q" := q])) == QueryRoute(q);
    LowerKeepsSpace(Strip(q));
  }

  /** When the shortcut finds something the scan never runs: the answer is the
      same whatever the table would scan to. */
  lemma ShortcutPreemptsScan(q: string, store: Store, pages: Pages, now: nat)
    requires !AllSpace(q)
    requires |ShortcutHits(store, Title(Strip(q)))| > 0
    ensures ByQuery(q, store, now) == ByQuery(q, store.(scan := pages), now)
    ensures ByQuery(q, store, now) == Listing(ShortcutHits(store, Title(Strip(q))), now)
  {
    LowerKeepsSpace(Strip(q));
  }

  /** A shortcut query that raises is treated exactly like one with no hits. */
  lemma ShortcutFailureIsNoHit(q: string, store: Store, message: string, now: nat)
    requires store.artistPrefix(Title(Strip(q))) == Err(message)
    ensures ByQuery(q, store, now) == ByQuery(q, store.(artistPrefix := _ => Ok([])), now)
  {
    assert ShortcutHits(store, Title(Strip(q))) == ShortcutHits(store.(artistPrefix := _ => Ok([])), Title(Strip(q)));
  }

  /** Without shortcut hits, a non-blank query answers with the cleaned
      matches of the first `k` scanned pages, where `k` is the page count at
      which the bounded loop stops, at most six; a page whose read raised gives 500. */
  lemma QueryFallsBackToScan(q: string, store: Store, now: nat)
    requires !AllSpace(q)
    requires ShortcutHits(store, Title(Strip(q))) == []
    ensures var k := ScanRun(store.scan, QueryWords(q), PageLimit).1;
            StopPoint(store.scan, QueryWords(q), PageLimit, k) && k <= PageLimit + 1
              && (Prefix(store.scan, QueryWords(q), k).Ok? ==>
                    ByQuery(q, store, now) == Listing(Prefix(store.scan, QueryWords(q), k).value, now))
              && (Prefix(store.scan, QueryWords(q), k).Err? ==>
                    ByQuery(q, store, now) == ServerError(Prefix(store.scan, QueryWords(q), k).message))
  {
    var words := QueryWords(q);
    LowerKeepsSpace(Strip(q));
    assert ByQuery(q, store, now) == ScanAnswer(store.scan, words, now);
    ScanAnswerStops(store.scan, words, now);
  }

  lemma ScanAnswerStops(pages: Pages, words: seq<string>, now: nat)
    ensures var k := ScanRun(pages, words, PageLimit).1;
            (Prefix(pages, words, k).Ok? ==> ScanAnswer(pages, words, now) == Listing(Prefix(pages, words, k).value, now))
            && (Prefix(pages, words, k).Err? ==> ScanAnswer(pages, words, now) == ServerError(Prefix(pages, words, k).message))
  {
  }
}
