# Rokola catalog: search endpoint, enrichment rules and migrations

Rokola is a music catalog. Its songs live in a Postgres table
(`musica_startup`). Scripts enrich each row from Last.fm and Discogs, and
another looks for covers on iTunes and Deezer. A migration then copies the
rows into a DynamoDB table, and a Lambda search endpoint serves them to the
web player. This project models the deterministic heart of all of that in
Dafny:

- **The search endpoint**, in both of its variants.
  - `SongMetadata` models `getSongMetadata/src/lambda_function.py`, which
    handles `id` and `q`.
  - `FuncionLambda` models `otros/funcion_lambda.py`, which handles `id`,
    `artist`, `song_name` and `q`.
  - Each is modelled as `Dispatch` (which parameter wins), then `Serve` (what
    the chosen strategy answers).
  - The table is an abstract `Store`:
    - `get_item` is a function from id to a result;
    - the artist-prefix and title-equality indexes are functions from the key
      to one page or a failure;
    - the artist-equality query and the full scan are sequences of page
      results, where page `i + 1` exists exactly when page `i` carries a
      continuation key.
  - The clock is a parameter `now`.
- **The bounded keyword scan** (`Store`): the loop `BoundedScan`, its
  functional twin `ScanRun`, and the stop point it reaches.
- **The sanitiser** (`Sanitize`): `limpiar_datos` in both variants.
- **The drive token** (`Token`): the payload `id|expiry`, the repeating XOR
  key, UTF-8 (`Utf8`), and Base64 as in section 4 of RFC 4648 (`Base64`).
  - The repository has no decoder. `Token.Resolve` is a specification-level
    inverse, there only to state the round trip.
  - The XOR scheme is not authenticated, and the model claims no integrity.
- **JSON encoding** (`Json`): the two `DecimalEncoder`s and `response`.
- **The population scripts' pure helpers**:
  - file-name cleaners (`FileNames`);
  - the anchor stripper `limpiar_resumen` (`Summary`);
  - the Last.fm tag chooser (`Tags`);
  - the cover hunter's `limpiar_texto` and its lookup order (`CoverHunter`);
  - Discogs field normalisation and row marking (`Discogs`);
  - the `UPDATE` rules of the three Last.fm scripts, as pure record merges
    (`LastFm`).
- **The four DynamoDB item builders** (`Migration` for what they share, then
  `MigrateAws`, `MigrateVenezuela`, `MigrateOld` and `MigrateOriginal`).
  - One cross-module property: each item's `search_keywords` holds every
    part the script puts in it (title, artist, album, and in the later
    scripts nationality, real name, year, style and country), lower-cased.
    So every query made of words of one part finds the item in the
    endpoint's scan (`*.FoundByKeywordPart` and `*.FoundByTitleOrArtist`,
    ending in `Store.Matches`).

Python values are modelled as `Values.Value`:

- strings, `Decimal`s as `digits / 10^scale`, booleans, `None` and lists;
- Python truthiness;
- `str()`.

String operations are ASCII: `lower`, `upper`, `title`, `strip`, `split`,
`\s` and `\d`.

`limpiar_nombre` is identical in `llenar_datos_v2.py:23-27`,
`llenar_datos.py:22-26` and `llenar_datos_original.py:22-29`. It is modelled
once, as `FileNames.CleanFileName`. `limpiar_resumen` is identical in
`llenar_datos_v2.py:29-32` and `llenar_datos.py:28-31`. It is modelled once,
as `Summary.CleanSummary`.

Three behaviours of the endpoint differ from what its caps and comments
suggest; the model follows the code as written:

- **Result cap.** The scan checks its caps before each further fetch and
  never truncates a page. A response can therefore hold more than 50 items
  (`Store.ScanCanExceedCap`).
- **Page cap.** The test is `pages_read > 5` (or `> 10`). So up to 6 (or 11)
  pages are read, not 5 (or 10).
- **Empty queries in `funcion_lambda.py`.** The artist shortcut runs before
  the empty-query check. A blank query is answered by the shortcut whenever
  the index returns anything for the empty prefix
  (`FuncionLambda.BlankQueryUsesShortcut`).

## Model

| member | source | states |
|---|---|---|
| Token.SecretKeyFacts | rokola_web/otros/getSongMetadata/src/lambda_function.py:9 | the XOR key "logoscontexto" has 13 characters, all ASCII |
| Token.XorChar | rokola_web/otros/getSongMetadata/src/lambda_function.py:41-43 | `chr(ord(c) ^ ord(k))` for an ASCII key char is a valid character: its code is the bitwise XOR, in the same 128-code block as `c` |
| Token.Cipher | rokola_web/otros/getSongMetadata/src/lambda_function.py:38-45 | the ciphertext has the payload's length; its character i is payload character i XOR key character i mod 13 |
| Token.CipherInvolutive | rokola_web/otros/getSongMetadata/src/lambda_function.py:38-45 | enciphering the ciphertext again gives back the payload |
| Token.CipherKeepsAscii | rokola_web/otros/getSongMetadata/src/lambda_function.py:38-45 | an ASCII payload enciphers to ASCII |
| Token.Obfuscate | rokola_web/otros/getSongMetadata/src/lambda_function.py:33-46 | the token is empty exactly when the drive id is missing or falsy |
| Token.ParsePayloadOfPayload | rokola_web/otros/getSongMetadata/src/lambda_function.py:35-36 | splitting the payload at its last bar character recovers the id and now + 900, whatever bars the id holds |
| Token.ResolveIssue | rokola_web/otros/getSongMetadata/src/lambda_function.py:35-46 | Base64-decoding, UTF-8-decoding, re-XORing and splitting an issued token gives back the id at any time up to now + 900, and nothing after |
| Token.AsciiTokenBytes | rokola_web/otros/getSongMetadata/src/lambda_function.py:36-46 | for an ASCII id, the UTF-8 step is the identity: the bytes Base64 encodes are exactly the XORed codes |
| Token.ObfuscateResolves | rokola_web/otros/funcion_lambda.py:15-35 | a falsy id gives ""; a truthy id gives a token that resolves to `str(id)` until expiry and to nothing after |
| BitXor.XorInvolutive | rokola_web/otros/getSongMetadata/src/lambda_function.py:42 | `(a ^ b) ^ b == a` for every pair of naturals |
| BitXor.XorBound | rokola_web/otros/getSongMetadata/src/lambda_function.py:42 | the XOR of two n-bit numbers is an n-bit number |
| BitXor.XorLowBits | rokola_web/otros/getSongMetadata/src/lambda_function.py:42 | XOR with an n-bit key leaves the bits above n unchanged and acts on the low n bits alone |
| Numerals.NatToString | rokola_web/otros/getSongMetadata/src/lambda_function.py:36 | the decimal text of the expiry is a digit string without leading zeros that parses back to the number |
| Numerals.TruncDiv | rokola_web/otros/funcion_lambda.py:62 | `int(Decimal)` truncates toward zero: the quotient's magnitude is the floor of the magnitude quotient, with the dividend's sign |
| Utf8.EncodeChar | rokola_web/otros/getSongMetadata/src/lambda_function.py:46 | a character encodes to 1 to 4 bytes; it is one byte exactly when it is ASCII, and then the byte is its code |
| Utf8.DecodeFirstOfEncodeChar | rokola_web/otros/getSongMetadata/src/lambda_function.py:46 | decoding the front of an encoded character, whatever follows it, gives the character and its byte length |
| Utf8.DecodeEncode | rokola_web/otros/getSongMetadata/src/lambda_function.py:46 | decoding the UTF-8 encoding of any string gives back the string |
| Utf8.EncodeAscii | rokola_web/otros/getSongMetadata/src/lambda_function.py:46 | an ASCII string encodes to its own character codes, byte for byte |
| Base64.Encode | rokola_web/otros/getSongMetadata/src/lambda_function.py:46 | n bytes encode to 4 * ceil(n / 3) characters of the alphabet |
| Base64.IndexOfAlphabet | rokola_web/otros/getSongMetadata/src/lambda_function.py:46 | each of the 64 sextets maps to an alphabet character other than "=" that maps back to it |
| Base64.DecodeEncode | rokola_web/otros/getSongMetadata/src/lambda_function.py:46 | decoding the encoding of any byte sequence gives it back |
| Json.EncodeNumExact | rokola_web/otros/getSongMetadata/src/lambda_function.py:23-25 | a Decimal becomes a JSON integer exactly when it is integral, and then it has the same value |
| Json.EncodeNumTrunc | rokola_web/otros/funcion_lambda.py:59-63 | every Decimal becomes the JSON integer `int()` gives, truncated toward zero |
| Json.EncodeValue | rokola_web/otros/getSongMetadata/src/lambda_function.py:79 | a string, a boolean and None become the same JSON value; a number goes through the handler's encoder; a list becomes an array of its encoded elements in order |
| Json.EncodeItem | rokola_web/otros/getSongMetadata/src/lambda_function.py:79 | an item becomes an object with the same keys, each value encoded |
| Json.EncodeItems | rokola_web/otros/getSongMetadata/src/lambda_function.py:79 | a list of items becomes an array of the same length and order |
| Json.ErrorBody | rokola_web/otros/getSongMetadata/src/lambda_function.py:89 | an error body is an object whose only key is "error" |
| Json.Respond | rokola_web/otros/getSongMetadata/src/lambda_function.py:72-80 | every response carries its status and body, the "*" CORS origin and the JSON content type |
| Sanitize.Get | rokola_web/otros/getSongMetadata/src/lambda_function.py:60 | `dict.get` is present exactly when the key is, with its value |
| Sanitize.CleanMeta | rokola_web/otros/getSongMetadata/src/lambda_function.py:57-67 | the drive id, link and keywords never survive; `drive_token` is added exactly when the drive id is truthy, and is its token; no other key is added; every other key keeps its value |
| Sanitize.CleanAllMeta | rokola_web/otros/getSongMetadata/src/lambda_function.py:55-70 | the list keeps its length and order, each item cleaned on its own |
| Sanitize.CleanMetaTokenResolves | rokola_web/otros/getSongMetadata/src/lambda_function.py:60-62 | the token added to a cleaned item resolves to that item's drive id until expiry |
| Sanitize.CleanMetaIdentity | rokola_web/otros/getSongMetadata/src/lambda_function.py:55-70 | an item with none of the hidden keys comes back unchanged |
| Sanitize.CleanGeneral | rokola_web/otros/funcion_lambda.py:45-53 | the keys are the input's minus the drive id and link, plus `drive_token`; the token is "" exactly when the drive id is missing or falsy; every other key keeps its value, keywords included |
| Sanitize.CleanAllGeneral | rokola_web/otros/funcion_lambda.py:42-56 | the list keeps its length and order, each item cleaned on its own |
| Sanitize.CleanGeneralTokenResolves | rokola_web/otros/funcion_lambda.py:48-49 | the token added for a truthy drive id resolves to it until expiry |
| Store.Filter | rokola_web/otros/getSongMetadata/src/lambda_function.py:131-136 | an item is kept exactly when it was on the page and its keywords contain every query word |
| Store.FilterAllMatch | rokola_web/otros/getSongMetadata/src/lambda_function.py:131-136 | a page whose items all match is kept whole, in order |
| Store.Gather | rokola_web/otros/funcion_lambda.py:87-93 | when every page succeeds, the result is laid out in page order (`InPageOrder`): item j of page i sits at position Offset(i) + j, where Offset(i) sums the lengths of the earlier pages, so each item appears as often as its page holds it; otherwise the error is the first failing page's |
| Store.InPageOrderUnique | rokola_web/otros/funcion_lambda.py:87-93 | that layout admits exactly one item sequence, so `items.extend` over the pages is pinned |
| Store.StopPointUnique | rokola_web/otros/getSongMetadata/src/lambda_function.py:143-148 | the page at which the scan loop stops is determined uniquely by the pages, the words and the page cap |
| Store.EarlierContinues | rokola_web/otros/getSongMetadata/src/lambda_function.py:143-148 | before the stop point, every page read had a continuation, fewer than 50 matches so far, and a page count within the cap |
| Store.ScanRun | rokola_web/otros/getSongMetadata/src/lambda_function.py:139-155 | the scan stops at the stop point, having read at most cap + 1 pages, and returns the matches of the pages read, or the first failure among them |
| Store.BoundedScan | rokola_web/otros/getSongMetadata/src/lambda_function.py:139-155 | the loop as written reaches the same stop point and the same result, having read at most cap + 1 pages |
| Store.ScanSound | rokola_web/otros/getSongMetadata/src/lambda_function.py:139-157 | every item returned matches every query word and comes from a page that was read |
| Store.ScanExhaustive | rokola_web/otros/getSongMetadata/src/lambda_function.py:143-148 | when the pages fit within the cap and fewer than 50 matches are held, every page is read and every matching item is returned |
| Store.ScanCanExceedCap | rokola_web/otros/getSongMetadata/src/lambda_function.py:145-146 | with 49 matches on the first page and 10 on the second, 59 items come back: the cap is not a truncation |
| SongMetadata.ServerError | rokola_web/otros/getSongMetadata/src/lambda_function.py:161-163 | an exception gives 500 with the fixed "error" text and the exception in "details" |
| SongMetadata.Listing | rokola_web/otros/getSongMetadata/src/lambda_function.py:157 | a result list gives 200 and an array of the same length whose element i is record i cleaned by CleanMeta and encoded exactly; no drive id, link or keywords anywhere |
| SongMetadata.ListingTokenResolves | rokola_web/otros/getSongMetadata/src/lambda_function.py:48-70 | element i of a list response for a record with a drive id carries a token that resolves to that id until it expires |
| SongMetadata.ById | rokola_web/otros/getSongMetadata/src/lambda_function.py:95-100 | 500 exactly when the lookup fails; 404 exactly when it finds nothing or an empty item; 200 exactly when it finds an item, with that item cleaned and nothing private |
| SongMetadata.ScanAnswer | rokola_web/otros/getSongMetadata/src/lambda_function.py:139-157 | the scan answers 200 with a private array, or 500 |
| SongMetadata.Answer | rokola_web/otros/getSongMetadata/src/lambda_function.py:106-157 | 400 exactly when the query is all whitespace; otherwise 200 with a private array, or 500 |
| SongMetadata.ByQuery | rokola_web/otros/getSongMetadata/src/lambda_function.py:105-157 | the free-text path answers 400 exactly for a blank query, and any 200 is a private array |
| SongMetadata.Dispatch | rokola_web/otros/getSongMetadata/src/lambda_function.py:86-105 | missing or empty parameters give NoParams; `id` gives IdRoute with its value; `q` without `id` gives QueryRoute with its value; anything else is UnknownRoute |
| SongMetadata.Serve | rokola_web/otros/getSongMetadata/src/lambda_function.py:88-163 | the only statuses are 200, 400, 404 and 500; the two 400 texts for no parameters and for unknown ones; IdRoute is answered by ById and QueryRoute by ByQuery; any 200 body is private |
| SongMetadata.Handle | rokola_web/otros/getSongMetadata/src/lambda_function.py:84-163 | the whole handler: CORS headers always; 400 for missing, empty or unsupported parameters; a request with `id` is answered by ById, one with `q` and no `id` by ByQuery; nothing private in any 200 |
| SongMetadata.IdTakesPrecedence | rokola_web/otros/getSongMetadata/src/lambda_function.py:95-100 | with `id` present, every other parameter is ignored and ById answers |
| SongMetadata.QueryIgnoresOthers | rokola_web/otros/getSongMetadata/src/lambda_function.py:105-157 | with `q` and no `id`, every other parameter is ignored and ByQuery answers |
| SongMetadata.BlankQueryTouchesNoStore | rokola_web/otros/getSongMetadata/src/lambda_function.py:106-110 | a blank query gets 400 "Consulta vacía" whatever the store holds: no store call is made |
| SongMetadata.ShortcutPreemptsScan | rokola_web/otros/getSongMetadata/src/lambda_function.py:123-125 | when the shortcut finds items, they are the answer and the scan pages are never looked at |
| SongMetadata.ShortcutFailureIsNoHit | rokola_web/otros/getSongMetadata/src/lambda_function.py:126-127 | a failing shortcut answers exactly as an empty one |
| SongMetadata.QueryFallsBackToScan | rokola_web/otros/getSongMetadata/src/lambda_function.py:131-157 | without shortcut hits, the answer is the scan's matches up to its stop point (at most 6 pages), or 500 with the first failure |
| SongMetadata.ScanAnswerStops | rokola_web/otros/getSongMetadata/src/lambda_function.py:139-157 | the scan answer lists the matches of the pages up to the stop point, or reports the first page failure |
| FuncionLambda.ServerError | rokola_web/otros/funcion_lambda.py:162-164 | an exception gives 500 with the exception text as the only "error" field |
| FuncionLambda.Listing | rokola_web/otros/funcion_lambda.py:42-56 | a result list gives 200 and an array of the same length whose element i is record i cleaned by CleanGeneral and encoded with truncation; every element carries `drive_token` and none shows a drive id or link |
| FuncionLambda.ListingTokenResolves | rokola_web/otros/funcion_lambda.py:42-56 | element i of a list response carries the token of record i's drive id, which resolves to that id until it expires, and the empty string when the record has none |
| FuncionLambda.ById | rokola_web/otros/funcion_lambda.py:77-83 | 500, 404 and 200 exactly as the lookup fails, finds nothing or finds an item; a found item is cleaned, private and carries a token |
| FuncionLambda.ByArtist | rokola_web/otros/funcion_lambda.py:86-96 | 200 exactly when every artist page succeeds, listing all their items; otherwise 500 with the first failure |
| FuncionLambda.BySongName | rokola_web/otros/funcion_lambda.py:99-102 | 200 exactly when the single title query succeeds, listing that one page; otherwise 500 whose `error` field is the failure's message |
| Store.ShortcutHits | rokola_web/otros/funcion_lambda.py:112-125 | the prefix query's items, with a failure counting as no items (the same shortcut as lambda_function.py:114-127) |
| FuncionLambda.ScanAnswer | rokola_web/otros/funcion_lambda.py:132-158 | the scan answers 200 with a private array, or 500 |
| FuncionLambda.WordsAnswer | rokola_web/otros/funcion_lambda.py:129-158 | 400 exactly when the query has no words; otherwise the scan's answer |
| FuncionLambda.Answer | rokola_web/otros/funcion_lambda.py:108-158 | 400 exactly when the shortcut found nothing and the query has no words; any shortcut hit is the answer |
| FuncionLambda.ByQuery | rokola_web/otros/funcion_lambda.py:107-158 | the free-text path answers 200, 400 or 500, and any 200 is a private array |
| FuncionLambda.Dispatch | rokola_web/otros/funcion_lambda.py:69-107 | missing or empty parameters give NoParams; otherwise the first of `id`, `artist`, `song_name`, `q` present picks IdRoute, ArtistRoute, SongRoute or QueryRoute with its value; none of them gives UnknownRoute |
| FuncionLambda.Serve | rokola_web/otros/funcion_lambda.py:72-164 | the only statuses are 200, 400, 404 and 500; the two 400 texts; each search route is answered by its branch (ById, ByArtist, BySongName, ByQuery); any 200 body is private |
| FuncionLambda.Handle | rokola_web/otros/funcion_lambda.py:68-164 | the whole handler: CORS headers always; 400 for missing, empty or unsupported parameters; the first of `id`, `artist`, `song_name`, `q` present is answered by ById, ByArtist, BySongName or ByQuery; nothing private in any 200 |
| FuncionLambda.IdTakesPrecedence | rokola_web/otros/funcion_lambda.py:77-83 | with `id` present, every other parameter is ignored and ById answers |
| FuncionLambda.ArtistComesSecond | rokola_web/otros/funcion_lambda.py:86-96 | with `artist` and no `id`, every other parameter is ignored and ByArtist answers |
| FuncionLambda.SongNameComesThird | rokola_web/otros/funcion_lambda.py:99-102 | with `song_name` and neither `id` nor `artist`, every other parameter is ignored and BySongName answers |
| FuncionLambda.QueryComesLast | rokola_web/otros/funcion_lambda.py:107-158 | `q` is used only when none of the other three is present, and then ByQuery answers |
| FuncionLambda.BlankQueryUsesShortcut | rokola_web/otros/funcion_lambda.py:111-130 | a blank query asks the index for the empty prefix: anything it returns is the answer, and only otherwise is the answer 400 |
| FuncionLambda.ShortcutFailureIsNoHit | rokola_web/otros/funcion_lambda.py:124-125 | a failing shortcut answers exactly as an empty one |
| FuncionLambda.ShortcutPreemptsScan | rokola_web/otros/funcion_lambda.py:120-123 | when the shortcut finds items, they are the answer and the scan pages are never looked at |
| FuncionLambda.ScanAnswerStops | rokola_web/otros/funcion_lambda.py:136-158 | the scan answer lists the matches of the pages up to the stop point, or reports the first page failure |
| FuncionLambda.QueryFallsBackToScan | rokola_web/otros/funcion_lambda.py:127-158 | without shortcut hits, the answer is the scan's matches up to its stop point (at most 11 pages), or 500 with the first failure |
| Ascii.LowerStr | rokola_web/otros/getSongMetadata/src/lambda_function.py:107 | `lower()` keeps the length and lower-cases each character on its own |
| Ascii.Title | rokola_web/otros/getSongMetadata/src/lambda_function.py:115 | `title()`: a letter is upper-cased exactly when it does not follow a letter, and lower-cased otherwise; other characters stay |
| Ascii.Strip | rokola_web/otros/getSongMetadata/src/lambda_function.py:106 | `strip()` returns the text between the leading and trailing whitespace runs, with no whitespace at either end; it is empty exactly for an all-whitespace input |
| Ascii.Split | rokola_web/otros/getSongMetadata/src/lambda_function.py:131 | `split()` gives non-empty words without whitespace, which are exactly the maximal non-whitespace runs of the text in order: each word is preceded by whitespace or the start and followed by whitespace or the end |
| Ascii.SplitUnique | rokola_web/otros/getSongMetadata/src/lambda_function.py:131 | any sequence of words the text is spaced into in that way is the one `split()` returns |
| Ascii.StripUnique | rokola_web/otros/getSongMetadata/src/lambda_function.py:106 | any slice with only whitespace around it and none at its own ends is the one `strip()` returns |
| Ascii.QueryWordsBlank | rokola_web/otros/getSongMetadata/src/lambda_function.py:106-110 | `q.strip().lower().split()` is empty exactly when `q` is all whitespace |
| Ascii.ReplaceCharRemoves | llenar_datos_v2.py:26 | after `replace('_', ' ')` no underscore is left |
| FileNames.RemoveExtension | llenar_datos_v2.py:24 | one dot with 3 or 4 letters or digits at the end, or before a final newline, is removed; a 4-character extension is preferred; otherwise the name is unchanged |
| FileNames.TrackNumberLength | llenar_datos_v2.py:25 | the cut is the greedy match of `^\d+\s*[-_.]?\s*`: the maximal digit run, the maximal whitespace after it, one separator if one follows, and the maximal whitespace after that; nothing when the name does not open with a digit |
| FileNames.TrackNumberCutUnique | llenar_datos_v2.py:25 | no other cut fits that description, so the match is determined by the name |
| FileNames.StripTrackNumber | llenar_datos_v2.py:25 | the result is the name without exactly the greedy match of the track-number pattern; the name is unchanged exactly when it does not start with a digit |
| FileNames.Tidy | llenar_datos_v2.py:26-27 | the result is a slice of the text with each underscore turned into a space, with only whitespace and underscores around it and no whitespace at its ends |
| FileNames.TidyUnique | llenar_datos_v2.py:26-27 | any trimmed text that fits that description is the tidied text |
| FileNames.CleanFileName | llenar_datos_v2.py:23-27 | the clean title is the tidied form of what is left after the extension is removed and then exactly the greedy track-number match is cut off; it has no underscore and no surrounding whitespace |
| FileNames.CleanFileNameUnique | llenar_datos_v2.py:23-27 | any trimmed title that the three steps allow is the clean title, so the contract determines the result |
| FileNames.CleanFileNameExample | llenar_datos_v2.py:23-27 | "01 - A_b.mp3" cleans to "A b" |
| FileNames.ExtensionExample | llenar_datos_v2.py:24 | the extension of "01 - A_b.mp3" is removed |
| FileNames.TrackNumberExample | llenar_datos_v2.py:25 | "01 - " is removed from the front of "01 - A_b" |
| FileNames.OneSeparatorExample | llenar_datos_v2.py:25 | only one separator is consumed: "01-02 A" becomes "02 A" |
| FileNames.RemoveMp3 | discogs_miner.py:49 | ".mp3" in any letter case at the end, or before a final newline, is removed; nothing else is |
| FileNames.StripDiscogsNumber | discogs_miner.py:50 | the result is the name without exactly the greedy match of `^\d+[\s.-]*`: the maximal leading digit run and the maximal run of whitespace, dots and hyphens after it; a name not starting with a digit is unchanged |
| FileNames.DiscogsNumberCutUnique | discogs_miner.py:50 | no other cut fits that description |
| FileNames.DiscogsSecondNumberExample | discogs_miner.py:50 | the trail stops at the next digit: "12 34 A" becomes "34 A" |
| FileNames.CleanDiscogsName | discogs_miner.py:46-51 | a missing or empty name gives ""; otherwise the result is a trimmed slice with only whitespace around it of the name without its ".mp3" and its track number |
| FileNames.CleanDiscogsNameUnique | discogs_miner.py:46-51 | any trimmed text those steps allow is the cleaned name |
| FileNames.CleanDiscogsNameExample | discogs_miner.py:46-51 | "7 - A.MP3" cleans to "A" |
| Summary.AnchorEnd | llenar_datos_v2.py:31 | a match at p is an anchor: the opener "<a href=", the first ">" after it, then "</a>", with no newline inside |
| Summary.AnchorEndShortest | llenar_datos_v2.py:31 | the lazy `.*?` match ends no later than any anchor starting at the same place |
| Summary.NoOpenerKeepsText | llenar_datos_v2.py:31 | a text without "<a href=" is left as is |
| Summary.RemoveAnchorsKeepsAbsent | llenar_datos_v2.py:31 | removing anchors never introduces a character the text lacked |
| Summary.CleanSummary | llenar_datos_v2.py:29-32 | a missing or empty summary gives None; otherwise the result is the summary without its anchors, with the surrounding whitespace cut off |
| Summary.CleanSummaryUnique | llenar_datos_v2.py:29-32 | any trimmed text with only whitespace around it in the summary without anchors is the cleaned summary |
| Summary.PlainSummary | llenar_datos_v2.py:29-32 | a summary without anchors is only stripped |
| Summary.AnchorExample | llenar_datos_v2.py:31 | in "x<a href=u>y</a>" the anchor found at 1 ends at the end of the text |
| Summary.CleanSummaryExample | llenar_datos_v2.py:29-32 | "x<a href=u>y</a>" cleans to "x" |
| Tags.LowerTitle | llenar_datos_v2.py:67-69 | lower-casing a title-cased name gives the lower-cased name, so the tag returned is the one compared with the blacklist |
| Tags.FromList | llenar_datos_v2.py:65-69 | a tag chosen from a list is not blacklisted and is longer than two characters |
| Tags.FromListPicksFirst | llenar_datos_v2.py:65-69 | the answer is the title-cased name of the first qualifying tag |
| Tags.FromListNone | llenar_datos_v2.py:65-75 | with no qualifying tag the answer is None |
| Tags.FromListMissingName | llenar_datos_v2.py:67 | a tag without "name" before the first qualifying one raises |
| Tags.BestTag | llenar_datos_v2.py:55-75 | no tags or a non-list, non-dict value give None; a dict without a name raises; a dict name not on the blacklist gives its title-cased form and one on it gives None; a list gives what `FromList` gives |
| Tags.ShortObjectAccepted | llenar_datos_v2.py:70-73 | a single tag dict has no length check: "ab" gives "Ab" |
| Tags.ShortListEntrySkipped | llenar_datos_v2.py:68 | in a list, "ab" is too short and is skipped |
| Tags.BlacklistGrew | llenar_datos.py:47 | every tag the first blacklist rejects, the later one rejects too |
| Tags.DecadeTag | llenar_datos.py:47 | "00s" is accepted (as "00S") with the 7-entry blacklist and refused with the 12-entry one |
| CoverHunter.BracketEnd | cazador_hibrido.py:26 | a bracket match opens with "(", "[" or "{" and ends at the nearest closer of any kind, with no newline between; there is none exactly when no closer precedes the next newline or the end |
| CoverHunter.NoOpenerKeepsText | cazador_hibrido.py:26 | a text without an opener is left as is |
| CoverHunter.DropLeadingJunk | cazador_hibrido.py:28 | the result is the text without the characters before its first ASCII letter or digit, or empty when it has none |
| CoverHunter.JunkCutUnique | cazador_hibrido.py:28 | no other cut drops only non-alphanumeric characters and stops at a letter or digit |
| CoverHunter.DropJunkAndStrip | cazador_hibrido.py:28-29 | the result is what is left after the leading junk is cut, stripped; it is empty or starts with a letter or digit |
| CoverHunter.CleanText | cazador_hibrido.py:22-29 | an empty text gives ""; otherwise the result is the bracket-free text with its leading junk cut and its whitespace stripped, so it is empty or starts with a letter or digit and has no surrounding whitespace |
| CoverHunter.CleanTextUnique | cazador_hibrido.py:22-29 | any trimmed text the last two steps allow after the brackets are gone is the cleaned text |
| CoverHunter.CleanTextKeepsCleanName | cazador_hibrido.py:22-29 | a trimmed text that starts with a letter or digit and has no opener is already clean |
| CoverHunter.CleanTextExample | cazador_hibrido.py:26 | "A (x)" cleans to "A" |
| CoverHunter.Ask | cazador_hibrido.py:68-69 | a lookup counts as a hit only with a non-empty url |
| CoverHunter.Plan | cazador_hibrido.py:67-90 | the lookups are raw iTunes then raw Deezer; the cleaned pair only when cleaning changed the artist or the title; title only when the clean title is longer than 3; so between 2 and 6 lookups |
| CoverHunter.SmartSearch | cazador_hibrido.py:60-92 | the url and its label are both present or both absent |
| CoverHunter.SmartSearchFollowsPlan | cazador_hibrido.py:60-92 | `buscar_inteligente` returns the first hit of its plan |
| CoverHunter.FirstHitAppend | cazador_hibrido.py:67-92 | a later lookup is consulted only when every earlier one missed |
| CoverHunter.FirstHitIsFirst | cazador_hibrido.py:67-90 | the answer is the url and label of the first lookup that hits |
| CoverHunter.FirstHitMiss | cazador_hibrido.py:92 | when every lookup misses, the answer is (None, None) |
| Discogs.Truncate | discogs_miner.py:142 | `[:255]` returns a prefix of at most 255 characters, the whole text when it fits and exactly 255 otherwise |
| Discogs.NormalizeYear | discogs_miner.py:134-136 | a year is kept when it is falsy or all digits, and is otherwise dropped to None; a truthy result is all digits |
| Discogs.NormalizeYearIdempotent | discogs_miner.py:134-136 | normalising twice is normalising once |
| Discogs.Strings | discogs_miner.py:142 | a list can be joined exactly when all its elements are strings |
| Discogs.FieldText | discogs_miner.py:141-148 | every field text is at most 255 characters; it fails exactly for a list holding a non-string; an absent key gives ""; a non-list is `str()` truncated |
| Discogs.NullFieldIsText | discogs_miner.py:141-142 | a present null style becomes the text "None" |
| Discogs.ShortListJoined | discogs_miner.py:142 | a list of strings that fits is stored as its ", " join |
| Discogs.MarkRow | discogs_miner.py:127-169 | the row always ends processed; a miss changes nothing else; a hit stores the normalised year, the country and id as returned, and the style, label and format texts `FieldText` gives, and fails exactly when one of them cannot be joined |
| Discogs.HitOverwrites | discogs_miner.py:153-164 | on a hit the stored values depend only on the Discogs answer, not on what the row held |
| LastFm.Coalesce | llenar_datos_v2.py:177 | `COALESCE(a, b)` is non-NULL exactly when either argument is, and is `a` when `a` is |
| LastFm.Greatest | llenar_datos_v2.py:182 | `GREATEST(old, new)` is at least both and equals one of them |
| LastFm.WithArtistGenre | llenar_datos_v2.py:162-166 | the artist's genre is used only when the track has no genre and the artist has one |
| LastFm.MergeV2 | llenar_datos_v2.py:170-198 | nothing is written unless the track was found or a genre obtained; then the row is marked, each non-NULL new value replaces the old and a NULL one keeps it, and the duration becomes the larger of the old and the new |
| LastFm.MergeV2Idempotent | llenar_datos_v2.py:170-190 | applying the same lookup twice changes nothing more |
| LastFm.MergeV1 | llenar_datos.py:131-159 | the row always ends processed; an existing genre is never overwritten; other non-NULL new values replace the old ones; the duration becomes the larger of the old and the new; a miss only sets the flag |
| LastFm.MergeV1Idempotent | llenar_datos.py:131-159 | applying the same lookup twice changes nothing more |
| LastFm.MergesAgreeWithoutGenre | llenar_datos.py:138 | on a row without a genre, the two update rules write the same row |
| LastFm.FirstExtraLarge | llenar_datos_v2.py:111-115 | a cover is found exactly when some image is "extralarge", and it is the url of one of them |
| LastFm.FirstExtraLargeIsFirst | llenar_datos_v2.py:111-115 | the cover is the url of the first "extralarge" image |
| LastFm.CoverOriginal | llenar_datos_original.py:51-54 | the first script's choice fails exactly on an empty image list, falls back to the last image, and is always some image's url |
| LastFm.MergeOriginal | llenar_datos_original.py:112-143 | both branches write the clean title and mark the row; a found track overwrites cover, mbid, summary and duration and fills the album only if it was NULL; a miss writes nothing else |
| LastFm.VisitRow | llenar_datos_original.py:102-143 | each visited row is marked and gets `limpiar_nombre` of its file name as title |
| LastFm.Visit | llenar_datos_original.py:102-143 | visiting one row removes exactly that row from the pending set |
| LastFm.Round | llenar_datos_original.py:102-147 | a round removes exactly its selected rows from the pending set, keeping every key |
| LastFm.Drain | llenar_datos_original.py:84-100 | the loop ends with an empty selection, after at most as many rounds as rows were pending, never adding pending rows |
| Migration.OrElse | migrar_aws.py:111-113 | `v if v else d` keeps a truthy value and otherwise gives the default |
| Migration.DropBlank | migrar_aws.py:165 | the filter keeps exactly the keys whose values are neither None nor "", with their values |
| Migration.ParseInt | migrar_aws.py:120 | `int(s)` succeeds exactly for an optionally signed digit run with surrounding whitespace, with its decimal value, negated after "-" and unchanged after "+" |
| Migration.IntOf | migrar_aws.py:120 | `int(v)` truncates a number toward zero, keeping its sign; gives 1 or 0 for a boolean; parses a string; raises on None or a list |
| Migration.IntOfText | migrar_aws.py:120-129 | `int(str(n)) == n` for every integer |
| Migration.OptionalInt | migrar_aws.py:120 | `int(v) if v else None` gives None for a falsy value, and for a truthy one succeeds exactly when `int(v)` does |
| Migration.KeywordText | migrar_aws.py:130 | the space-joined, lower-cased parts contain every part lower-cased; more than one part gives a non-empty string |
| Migration.FoundByWordsOf | migrar_aws.py:130 | an item whose keywords hold a text lower-cased matches every query made of words of that text |
| MigrateAws.Keywords | migrar_aws.py:129-130 | the keyword string is non-empty and contains, lower-cased, the title, artist, album, nationality, real name, year, style and country (each empty when missing) |
| MigrateAws.BuildItem | migrar_aws.py:105-165 | no value of the item is None or ""; building fails exactly when a truthy year, Discogs id or duration is not an integer |
| MigrateAws.TitleAndArtistDefaults | migrar_aws.py:111-112 | title and artist are written, "Desconocido" and "Varios" when missing |
| MigrateAws.GenreAndSummaryDefaults | migrar_aws.py:133-148 | genre defaults to "General" and summary to "Sin descripción disponible." |
| MigrateAws.IdentityDefaults | migrar_aws.py:151-152 | nationality defaults to "No especificada" and the real name to the artist written |
| MigrateAws.Numbers | migrar_aws.py:120-144 | duration is `int(duration)` or 0; a falsy year or Discogs id leaves its key out, and a truthy one is written as its integer |
| MigrateAws.KeywordsHoldTitleAndArtist | migrar_aws.py:129-147 | the item's keywords hold its title and artist lower-cased |
| MigrateAws.FoundByTitleOrArtist | migrar_aws.py:130-147 | any query whose words all occur in the lower-cased title, or all in the artist, finds the item in the endpoint's scan |
| MigrateAws.FoundByKeywordPart | migrar_aws.py:130-147 | any query whose words all occur in one keyword part (album, nationality, real name, year, style, country, title or artist) finds the item |
| MigrateAws.Copies | migrar_aws.py:138-165 | the key is `str(db_id)`; file id and link as read unless blank; album, cover, country, style, label and format copied when truthy and dropped by the blank filter otherwise |
| MigrateVenezuela.Keywords | migrar_aws_modo_venezuela.py:85-86 | the keyword string is non-empty and contains, lower-cased, the title, artist, album, nationality, year and style (each empty when missing) |
| MigrateVenezuela.BuildItem | migrar_aws_modo_venezuela.py:76-112 | no value of the item is None or ""; building fails exactly when a truthy year, Discogs id or duration is not an integer |
| MigrateVenezuela.TagAndDefaults | migrar_aws_modo_venezuela.py:76-102 | every item carries `tipo` "CATALOGO"; title and artist default to "Desconocido" and "Varios Artistas"; the real name defaults to the artist |
| MigrateVenezuela.FoundByTitleOrArtist | migrar_aws_modo_venezuela.py:85-99 | any query whose words all occur in the lower-cased title, or all in the artist, finds the item in the endpoint's scan |
| MigrateVenezuela.FoundByKeywordPart | migrar_aws_modo_venezuela.py:85-99 | any query whose words all occur in one keyword part (album, nationality, year, style, title or artist) finds the item |
| MigrateVenezuela.Copies | migrar_aws_modo_venezuela.py:88-112 | the key is `str(db_id)`; file id and link as read unless blank; album, cover, country, style, label and format copied when truthy and dropped by the blank filter otherwise |
| MigrateVenezuela.Items | migrar_aws_modo_venezuela.py:69-115 | the items put are those of the rows before the first failing one, in order; the run completes exactly when no row fails |
| MigrateVenezuela.ItemsPrefix | migrar_aws_modo_venezuela.py:69-115 | any run that put each row's item in order and stopped at the first failure is the one `Items` describes |
| MigrateVenezuela.Upload | migrar_aws_modo_venezuela.py:65-124 | the loop puts the same items; the batch counter stays below 25; there is one pause per 25 items put |
| MigrateVenezuela.Migrate | migrar_aws_modo_venezuela.py:38-124 | the run completes exactly when every row builds; each item written is its row's item, with no None or "" value; a failure is the first failing row's; pauses are items / 25 |
| MigrateOld.Default | migrar_aws_vieja.py:34-38 | `limpiar_para_dynamo` gives the default exactly for None or "", and the value otherwise |
| MigrateOld.DefaultIdempotent | migrar_aws_vieja.py:34-38 | with a non-blank default, cleaning twice is cleaning once and never leaves a blank |
| MigrateOld.DefaultNullKeepsTruthiness | migrar_aws_vieja.py:73 | cleaning with a None default never changes truthiness |
| MigrateOld.Keywords | migrar_aws_vieja.py:77 | the keyword string is non-empty and contains the lower-cased title, artist and album (empty when missing) |
| MigrateOld.BuildItem | migrar_aws_vieja.py:68-95 | building fails exactly when a truthy duration is not an integer; `album` is present exactly when the row has one, with its value |
| MigrateOld.Defaults | migrar_aws_vieja.py:71-85 | title, artist and genre default to "Desconocido", "Varios" and "General"; duration is `int(dur)` or 0; the item's keywords are the keyword string and hold title, artist and album |
| MigrateOld.FoundByKeywordPart | migrar_aws_vieja.py:77-88 | any query whose words all occur in the title, the artist or the album finds the item |
| MigrateOriginal.Keywords | migrar_aws_original.py:52 | the keyword string is non-empty and contains the lower-cased title, artist and album |
| MigrateOriginal.BuildItem | migrar_aws_original.py:45-67 | the item's keywords hold its title and artist lower-cased |
| MigrateOriginal.Fields | migrar_aws_original.py:47-66 | every item has the same twelve keys; the key is `str(row[0])`; title and artist default to "Desconocido" and "Varios"; the album defaults to "" and mood tags are empty; file id, link, genre and cover are copied even when None; duration defaults to 0 and summary to None; the keywords are the keyword string |
| MigrateOriginal.FoundByKeywordPart | migrar_aws_original.py:52-64 | any query whose words all occur in the title, the artist or the album finds the item |
| MigrateOriginal.FoundByTitleOrArtist | migrar_aws_original.py:52-64 | any query whose words all occur in the lower-cased title, or all in the artist, finds the item in the endpoint's scan |
| Values.Truthy | rokola_web/otros/getSongMetadata/src/lambda_function.py:61 | Python truthiness: None, "", a zero number, False and the empty list are false, everything else true |
| Values.Render | migrar_aws.py:138 | `str(v)`: a string as is, a Decimal in positional notation, "True"/"False", "None", and a list as the bracketed reprs of its elements |
| Store.KeywordsContain | rokola_web/otros/getSongMetadata/src/lambda_function.py:134-136 | DynamoDB's `contains` on `search_keywords`: a substring test on a string, a membership test on a list, false on anything else |
| Store.Matches | rokola_web/otros/getSongMetadata/src/lambda_function.py:134-136 | the scan filter is the conjunction of `contains` over every query word |
| Store.StopPoint | rokola_web/otros/getSongMetadata/src/lambda_function.py:143-156 | the scan stops after `k` pages exactly when every earlier count asked for another page and the `k`-th, if it did not fail, does not |
| Store.ScanFrom | rokola_web/otros/getSongMetadata/src/lambda_function.py:143-156 | continuing the scan from any page count reaches the stop point, with the concatenated filtered pages or the first failure |
| Token.Payload | rokola_web/otros/getSongMetadata/src/lambda_function.py:35-36 | the payload is the id, a bar, and the expiry `now + 900` in decimal |
| Token.Issue | rokola_web/otros/getSongMetadata/src/lambda_function.py:38-46 | a token is the Base64 of the UTF-8 of the XOR-ciphered payload |
| Summary.RemoveAnchorsFrom | llenar_datos_v2.py:31 | removing anchors from a position on never lengthens the rest of the text |
| CoverHunter.RemoveBracketsFrom | cazador_hibrido.py:26 | removing bracketed asides from a position on never lengthens the rest of the text |
| Ascii.TitleFrom | rokola_web/otros/getSongMetadata/src/lambda_function.py:115 | the helper of `title()`: each letter's case depends only on whether the character before it is a letter |
| LastFm.Pending | llenar_datos_original.py:86-92 | the pending set holds exactly the rows not yet marked processed |
| Ascii.QueryWords | rokola_web/otros/funcion_lambda.py:108-129 | the scan words are non-empty and whitespace-free, and there are none exactly when the query is blank |

## Left out

- DynamoDB, Postgres and HTTP: `boto3`, `psycopg2` and `requests` calls are abstracted as functions and page sequences (`Store`, `CoverHunter.Services`, the `lookup` and `select` parameters of `LastFm.Drain`). The SQL engine is not modelled, only the row updates as record merges.
- The clock: `time.time()` becomes the parameter `now`. One instant serves a whole response, where the source reads the clock per item. The `updated_at` stamp of `migrar_aws_vieja.py` is not modelled.
- `time.sleep`, the recursive retry on HTTP 429 in `search_discogs`, console output and progress counters.
- The float branch of the first `DecimalEncoder` (floating point): a non-integral Decimal stays an exact `JFloat`. `json.dumps` text serialisation is not modelled either; bodies are `Json` trees.
- Unicode: `lower`, `upper`, `title`, `strip`, `split`, `\s` and `\d` are modelled over ASCII. Non-ASCII letters are treated as non-letters. UTF-8 itself is modelled in full.
- Decimal text with exponents (`str(Decimal('1E+2'))`) and `int()` of strings with underscores or non-ASCII digits.
- The network parts of `consultar_lastfm`, `obtener_genero_artista`, `search_discogs`, `_request_itunes` and `_request_deezer`, including the iTunes artwork URL rewrite. Their answers are inputs (`Info`, `Found`, `Services`).
- `LIMIT 500`, `LIMIT 50` and the batch size of the selects: `LastFm.Drain` takes any selection of pending rows.
- `batch_writer` buffering in the migrations: items are modelled as written in order, as `put_item` is called.
- `compartir_granular.py`, `get_refresh_token.py`, `debug_index.py`, `debug_artist.py` and `curetajes/enriquecer_artistas.py` are not part of this model.
- Summary.RemoveAnchorsFrom: its contract bounds the output length. Which segments go is stated by `AnchorEnd`, `AnchorEndShortest` and the lemmas about absent openers and characters, not as one characterisation of the whole output.
- CoverHunter.RemoveBracketsFrom: its contract bounds the output length. The segments removed are stated by `BracketEnd` and `NoOpenerKeepsText`.
- Store.Filter: the contract states membership. That the kept items stay in page order is stated only for pages whose items all match (`FilterAllMatch`).
- LastFm.Drain: the pending rows that remain are bounded by the starting ones. That a round visits only the rows the selection returned comes from `Round`.
- Summary.CleanSummary: the result is stated as the stripped form of `RemoveAnchors`, whose own contract is partial (see `Summary.RemoveAnchorsFrom`). The strip step is characterised in full.
- CoverHunter.CleanText: the result is stated in terms of `RemoveBracketsFrom`, whose own contract is partial (see `CoverHunter.RemoveBracketsFrom`). The junk-dropping and strip steps are characterised in full.
- Values.Render: list elements are shown with an approximation of `repr`. A string is always single-quoted and unescaped, and every number shows as `Decimal('…')`. Python double-quotes a string holding `'`, escapes control characters, and shows an `int` element as `5`. No modelled path prints a list: Discogs fields join their elements, and the migrations render scalars.
- MigrateAws.Keywords: the contract states that every keyword part occurs in the string, lower-cased. The single spaces between the parts and their positions are not stated as a contract.
- MigrateVenezuela.Keywords: as for `MigrateAws.Keywords`, containment of every part, not positions.
- MigrateOld.Keywords: as for `MigrateAws.Keywords`, containment of every part, not positions.
- MigrateOriginal.Keywords: as for `MigrateAws.Keywords`, containment of every part, not positions.
- Values.Value has no variants for DynamoDB maps, sets or binary values, so encoding a body never fails in the model. In `lambda_function.py`, `json.dumps` rejects a set or binary value with a TypeError. Inside the shortcut's `try` (lines 114-127) that error would be swallowed and the scan would run. On the `id` path it would give 500.
