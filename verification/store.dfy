/** The catalog table behind the search endpoint, reduced to what the handlers
    observe, and the paginated keyword scan they run over it.

    A paginated read is a non-empty sequence of page results: page `i` either
    arrives with its items or the read raises, and a continuation key follows
    page `i` exactly when `i + 1 < |pages|`. The scan's filter expression is
    evaluated by the model: `pages` hold the items each scan page examines. */
module Store {
  import opened Wrappers
  import opened Ascii
  import opened Values

  type Page = Result<seq<Item>>

  type Pages = ps: seq<Page> | |ps| > 0 witness [Ok([])]

  /** What the handlers can ask of the table. */
  datatype Store = Store(
    getItem: string -> Result<Option<Item>>,      // get_item by primary key
    artistPrefix: string -> Page,                  // ArtistIndex, begins_with, first page only
    artistEquals: string -> Pages,                 // ArtistIndex, equality, every page
    titleEquals: string -> Page,                   // TitleIndex on clean_title, first page only
    scan: Pages)                                   // full-table scan

  const ResultCap: nat := 50

  /** DynamoDB's `contains(search_keywords, w)`: a substring test on a string
      attribute, a membership test on a list attribute, false otherwise. */
  predicate KeywordsContain(v: Value, w: string) {
    match v
    case VStr(s) => Contains(s, w)
    case VList(xs) => VStr(w) in xs
    case _ => false
  }

  /** The conjunctive filter the scan builds from the query words. */
  predicate Matches(item: Item, words: seq<string>) {
    "search_keywords" in item && forall k :: 0 <= k < |words| ==> KeywordsContain(item["search_keywords"], words[k])
  }

  /** The items of one page that pass the filter, in page order. */
  function Filter(raw: seq<Item>, words: seq<string>): (r: seq<Item>)
    ensures |r| <= |raw|
    ensures forall x :: x in r <==> x in raw && Matches(x, words)
  {
    if raw == [] then []
    else
      var rest := Filter(raw[..|raw| - 1], words);
      var last := raw[|raw| - 1];
      assert raw == raw[..|raw| - 1] + [last];
      if Matches(last, words) then rest + [last] else rest
  }

  /** The concatenation of a run of page results, or the first failure. */
  function Gather(ps: seq<Page>): (r: Result<seq<Item>>)
    ensures r.Ok? <==> forall i :: 0 <= i < |ps| ==> ps[i].Ok?
    ensures r.Ok? ==> forall i, x :: 0 <= i < |ps| && x in ps[i].value ==> x in r.value
    ensures r.Ok? ==> forall x :: x in r.value ==> exists i :: 0 <= i < |ps| && InPage(ps, i, x)
    ensures r.Err? ==> exists i :: 0 <= i < |ps| && FirstFailure(ps, i) && r.message == ps[i].message
    ensures r.Ok? ==> InPageOrder(ps, r.value)
  {
    if ps == [] then Ok([])
    else
      var init := ps[..|ps| - 1];
      var last := ps[|ps| - 1];
      var g := Gather(init);
      assert forall i :: 0 <= i < |init| ==> init[i] == ps[i];
      match g
      case Err(m) =>
        assert forall i :: 0 <= i < |init| && FirstFailure(init, i) ==> FirstFailure(ps, i);
        g
      case Ok(d) =>
        match last
        case Err(m) =>
          assert FirstFailure(ps, |ps| - 1);
          Err(m)
        case Ok(x) =>
          assert ps == init + [last];
          LayoutSnoc(init, last, d, x);
          assert forall y :: y in x ==> InPage(ps, |ps| - 1, y);
          assert forall y, i :: 0 <= i < |init| && InPage(init, i, y) ==> InPage(ps, i, y);
          Ok(d + x)
  }

  /** How many items page `p` brings. */
  function Size(p: Page): nat {
    if p.Ok? then |p.value| else 0
  }

  /** Where page `k`'s items start once the pages before it are laid end to
      end. */
  function Offset(ps: seq<Page>, k: nat): nat
    requires k <= |ps|
  {
    if k == 0 then 0 else Offset(ps, k - 1) + Size(ps[k - 1])
  }

  /** `d` holds the items of every page, each page in order and the pages in
      order, each item as often as its page holds it, and nothing else. */
  predicate InPageOrder(ps: seq<Page>, d: seq<Item>) {
    && (forall i :: 0 <= i < |ps| ==> ps[i].Ok?)
    && |d| == Offset(ps, |ps|)
    && forall i, j :: 0 <= i < |ps| && 0 <= j < Size(ps[i]) ==> PlacedAt(ps, d, i, j)
  }

  /** Item `j` of page `i` sits at position `Offset(ps, i) + j` of `d`. */
  predicate PlacedAt(ps: seq<Page>, d: seq<Item>, i: int, j: int) {
    && 0 <= i < |ps| && ps[i].Ok? && 0 <= j < |ps[i].value|
    && Offset(ps, i) + j < |d| && d[Offset(ps, i) + j] == ps[i].value[j]
  }

  lemma OffsetSnoc(ps: seq<Page>, p: Page)
    ensures forall k :: 0 <= k <= |ps| ==> Offset(ps + [p], k) == Offset(ps, k)
  {
    forall k | 0 <= k <= |ps|
      ensures Offset(ps + [p], k) == Offset(ps, k)
    {
      OffsetSnocAt(ps, p, k);
    }
  }

  lemma {:induction false} OffsetSnocAt(ps: seq<Page>, p: Page, k: nat)
    requires k <= |ps|
    ensures Offset(ps + [p], k) == Offset(ps, k)
  {
    if k > 0 {
      OffsetSnocAt(ps, p, k - 1);
      assert (ps + [p])[k - 1] == ps[k - 1];
    }
  }

  /** Appending a page's items after those of the pages before it keeps the
      layout. */
  lemma LayoutSnoc(init: seq<Page>, last: Page, d: seq<Item>, x: seq<Item>)
    requires InPageOrder(init, d) && last == Ok(x)
    ensures InPageOrder(init + [last], d + x)
  {
    var ps := init + [last];
    OffsetSnoc(init, last);
    assert Offset(ps, |ps|) == Offset(init, |init|) + |x|;
    forall i, j | 0 <= i < |ps| && 0 <= j < Size(ps[i])
      ensures PlacedAt(ps, d + x, i, j)
    {
      if i < |init| {
        assert ps[i] == init[i] && PlacedAt(init, d, i, j);
      } else {
        assert Offset(ps, i) == |d|;
      }
    }
  }

  /** Every position below the last offset belongs to exactly one page slot. */
  lemma {:induction false} SlotOf(ps: seq<Page>, n: nat) returns (i: nat, j: nat)
    requires n < Offset(ps, |ps|)
    ensures i < |ps| && j < Size(ps[i]) && Offset(ps, i) + j == n
    decreases |ps|
  {
    var init, last := ps[..|ps| - 1], ps[|ps| - 1];
    assert ps == init + [last];
    OffsetSnoc(init, last);
    if n < Offset(init, |init|) {
      i, j := SlotOf(init, n);
      assert ps[i] == init[i];
    } else {
      i, j := |ps| - 1, n - Offset(ps, |ps| - 1);
    }
  }

  /** The layout determines the gathered items. */
  lemma InPageOrderUnique(ps: seq<Page>, d1: seq<Item>, d2: seq<Item>)
    requires InPageOrder(ps, d1) && InPageOrder(ps, d2)
    ensures d1 == d2
  {
    forall n | 0 <= n < |d1|
      ensures d1[n] == d2[n]
    {
      var i, j := SlotOf(ps, n);
      assert PlacedAt(ps, d1, i, j) && PlacedAt(ps, d2, i, j);
    }
  }

  predicate InPage(ps: seq<Page>, i: int, x: Item) {
    0 <= i < |ps| && ps[i].Ok? && x in ps[i].value
  }

  /** Page `i` is the first one whose read raised. */
  predicate FirstFailure(ps: seq<Page>, i: int) {
    0 <= i < |ps| && ps[i].Err? && forall j :: 0 <= j < i ==> ps[j].Ok?
  }

  lemma GatherSnoc(ps: seq<Page>, p: Page)
    ensures Gather(ps + [p]) == match Gather(ps)
                               case Err(m) => Err(m)
                               case Ok(d) => (match p case Err(m) => Err(m) case Ok(x) => Ok(d + x))
  {
    assert (ps + [p])[..|ps|] == ps;
  }

  /** What the artist-prefix shortcut of both search endpoints contributes:
      its first page, with a raised query counting as no hits. */
  function ShortcutHits(store: Store, guess: string): (hits: seq<Item>)
    ensures store.artistPrefix(guess).Err? ==> hits == []
    ensures store.artistPrefix(guess).Ok? ==> hits == store.artistPrefix(guess).value
  {
    var page := store.artistPrefix(guess);
    if page.Ok? then page.value else []
  }

  /** A scan page as the caller sees it: its filtered items. */
  function FilterPage(p: Page, words: seq<string>): (r: Page)
    ensures r.Ok? <==> p.Ok?
    ensures p.Err? ==> r == p
    ensures p.Ok? ==> r.value == Filter(p.value, words)
  {
    match p
    case Err(m) => Err(m)
    case Ok(raw) => Ok(Filter(raw, words))
  }

  /** What the first `k` scan pages yield once filtered. */
  function Prefix(pages: Pages, words: seq<string>, k: nat): Result<seq<Item>>
    requires k <= |pages|
  {
    Gather(seq(k, i requires 0 <= i < k => FilterPage(pages[i], words)))
  }

  lemma PrefixZero(pages: Pages, words: seq<string>)
    ensures Prefix(pages, words, 0) == Ok([])
  {
  }

  lemma PrefixStep(pages: Pages, words: seq<string>, k: nat)
    requires k < |pages|
    ensures Prefix(pages, words, k).Err? ==> Prefix(pages, words, k + 1) == Prefix(pages, words, k)
    ensures Prefix(pages, words, k).Ok? && pages[k].Err? ==> Prefix(pages, words, k + 1) == pages[k]
    ensures Prefix(pages, words, k).Ok? && pages[k].Ok? ==>
              Prefix(pages, words, k + 1) == Ok(Prefix(pages, words, k).value + Filter(pages[k].value, words))
  {
    var a := seq(k, i requires 0 <= i < k => FilterPage(pages[i], words));
    var b := seq(k + 1, i requires 0 <= i < k + 1 => FilterPage(pages[i], words));
    assert b == a + [FilterPage(pages[k], words)];
    GatherSnoc(a, FilterPage(pages[k], words));
  }

  /** After `j` pages the loop asks for another: a continuation exists, fewer
      than 50 matches are held and at most `limit` pages have been read. */
  predicate Continues(pages: Pages, words: seq<string>, limit: nat, j: nat) {
    j < |pages| && Prefix(pages, words, j).Ok? && |Prefix(pages, words, j).value| < ResultCap && j <= limit
  }

  /** Every page count before `read` asked for another page. */
  predicate ContinuedBefore(pages: Pages, words: seq<string>, limit: nat, read: nat) {
    forall j :: 1 <= j < read ==> Continues(pages, words, limit, j)
  }

  /** The scan stops after reading exactly `k` pages: every earlier count
      asked for another page, and `k` either failed or does not. */
  predicate StopPoint(pages: Pages, words: seq<string>, limit: nat, k: nat) {
    1 <= k <= |pages|
    && (forall j :: 1 <= j < k ==> Continues(pages, words, limit, j))
    && (Prefix(pages, words, k).Ok? ==> !Continues(pages, words, limit, k))
  }

  lemma StopPointUnique(pages: Pages, words: seq<string>, limit: nat, k1: nat, k2: nat)
    requires StopPoint(pages, words, limit, k1) && StopPoint(pages, words, limit, k2)
    ensures k1 == k2
  {
    if k1 < k2 {
      EarlierContinues(pages, words, limit, k2, k1);
    } else if k2 < k1 {
      EarlierContinues(pages, words, limit, k1, k2);
    }
  }

  lemma EarlierContinues(pages: Pages, words: seq<string>, limit: nat, k: nat, j: nat)
    requires StopPoint(pages, words, limit, k) && 1 <= j < k
    ensures Continues(pages, words, limit, j) && Prefix(pages, words, j).Ok?
  {
  }

  function ScanFrom(pages: Pages, words: seq<string>, limit: nat, read: nat, data: seq<Item>): (r: (Result<seq<Item>>, nat))
    requires 1 <= read <= |pages|
    requires Prefix(pages, words, read) == Ok(data)
    requires ContinuedBefore(pages, words, limit, read)
    ensures StopPoint(pages, words, limit, r.1) && r.0 == Prefix(pages, words, r.1)
    decreases |pages| - read
  {
    if read == |pages| || |data| >= ResultCap || read > limit then (Ok(data), read)
    else
      ScanStep(pages, words, limit, read, data);
      if pages[read].Err? then (Err(pages[read].message), read + 1)
      else ScanFrom(pages, words, limit, read + 1, data + Filter(pages[read].value, words))
  }

  /** The keyword scan as coded: the first page is always read; a further page
      is read only while a continuation exists, fewer than 50 matches are held
      and no more than `limit` pages have been read. Pages are never cut short,
      so the result may hold more than 50 items. Returns the result and the
      number of pages read. */
  function ScanRun(pages: Pages, words: seq<string>, limit: nat): (r: (Result<seq<Item>>, nat))
    ensures StopPoint(pages, words, limit, r.1) && r.0 == Prefix(pages, words, r.1)
    ensures 1 <= r.1 <= limit + 1
  {
    PrefixZero(pages, words);
    PrefixStep(pages, words, 0);
    assert pages[0].Ok? ==> [] + Filter(pages[0].value, words) == Filter(pages[0].value, words);
    var r := if pages[0].Err? then (Err(pages[0].message), 1)
             else ScanFrom(pages, words, limit, 1, Filter(pages[0].value, words));
    assert r.1 >= 2 ==> Continues(pages, words, limit, r.1 - 1);
    r
  }

  function Scan(pages: Pages, words: seq<string>, limit: nat): Result<seq<Item>> {
    ScanRun(pages, words, limit).0
  }

  /** One round of the loop: reading page `read` keeps the loop invariant. */
  lemma ScanStep(pages: Pages, words: seq<string>, limit: nat, read: nat, data: seq<Item>)
    requires 1 <= read < |pages| && read <= limit && |data| < ResultCap
    requires Prefix(pages, words, read) == Ok(data) && ContinuedBefore(pages, words, limit, read)
    ensures ContinuedBefore(pages, words, limit, read + 1)
    ensures pages[read].Err? ==> StopPoint(pages, words, limit, read + 1) && Prefix(pages, words, read + 1) == pages[read]
    ensures pages[read].Ok? ==> Prefix(pages, words, read + 1) == Ok(data + Filter(pages[read].value, words))
  {
    PrefixStep(pages, words, read);
    assert Continues(pages, words, limit, read);
  }

  /** The scan loop written as the handlers write it. */
  method BoundedScan(pages: Pages, words: seq<string>, limit: nat) returns (res: Result<seq<Item>>, read: nat)
    ensures StopPoint(pages, words, limit, read) && res == Prefix(pages, words, read)
    ensures read <= limit + 1
  {
    PrefixZero(pages, words);
    PrefixStep(pages, words, 0);
    if pages[0].Err? {
      return Err(pages[0].message), 1;
    }
    var data := Filter(pages[0].value, words);
    assert [] + data == data;
    read := 1;
    while read < |pages|
      invariant 1 <= read <= |pages|
      invariant Prefix(pages, words, read) == Ok(data)
      invariant ContinuedBefore(pages, words, limit, read)
      decreases |pages| - read
    {
      if |data| >= ResultCap {
        break;
      }
      if read > limit {
        break;
      }
      ScanStep(pages, words, limit, read, data);
      var page := pages[read];
      if page.Err? {
        return Err(page.message), read + 1;
      }
      data := data + Filter(page.value, words);
      read := read + 1;
    }
    StopsAt(pages, words, limit, read, data);
    res := Ok(data);
  }

  /** A loop that leaves with the invariant and no reason to go on has
      stopped where the scan stops. */
  lemma StopsAt(pages: Pages, words: seq<string>, limit: nat, read: nat, data: seq<Item>)
    requires 1 <= read <= |pages|
    requires Prefix(pages, words, read) == Ok(data) && ContinuedBefore(pages, words, limit, read)
    requires read == |pages| || |data| >= ResultCap || read > limit
    ensures StopPoint(pages, words, limit, read)
    ensures read <= limit + 1
  {
    assert read >= 2 ==> Continues(pages, words, limit, read - 1);
  }

  /** Everything the scan returns passed the filter on some page it read. */
  lemma ScanSound(pages: Pages, words: seq<string>, limit: nat)
    ensures Scan(pages, words, limit).Ok? ==>
              forall x :: x in Scan(pages, words, limit).value ==>
                Matches(x, words) && exists i :: 0 <= i < ScanRun(pages, words, limit).1 && InPage(pages, i, x)
  {
    var r := ScanRun(pages, words, limit);
    var k := r.1;
    var fs := seq(k, i requires 0 <= i < k => FilterPage(pages[i], words));
    if r.0.Ok? {
      forall x | x in r.0.value
        ensures Matches(x, words) && exists i :: 0 <= i < k && InPage(pages, i, x)
      {
        var i :| 0 <= i < |fs| && InPage(fs, i, x);
        assert InPage(pages, i, x);
      }
    }
  }

  /** A scan that ends with fewer than 50 matches over a table of at most
      `limit + 1` pages has read every page and missed no match. */
  lemma ScanExhaustive(pages: Pages, words: seq<string>, limit: nat)
    requires |pages| <= limit + 1
    ensures Scan(pages, words, limit).Ok? && |Scan(pages, words, limit).value| < ResultCap ==>
              ScanRun(pages, words, limit).1 == |pages|
              && forall i, x :: 0 <= i < |pages| && InPage(pages, i, x) && Matches(x, words) ==> x in Scan(pages, words, limit).value
  {
    var r := ScanRun(pages, words, limit);
    var k := r.1;
    if r.0.Ok? && |r.0.value| < ResultCap {
      assert !Continues(pages, words, limit, k);
      assert k == |pages|;
      var fs := seq(k, i requires 0 <= i < k => FilterPage(pages[i], words));
      forall i, x | 0 <= i < |pages| && InPage(pages, i, x) && Matches(x, words)
        ensures x in r.0.value
      {
        assert fs[i].Ok? && x in fs[i].value;
      }
    }
  }

  function Matching(n: nat): seq<Item>
    ensures |Matching(n)| == n
    ensures forall x :: x in Matching(n) ==> Matches(x, ["a"])
  {
    var m: Item := map["search_keywords" := VStr("a")];
    assert OccursAt("a", "a", 0);
    seq(n, i => m)
  }

  /** The cap is checked before a fetch, never applied to the result: a first
      page with 49 matches and a second with 10 give 59 results. */
  lemma ScanCanExceedCap()
    ensures |Scan([Ok(Matching(49)), Ok(Matching(10))], ["a"], 5).value| == 59
  {
    var pages: Pages := [Ok(Matching(49)), Ok(Matching(10))];
    var fs := Matching(49);
    assert Filter(Matching(49), ["a"]) == Matching(49) by { FilterAllMatch(Matching(49), ["a"]); }
    assert Filter(Matching(10), ["a"]) == Matching(10) by { FilterAllMatch(Matching(10), ["a"]); }
    PrefixStep(pages, ["a"], 0);
    PrefixStep(pages, ["a"], 1);
    assert Continues(pages, ["a"], 5, 1);
    var r := ScanRun(pages, ["a"], 5);
    StopPointUnique(pages, ["a"], 5, r.1, 2);
  }

  lemma {:induction false} FilterAllMatch(raw: seq<Item>, words: seq<string>)
    requires forall x :: x in raw ==> Matches(x, words)
    ensures Filter(raw, words) == raw
  {
    if raw != [] {
      FilterAllMatch(raw[..|raw| - 1], words);
      assert raw == raw[..|raw| - 1] + [raw[|raw| - 1]];
    }
  }
}
