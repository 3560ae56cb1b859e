/** The hybrid cover hunter: cleaning a title or artist name, and the fixed
    order in which the iTunes and Deezer searches are tried.

    The two searches are network calls; here each is an oracle from a search
    term to the cover URL it found, or `None`. An empty URL counts as a miss,
    as it does for the script's `if url:`. */
module CoverHunter {
  import opened Wrappers
  import opened Ascii

  predicate IsOpener(c: char) { c == '(' || c == '[' || c == '{' }
  predicate IsCloser(c: char) { c == ')' || c == ']' || c == '}' }

  /** The first position from `i` holding a closer or a newline, or `|s|`. */
  function CloserAt(s: string, i: nat): (j: nat)
    requires i <= |s|
    ensures i <= j <= |s|
    ensures forall k :: i <= k < j ==> !IsCloser(s[k]) && s[k] != '\n'
    ensures j < |s| ==> IsCloser(s[j]) || s[j] == '\n'
    decreases |s| - i
  {
    if i < |s| && !IsCloser(s[i]) && s[i] != '\n' then CloserAt(s, i + 1) else i
  }

  /** Where `[\(\[\{].*?[\)\]\}]` matches from `p`, if it does: at an opener,
      through the nearest closer of any kind on the same line. */
  function BracketEnd(s: string, p: nat): (r: Option<nat>)
    requires p < |s|
    ensures r.Some? ==> IsOpener(s[p]) && p < r.value <= |s| && IsCloser(s[r.value - 1])
    ensures r.Some? ==> forall k :: p < k < r.value - 1 ==> !IsCloser(s[k]) && s[k] != '\n'
    ensures r.None? <==> !IsOpener(s[p]) || CloserAt(s, p + 1) == |s| || s[CloserAt(s, p + 1)] == '\n'
  {
    if !IsOpener(s[p]) then None
    else
      var j := CloserAt(s, p + 1);
      if j == |s| || s[j] == '\n' then None else Some(j + 1)
  }

  /** `re.sub(r'[\(\[\{].*?[\)\]\}]', '', s[i..])`, scanning from `i`. */
  function RemoveBracketsFrom(s: string, i: nat): (r: string)
    requires i <= |s|
    ensures |r| <= |s| - i
    decreases |s| - i
  {
    if i == |s| then []
    else
      var b := BracketEnd(s, i);
      if b.Some? then RemoveBracketsFrom(s, b.value)
      else [s[i]] + RemoveBracketsFrom(s, i + 1)
  }

  /** Text with no opener from `i` on comes through unchanged. */
  lemma {:induction false} NoOpenerKeepsText(s: string, i: nat)
    requires i <= |s|
    requires forall k :: i <= k < |s| ==> !IsOpener(s[k])
    ensures RemoveBracketsFrom(s, i) == s[i..]
    decreases |s| - i
  {
    if i < |s| {
      NoOpenerKeepsText(s, i + 1);
      assert s[i..] == [s[i]] + s[i + 1..];
    }
  }

  /** The first position from `i` holding an ASCII letter or digit, or `|s|`. */
  function AlnumAt(s: string, i: nat): (j: nat)
    requires i <= |s|
    ensures i <= j <= |s|
    ensures forall k :: i <= k < j ==> !IsAlnum(s[k])
    ensures j < |s| ==> IsAlnum(s[j])
    decreases |s| - i
  {
    if i < |s| && !IsAlnum(s[i]) then AlnumAt(s, i + 1) else i
  }

  /** `s[..c]` is what `^[^a-zA-Z0-9]+` removes: every character before the
      first ASCII letter or digit, or all of `s` when it has none. */
  predicate JunkCut(s: string, c: int) {
    && 0 <= c <= |s|
    && (forall k :: 0 <= k < c ==> !IsAlnum(s[k]))
    && (c == |s| || IsAlnum(s[c]))
  }

  /** `re.sub(r'^[^a-zA-Z0-9]+', '', s)` */
  function DropLeadingJunk(s: string): (r: string)
    ensures |r| <= |s| && r == s[|s| - |r|..]
    ensures JunkCut(s, |s| - |r|)
    ensures r == [] || IsAlnum(r[0])
  {
    s[AlnumAt(s, 0)..]
  }

  /** Only one cut fits `JunkCut`. */
  lemma JunkCutUnique(s: string, c: int)
    requires JunkCut(s, c)
    ensures s[c..] == DropLeadingJunk(s)
  {
    var c' := AlnumAt(s, 0);
    assert c < |s| ==> IsAlnum(s[c]);
    assert c' < |s| ==> IsAlnum(s[c']);
    assert c == c';
  }

  /** Stripping a string that opens with a letter or digit keeps that
      character in front. */
  lemma StripKeepsAlnumStart(v: string)
    requires v != [] && IsAlnum(v[0])
    ensures Strip(v) != [] && Strip(v)[0] == v[0]
  {
    assert SpacesEnd(v, 0) == 0;
    assert !AllSpace(v);
  }

  /** `r` is `u` with its leading junk cut off and then stripped. */
  ghost predicate JunkDroppedAndStripped(u: string, r: string) {
    exists c, i :: JunkCut(u, c) && StrippedAt(u[c..], r, i)
  }

  /** The last two steps of `limpiar_texto`: leading punctuation dropped,
      whitespace stripped. */
  function DropJunkAndStrip(u: string): (r: string)
    ensures JunkDroppedAndStripped(u, r)
    ensures r == [] || IsAlnum(r[0])
    ensures Trimmed(r)
    ensures |r| <= |u|
  {
    var v := DropLeadingJunk(u);
    var c := |u| - |v|;
    if v == [] then
      assert JunkCut(u, c) && StrippedAt(u[c..], [], 0);
      []
    else
      StripKeepsAlnumStart(v);
      var r := Strip(v);
      assert JunkCut(u, c) && StrippedAt(u[c..], r, SpacesEnd(v, 0));
      r
  }

  /** `limpiar_texto`: bracketed asides removed, leading punctuation dropped,
      whitespace stripped. `None` and the empty string both give "". */
  function CleanText(text: string): (r: string)
    ensures text == "" ==> r == ""
    ensures text != "" ==> JunkDroppedAndStripped(RemoveBracketsFrom(text, 0), r)
    ensures r == [] || IsAlnum(r[0])
    ensures Trimmed(r)
    ensures |r| <= |text|
  {
    if text == "" then "" else DropJunkAndStrip(RemoveBracketsFrom(text, 0))
  }

  /** The cleaned text is the only trimmed one the last two steps allow
      after the brackets are gone. */
  lemma CleanTextUnique(text: string, c: int, r: string, i: int)
    requires text != ""
    requires JunkCut(RemoveBracketsFrom(text, 0), c)
    requires StrippedAt(RemoveBracketsFrom(text, 0)[c..], r, i) && Trimmed(r)
    ensures r == CleanText(text)
  {
    var u := RemoveBracketsFrom(text, 0);
    JunkCutUnique(u, c);
    StripUnique(u[c..], r, i);
  }

  /** A name without brackets that already starts with a letter or digit and
      has no surrounding whitespace is left as it is. */
  lemma CleanTextKeepsCleanName(text: string)
    requires text != [] && IsAlnum(text[0]) && Trimmed(text)
    requires forall k :: 0 <= k < |text| ==> !IsOpener(text[k])
    ensures CleanText(text) == text
  {
    NoOpenerKeepsText(text, 0);
    assert AlnumAt(text, 0) == 0;
    assert SpacesEnd(text, 0) == 0;
    assert SpacesStart(text, |text|) == |text|;
  }

  lemma CleanTextExample()
    ensures CleanText("A (x)") == "A"
  {
    var s := "A (x)";
    assert CloserAt(s, 4) == 4;
    assert CloserAt(s, 3) == 4;
    assert BracketEnd(s, 2) == Some(5);
    assert RemoveBracketsFrom(s, 5) == [];
    assert BracketEnd(s, 1) == None;
    assert RemoveBracketsFrom(s, 1) == " ";
    assert RemoveBracketsFrom(s, 0) == "A ";
    assert AlnumAt("A ", 0) == 0;
    assert SpacesEnd("A ", 0) == 0;
    assert SpacesStart("A ", 1) == 1;
    assert SpacesStart("A ", 2) == 1;
  }

  datatype Service = ITunes | Deezer

  /** One search of the plan: which service, with what term, and the name
      reported with the URL when it hits. */
  datatype Lookup = Lookup(service: Service, term: string, name: string)

  /** The two services' searches. */
  datatype Services = Services(itunes: string -> Option<string>, deezer: string -> Option<string>)

  /** A search hits when it returns a non-empty URL. */
  function Ask(svc: Services, service: Service, term: string): (r: Option<string>)
    ensures r.Some? ==> r.value != ""
  {
    var url := if service == ITunes then svc.itunes(term) else svc.deezer(term);
    if url.Some? && url.value != "" then url else None
  }

  /** `buscar_inteligente(artist, title)` as the script writes it: URL and
      label of the first search that hits, or `(None, None)`. */
  function SmartSearch(svc: Services, artist: string, title: string): (r: (Option<string>, Option<string>))
    ensures r.0.None? <==> r.1.None?
  {
    var artistClean := CleanText(artist);
    var titleClean := CleanText(title);
    var u1 := Ask(svc, ITunes, artist + " " + title);
    if u1.Some? then (u1, Some("iTunes Normal"))
    else
      var u2 := Ask(svc, Deezer, artist + " " + title);
      if u2.Some? then (u2, Some("Deezer Normal"))
      else
        var u34 :=
          if artist != artistClean || title != titleClean then
            var u3 := Ask(svc, ITunes, artistClean + " " + titleClean);
            if u3.Some? then (u3, Some("iTunes Limpio"))
            else
              var u4 := Ask(svc, Deezer, artistClean + " " + titleClean);
              if u4.Some? then (u4, Some("Deezer Limpio")) else (None, None)
          else (None, None);
        if u34.0.Some? then u34
        else if |titleClean| > 3 then
          var u5 := Ask(svc, ITunes, titleClean);
          if u5.Some? then (u5, Some("iTunes Título"))
          else
            var u6 := Ask(svc, Deezer, titleClean);
            if u6.Some? then (u6, Some("Deezer Título")) else (None, None)
        else (None, None)
  }

  /** Two searches of one term pair, iTunes first. */
  function Pair(term: string, itunesName: string, deezerName: string): seq<Lookup> {
    [Lookup(ITunes, term, itunesName), Lookup(Deezer, term, deezerName)]
  }

  /** The searches of the plan for a raw pair and its cleaned pair `a`, `t`. */
  function PlanFor(artist: string, title: string, a: string, t: string): (p: seq<Lookup>)
    ensures 2 <= |p| <= 6
    ensures p[..2] == Pair(artist + " " + title, "iTunes Normal", "Deezer Normal")
    ensures |p| == 2 + (if artist != a || title != t then 2 else 0) + (if |t| > 3 then 2 else 0)
    ensures artist != a || title != t ==> p[2..4] == Pair(a + " " + t, "iTunes Limpio", "Deezer Limpio")
    ensures |t| > 3 ==> p[|p| - 2..] == Pair(t, "iTunes Título", "Deezer Título")
  {
    var raw := Pair(artist + " " + title, "iTunes Normal", "Deezer Normal");
    var cleaned := if artist != a || title != t then Pair(a + " " + t, "iTunes Limpio", "Deezer Limpio") else [];
    var alone := if |t| > 3 then Pair(t, "iTunes Título", "Deezer Título") else [];
    var p := raw + cleaned + alone;
    assert p[..2] == raw;
    assert cleaned != [] ==> p[2..4] == cleaned;
    assert p[|p| - |alone|..] == alone;
    p
  }

  /** The searches `buscar_inteligente` may make, in order: the raw pair on
      both services, the cleaned pair when cleaning changed anything, and the
      cleaned title alone when it is longer than three characters. */
  function Plan(artist: string, title: string): (p: seq<Lookup>)
    ensures 2 <= |p| <= 6
    ensures p[..2] == Pair(artist + " " + title, "iTunes Normal", "Deezer Normal")
    ensures var changed := artist != CleanText(artist) || title != CleanText(title);
      |p| == 2 + (if changed then 2 else 0) + (if |CleanText(title)| > 3 then 2 else 0)
    ensures artist != CleanText(artist) || title != CleanText(title) ==>
      p[2..4] == Pair(CleanText(artist) + " " + CleanText(title), "iTunes Limpio", "Deezer Limpio")
    ensures |CleanText(title)| > 3 ==> p[|p| - 2..] == Pair(CleanText(title), "iTunes Título", "Deezer Título")
  {
    PlanFor(artist, title, CleanText(artist), CleanText(title))
  }

  /** The URL and name of the first lookup in `plan` that hits. */
  function FirstHit(svc: Services, plan: seq<Lookup>): (r: (Option<string>, Option<string>))
    ensures r.0.None? <==> r.1.None?
  {
    if plan == [] then (None, None)
    else
      var u := Ask(svc, plan[0].service, plan[0].term);
      if u.Some? then (u, Some(plan[0].name)) else FirstHit(svc, plan[1..])
  }

  /** The first hit of two plans run back to back. */
  lemma {:induction false} FirstHitAppend(svc: Services, a: seq<Lookup>, b: seq<Lookup>)
    ensures FirstHit(svc, a + b) == if FirstHit(svc, a).0.Some? then FirstHit(svc, a) else FirstHit(svc, b)
  {
    if a == [] {
      assert a + b == b;
    } else {
      assert (a + b)[0] == a[0];
      assert (a + b)[1..] == a[1..] + b;
      FirstHitAppend(svc, a[1..], b);
    }
  }

  lemma FirstHitPair(svc: Services, term: string, n1: string, n2: string)
    ensures FirstHit(svc, Pair(term, n1, n2)) ==
      var u1 := Ask(svc, ITunes, term);
      if u1.Some? then (u1, Some(n1))
      else
        var u2 := Ask(svc, Deezer, term);
        if u2.Some? then (u2, Some(n2)) else (None, None)
  {
    var p := Pair(term, n1, n2);
    assert p[0] == Lookup(ITunes, term, n1);
    assert p[1..] == [Lookup(Deezer, term, n2)];
    assert p[1..][1..] == [];
    assert FirstHit(svc, p[1..][1..]) == (None, None);
  }

  /** The script's nested tests are exactly "the first hit of the plan". */
  lemma SmartSearchFollowsPlan(svc: Services, artist: string, title: string)
    ensures SmartSearch(svc, artist, title) == FirstHit(svc, Plan(artist, title))
  {
    var a, t := CleanText(artist), CleanText(title);
    var raw := Pair(artist + " " + title, "iTunes Normal", "Deezer Normal");
    var cleaned := if artist != a || title != t then Pair(a + " " + t, "iTunes Limpio", "Deezer Limpio") else [];
    var alone := if |t| > 3 then Pair(t, "iTunes Título", "Deezer Título") else [];
    assert Plan(artist, title) == raw + cleaned + alone;
    FirstHitAppend(svc, raw + cleaned, alone);
    FirstHitAppend(svc, raw, cleaned);
    FirstHitPair(svc, artist + " " + title, "iTunes Normal", "Deezer Normal");
    if artist != a || title != t {
      FirstHitPair(svc, a + " " + t, "iTunes Limpio", "Deezer Limpio");
    }
    if |t| > 3 {
      FirstHitPair(svc, t, "iTunes Título", "Deezer Título");
    }
  }

  /** A hit is the first lookup that hits; a full miss is `(None, None)`. */
  lemma {:induction false} FirstHitIsFirst(svc: Services, plan: seq<Lookup>, i: nat)
    requires i < |plan|
    requires forall j :: 0 <= j < i ==> Ask(svc, plan[j].service, plan[j].term).None?
    requires Ask(svc, plan[i].service, plan[i].term).Some?
    ensures FirstHit(svc, plan) == (Ask(svc, plan[i].service, plan[i].term), Some(plan[i].name))
  {
    if i > 0 {
      FirstHitIsFirst(svc, plan[1..], i - 1);
    }
  }

  lemma {:induction false} FirstHitMiss(svc: Services, plan: seq<Lookup>)
    requires forall j :: 0 <= j < |plan| ==> Ask(svc, plan[j].service, plan[j].term).None?
    ensures FirstHit(svc, plan) == (None, None)
  {
    if plan != [] {
      FirstHitMiss(svc, plan[1..]);
    }
  }
}
