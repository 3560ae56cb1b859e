/** `limpiar_nombre`: turning an audio file name into a song title.

    The three Last.fm enrichment scripts share one definition: drop a
    trailing extension (`\.[a-zA-Z0-9]{3,4}$`), drop a leading track number
    (`^\d+\s*[-_.]?\s*`), turn underscores into spaces and strip. The Discogs
    miner has its own: drop a trailing `.mp3` in any case, drop
    `^\d+[\s.-]*`, strip.

    In Python's `re`, `$` matches at the very end and just before a final
    newline; since an extension can never end in a newline, the only place a
    trailing pattern here can end is `End(s)`. */
module FileNames {
  import opened Wrappers
  import opened Ascii

  /** Where a trailing pattern must end for `$` to match after it. */
  function End(s: string): (e: nat)
    ensures e <= |s|
    ensures e == |s| || (e == |s| - 1 && s[e] == '\n')
  {
    if |s| > 0 && s[|s| - 1] == '\n' then |s| - 1 else |s|
  }

  /** `s[p..e]` is `.` followed by three or four ASCII letters or digits. */
  predicate ExtensionAt(s: string, p: int, e: nat) {
    e <= |s| && 0 <= p && (p == e - 4 || p == e - 5) && s[p] == '.' && AllAlnum(s[p + 1..e])
  }

  /** `re.sub(r'\.[a-zA-Z0-9]{3,4}$', '', s)`: the leftmost window is tried
      first, so a four-character extension wins over its three-character
      tail. */
  function RemoveExtension(s: string): (r: string)
    ensures ExtensionAt(s, End(s) - 5, End(s)) ==> r == s[..End(s) - 5] + s[End(s)..]
    ensures !ExtensionAt(s, End(s) - 5, End(s)) && ExtensionAt(s, End(s) - 4, End(s)) ==> r == s[..End(s) - 4] + s[End(s)..]
    ensures !ExtensionAt(s, End(s) - 5, End(s)) && !ExtensionAt(s, End(s) - 4, End(s)) ==> r == s
    ensures |r| <= |s|
  {
    var e := End(s);
    if ExtensionAt(s, e - 5, e) then s[..e - 5] + s[e..]
    else if ExtensionAt(s, e - 4, e) then s[..e - 4] + s[e..]
    else s
  }

  /** The end of the run of digits that starts at `i`. */
  function DigitsEnd(s: string, i: nat): (j: nat)
    requires i <= |s|
    ensures i <= j <= |s|
    ensures forall k :: i <= k < j ==> IsDigit(s[k])
    ensures j == |s| || !IsDigit(s[j])
    decreases |s| - i
  {
    if i < |s| && IsDigit(s[i]) then DigitsEnd(s, i + 1) else i
  }

  predicate IsTrackSeparator(c: char) { c == '-' || c == '_' || c == '.' }

  /** `s[..n]` is what `^\d+\s*[-_.]?\s*` matches, cut at its parts: the
      digits end at `d`, the whitespace after them at `a`, the optional
      separator at `b`. Every quantifier is greedy and nothing after it can
      fail, so each part is as long as it can be. */
  predicate TrackNumberParts(s: string, d: int, a: int, b: int, n: int) {
    && 0 < d <= a <= b <= n <= |s|
    && (forall k :: 0 <= k < d ==> IsDigit(s[k])) && (d == |s| || !IsDigit(s[d]))
    && (forall k :: d <= k < a ==> IsSpace(s[k])) && (a == |s| || !IsSpace(s[a]))
    && (if a < |s| && IsTrackSeparator(s[a]) then b == a + 1 else b == a)
    && (forall k :: b <= k < n ==> IsSpace(s[k])) && (n == |s| || !IsSpace(s[n]))
  }

  /** `re.sub(r'^\d+\s*[-_.]?\s*', '', s)` removes `s[..n]`: nothing when
      `s` does not open with a digit, the whole match otherwise. */
  ghost predicate TrackNumberCut(s: string, n: int) {
    if s == [] || !IsDigit(s[0]) then n == 0
    else exists d, a, b :: TrackNumberParts(s, d, a, b, n)
  }

  /** How much of `s` the pattern `^\d+\s*[-_.]?\s*` consumes: a leading
      number, the whitespace after it, at most one separator, and the
      whitespace after that; nothing when `s` does not open with a digit. */
  function TrackNumberLength(s: string): (n: nat)
    ensures n <= |s|
    ensures TrackNumberCut(s, n)
    ensures n == 0 <==> s == [] || !IsDigit(s[0])
    ensures forall k :: 0 <= k < n ==> IsDigit(s[k]) || IsSpace(s[k]) || IsTrackSeparator(s[k])
  {
    if s == [] || !IsDigit(s[0]) then 0
    else
      var d := DigitsEnd(s, 0);
      var a := SpacesEnd(s, d);
      var b := if a < |s| && IsTrackSeparator(s[a]) then a + 1 else a;
      var n := SpacesEnd(s, b);
      assert TrackNumberParts(s, d, a, b, n);
      n
  }

  /** The match is determined by the name: no other cut fits the pattern. */
  lemma TrackNumberCutUnique(s: string, n: int)
    requires TrackNumberCut(s, n)
    ensures n == TrackNumberLength(s)
  {
    if s != [] && IsDigit(s[0]) {
      var d, a, b :| TrackNumberParts(s, d, a, b, n);
      var d' := DigitsEnd(s, 0);
      assert d' == d by {
        assert d < |s| ==> !IsDigit(s[d]);
        assert d' < |s| ==> !IsDigit(s[d']);
      }
      var a' := SpacesEnd(s, d);
      assert a' == a by {
        assert a < |s| ==> !IsSpace(s[a]);
        assert a' < |s| ==> !IsSpace(s[a']);
      }
      var n' := SpacesEnd(s, b);
      assert n' == n by {
        assert n < |s| ==> !IsSpace(s[n]);
        assert n' < |s| ==> !IsSpace(s[n']);
      }
    }
  }

  /** `re.sub(r'^\d+\s*[-_.]?\s*', '', s)` */
  function StripTrackNumber(s: string): (r: string)
    ensures |r| <= |s| && r == s[|s| - |r|..]
    ensures TrackNumberCut(s, |s| - |r|)
    ensures (s == [] || !IsDigit(s[0])) <==> r == s
    ensures s != [] && IsDigit(s[0]) ==> r == [] || !IsSpace(r[0])
  {
    s[TrackNumberLength(s)..]
  }

  /** `r` is `u[i..i + |r|]` with each underscore turned into a space, and
      everything of `u` before and after it is whitespace or underscores. */
  predicate TidiedAt(u: string, r: string, i: int) {
    && 0 <= i <= |u| - |r|
    && (forall k :: 0 <= k < |r| ==> r[k] == (if u[i + k] == '_' then ' ' else u[i + k]))
    && (forall k :: 0 <= k < i ==> IsSpace(u[k]) || u[k] == '_')
    && (forall k :: i + |r| <= k < |u| ==> IsSpace(u[k]) || u[k] == '_')
  }

  /** Underscores become spaces, then the ends are stripped. */
  function Tidy(u: string): (r: string)
    ensures exists i :: TidiedAt(u, r, i)
    ensures !HasChar(r, '_')
    ensures Trimmed(r)
    ensures |r| <= |u|
  {
    var t := ReplaceChar(u, '_', ' ');
    ReplaceCharRemoves(u, '_', ' ');
    StripKeepsAbsent(t, '_');
    var r := Strip(t);
    assert TidiedAt(u, r, SpacesEnd(t, 0));
    r
  }

  /** The tidied text is the only trimmed one that fits `TidiedAt`. */
  lemma TidyUnique(u: string, r: string, i: int)
    requires TidiedAt(u, r, i) && Trimmed(r)
    ensures r == Tidy(u)
  {
    var t := ReplaceChar(u, '_', ' ');
    assert StrippedAt(t, r, i);
    StripUnique(t, r, i);
  }

  /** `limpiar_nombre` of the Last.fm scripts: the extension removed, then
      the track number, then the underscores and the surrounding
      whitespace. */
  function CleanFileName(s: string): (r: string)
    ensures var e := RemoveExtension(s);
      exists n, i :: 0 <= n <= |e| && TrackNumberCut(e, n) && TidiedAt(e[n..], r, i)
    ensures !HasChar(r, '_')
    ensures Trimmed(r)
    ensures |r| <= |s|
  {
    var e := RemoveExtension(s);
    var n := TrackNumberLength(e);
    var r := Tidy(e[n..]);
    var i :| TidiedAt(e[n..], r, i);
    assert 0 <= n <= |e| && TrackNumberCut(e, n) && TidiedAt(e[n..], r, i);
    r
  }

  /** The clean title is the only one the three steps allow. */
  lemma CleanFileNameUnique(s: string, r: string, n: int, i: int)
    requires var e := RemoveExtension(s);
      0 <= n <= |e| && TrackNumberCut(e, n) && TidiedAt(e[n..], r, i)
    requires Trimmed(r)
    ensures r == CleanFileName(s)
  {
    var e := RemoveExtension(s);
    TrackNumberCutUnique(e, n);
    TidyUnique(e[n..], r, i);
  }

  lemma CleanFileNameExample()
    ensures CleanFileName("01 - A_b.mp3") == "A b"
  {
    ExtensionExample();
    TrackNumberExample();
    TidyExample();
  }

  lemma TidyExample()
    ensures Tidy("A_b") == "A b"
  {
    assert ReplaceChar("A_b", '_', ' ') == "A b";
    StripExample("A b");
  }

  lemma ExtensionExample()
    ensures RemoveExtension("01 - A_b.mp3") == "01 - A_b"
  {
    var s := "01 - A_b.mp3";
    assert ExtensionAt(s, |s| - 4, |s|);
    assert !ExtensionAt(s, |s| - 5, |s|);
  }

  lemma TrackNumberExample()
    ensures StripTrackNumber("01 - A_b") == "A_b"
  {
    var a := "01 - A_b";
    assert DigitsEnd(a, 2) == 2;
    assert DigitsEnd(a, 0) == 2;
    assert SpacesEnd(a, 3) == 3;
    assert SpacesEnd(a, 2) == 3;
    assert SpacesEnd(a, 5) == 5;
    assert SpacesEnd(a, 4) == 5;
    assert TrackNumberLength(a) == 5;
  }

  /** Only one separator goes: the second number stays. */
  lemma OneSeparatorExample()
    ensures StripTrackNumber("01-02 A") == "02 A"
  {
    var a := "01-02 A";
    assert TrackNumberParts(a, 2, 2, 3, 3);
    TrackNumberCutUnique(a, 3);
  }

  /** A trailing `.mp3`, in any letter case, ending where `$` matches. */
  predicate EndsWithMp3(s: string) {
    var e := End(s);
    e >= 4 && s[e - 4] == '.' && Lower(s[e - 3]) == 'm' && Lower(s[e - 2]) == 'p' && s[e - 1] == '3'
  }

  /** `re.sub(r'\.mp3$', '', s, flags=re.IGNORECASE)` */
  function RemoveMp3(s: string): (r: string)
    ensures EndsWithMp3(s) ==> r == s[..End(s) - 4] + s[End(s)..]
    ensures !EndsWithMp3(s) ==> r == s
  {
    if EndsWithMp3(s) then s[..End(s) - 4] + s[End(s)..] else s
  }

  predicate IsNumberTrail(c: char) { IsSpace(c) || c == '.' || c == '-' }

  /** The end of the run of whitespace, `.` and `-` that starts at `i`. */
  function TrailEnd(s: string, i: nat): (j: nat)
    requires i <= |s|
    ensures i <= j <= |s|
    ensures forall k :: i <= k < j ==> IsNumberTrail(s[k])
    ensures j == |s| || !IsNumberTrail(s[j])
    decreases |s| - i
  {
    if i < |s| && IsNumberTrail(s[i]) then TrailEnd(s, i + 1) else i
  }

  /** `s[..n]` is what `^\d+[\s.-]*` matches: the digits end at `d`, and
      both runs are as long as they can be. */
  predicate DiscogsNumberParts(s: string, d: int, n: int) {
    && 0 < d <= n <= |s|
    && (forall k :: 0 <= k < d ==> IsDigit(s[k])) && (d == |s| || !IsDigit(s[d]))
    && (forall k :: d <= k < n ==> IsNumberTrail(s[k])) && (n == |s| || !IsNumberTrail(s[n]))
  }

  /** `re.sub(r'^\d+[\s.-]*', '', s)` removes `s[..n]`. */
  ghost predicate DiscogsNumberCut(s: string, n: int) {
    if s == [] || !IsDigit(s[0]) then n == 0
    else exists d :: DiscogsNumberParts(s, d, n)
  }

  /** `re.sub(r'^\d+[\s.-]*', '', s)` */
  function StripDiscogsNumber(s: string): (r: string)
    ensures |r| <= |s| && r == s[|s| - |r|..]
    ensures DiscogsNumberCut(s, |s| - |r|)
    ensures (s == [] || !IsDigit(s[0])) <==> r == s
    ensures s != [] && IsDigit(s[0]) ==> r == [] || !IsNumberTrail(r[0])
  {
    if s == [] || !IsDigit(s[0]) then s
    else
      var d := DigitsEnd(s, 0);
      var n := TrailEnd(s, d);
      assert DiscogsNumberParts(s, d, n);
      s[n..]
  }

  /** No other cut fits the pattern. */
  lemma DiscogsNumberCutUnique(s: string, n: int)
    requires DiscogsNumberCut(s, n)
    ensures 0 <= n <= |s| && s[n..] == StripDiscogsNumber(s)
  {
    if s != [] && IsDigit(s[0]) {
      var d :| DiscogsNumberParts(s, d, n);
      var d' := DigitsEnd(s, 0);
      assert d' == d by {
        assert d < |s| ==> !IsDigit(s[d]);
        assert d' < |s| ==> !IsDigit(s[d']);
      }
      var n' := TrailEnd(s, d);
      assert n' == n by {
        assert n < |s| ==> !IsNumberTrail(s[n]);
        assert n' < |s| ==> !IsNumberTrail(s[n']);
      }
    }
  }

  /** `limpiar_nombre` of the Discogs miner: a missing or empty name gives "";
      otherwise the `.mp3` and the track number go and the rest is
      stripped. */
  function CleanDiscogsName(name: Option<string>): (r: string)
    ensures name.None? || name.value == "" ==> r == ""
    ensures name.Some? && name.value != "" ==>
      exists i :: StrippedAt(StripDiscogsNumber(RemoveMp3(name.value)), r, i)
    ensures Trimmed(r)
  {
    if name.None? || name.value == "" then ""
    else
      var t := StripDiscogsNumber(RemoveMp3(name.value));
      Strip(t)
  }

  /** The cleaned name is the only trimmed text the steps allow. */
  lemma CleanDiscogsNameUnique(name: string, n: int, r: string, i: int)
    requires name != ""
    requires DiscogsNumberCut(RemoveMp3(name), n)
    requires StrippedAt(RemoveMp3(name)[n..], r, i) && Trimmed(r)
    ensures r == CleanDiscogsName(Some(name))
  {
    DiscogsNumberCutUnique(RemoveMp3(name), n);
    StripUnique(RemoveMp3(name)[n..], r, i);
  }

  lemma CleanDiscogsNameExample()
    ensures CleanDiscogsName(Some("7 - A.MP3")) == "A"
  {
    var s := "7 - A.MP3";
    assert EndsWithMp3(s);
    assert RemoveMp3(s) == "7 - A";
    DiscogsNumberExample();
    StripExample("A");
  }

  lemma DiscogsNumberExample()
    ensures StripDiscogsNumber("7 - A") == "A"
  {
    var a := "7 - A";
    assert DigitsEnd(a, 1) == 1;
    assert DigitsEnd(a, 0) == 1;
    assert TrailEnd(a, 4) == 4;
    assert TrailEnd(a, 3) == 4;
    assert TrailEnd(a, 2) == 4;
    assert TrailEnd(a, 1) == 4;
    assert a[4..] == "A";
  }

  /** The trail after the number stops at the next digit. */
  lemma DiscogsSecondNumberExample()
    ensures StripDiscogsNumber("12 34 A") == "34 A"
  {
    var a := "12 34 A";
    assert DiscogsNumberParts(a, 2, 3);
    DiscogsNumberCutUnique(a, 3);
  }

  lemma StripExample(s: string)
    requires s != [] && !IsSpace(s[0]) && !IsSpace(s[|s| - 1])
    ensures Strip(s) == s
  {
  }
}
