/** `limpiar_resumen`: a Last.fm wiki summary with its links cut out.

    The scripts apply `re.sub(r'<a href=.*?>.*?</a>', '', text)` and strip the
    result. Read as Python's `re` reads it, a match at position `p` needs the
    opener `<a href=` at `p`, a `>` after it and a closing `</a>` after that,
    all on one line (`.` never matches a newline). Both lazy stars take the
    fewest characters that still allow a match, so the match ends at the first
    `</a>` after the first `>`: the shortest anchor that starts at `p`. The
    substitution scans left to right and resumes after each removed anchor. */
module Summary {
  import opened Wrappers
  import opened Ascii

  const Opener: string := "<a href="
  const Closer: string := "</a>"

  /** The first position from `i` holding `c` or a newline, or `|s|`. */
  function StopAt(s: string, i: nat, c: char): (j: nat)
    requires i <= |s|
    ensures i <= j <= |s|
    ensures forall k :: i <= k < j ==> s[k] != c && s[k] != '\n'
    ensures j < |s| ==> s[j] == c || s[j] == '\n'
    decreases |s| - i
  {
    if i < |s| && s[i] != c && s[i] != '\n' then StopAt(s, i + 1, c) else i
  }

  /** The first position from `i` where `</a>` starts or a newline stands,
      or `|s|`. */
  function CloseAt(s: string, i: nat): (j: nat)
    requires i <= |s|
    ensures i <= j <= |s|
    ensures forall k :: i <= k < j ==> s[k] != '\n'
    ensures forall k :: i <= k < j ==> !OccursAt(s, Closer, k)
    ensures j < |s| ==> s[j] == '\n' || OccursAt(s, Closer, j)
    decreases |s| - i
  {
    if i < |s| && s[i] != '\n' && !OccursAt(s, Closer, i) then CloseAt(s, i + 1) else i
  }

  /** `s[p..t + 4]` is an anchor: the opener at `p`, a `>` at `g`, a closer at
      `t`, and no newline anywhere in between. */
  predicate AnchorShape(s: string, p: int, g: int, t: int) {
    && OccursAt(s, Opener, p)
    && p + |Opener| <= g < t
    && OccursAt(s, Closer, t)
    && s[g] == '>'
    && forall k :: p <= k < t ==> s[k] != '\n'
  }

  /** The opener at `p`, the first `>` after it and the first closer after
      that, with no newline before either, form an anchor. */
  lemma AnchorFound(s: string, p: nat, g: nat, t: nat)
    requires OccursAt(s, Opener, p)
    requires g == StopAt(s, p + |Opener|, '>') && g < |s| && s[g] != '\n'
    requires t == CloseAt(s, g + 1) && t < |s| && s[t] != '\n'
    ensures AnchorShape(s, p, g, t)
  {
    assert forall k :: p <= k < p + |Opener| ==> s[k] == Opener[k - p];
  }

  /** Where the pattern's match starting at `p` ends, if there is one. */
  function AnchorEnd(s: string, p: nat): (r: Option<nat>)
    requires p <= |s|
    ensures r.Some? ==> p + |Opener| <= |s| && AnchorShape(s, p, StopAt(s, p + |Opener|, '>'), r.value - |Closer|)
    ensures r.Some? ==> p < r.value <= |s|
  {
    if !OccursAt(s, Opener, p) then None
    else
      var g := StopAt(s, p + |Opener|, '>');
      if g == |s| || s[g] == '\n' then None
      else
        var t := CloseAt(s, g + 1);
        if t == |s| || s[t] == '\n' then None
        else
          AnchorFound(s, p, g, t);
          Some(t + |Closer|)
  }

  /** Every anchor starting at `p` lets the pattern match there, and the match
      is never longer than that anchor. */
  lemma AnchorEndShortest(s: string, p: nat, g: int, t: int)
    requires p <= |s|
    requires AnchorShape(s, p, g, t)
    ensures AnchorEnd(s, p).Some?
    ensures AnchorEnd(s, p).value <= t + |Closer|
  {
    var g0 := StopAt(s, p + |Opener|, '>');
    FirstStopBefore(s, p + |Opener|, '>', g);
    var t0 := CloseAt(s, g0 + 1);
    FirstCloseBefore(s, g0 + 1, t);
  }

  /** A `c` at `g` with no newline before it is found, at `g` or earlier. */
  lemma FirstStopBefore(s: string, i: nat, c: char, g: int)
    requires i <= g < |s| && s[g] == c && c != '\n'
    requires forall k :: i <= k < g ==> s[k] != '\n'
    ensures StopAt(s, i, c) <= g && s[StopAt(s, i, c)] == c
  {
  }

  /** A closer at `t` with no newline before it is found, at `t` or earlier. */
  lemma FirstCloseBefore(s: string, i: nat, t: int)
    requires i <= t && OccursAt(s, Closer, t)
    requires forall k :: i <= k < t ==> s[k] != '\n'
    ensures CloseAt(s, i) <= t && CloseAt(s, i) < |s| && s[CloseAt(s, i)] != '\n'
  {
    var t0 := CloseAt(s, i);
    if t0 == t {
      assert s[t..t + |Closer|][0] == '<';
    }
  }

  /** `re.sub(r'<a href=.*?>.*?</a>', '', s[i..])`, scanning from `i`. */
  function RemoveAnchorsFrom(s: string, i: nat): (r: string)
    requires i <= |s|
    ensures |r| <= |s| - i
    decreases |s| - i
  {
    if i == |s| then []
    else
      var a := AnchorEnd(s, i);
      if a.Some? then RemoveAnchorsFrom(s, a.value)
      else [s[i]] + RemoveAnchorsFrom(s, i + 1)
  }

  function RemoveAnchors(s: string): string {
    RemoveAnchorsFrom(s, 0)
  }

  /** Text with no opener from `i` on comes through unchanged. */
  lemma {:induction false} NoOpenerKeepsText(s: string, i: nat)
    requires i <= |s|
    requires forall p :: i <= p <= |s| ==> !OccursAt(s, Opener, p)
    ensures RemoveAnchorsFrom(s, i) == s[i..]
    decreases |s| - i
  {
    if i < |s| {
      NoOpenerKeepsText(s, i + 1);
      assert s[i..] == [s[i]] + s[i + 1..];
    }
  }

  /** Removing anchors cannot introduce a character. */
  lemma {:induction false} RemoveAnchorsKeepsAbsent(s: string, i: nat, c: char)
    requires i <= |s|
    requires !HasChar(s, c)
    ensures !HasChar(RemoveAnchorsFrom(s, i), c)
    decreases |s| - i
  {
    if i < |s| {
      var a := AnchorEnd(s, i);
      if a.Some? {
        RemoveAnchorsKeepsAbsent(s, a.value, c);
      } else {
        RemoveAnchorsKeepsAbsent(s, i + 1, c);
        var rest := RemoveAnchorsFrom(s, i + 1);
        assert RemoveAnchorsFrom(s, i) == [s[i]] + rest;
        assert forall k :: 0 < k < |rest| + 1 ==> ([s[i]] + rest)[k] == rest[k - 1];
      }
    }
  }

  /** `limpiar_resumen`: `None` for a missing or empty summary, otherwise the
      summary without its anchors, stripped. */
  function CleanSummary(text: Option<string>): (r: Option<string>)
    ensures r.None? <==> text.None? || text.value == ""
    ensures r.Some? ==> exists i :: StrippedAt(RemoveAnchors(text.value), r.value, i)
    ensures r.Some? ==> Trimmed(r.value) && |r.value| <= |text.value|
  {
    if text.None? || text.value == "" then None
    else Some(Strip(RemoveAnchors(text.value)))
  }

  /** The cleaned summary is the only trimmed text with nothing but
      whitespace around it in the summary without anchors. */
  lemma CleanSummaryUnique(t: string, r: string, i: int)
    requires t != ""
    requires StrippedAt(RemoveAnchors(t), r, i) && Trimmed(r)
    ensures CleanSummary(Some(t)) == Some(r)
  {
    StripUnique(RemoveAnchors(t), r, i);
  }

  /** A summary without links is only stripped. */
  lemma PlainSummary(t: string)
    requires t != ""
    requires !Contains(t, Opener)
    ensures CleanSummary(Some(t)) == Some(Strip(t))
  {
    NoOpenerKeepsText(t, 0);
  }

  lemma AnchorExample()
    ensures AnchorEnd("x<a href=u>y</a>", 1) == Some(16)
  {
    var s := "x<a href=u>y</a>";
    assert s[1..9] == Opener;
    assert StopAt(s, 10, '>') == 10;
    assert StopAt(s, 9, '>') == 10;
    assert s[12..16] == Closer;
    assert CloseAt(s, 12) == 12;
    assert s[11..15][0] == 'y';
    assert !OccursAt(s, Closer, 11);
    assert CloseAt(s, 11) == 12;
  }

  lemma CleanSummaryExample()
    ensures CleanSummary(Some("x<a href=u>y</a>")) == Some("x")
  {
    var s := "x<a href=u>y</a>";
    assert !OccursAt(s, Opener, 0);
    AnchorExample();
    assert RemoveAnchorsFrom(s, 16) == [];
    assert RemoveAnchors(s) == "x";
    StripOne('x');
  }

  lemma StripOne(c: char)
    requires !IsSpace(c)
    ensures Strip([c]) == [c]
  {
    assert SpacesEnd([c], 0) == 0;
  }
}
