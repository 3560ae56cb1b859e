/** The Python `str` operations the catalog code uses, over ASCII.
    Character classes follow Python: `\s`, `strip()` and `split()` treat tab
    through carriage return, the separators 0x1C-0x1F and space as whitespace;
    `\d` and `isdigit()` accept `0`-`9`; `lower()`, `upper()` and `title()`
    change only the letters `A`-`Z` and `a`-`z`. */
module Ascii {

  predicate IsUpper(c: char) { 'A' <= c <= 'Z' }
  predicate IsLower(c: char) { 'a' <= c <= 'z' }
  predicate IsLetter(c: char) { IsUpper(c) || IsLower(c) }
  predicate IsDigit(c: char) { '0' <= c <= '9' }
  predicate IsAlnum(c: char) { IsLetter(c) || IsDigit(c) }

  predicate IsSpace(c: char) {
    ('\t' <= c <= '\r') || ('\U{1C}' <= c <= '\U{1F}') || c == ' '
  }

  predicate IsAsciiChar(c: char) { c as int < 128 }

  predicate IsAscii(s: string) { forall i :: 0 <= i < |s| ==> IsAsciiChar(s[i]) }

  predicate AllSpace(s: string) { forall i :: 0 <= i < |s| ==> IsSpace(s[i]) }

  predicate NoSpace(s: string) { forall i :: 0 <= i < |s| ==> !IsSpace(s[i]) }

  predicate AllDigits(s: string) { forall i :: 0 <= i < |s| ==> IsDigit(s[i]) }

  predicate AllAlnum(s: string) { forall i :: 0 <= i < |s| ==> IsAlnum(s[i]) }

  /** Python's `str.isdigit()`: non-empty and digits only. */
  predicate IsDigitString(s: string) { |s| > 0 && AllDigits(s) }

  function Lower(c: char): (r: char)
    ensures IsLetter(c) ==> IsLower(r)
    ensures !IsUpper(c) ==> r == c
  {
    if IsUpper(c) then (c as int + 32) as char else c
  }

  function Upper(c: char): (r: char)
    ensures IsLetter(c) ==> IsUpper(r)
    ensures !IsLower(c) ==> r == c
  {
    if IsLower(c) then (c as int - 32) as char else c
  }

  /** `s.lower()` */
  function LowerStr(s: string): (r: string)
    ensures |r| == |s|
    ensures forall i :: 0 <= i < |s| ==> r[i] == Lower(s[i])
  {
    seq(|s|, i requires 0 <= i < |s| => Lower(s[i]))
  }

  lemma LowerStrAppend(a: string, b: string)
    ensures LowerStr(a + b) == LowerStr(a) + LowerStr(b)
  {
    assert forall i :: 0 <= i < |a + b| ==> LowerStr(a + b)[i] == (LowerStr(a) + LowerStr(b))[i];
  }

  /** Lower-casing keeps every character's whitespace class. */
  lemma LowerKeepsSpace(s: string)
    ensures AllSpace(LowerStr(s)) <==> AllSpace(s)
  {
    assert forall i :: 0 <= i < |s| ==> (IsSpace(LowerStr(s)[i]) <==> IsSpace(s[i]));
  }

  /** The case `title()` gives one character, knowing whether a letter precedes it. */
  function TitleChar(c: char, afterLetter: bool): char {
    if !IsLetter(c) then c else if afterLetter then Lower(c) else Upper(c)
  }

  function TitleFrom(s: string, afterLetter: bool): (r: string)
    ensures |r| == |s|
    ensures forall i :: 0 < i < |s| ==> r[i] == TitleChar(s[i], IsLetter(s[i - 1]))
    ensures |s| > 0 ==> r[0] == TitleChar(s[0], afterLetter)
  {
    if s == [] then []
    else
      [TitleChar(s[0], afterLetter)] + TitleFrom(s[1..], IsLetter(s[0]))
  }

  /** `s.title()`: a letter is upper-cased when it opens the string or follows
      a non-letter, and lower-cased when it follows a letter. */
  function Title(s: string): (r: string)
    ensures |r| == |s|
    ensures forall i :: 0 <= i < |s| ==> r[i] == TitleChar(s[i], i > 0 && IsLetter(s[i - 1]))
  {
    var r := TitleFrom(s, false);
    assert |s| > 0 ==> r[0] == TitleChar(s[0], false);
    r
  }

  /** The end of the run of whitespace that starts at `i`. */
  function SpacesEnd(s: string, i: nat): (j: nat)
    requires i <= |s|
    ensures i <= j <= |s|
    ensures forall k :: i <= k < j ==> IsSpace(s[k])
    ensures j == |s| || !IsSpace(s[j])
    decreases |s| - i
  {
    if i < |s| && IsSpace(s[i]) then SpacesEnd(s, i + 1) else i
  }

  /** The start of the run of whitespace that ends at `j`. */
  function SpacesStart(s: string, j: nat): (i: nat)
    requires j <= |s|
    ensures i <= j
    ensures forall k :: i <= k < j ==> IsSpace(s[k])
    ensures i == 0 || !IsSpace(s[i - 1])
  {
    if j > 0 && IsSpace(s[j - 1]) then SpacesStart(s, j - 1) else j
  }

  /** The end of the run of non-whitespace that starts at `i`. */
  function WordEnd(s: string, i: nat): (j: nat)
    requires i <= |s|
    ensures i <= j <= |s|
    ensures forall k :: i <= k < j ==> !IsSpace(s[k])
    ensures j == |s| || IsSpace(s[j])
    decreases |s| - i
  {
    if i < |s| && !IsSpace(s[i]) then WordEnd(s, i + 1) else i
  }

  /** Neither starts nor ends with whitespace. */
  predicate Trimmed(r: string) {
    r == [] || (!IsSpace(r[0]) && !IsSpace(r[|r| - 1]))
  }

  /** `s.strip()`: the result is a slice of `s` with only whitespace cut off on
      either side, and it neither starts nor ends with whitespace. */
  function Strip(s: string): (r: string)
    ensures |r| <= |s|
    ensures Trimmed(r)
    ensures StrippedAt(s, r, SpacesEnd(s, 0))
    ensures r == [] <==> AllSpace(s)
  {
    var i := SpacesEnd(s, 0);
    if i == |s| then []
    else
      var j := SpacesStart(s, |s|);
      assert i < j;
      var r := s[i..j];
      assert forall k :: 0 <= k < |r| ==> r[k] == s[i + k];
      r
  }

  /** `r` sits in `s` at `i`, with only whitespace before and after it. */
  predicate StrippedAt(s: string, r: string, i: int) {
    && 0 <= i <= |s| - |r|
    && (forall k :: 0 <= k < |r| ==> r[k] == s[i + k])
    && (forall k :: 0 <= k < i ==> IsSpace(s[k]))
    && (forall k :: i + |r| <= k < |s| ==> IsSpace(s[k]))
  }

  /** `strip()` is the only trimmed slice of `s` with only whitespace around it. */
  lemma StripUnique(s: string, r: string, i: int)
    requires StrippedAt(s, r, i) && Trimmed(r)
    ensures r == Strip(s)
  {
    var t := Strip(s);
    var e := SpacesEnd(s, 0);
    if r == [] {
      assert AllSpace(s);
    } else {
      assert i == e by {
        assert !IsSpace(s[i]) by { assert r[0] == s[i]; }
      }
      assert t != [] by { assert !IsSpace(s[i]); }
      assert |r| == |t| by {
        assert !IsSpace(s[e + |t| - 1]) by { assert t[|t| - 1] == s[e + |t| - 1]; }
        assert !IsSpace(s[i + |r| - 1]) by { assert r[|r| - 1] == s[i + |r| - 1]; }
      }
      assert forall k :: 0 <= k < |r| ==> r[k] == t[k];
    }
  }

  /** Stripping cannot introduce a character. */
  lemma StripKeepsAbsent(s: string, c: char)
    requires !HasChar(s, c)
    ensures !HasChar(Strip(s), c)
  {
  }

  /** The words of a query, lower-cased and stripped first, are none exactly
      when the query is blank. */
  lemma QueryWordsBlank(s: string)
    ensures Split(LowerStr(Strip(s))) == [] <==> AllSpace(s)
  {
    LowerKeepsSpace(Strip(s));
  }

  /** `q.strip().lower().split()`: the words a search query is scanned for. */
  function QueryWords(q: string): (ws: seq<string>)
    ensures AreWords(ws)
    ensures ws == [] <==> AllSpace(q)
  {
    QueryWordsBlank(q);
    Split(LowerStr(Strip(q)))
  }

  /** `w` sits in `s` at `i`, with only whitespace before it, and is
      followed by whitespace or the end of `s`. */
  predicate FirstWordAt(s: string, w: string, i: int) {
    && 0 <= i <= |s| - |w|
    && AllSpace(s[..i])
    && s[i..i + |w|] == w
    && (i + |w| == |s| || IsSpace(s[i + |w|]))
  }

  /** `s` is the words `ws`, in order, each preceded by a run of whitespace
      (empty only before the first) and the last followed by one: every word
      is followed by whitespace or by the end of `s`. */
  predicate Spaced(s: string, ws: seq<string>)
    decreases |ws|
  {
    if ws == [] then AllSpace(s)
    else exists i | 0 <= i <= |s| - |ws[0]| :: FirstWordAt(s, ws[0], i) && Spaced(s[i + |ws[0]|..], ws[1..])
  }

  /** Non-empty and free of whitespace: what `split()` calls a word. */
  predicate AreWords(ws: seq<string>) {
    forall k :: 0 <= k < |ws| ==> |ws[k]| > 0 && NoSpace(ws[k])
  }

  /** `s.split()`: the maximal runs of non-whitespace characters, in order. */
  function Split(s: string): (ws: seq<string>)
    ensures AreWords(ws)
    ensures Spaced(s, ws)
    ensures ws == [] <==> AllSpace(s)
    decreases |s|
  {
    var i := SpacesEnd(s, 0);
    if i == |s| then
      assert AllSpace(s);
      []
    else
      var j := WordEnd(s, i);
      var rest := Split(s[j..]);
      SplitStep(s, i, j, rest);
      [s[i..j]] + rest
  }

  /** One word in front of the words of the rest. */
  lemma SplitStep(s: string, i: nat, j: nat, rest: seq<string>)
    requires i < j <= |s|
    requires forall k :: 0 <= k < i ==> IsSpace(s[k])
    requires forall k :: i <= k < j ==> !IsSpace(s[k])
    requires j == |s| || IsSpace(s[j])
    requires AreWords(rest) && Spaced(s[j..], rest)
    ensures AreWords([s[i..j]] + rest)
    ensures Spaced(s, [s[i..j]] + rest)
  {
    var w := s[i..j];
    var ws := [w] + rest;
    assert forall k :: 0 <= k < |w| ==> w[k] == s[i + k];
    assert forall k :: 0 < k < |ws| ==> ws[k] == rest[k - 1];
    assert ws[1..] == rest && s[i..i + |ws[0]|] == ws[0];
    assert AllSpace(s[..i]);
    assert FirstWordAt(s, ws[0], i);
  }

  /** The first word of a spaced string starts where `split()` finds it and
      ends where `split()` ends it. */
  lemma SpacedHead(s: string, ws: seq<string>) returns (j: nat)
    requires ws != [] && AreWords(ws) && Spaced(s, ws)
    ensures SpacesEnd(s, 0) < |s| && j == WordEnd(s, SpacesEnd(s, 0))
    ensures s[SpacesEnd(s, 0)..j] == ws[0]
    ensures AreWords(ws[1..]) && Spaced(s[j..], ws[1..])
  {
    var i :| 0 <= i <= |s| - |ws[0]| && FirstWordAt(s, ws[0], i) && Spaced(s[i + |ws[0]|..], ws[1..]);
    j := i + |ws[0]|;
    assert |ws[0]| > 0 && NoSpace(ws[0]);
    SpacesEndAt(s, i);
    WordEndAt(s, i, j);
    AreWordsTail(ws);
  }

  lemma SpacesEndAt(s: string, i: nat)
    requires i < |s| && AllSpace(s[..i]) && !IsSpace(s[i])
    ensures SpacesEnd(s, 0) == i
  {
    forall k | 0 <= k < i ensures IsSpace(s[k]) { assert s[..i][k] == s[k]; }
  }

  lemma WordEndAt(s: string, i: nat, j: nat)
    requires i <= j <= |s| && NoSpace(s[i..j])
    requires j == |s| || IsSpace(s[j])
    ensures WordEnd(s, i) == j
  {
    forall k | i <= k < j ensures !IsSpace(s[k]) { assert s[i..j][k - i] == s[k]; }
  }

  lemma AreWordsTail(ws: seq<string>)
    requires ws != [] && AreWords(ws)
    ensures AreWords(ws[1..])
  {
    forall k | 0 <= k < |ws[1..]| ensures |ws[1..][k]| > 0 && NoSpace(ws[1..][k]) {
      assert ws[1..][k] == ws[k + 1];
    }
  }

  /** The words `split()` returns are the only ones `s` is spaced into. */
  lemma {:induction false} SplitUnique(s: string, ws: seq<string>)
    requires AreWords(ws) && Spaced(s, ws)
    ensures ws == Split(s)
    decreases |ws|
  {
    if ws != [] {
      var j := SpacedHead(s, ws);
      SplitUnique(s[j..], ws[1..]);
      assert ws == [ws[0]] + ws[1..];
    }
  }

  /** Python's `needle in hay` for strings. */
  predicate Contains(hay: string, needle: string) {
    exists i | 0 <= i <= |hay| :: OccursAt(hay, needle, i)
  }

  predicate OccursAt(hay: string, needle: string, i: int) {
    0 <= i <= |hay| - |needle| && hay[i..i + |needle|] == needle
  }

  lemma ContainsMiddle(a: string, b: string, c: string)
    ensures Contains(a + b + c, b)
  {
    assert (a + b + c)[|a|..|a| + |b|] == b;
    assert OccursAt(a + b + c, b, |a|);
  }

  /** `sep.join(parts)` */
  function Join(sep: string, parts: seq<string>): (r: string)
    ensures |parts| == 1 ==> r == parts[0]
  {
    if parts == [] then ""
    else if |parts| == 1 then parts[0]
    else parts[0] + sep + Join(sep, parts[1..])
  }

  /** Every part of `sep.join(parts)` occurs in it. */
  lemma {:induction false} JoinHoldsParts(sep: string, parts: seq<string>, i: nat)
    requires i < |parts|
    ensures Contains(Join(sep, parts), parts[i])
    decreases |parts|
  {
    if |parts| == 1 {
      ContainsMiddle([], parts[0], []);
      assert [] + parts[0] + [] == parts[0];
    } else if i == 0 {
      ContainsMiddle([], parts[0], sep + Join(sep, parts[1..]));
      assert [] + parts[0] + (sep + Join(sep, parts[1..])) == Join(sep, parts);
    } else {
      JoinHoldsParts(sep, parts[1..], i - 1);
      var rest := Join(sep, parts[1..]);
      var j :| 0 <= j <= |rest| && OccursAt(rest, parts[i], j);
      var pre := parts[0] + sep;
      assert Join(sep, parts) == pre + rest;
      assert (pre + rest)[|pre| + j..|pre| + j + |parts[i]|] == rest[j..j + |parts[i]|];
      assert OccursAt(Join(sep, parts), parts[i], |pre| + j);
    }
  }

  /** Lower-casing keeps an occurrence. */
  lemma LowerKeepsContains(hay: string, needle: string)
    requires Contains(hay, needle)
    ensures Contains(LowerStr(hay), LowerStr(needle))
  {
    var i :| 0 <= i <= |hay| && OccursAt(hay, needle, i);
    assert LowerStr(hay)[i..i + |needle|] == LowerStr(needle) by {
      assert forall k :: 0 <= k < |needle| ==> LowerStr(hay)[i + k] == Lower(hay[i + k]) == Lower(needle[k]);
    }
    assert OccursAt(LowerStr(hay), LowerStr(needle), i);
  }

  /** `s.replace(a, b)` for single characters. */
  function ReplaceChar(s: string, a: char, b: char): (r: string)
    ensures |r| == |s|
    ensures forall i :: 0 <= i < |s| ==> r[i] == (if s[i] == a then b else s[i])
  {
    seq(|s|, i requires 0 <= i < |s| => if s[i] == a then b else s[i])
  }

  /** After `s.replace(a, b)` with `a != b` no `a` is left. */
  lemma ReplaceCharRemoves(s: string, a: char, b: char)
    requires a != b
    ensures !HasChar(ReplaceChar(s, a, b), a)
  {
  }

  predicate HasChar(s: string, c: char) { exists i :: 0 <= i < |s| && s[i] == c }
}
