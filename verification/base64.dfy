/** `base64.b64encode`: the encoding of section 4 of RFC 4648 (alphabet
    `A`-`Z`, `a`-`z`, `0`-`9`, `+`, `/`, padded with `=`), and a decoder that
    serves only as its specification-level inverse. */
module Base64 {
  import opened Wrappers
  import opened Bytes

  type sextet = n: int | 0 <= n < 64

  /** The value-to-character table of RFC 4648, section 4. */
  function Alphabet(n: sextet): (c: char)
    ensures c != '='
  {
    if n < 26 then ('A' as int + n) as char
    else if n < 52 then ('a' as int + (n - 26)) as char
    else if n < 62 then ('0' as int + (n - 52)) as char
    else if n == 62 then '+'
    else '/'
  }

  predicate IsBase64Char(c: char) {
    ('A' <= c <= 'Z') || ('a' <= c <= 'z') || ('0' <= c <= '9') || c == '+' || c == '/' || c == '='
  }

  function IndexOf(c: char): Option<sextet> {
    if 'A' <= c <= 'Z' then Some(c as int - 'A' as int)
    else if 'a' <= c <= 'z' then Some(c as int - 'a' as int + 26)
    else if '0' <= c <= '9' then Some(c as int - '0' as int + 52)
    else if c == '+' then Some(62)
    else if c == '/' then Some(63)
    else None
  }

  lemma IndexOfAlphabet(n: sextet)
    ensures IndexOf(Alphabet(n)) == Some(n)
    ensures IsBase64Char(Alphabet(n))
  {
  }

  /** Three bytes become four characters, six bits each, most significant first. */
  function EncodeGroup(b0: byte, b1: byte, b2: byte): string {
    [Alphabet(b0 / 4), Alphabet((b0 % 4) * 16 + b1 / 16), Alphabet((b1 % 16) * 4 + b2 / 64), Alphabet(b2 % 64)]
  }

  function Encode(bs: seq<byte>): (s: string)
    ensures |s| == 4 * ((|bs| + 2) / 3)
    ensures forall i :: 0 <= i < |s| ==> IsBase64Char(s[i])
  {
    if |bs| == 0 then []
    else if |bs| == 1 then
      IndexOfAlphabet(bs[0] / 4);
      IndexOfAlphabet((bs[0] % 4) * 16);
      [Alphabet(bs[0] / 4), Alphabet((bs[0] % 4) * 16), '=', '=']
    else if |bs| == 2 then
      IndexOfAlphabet(bs[0] / 4);
      IndexOfAlphabet((bs[0] % 4) * 16 + bs[1] / 16);
      IndexOfAlphabet((bs[1] % 16) * 4);
      [Alphabet(bs[0] / 4), Alphabet((bs[0] % 4) * 16 + bs[1] / 16), Alphabet((bs[1] % 16) * 4), '=']
    else
      var g, r := EncodeGroup(bs[0], bs[1], bs[2]), Encode(bs[3..]);
      GroupChars(bs[0], bs[1], bs[2]);
      assert (|bs| + 2) / 3 == (|bs[3..]| + 2) / 3 + 1;
      assert forall i :: 0 <= i < |g + r| ==> (g + r)[i] == if i < 4 then g[i] else r[i - 4];
      g + r
  }

  lemma GroupChars(b0: byte, b1: byte, b2: byte)
    ensures |EncodeGroup(b0, b1, b2)| == 4
    ensures forall i :: 0 <= i < 4 ==> IsBase64Char(EncodeGroup(b0, b1, b2)[i])
  {
    IndexOfAlphabet(b0 / 4);
    IndexOfAlphabet((b0 % 4) * 16 + b1 / 16);
    IndexOfAlphabet((b1 % 16) * 4 + b2 / 64);
    IndexOfAlphabet(b2 % 64);
  }

  /** The three bytes four sextets carry. */
  function GroupBytes(c0: sextet, c1: sextet, c2: sextet, c3: sextet): seq<byte> {
    [c0 * 4 + c1 / 16, (c1 % 16) * 16 + c2 / 4, (c2 % 4) * 64 + c3]
  }

  /** Reverses `Encode`; `None` for text that is not padded base64. */
  function Decode(s: string): Option<seq<byte>>
    decreases |s|
  {
    if s == [] then Some([])
    else if |s| < 4 then None
    else
      var i0, i1, i2, i3 := IndexOf(s[0]), IndexOf(s[1]), IndexOf(s[2]), IndexOf(s[3]);
      if i0.None? || i1.None? then None
      else
        var c0, c1 := i0.value, i1.value;
        if |s| == 4 && s[2] == '=' && s[3] == '=' then Some([c0 * 4 + c1 / 16])
        else if |s| == 4 && s[3] == '=' && i2.Some? then Some([c0 * 4 + c1 / 16, (c1 % 16) * 16 + i2.value / 4])
        else if i2.Some? && i3.Some? then
          var c2, c3 := i2.value, i3.value;
          match Decode(s[4..])
          case None => None
          case Some(rest) => Some(GroupBytes(c0, c1, c2, c3) + rest)
        else None
  }

  /** The four sextets of a group put back together give its three bytes. */
  lemma Regroup(b0: byte, b1: byte, b2: byte, c0: sextet, c1: sextet, c2: sextet, c3: sextet)
    requires c0 == b0 / 4 && c1 == (b0 % 4) * 16 + b1 / 16
    requires c2 == (b1 % 16) * 4 + b2 / 64 && c3 == b2 % 64
    ensures c0 * 4 + c1 / 16 == b0
    ensures (c1 % 16) * 16 + c2 / 4 == b1
    ensures (c2 % 4) * 64 + c3 == b2
    ensures GroupBytes(c0, c1, c2, c3) == [b0, b1, b2]
  {
  }

  /** Decoding what `Encode` produced gives the bytes back. */
  lemma {:induction false} DecodeEncode(bs: seq<byte>)
    ensures Decode(Encode(bs)) == Some(bs)
    decreases |bs|
  {
    if |bs| == 0 {
    } else if |bs| == 1 {
      DecodeOne(bs[0]);
      assert bs == [bs[0]];
    } else if |bs| == 2 {
      DecodeTwo(bs[0], bs[1]);
      assert bs == [bs[0], bs[1]];
    } else {
      DecodeEncode(bs[3..]);
      EncodeStep(bs);
      DecodeGroup(bs[0], bs[1], bs[2], Encode(bs[3..]));
      Cons3(bs);
    }
  }

  lemma DecodeOne(b0: byte)
    ensures Decode(Encode([b0])) == Some([b0])
  {
    var c0, c1 := b0 / 4, (b0 % 4) * 16;
    var s := Encode([b0]);
    assert s == [Alphabet(c0), Alphabet(c1), '=', '='];
    IndexOfAlphabet(c0);
    IndexOfAlphabet(c1);
    DecodeSingle(s, c0, c1);
    Regroup(b0, 0, 0, c0, c1, 0, 0);
  }

  lemma DecodeTwo(b0: byte, b1: byte)
    ensures Decode(Encode([b0, b1])) == Some([b0, b1])
  {
    var c0, c1, c2 := b0 / 4, (b0 % 4) * 16 + b1 / 16, (b1 % 16) * 4;
    var s := Encode([b0, b1]);
    assert s == [Alphabet(c0), Alphabet(c1), Alphabet(c2), '='];
    IndexOfAlphabet(c0);
    IndexOfAlphabet(c1);
    IndexOfAlphabet(c2);
    DecodePair(s, c0, c1, c2);
    Regroup(b0, b1, 0, c0, c1, c2, 0);
  }

  /** A full group decodes to its three bytes, whatever text follows it. */
  lemma DecodeGroup(b0: byte, b1: byte, b2: byte, t: string)
    requires Decode(t).Some?
    ensures Decode(EncodeGroup(b0, b1, b2) + t) == Some([b0, b1, b2] + Decode(t).value)
  {
    var s := EncodeGroup(b0, b1, b2) + t;
    assert s[4..] == t;
    IndexOfAlphabet(b0 / 4);
    IndexOfAlphabet((b0 % 4) * 16 + b1 / 16);
    IndexOfAlphabet((b1 % 16) * 4 + b2 / 64);
    IndexOfAlphabet(b2 % 64);
    DecodeBytes(s, b0, b1, b2);
  }

  /** Text that opens with the four characters of three bytes decodes to
      those bytes followed by the decoding of the rest. */
  lemma DecodeBytes(s: string, b0: byte, b1: byte, b2: byte)
    requires |s| >= 4
    requires IndexOf(s[0]) == Some(b0 / 4)
    requires IndexOf(s[1]) == Some((b0 % 4) * 16 + b1 / 16)
    requires IndexOf(s[2]) == Some((b1 % 16) * 4 + b2 / 64)
    requires IndexOf(s[3]) == Some(b2 % 64)
    requires Decode(s[4..]).Some?
    ensures Decode(s) == Some([b0, b1, b2] + Decode(s[4..]).value)
  {
    var c0, c1, c2, c3 := b0 / 4, (b0 % 4) * 16 + b1 / 16, (b1 % 16) * 4 + b2 / 64, b2 % 64;
    DecodeQuad(s, c0, c1, c2, c3);
    Regroup(b0, b1, b2, c0, c1, c2, c3);
  }

  lemma EncodeStep(bs: seq<byte>)
    requires |bs| >= 3
    ensures Encode(bs) == EncodeGroup(bs[0], bs[1], bs[2]) + Encode(bs[3..])
  {
  }

  lemma Cons3<T>(xs: seq<T>)
    requires |xs| >= 3
    ensures [xs[0], xs[1], xs[2]] + xs[3..] == xs
  {
  }

  /** Decoding a final group that carries one byte. */
  lemma DecodeSingle(s: string, c0: sextet, c1: sextet)
    requires |s| == 4 && s[2] == '=' && s[3] == '='
    requires IndexOf(s[0]) == Some(c0) && IndexOf(s[1]) == Some(c1)
    ensures Decode(s) == Some([c0 * 4 + c1 / 16])
  {
  }

  /** Decoding a final group that carries two bytes. */
  lemma DecodePair(s: string, c0: sextet, c1: sextet, c2: sextet)
    requires |s| == 4 && s[3] == '='
    requires IndexOf(s[0]) == Some(c0) && IndexOf(s[1]) == Some(c1) && IndexOf(s[2]) == Some(c2)
    ensures Decode(s) == Some([c0 * 4 + c1 / 16, (c1 % 16) * 16 + c2 / 4])
  {
  }

  /** Decoding a full group followed by more text. */
  lemma DecodeQuad(s: string, c0: sextet, c1: sextet, c2: sextet, c3: sextet)
    requires |s| >= 4
    requires IndexOf(s[0]) == Some(c0) && IndexOf(s[1]) == Some(c1) && IndexOf(s[2]) == Some(c2) && IndexOf(s[3]) == Some(c3)
    requires Decode(s[4..]).Some?
    ensures Decode(s) == Some(GroupBytes(c0, c1, c2, c3) + Decode(s[4..]).value)
  {
  }
}
