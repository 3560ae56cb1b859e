/** The capability token that stands in for a Drive file id in every response
    (`ofuscar_id_con_tiempo`): the payload `"<id>|<now + 900>"` is XORed
    character by character with the repeating key `"logoscontexto"`, encoded
    as UTF-8 and then as base64. `Resolve` is the inverse a delivery proxy
    would apply; it is a specification device: the scheme has no integrity
    protection, and anyone holding the key can mint or read tokens. */
module Token {
  import opened Wrappers
  import opened Ascii
  import opened Numerals
  import opened BitXor
  import opened Values
  import Utf8
  import Base64

  const SecretKey: string := "logoscontexto"

  /** Seconds a token stays valid: fifteen minutes. */
  const Ttl: nat := 900

  lemma SecretKeyFacts()
    ensures |SecretKey| == 13
    ensures IsAscii(SecretKey)
  {
  }

  lemma Pow2Seven()
    ensures Pow2(7) == 128
  {
    assert Pow2(1) == 2;
    assert Pow2(2) == 4;
    assert Pow2(3) == 8;
    assert Pow2(4) == 16;
    assert Pow2(5) == 32;
    assert Pow2(6) == 64;
  }

  /** `chr(ord(c) ^ ord(k))` for an ASCII key character: only the low seven
      bits change, so the code stays a Unicode scalar value. */
  function XorChar(c: char, k: char): (r: char)
    requires IsAsciiChar(k)
    ensures r as int == Xor(c as int, k as int)
    ensures r as int / 128 == c as int / 128
  {
    var n := Xor(c as int, k as int);
    Pow2Seven();
    XorLowBits(c as int, k as int, 7);
    SameBlockIsChar(c as int, n);
    n as char
  }

  /** A code in the same block of 128 as a character is a character too:
      the surrogate range and the end of Unicode fall on block boundaries. */
  lemma SameBlockIsChar(c: int, n: nat)
    requires 0 <= c < 0xD800 || 0xE000 <= c < 0x11_0000
    requires n / 128 == c / 128
    ensures n < 0xD800 || 0xE000 <= n < 0x11_0000
  {
    var q := c / 128;
    assert n == 128 * q + n % 128;
    assert c == 128 * q + c % 128;
    if c < 0xD800 {
      assert q < 432;
    } else {
      assert 448 <= q < 8704;
    }
  }

  /** Character `i` of the payload XORed with key character `i mod 13`. */
  function Cipher(p: string): (r: string)
    ensures |r| == |p|
    ensures forall i :: 0 <= i < |p| ==> r[i] as int == Xor(p[i] as int, SecretKey[i % |SecretKey|] as int)
  {
    SecretKeyFacts();
    seq(|p|, i requires 0 <= i < |p| => XorChar(p[i], SecretKey[i % |SecretKey|]))
  }

  /** Applying the cipher twice gives the payload back. */
  lemma CipherInvolutive(p: string)
    ensures Cipher(Cipher(p)) == p
  {
    var c := Cipher(p);
    forall i | 0 <= i < |p|
      ensures Cipher(c)[i] == p[i]
    {
      XorInvolutive(p[i] as int, SecretKey[i % |SecretKey|] as int);
    }
  }

  /** ASCII in, ASCII out: every XORed code stays below 128. */
  lemma CipherKeepsAscii(p: string)
    requires IsAscii(p)
    ensures IsAscii(Cipher(p))
  {
    SecretKeyFacts();
    Pow2Seven();
    forall i | 0 <= i < |p|
      ensures IsAsciiChar(Cipher(p)[i])
    {
      XorBound(p[i] as int, SecretKey[i % |SecretKey|] as int, 7);
    }
  }

  function Expiry(now: nat): nat { now + Ttl }

  function Payload(id: string, now: nat): string {
    id + "|" + NatToString(Expiry(now))
  }

  /** The token for a non-empty id string. */
  function Issue(id: string, now: nat): string {
    Base64.Encode(Utf8.Encode(Cipher(Payload(id, now))))
  }

  /** `ofuscar_id_con_tiempo(drive_id)`: the empty string for a falsy id,
      otherwise the token of `str(drive_id)`. */
  function Obfuscate(driveId: Option<Value>, now: nat): (t: string)
    ensures t == "" <==> driveId.None? || !Truthy(driveId.value)
  {
    if driveId.None? || !Truthy(driveId.value) then ""
    else
      var text := Cipher(Payload(Render(driveId.value), now));
      assert |Utf8.Encode(text)| > 0;
      Issue(Render(driveId.value), now)
  }

  /** Index of the last `c` in `s`. */
  function LastIndexOf(s: string, c: char): (r: Option<nat>)
    ensures r.Some? ==> r.value < |s| && s[r.value] == c
    ensures r.Some? ==> forall j :: r.value < j < |s| ==> s[j] != c
    ensures r.None? ==> forall j :: 0 <= j < |s| ==> s[j] != c
  {
    if s == [] then None
    else if s[|s| - 1] == c then Some(|s| - 1)
    else LastIndexOf(s[..|s| - 1], c)
  }

  /** The id and the expiry digits of a payload, split at its last `|`. */
  function ParsePayload(p: string): Option<(string, nat)> {
    match LastIndexOf(p, '|')
    case None => None
    case Some(k) =>
      var digits := p[k + 1..];
      if IsDigitString(digits) then Some((p[..k], ParseDigits(digits))) else None
  }

  /** What the delivery layer does with a token at time `at`: the id while the
      embedded expiry has not passed, nothing otherwise. */
  function Resolve(token: string, at: int): Option<string> {
    match Base64.Decode(token)
    case None => None
    case Some(bytes) =>
      match Utf8.Decode(bytes)
      case None => None
      case Some(text) =>
        match ParsePayload(Cipher(text))
        case None => None
        case Some((id, expiry)) => if at <= expiry then Some(id) else None
  }

  lemma ParsePayloadOfPayload(id: string, now: nat)
    ensures ParsePayload(Payload(id, now)) == Some((id, Expiry(now)))
  {
    var digits := NatToString(Expiry(now));
    var p := Payload(id, now);
    assert p[|id|] == '|';
    assert forall j :: |id| < j < |p| ==> p[j] == digits[j - |id| - 1];
    var k := LastIndexOf(p, '|');
    assert k == Some(|id|);
    assert p[|id| + 1..] == digits;
    assert p[..|id|] == id;
  }

  /** The token round trip: resolving the token minted at `now` for a non-empty
      id gives the id back exactly while `at <= now + 900`, and nothing after. */
  lemma ResolveIssue(id: string, now: nat, at: int)
    ensures Resolve(Issue(id, now), at) == (if at <= now + Ttl then Some(id) else None)
  {
    var p := Payload(id, now);
    var c := Cipher(p);
    Base64.DecodeEncode(Utf8.Encode(c));
    Utf8.DecodeEncode(c);
    CipherInvolutive(p);
    ParsePayloadOfPayload(id, now);
  }

  /** For an ASCII payload the UTF-8 step is the identity on character codes,
      so the token is the base64 of the XORed codes themselves. */
  lemma AsciiTokenBytes(id: string, now: nat)
    requires IsAscii(id)
    ensures IsAscii(Payload(id, now))
    ensures |Utf8.Encode(Cipher(Payload(id, now)))| == |Payload(id, now)|
    ensures forall i :: 0 <= i < |Payload(id, now)| ==>
              Utf8.Encode(Cipher(Payload(id, now)))[i] == Xor(Payload(id, now)[i] as int, SecretKey[i % 13] as int)
  {
    var p := Payload(id, now);
    var digits := NatToString(Expiry(now));
    assert forall i :: 0 <= i < |digits| ==> IsDigit(digits[i]);
    assert forall i :: 0 <= i < |p| ==> p[i] == (if i < |id| then id[i] else if i == |id| then '|' else digits[i - |id| - 1]);
    CipherKeepsAscii(p);
    Utf8.EncodeAscii(Cipher(p));
    SecretKeyFacts();
  }

  /** A falsy `drive_id` yields the empty token; a truthy one yields a token
      that resolves to `str(drive_id)` until it expires. */
  lemma ObfuscateResolves(driveId: Option<Value>, now: nat, at: int)
    ensures driveId.None? || !Truthy(driveId.value) ==> Obfuscate(driveId, now) == ""
    ensures driveId.Some? && Truthy(driveId.value) ==>
              Resolve(Obfuscate(driveId, now), at) == (if at <= now + Ttl then Some(Render(driveId.value)) else None)
  {
    if driveId.Some? && Truthy(driveId.value) {
      ResolveIssue(Render(driveId.value), now, at);
    }
  }
}
