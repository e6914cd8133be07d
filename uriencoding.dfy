/** `encodeURIComponent` and `decodeURIComponent` (ECMAScript, section 19.2.6 of
    ECMA-262): percent-encoding of the UTF-8 octets of every character outside the
    unreserved set of section 2.3 of RFC 3986 (plus `! ~ * ' ( )`), triplets written with
    upper-case hexadecimal digits as section 2.1 of RFC 3986 recommends. */
module UriEncoding {
  import opened Wrappers

  /** The characters `encodeURIComponent` copies unchanged. */
  predicate Unreserved(c: char) {
    ('A' <= c <= 'Z') || ('a' <= c <= 'z') || ('0' <= c <= '9')
    || c == '-' || c == '_' || c == '.' || c == '!' || c == '~' || c == '*' || c == '\''
    || c == '(' || c == ')'
  }

  predicate UpperHex(c: char) {
    ('0' <= c <= '9') || ('A' <= c <= 'F')
  }

  function HexDigit(d: nat): (c: char)
    requires d < 16
    ensures UpperHex(c)
  {
    if d < 10 then ('0' as int + d) as char else ('A' as int + d - 10) as char
  }

  /** A hexadecimal digit of either case. */
  function HexValue(c: char): Option<nat> {
    if '0' <= c <= '9' then Some(c as int - '0' as int)
    else if 'A' <= c <= 'F' then Some(c as int - 'A' as int + 10)
    else if 'a' <= c <= 'f' then Some(c as int - 'a' as int + 10)
    else None
  }

  // ---------------------------------------------------------------- UTF-8

  /** The UTF-8 encoding of one Unicode scalar value (RFC 3629, section 3). */
  function Utf8(c: char): (bs: seq<byte>)
    ensures 1 <= |bs| <= 4
  {
    var cp := c as int;
    var q1, r1 := cp / 64, cp % 64;
    var q2, r2 := q1 / 64, q1 % 64;
    var q3, r3 := q2 / 64, q2 % 64;
    if cp < 0x80 then [cp as byte]
    else if cp < 0x800 then [(0xC0 + q1) as byte, (0x80 + r1) as byte]
    else if cp < 0x10000 then [(0xE0 + q2) as byte, (0x80 + r2) as byte, (0x80 + r1) as byte]
    else [(0xF0 + q3) as byte, (0x80 + r3) as byte, (0x80 + r2) as byte, (0x80 + r1) as byte]
  }

  /** The length of the sequence a lead octet opens; 0 for an octet that cannot lead. */
  function SequenceLength(lead: byte): nat {
    if lead < 0x80 then 1
    else if 0xC0 <= lead < 0xE0 then 2
    else if 0xE0 <= lead < 0xF0 then 3
    else if 0xF0 <= lead < 0xF8 then 4
    else 0
  }

  predicate Continuation(b: byte) {
    0x80 <= b < 0xC0
  }

  /** Decoding one UTF-8 sequence: continuation octets must be `10xxxxxx`, and overlong
      forms, surrogates and values above U+10FFFF are rejected. */
  function DecodeUtf8(bs: seq<byte>): Option<char>
    requires 1 <= |bs| <= 4 && SequenceLength(bs[0]) == |bs|
  {
    if |bs| == 1 then Some(bs[0] as int as char)
    else if !Continuation(bs[1]) then None
    else if |bs| == 2 then
      var cp := (bs[0] as int - 0xC0) * 64 + (bs[1] as int - 0x80);
      if cp < 0x80 then None else Some(cp as char)
    else if !Continuation(bs[2]) then None
    else if |bs| == 3 then
      var cp := ((bs[0] as int - 0xE0) * 64 + (bs[1] as int - 0x80)) * 64 + (bs[2] as int - 0x80);
      if cp < 0x800 || (0xD800 <= cp < 0xE000) then None else Some(cp as char)
    else if !Continuation(bs[3]) then None
    else
      var cp := (((bs[0] as int - 0xF0) * 64 + (bs[1] as int - 0x80)) * 64
                 + (bs[2] as int - 0x80)) * 64 + (bs[3] as int - 0x80);
      if cp < 0x10000 || cp > 0x10FFFF then None else Some(cp as char)
  }

  lemma Utf8Shape(c: char)
    ensures SequenceLength(Utf8(c)[0]) == |Utf8(c)|
    ensures forall i :: 1 <= i < |Utf8(c)| ==> Continuation(Utf8(c)[i])
  {
  }

  /** Every scalar value survives a UTF-8 round trip. */
  lemma Utf8RoundTrip(c: char)
    ensures SequenceLength(Utf8(c)[0]) == |Utf8(c)|
    ensures DecodeUtf8(Utf8(c)) == Some(c)
  {
    Utf8Shape(c);
  }

  // ---------------------------------------------------------------- percent-encoding

  function PercentByte(b: byte): (r: string)
    ensures |r| == 3 && r[0] == '%' && UpperHex(r[1]) && UpperHex(r[2])
  {
    ['%', HexDigit(b as int / 16), HexDigit(b as int % 16)]
  }

  function PercentBytes(bs: seq<byte>): (r: string)
    ensures |r| == 3 * |bs|
  {
    if bs == [] then [] else PercentByte(bs[0]) + PercentBytes(bs[1..])
  }

  function EncodeChar(c: char): string {
    if Unreserved(c) then [c] else PercentBytes(Utf8(c))
  }

  /** `encodeURIComponent(s)`. Dafny strings hold scalar values only, so the lone-surrogate
      error case of ECMAScript does not arise. */
  function EncodeUriComponent(s: string): string {
    if s == [] then [] else EncodeChar(s[0]) + EncodeUriComponent(s[1..])
  }

  /** Reads `k` percent triplets at the front of `s`. */
  function ReadTriplets(s: string, k: nat): (r: Option<seq<byte>>)
    ensures r.Some? ==> |r.value| == k && 3 * k <= |s|
  {
    if k == 0 then Some([])
    else if |s| < 3 || s[0] != '%' then None
    else match (HexValue(s[1]), HexValue(s[2]))
      case (Some(hi), Some(lo)) =>
        (match ReadTriplets(s[3..], k - 1)
         case Some(tail) => Some([(hi * 16 + lo) as byte] + tail)
         case None => None)
      case _ => None
  }

  /** The first of `k` triplets is the one triplet read alone. */
  lemma ReadTripletsHead(s: string, k: nat)
    requires k >= 1 && ReadTriplets(s, k).Some?
    ensures ReadTriplets(s, 1) == Some([ReadTriplets(s, k).value[0]])
  {
    var b := (HexValue(s[1]).value * 16 + HexValue(s[2]).value) as byte;
    assert ReadTriplets(s, k).value == [b] + ReadTriplets(s[3..], k - 1).value;
    assert ReadTriplets(s[3..], 0) == Some([]);
    assert [b] + [] == [b];
  }

  function Cons(c: char, rest: Option<string>): Option<string> {
    match rest
    case Some(t) => Some([c] + t)
    case None => None
  }

  /** `decodeURIComponent(s)`: `None` is the URIError ECMAScript throws for a malformed
      triplet, a bad lead or continuation octet, or an invalid UTF-8 sequence. */
  function DecodeUriComponent(s: string): Option<string>
    decreases |s|
  {
    if s == [] then Some([])
    else if s[0] != '%' then Cons(s[0], DecodeUriComponent(s[1..]))
    else
      match ReadTriplets(s, 1)
      case None => None
      case Some(lead) =>
        var n := SequenceLength(lead[0]);
        if n == 0 then None
        else
          match ReadTriplets(s, n)
          case None => None
          case Some(bs) =>
            ReadTripletsHead(s, n);
            match DecodeUtf8(bs)
            case None => None
            case Some(c) => Cons(c, DecodeUriComponent(s[3 * n..]))
  }

  // ---------------------------------------------------------------- lemmas

  lemma HexRoundTrip(d: nat)
    requires d < 16
    ensures HexValue(HexDigit(d)) == Some(d)
  {
  }

  lemma {:induction false} ReadPercentBytes(bs: seq<byte>, rest: string)
    ensures ReadTriplets(PercentBytes(bs) + rest, |bs|) == Some(bs)
  {
    if bs != [] {
      var s := PercentBytes(bs) + rest;
      var b := bs[0];
      HexRoundTrip(b as int / 16);
      HexRoundTrip(b as int % 16);
      assert s[..3] == PercentByte(b);
      assert s[3..] == PercentBytes(bs[1..]) + rest;
      ReadPercentBytes(bs[1..], rest);
      assert [bs[0]] + bs[1..] == bs;
    }
  }

  lemma DecodeEncodedChar(c: char, rest: string)
    ensures DecodeUriComponent(EncodeChar(c) + rest) == Cons(c, DecodeUriComponent(rest))
  {
    var s := EncodeChar(c) + rest;
    if Unreserved(c) {
      assert s[0] == c && s[1..] == rest;
    } else {
      var bs := Utf8(c);
      ReadPercentBytes(bs, rest);
      ReadTripletsHead(s, |bs|);
      Utf8RoundTrip(c);
      assert s[0] == '%';
      assert s[3 * |bs|..] == rest;
    }
  }

  /** `decodeURIComponent` inverts `encodeURIComponent`. */
  lemma {:induction false} DecodeEncode(s: string)
    ensures DecodeUriComponent(EncodeUriComponent(s)) == Some(s)
  {
    if s != [] {
      DecodeEncodedChar(s[0], EncodeUriComponent(s[1..]));
      DecodeEncode(s[1..]);
      assert [s[0]] + s[1..] == s;
    }
  }

  /** Encoding twice and decoding twice is the identity. */
  lemma DecodeTwiceEncodeTwice(s: string)
    ensures DecodeUriComponent(EncodeUriComponent(EncodeUriComponent(s)))
            == Some(EncodeUriComponent(s))
    ensures DecodeUriComponent(DecodeUriComponent(EncodeUriComponent(EncodeUriComponent(s))).value)
            == Some(s)
  {
    DecodeEncode(EncodeUriComponent(s));
    DecodeEncode(s);
  }

  /** The encoded text is drawn from the unreserved characters, `%` and upper-case hex. */
  predicate EncodedAlphabet(t: string) {
    forall i :: 0 <= i < |t| ==> Unreserved(t[i]) || t[i] == '%' || UpperHex(t[i])
  }

  lemma {:induction false} PercentBytesAlphabet(bs: seq<byte>)
    ensures EncodedAlphabet(PercentBytes(bs))
  {
    if bs != [] {
      PercentBytesAlphabet(bs[1..]);
      var t := PercentBytes(bs);
      assert forall i :: 3 <= i < |t| ==> t[i] == PercentBytes(bs[1..])[i - 3];
    }
  }

  lemma {:induction false} EncodeAlphabet(s: string)
    ensures EncodedAlphabet(EncodeUriComponent(s))
  {
    if s != [] {
      EncodeAlphabet(s[1..]);
      PercentBytesAlphabet(Utf8(s[0]));
      var h := EncodeChar(s[0]);
      var t := EncodeUriComponent(s);
      assert forall i :: |h| <= i < |t| ==> t[i] == EncodeUriComponent(s[1..])[i - |h|];
    }
  }

  /** Encoded text holds none of the URL delimiters a query string is parsed by, so it can
      stand as one parameter value. */
  lemma EncodeHasNoDelimiters(s: string)
    ensures '&' !in EncodeUriComponent(s) && '=' !in EncodeUriComponent(s)
    ensures '/' !in EncodeUriComponent(s) && '?' !in EncodeUriComponent(s)
    ensures '#' !in EncodeUriComponent(s) && ':' !in EncodeUriComponent(s)
  {
    EncodeAlphabet(s);
    AlphabetHasNoDelimiters(EncodeUriComponent(s));
  }

  lemma AlphabetHasNoDelimiters(t: string)
    requires EncodedAlphabet(t)
    ensures '&' !in t && '=' !in t && '/' !in t && '?' !in t && '#' !in t && ':' !in t
  {
    forall i | 0 <= i < |t|
      ensures t[i] != '&' && t[i] != '=' && t[i] != '/' && t[i] != '?' && t[i] != '#' && t[i] != ':'
    {
    }
  }

  /** Text made of unreserved characters only is its own encoding. */
  lemma {:induction false} EncodeUnreservedIdentity(s: string)
    requires forall i :: 0 <= i < |s| ==> Unreserved(s[i])
    ensures EncodeUriComponent(s) == s
  {
    if s != [] {
      EncodeUnreservedIdentity(s[1..]);
      assert [s[0]] + s[1..] == s;
    }
  }
}
