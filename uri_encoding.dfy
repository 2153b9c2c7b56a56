/**
 * encodeURIComponent as ECMA-262 defines it (section 19.2.6, URI Handling
 * Functions): every character outside the unescaped set is converted to UTF-8
 * and each octet is written as a percent-encoded triplet `%XX` with upper-case
 * hexadecimal digits (section 2.1 of RFC 3986). The unescaped set is the
 * unreserved set of section 2.3 of RFC 3986 (ALPHA, DIGIT, `-`, `.`, `_`, `~`)
 * plus `!`, `*`, `'`, `(` and `)`.
 *
 * decodeURIComponent, its inverse, is given as the partner definition: the
 * round trip DecodeURIComponent(EncodeURIComponent(s)) == Some(s) is part of
 * the encoder's contract.
 *
 * Strings are sequences of Unicode scalar values, so the lone surrogates
 * for which the JavaScript function throws a URIError cannot occur.
 */
module UriEncoding {
  import opened Wrappers

  type Byte = b: int | 0 <= b < 256

  /** Characters that encodeURIComponent copies unchanged. */
  predicate IsUnescaped(c: char) {
    ('A' <= c <= 'Z') || ('a' <= c <= 'z') || ('0' <= c <= '9') ||
    c in "-_.!~*'()"
  }

  /** The digits the encoder writes: 0-9 and upper-case A-F. */
  predicate IsUpperHex(c: char) {
    ('0' <= c <= '9') || ('A' <= c <= 'F')
  }

  /** The digits the decoder accepts: either case. */
  predicate IsHexDigit(c: char) {
    IsUpperHex(c) || ('a' <= c <= 'f')
  }

  function HexValue(c: char): (d: int)
    requires IsHexDigit(c)
    ensures 0 <= d < 16
  {
    if '0' <= c <= '9' then c as int - '0' as int
    else if 'A' <= c <= 'F' then c as int - 'A' as int + 10
    else c as int - 'a' as int + 10
  }

  function HexDigit(d: int): (c: char)
    requires 0 <= d < 16
    ensures IsUpperHex(c) && HexValue(c) == d
  {
    if d < 10 then ('0' as int + d) as char else ('A' as int + d - 10) as char
  }

  /** The UTF-8 octets of one scalar value (1 to 4 of them). */
  function Utf8(c: char): (bs: seq<Byte>)
    ensures 1 <= |bs| <= 4
  {
    var cp := c as int;
    if cp < 0x80 then [cp]
    else if cp < 0x800 then [0xC0 + cp / 64, 0x80 + cp % 64]
    else if cp < 0x10000 then [0xE0 + cp / 4096, 0x80 + cp / 64 % 64, 0x80 + cp % 64]
    else [0xF0 + cp / 262144, 0x80 + cp / 4096 % 64, 0x80 + cp / 64 % 64, 0x80 + cp % 64]
  }

  /** One octet as `%XX`. */
  function Triplet(b: Byte): string {
    ['%', HexDigit(b / 16), HexDigit(b % 16)]
  }

  function Escape(bs: seq<Byte>): (r: string)
    ensures |r| == 3 * |bs|
  {
    if bs == [] then [] else Triplet(bs[0]) + Escape(bs[1..])
  }

  function EncodeChar(c: char): string {
    if IsUnescaped(c) then [c] else Escape(Utf8(c))
  }

  /** The output alphabet of the encoder: unescaped characters and `%XX`
      triplets with upper-case hexadecimal digits, and nothing else. */
  predicate IsEncoded(r: string)
    decreases |r|
  {
    if r == [] then true
    else if r[0] == '%' then
      |r| >= 3 && IsUpperHex(r[1]) && IsUpperHex(r[2]) && IsEncoded(r[3..])
    else IsUnescaped(r[0]) && IsEncoded(r[1..])
  }

  // ---------------------------------------------------------------------
  // decodeURIComponent
  // ---------------------------------------------------------------------

  /** The octet written by a `%XX` triplet at the start of `r`, if any. */
  function ReadOctet(r: string): (o: Option<Byte>)
    ensures o.Some? ==> |r| >= 3
  {
    if |r| >= 3 && r[0] == '%' && IsHexDigit(r[1]) && IsHexDigit(r[2])
    then Some(16 * HexValue(r[1]) + HexValue(r[2]))
    else None
  }

  /** The octets of `n` consecutive triplets at the start of `r`, if any. */
  function ReadOctets(r: string, n: nat): (o: Option<seq<Byte>>)
    ensures o.Some? ==> |o.value| == n && 3 * n <= |r|
    decreases n
  {
    if n == 0 then Some([])
    else match ReadOctet(r)
      case None => None
      case Some(b) =>
        match ReadOctets(r[3..], n - 1)
        case None => None
        case Some(rest) => Some([b] + rest)
  }

  /** How many octets a UTF-8 sequence starting with `lead` has; 0 when
      `lead` cannot start one (a continuation octet, or five or more leading
      one bits). */
  function SequenceLength(lead: Byte): nat {
    if lead < 0x80 then 1
    else if lead < 0xC0 then 0
    else if lead < 0xE0 then 2
    else if lead < 0xF0 then 3
    else if lead < 0xF8 then 4
    else 0
  }

  predicate IsContinuation(b: Byte) {
    0x80 <= b < 0xC0
  }

  /** The scalar value encoded by exactly the octets `bs`; None for an
      overlong form, a surrogate, a value past U+10FFFF or a malformed
      sequence. */
  function Utf8Decode(bs: seq<Byte>): Option<char> {
    if |bs| == 0 || SequenceLength(bs[0]) != |bs| then None
    else if |bs| == 1 then Some(bs[0] as char)
    else if !IsContinuation(bs[1]) then None
    else if |bs| == 2 then
      var v: int := (bs[0] as int - 0xC0) * 64 + (bs[1] as int - 0x80);
      if v < 0x80 then None else Some(v as char)
    else if !IsContinuation(bs[2]) then None
    else if |bs| == 3 then
      var v: int := (bs[0] as int - 0xE0) * 4096 + (bs[1] as int - 0x80) * 64 + (bs[2] as int - 0x80);
      if v < 0x800 || (0xD800 <= v < 0xE000) then None else Some(v as char)
    else if !IsContinuation(bs[3]) then None
    else
      var v: int := (bs[0] as int - 0xF0) * 262144 + (bs[1] as int - 0x80) * 4096
        + (bs[2] as int - 0x80) * 64 + (bs[3] as int - 0x80);
      if v < 0x10000 || v >= 0x110000 then None else Some(v as char)
  }

  function DecodeURIComponent(r: string): Option<string>
    decreases |r|
  {
    if r == [] then Some([])
    else if r[0] != '%' then
      match DecodeURIComponent(r[1..])
      case None => None
      case Some(t) => Some([r[0]] + t)
    else match ReadOctet(r)
      case None => None
      case Some(lead) =>
        var n := SequenceLength(lead);
        if n == 0 then None
        else match ReadOctets(r, n)
          case None => None
          case Some(bs) =>
            match Utf8Decode(bs)
            case None => None
            case Some(c) =>
              match DecodeURIComponent(r[3 * n..])
              case None => None
              case Some(t) => Some([c] + t)
  }

  // ---------------------------------------------------------------------
  // The output alphabet
  // ---------------------------------------------------------------------

  lemma {:induction false} EncodedConcat(a: string, b: string)
    requires IsEncoded(a) && IsEncoded(b)
    ensures IsEncoded(a + b)
    decreases |a|
  {
    if a == [] {
      assert a + b == b;
    } else if a[0] == '%' {
      assert (a + b)[3..] == a[3..] + b;
      EncodedConcat(a[3..], b);
    } else {
      assert (a + b)[1..] == a[1..] + b;
      EncodedConcat(a[1..], b);
    }
  }

  lemma {:induction false} EscapeEncoded(bs: seq<Byte>)
    ensures IsEncoded(Escape(bs))
  {
    if bs != [] {
      var t := Triplet(bs[0]);
      EscapeEncoded(bs[1..]);
      assert IsEncoded(t) by { assert t[3..] == []; }
      EncodedConcat(t, Escape(bs[1..]));
    }
  }

  lemma EncodeCharEncoded(c: char)
    ensures IsEncoded(EncodeChar(c))
  {
    if IsUnescaped(c) {
      assert IsEncoded([c]) by { assert [c][1..] == []; }
    } else {
      EscapeEncoded(Utf8(c));
    }
  }

  // ---------------------------------------------------------------------
  // The round trip
  // ---------------------------------------------------------------------

  lemma TripletRead(b: Byte, rest: string)
    ensures ReadOctet(Triplet(b) + rest) == Some(b)
  {
    var r := Triplet(b) + rest;
    assert r[0] == '%' && r[1] == HexDigit(b / 16) && r[2] == HexDigit(b % 16);
  }

  lemma {:induction false} EscapeRead(bs: seq<Byte>, rest: string)
    ensures ReadOctets(Escape(bs) + rest, |bs|) == Some(bs)
  {
    if bs != [] {
      var r := Escape(bs) + rest;
      assert r == Triplet(bs[0]) + (Escape(bs[1..]) + rest);
      TripletRead(bs[0], Escape(bs[1..]) + rest);
      assert r[3..] == Escape(bs[1..]) + rest;
      EscapeRead(bs[1..], rest);
      assert [bs[0]] + bs[1..] == bs;
    }
  }

  lemma Utf8RoundTrip(c: char)
    ensures SequenceLength(Utf8(c)[0]) == |Utf8(c)|
    ensures Utf8Decode(Utf8(c)) == Some(c)
  {
    var cp := c as int;
    if cp < 0x80 {
    } else if cp < 0x800 {
      assert (cp / 64) * 64 + cp % 64 == cp;
    } else if cp < 0x10000 {
      var q := cp / 64;
      assert q * 64 + cp % 64 == cp;
      assert (q / 64) * 64 + q % 64 == q;
      assert cp / 4096 == q / 64;
    } else {
      var q := cp / 64;
      var p := q / 64;
      assert q * 64 + cp % 64 == cp;
      assert p * 64 + q % 64 == q;
      assert (p / 64) * 64 + p % 64 == p;
      assert cp / 4096 == p;
      assert cp / 262144 == p / 64;
    }
  }

  lemma EncodeCharDecode(c: char, rest: string)
    ensures DecodeURIComponent(EncodeChar(c) + rest) ==
      match DecodeURIComponent(rest)
      case None => None
      case Some(t) => Some([c] + t)
  {
    var r := EncodeChar(c) + rest;
    if IsUnescaped(c) {
      assert r[0] == c && r[1..] == rest;
    } else {
      var bs := Utf8(c);
      Utf8RoundTrip(c);
      var n := |bs|;
      assert bs == [bs[0]] + bs[1..];
      assert Escape(bs) + rest == Triplet(bs[0]) + (Escape(bs[1..]) + rest);
      TripletRead(bs[0], Escape(bs[1..]) + rest);
      EscapeRead(bs, rest);
      assert r[3 * n..] == rest;
    }
  }

  /** encodeURIComponent: everything it writes lies in its output alphabet
      (unescaped characters and upper-case `%XX` triplets), and
      decodeURIComponent gives the input back. */
  function EncodeURIComponent(s: string): (r: string)
    ensures IsEncoded(r)
    ensures DecodeURIComponent(r) == Some(s)
  {
    if s == [] then []
    else
      var c, tail := s[0], EncodeURIComponent(s[1..]);
      EncodeCharEncoded(c);
      EncodedConcat(EncodeChar(c), tail);
      EncodeCharDecode(c, tail);
      assert [c] + s[1..] == s;
      EncodeChar(c) + tail
  }

  /** Different strings have different encodings. */
  lemma EncodeInjective(s: string, t: string)
    requires EncodeURIComponent(s) == EncodeURIComponent(t)
    ensures s == t
  {
  }
}
