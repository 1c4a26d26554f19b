/**
 * The encoding step of the send routes: `Buffer.toString('base64')` (section 4 of
 * RFC 4648, with `=` padding) followed by `.replace(/\+/g, '-')`, `.replace(/\//g, '_')`
 * and `.replace(/=+$/, '')`. The result is the unpadded base64url encoding of
 * section 5 of RFC 4648, padding omitted as section 3.2 permits.
 */
module Base64Url {
  import opened Wrappers
  import opened Bytes

  /** A 6-bit group, the index of one base64 character. */
  type sextet = x: int | 0 <= x < 64

  /** Table 1 of RFC 4648 (the standard alphabet). */
  function StdChar(x: sextet): char {
    if x < 26 then ('A' as int + x) as char
    else if x < 52 then ('a' as int + (x - 26)) as char
    else if x < 62 then ('0' as int + (x - 52)) as char
    else if x == 62 then '+'
    else '/'
  }

  /** Table 2 of RFC 4648 (the URL- and filename-safe alphabet). */
  function UrlChar(x: sextet): (c: char)
    ensures IsUrlSafe(c) && c != '='
  {
    if x < 26 then ('A' as int + x) as char
    else if x < 52 then ('a' as int + (x - 26)) as char
    else if x < 62 then ('0' as int + (x - 52)) as char
    else if x == 62 then '-'
    else '_'
  }

  /** `[A-Za-z0-9_-]`. */
  predicate IsUrlSafe(c: char) {
    'A' <= c <= 'Z' || 'a' <= c <= 'z' || '0' <= c <= '9' || c == '-' || c == '_'
  }

  /** The inverse of `UrlChar`. */
  function UrlIndex(c: char): (r: Option<sextet>)
    ensures r.Some? <==> IsUrlSafe(c)
    ensures r.Some? ==> UrlChar(r.value) == c
  {
    if 'A' <= c <= 'Z' then Some(c as int - 'A' as int)
    else if 'a' <= c <= 'z' then Some(c as int - 'a' as int + 26)
    else if '0' <= c <= '9' then Some(c as int - '0' as int + 52)
    else if c == '-' then Some(62)
    else if c == '_' then Some(63)
    else None
  }

  /** Number of characters in the unpadded encoding of `n` bytes. */
  function UnpaddedLength(n: nat): nat {
    4 * (n / 3) + (if n % 3 == 0 then 0 else if n % 3 == 1 then 2 else 3)
  }

  /** The four 6-bit groups of a 3-byte quantum `b0 b1 b2`. */
  function S0(b0: byte): sextet { b0 / 4 }
  function S1(b0: byte, b1: byte): sextet { (b0 % 4) * 16 + b1 / 16 }
  function S2(b1: byte, b2: byte): sextet { (b1 % 16) * 4 + b2 / 64 }
  function S3(b2: byte): sextet { b2 % 64 }

  /** The three bytes of a 4-sextet quantum `x0 x1 x2 x3`. */
  function B0(x0: sextet, x1: sextet): byte { x0 as int * 4 + x1 as int / 16 }
  function B1(x1: sextet, x2: sextet): byte { (x1 as int % 16) * 16 + x2 as int / 4 }
  function B2(x2: sextet, x3: sextet): byte { (x2 as int % 4) * 64 + x3 as int }

  /** The 6-bit groups of `bs`, three bytes to four groups, a final partial group zero-filled. */
  function Sextets(bs: seq<byte>): (r: seq<sextet>)
    ensures |r| == UnpaddedLength(|bs|)
    decreases |bs|
  {
    if |bs| == 0 then []
    else if |bs| == 1 then [S0(bs[0]), S1(bs[0], 0)]
    else if |bs| == 2 then [S0(bs[0]), S1(bs[0], bs[1]), S2(bs[1], 0)]
    else [S0(bs[0]), S1(bs[0], bs[1]), S2(bs[1], bs[2]), S3(bs[2])] + Sextets(bs[3..])
  }

  /** Splitting a quantum into sextets and joining them again gives the bytes back. */
  lemma {:induction false} BytesOfSextets(b0: byte, b1: byte, b2: byte)
    ensures B0(S0(b0), S1(b0, b1)) == b0
    ensures B1(S1(b0, b1), S2(b1, b2)) == b1
    ensures B2(S2(b1, b2), S3(b2)) == b2
  {
  }

  /** A zero-filled partial quantum leaves its fill bits clear. */
  lemma {:induction false} ZeroFill(b0: byte, b1: byte)
    ensures S1(b0, 0) % 16 == 0
    ensures S2(b1, 0) % 4 == 0
  {
    var q := b0 % 4;
    assert S1(b0, 0) == q * 16;
    var r := b1 % 16;
    assert S2(b1, 0) == r * 4;
  }

  /** Joining four sextets into bytes and splitting them again gives the sextets back. */
  lemma {:induction false} SextetsOfBytes(x0: sextet, x1: sextet, x2: sextet, x3: sextet)
    ensures S0(B0(x0, x1)) == x0
    ensures S1(B0(x0, x1), B1(x1, x2)) == x1
    ensures S2(B1(x1, x2), B2(x2, x3)) == x2
    ensures S3(B2(x2, x3)) == x3
    ensures x1 % 16 == 0 ==> S1(B0(x0, x1), 0) == x1
    ensures x2 % 4 == 0 ==> S2(B1(x1, x2), 0) == x2
  {
  }

  function StdChars(xs: seq<sextet>): string {
    seq(|xs|, i requires 0 <= i < |xs| => StdChar(xs[i]))
  }

  function UrlChars(xs: seq<sextet>): string {
    seq(|xs|, i requires 0 <= i < |xs| => UrlChar(xs[i]))
  }

  /** The `=` padding that completes the last quantum to four characters. */
  function Padding(n: nat): string {
    if n % 3 == 1 then "==" else if n % 3 == 2 then "=" else ""
  }

  /** `Buffer.from(bs).toString('base64')`: whole 4-character quanta (section 4 of RFC 4648). */
  function StdEncode(bs: seq<byte>): (r: string)
    ensures |r| == 4 * ((|bs| + 2) / 3)
  {
    StdChars(Sextets(bs)) + Padding(|bs|)
  }

  /** `s.replace(/<from>/g, to)` for a single-character pattern. */
  function ReplaceAll(s: string, from: char, to: char): (r: string)
    ensures |r| == |s|
    ensures forall i :: 0 <= i < |s| && r[i] != s[i] ==> s[i] == from && r[i] == to
    ensures from != to ==> from !in r
  {
    seq(|s|, i requires 0 <= i < |s| => if s[i] == from then to else s[i])
  }

  /** `s.replace(/c+$/, '')`: removes the longest run of `c` that ends the string. */
  function StripTrailing(s: string, c: char): (r: string)
    ensures r <= s
    ensures |r| > 0 ==> r[|r| - 1] != c
    ensures forall i :: |r| <= i < |s| ==> s[i] == c
    decreases |s|
  {
    if |s| > 0 && s[|s| - 1] == c then StripTrailing(s[..|s| - 1], c) else s
  }

  /** The encoding exactly as the route chains it. */
  function EncodeAsRoute(bs: seq<byte>): string {
    StripTrailing(ReplaceAll(ReplaceAll(StdEncode(bs), '+', '-'), '/', '_'), '=')
  }

  /** Reference definition: unpadded base64url (section 5 of RFC 4648, section 3.2 padding omitted). */
  function EncodeUnpadded(bs: seq<byte>): string {
    UrlChars(Sextets(bs))
  }

  lemma {:induction false} StripPadding(u: string, pad: string)
    requires forall i :: 0 <= i < |pad| ==> pad[i] == '='
    requires |u| > 0 ==> u[|u| - 1] != '='
    ensures StripTrailing(u + pad, '=') == u
    decreases |pad|
  {
    if |pad| > 0 {
      assert (u + pad)[..|u + pad| - 1] == u + pad[..|pad| - 1];
      StripPadding(u, pad[..|pad| - 1]);
    } else {
      assert u + pad == u;
    }
  }

  /** The route's replace chain computes the unpadded base64url encoding. */
  lemma {:induction false} RouteIsUnpaddedBase64Url(bs: seq<byte>)
    ensures EncodeAsRoute(bs) == EncodeUnpadded(bs)
  {
    var xs := Sextets(bs);
    var replaced := ReplaceAll(ReplaceAll(StdEncode(bs), '+', '-'), '/', '_');
    assert replaced == UrlChars(xs) + Padding(|bs|);
    StripPadding(UrlChars(xs), Padding(|bs|));
  }

  /** What the route hands to Gmail: only `[A-Za-z0-9_-]`, of length 4*(n/3) plus 0, 2 or 3. */
  lemma {:induction false} EncodeAsRouteShape(bs: seq<byte>)
    ensures |EncodeAsRoute(bs)| == UnpaddedLength(|bs|)
    ensures forall i :: 0 <= i < |EncodeAsRoute(bs)| ==> IsUrlSafe(EncodeAsRoute(bs)[i])
  {
    RouteIsUnpaddedBase64Url(bs);
  }

  /** The sextets of a string of base64url characters. */
  function Indices(s: string): (r: Option<seq<sextet>>)
    ensures r.Some? ==> |r.value| == |s|
  {
    if |s| == 0 then Some([])
    else match UrlIndex(s[0])
      case None => None
      case Some(x) =>
        match Indices(s[1..])
        case None => None
        case Some(xs) => Some([x] + xs)
  }

  /**
   * Bytes of a sequence of sextets; a length of 1 mod 4 and non-zero
   * fill bits in a final partial quantum are rejected (canonical decoding).
   */
  function DecodeSextets(xs: seq<sextet>): Option<seq<byte>>
    decreases |xs|
  {
    if |xs| == 0 then Some([])
    else if |xs| == 1 then None
    else if |xs| == 2 then
      if xs[1] % 16 == 0 then Some([B0(xs[0], xs[1])]) else None
    else if |xs| == 3 then
      if xs[2] % 4 == 0 then Some([B0(xs[0], xs[1]), B1(xs[1], xs[2])]) else None
    else
      match DecodeSextets(xs[4..])
      case None => None
      case Some(rest) => Some([B0(xs[0], xs[1]), B1(xs[1], xs[2]), B2(xs[2], xs[3])] + rest)
  }

  /** Unpadded base64url decoding. */
  function Decode(s: string): Option<seq<byte>> {
    match Indices(s)
    case None => None
    case Some(xs) => DecodeSextets(xs)
  }

  lemma {:induction false} IndicesUrlChars(xs: seq<sextet>)
    ensures Indices(UrlChars(xs)) == Some(xs)
  {
    if |xs| > 0 {
      assert UrlChars(xs)[1..] == UrlChars(xs[1..]);
      IndicesUrlChars(xs[1..]);
      assert [xs[0]] + xs[1..] == xs;
    }
  }

  lemma {:induction false} DecodeOneByte(b0: byte)
    ensures DecodeSextets(Sextets([b0])) == Some([b0])
  {
    var xs := [S0(b0), S1(b0, 0)];
    assert Sextets([b0]) == xs;
    ZeroFill(b0, 0);
    assert DecodeSextets(xs) == Some([B0(xs[0], xs[1])]);
    BytesOfSextets(b0, 0, 0);
  }

  lemma {:induction false} DecodeTwoBytes(b0: byte, b1: byte)
    ensures DecodeSextets(Sextets([b0, b1])) == Some([b0, b1])
  {
    var xs := [S0(b0), S1(b0, b1), S2(b1, 0)];
    assert Sextets([b0, b1]) == xs;
    BytesOfSextets(b0, b1, 0);
    ZeroFill(b0, b1);
  }

  lemma {:induction false} DecodeShortSextets(bs: seq<byte>)
    requires |bs| < 3
    ensures DecodeSextets(Sextets(bs)) == Some(bs)
  {
    if |bs| == 1 {
      assert bs == [bs[0]];
      DecodeOneByte(bs[0]);
    } else if |bs| == 2 {
      assert bs == [bs[0], bs[1]];
      DecodeTwoBytes(bs[0], bs[1]);
    }
  }

  lemma {:induction false} DecodeQuantum(xs: seq<sextet>, rest: seq<byte>)
    requires |xs| >= 4 && DecodeSextets(xs[4..]) == Some(rest)
    ensures DecodeSextets(xs) == Some([B0(xs[0], xs[1]), B1(xs[1], xs[2]), B2(xs[2], xs[3])] + rest)
  {
  }

  lemma {:induction false} DecodeSextetsOfBytes(bs: seq<byte>)
    ensures DecodeSextets(Sextets(bs)) == Some(bs)
    decreases |bs|
  {
    if |bs| < 3 {
      DecodeShortSextets(bs);
    } else {
      var xs := Sextets(bs);
      assert xs[..4] == [S0(bs[0]), S1(bs[0], bs[1]), S2(bs[1], bs[2]), S3(bs[2])];
      assert xs[4..] == Sextets(bs[3..]);
      DecodeSextetsOfBytes(bs[3..]);
      DecodeQuantum(xs, bs[3..]);
      BytesOfSextets(bs[0], bs[1], bs[2]);
      assert bs == [bs[0], bs[1], bs[2]] + bs[3..];
    }
  }

  /** Round trip: decoding what the route sends returns the message bytes. */
  lemma {:induction false} DecodeEncodeAsRoute(bs: seq<byte>)
    ensures Decode(EncodeAsRoute(bs)) == Some(bs)
  {
    RouteIsUnpaddedBase64Url(bs);
    IndicesUrlChars(Sextets(bs));
    DecodeSextetsOfBytes(bs);
  }

  lemma {:induction false} UrlCharsIndices(s: string, xs: seq<sextet>)
    requires Indices(s) == Some(xs)
    ensures UrlChars(xs) == s
  {
    if |s| > 0 {
      var x := UrlIndex(s[0]).value;
      var rest := Indices(s[1..]).value;
      assert xs == [x] + rest;
      UrlCharsIndices(s[1..], rest);
      assert UrlChars(xs)[1..] == UrlChars(rest);
    }
  }

  lemma {:induction false} SextetsOfDecoded(xs: seq<sextet>, bs: seq<byte>)
    requires DecodeSextets(xs) == Some(bs)
    ensures Sextets(bs) == xs
    decreases |xs|
  {
    if |xs| >= 2 {
      SextetsOfBytes(xs[0], xs[1], if |xs| > 2 then xs[2] else 0, if |xs| > 3 then xs[3] else 0);
    }
    if |xs| >= 4 {
      var rest := DecodeSextets(xs[4..]).value;
      SextetsOfDecoded(xs[4..], rest);
      assert bs == [bs[0], bs[1], bs[2]] + rest;
      assert bs[3..] == rest;
      assert xs == xs[..4] + xs[4..];
    } else if |xs| == 3 {
      assert xs == [xs[0], xs[1], xs[2]];
    } else if |xs| == 2 {
      assert xs == [xs[0], xs[1]];
    }
  }

  /** Decoding is canonical: a string decodes to `bs` exactly when it is the encoding of `bs`. */
  lemma {:induction false} DecodeExactlyEncodings(s: string, bs: seq<byte>)
    ensures Decode(s) == Some(bs) <==> EncodeUnpadded(bs) == s
  {
    if Decode(s) == Some(bs) {
      UrlCharsIndices(s, Indices(s).value);
      SextetsOfDecoded(Indices(s).value, bs);
    }
    if EncodeUnpadded(bs) == s {
      IndicesUrlChars(Sextets(bs));
      DecodeSextetsOfBytes(bs);
    }
  }
}
