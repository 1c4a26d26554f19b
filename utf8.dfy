/**
 * UTF-8, as applied by `Buffer.from(string)` before a message is base64-encoded
 * (send-newsletter and send-bulk-newsletter routes). Dafny characters are Unicode
 * scalar values, so every character has exactly one encoding.
 */
module Utf8 {
  import opened Wrappers
  import opened Bytes

  /** The one to four bytes of a scalar value, shortest form. */
  function EncodeChar(c: char): (r: seq<byte>)
    ensures 1 <= |r| <= 4
    ensures |r| == 1 <==> c as int < 0x80
    ensures |r| == 2 <==> 0x80 <= c as int < 0x800
    ensures |r| == 3 <==> 0x800 <= c as int < 0x1_0000
    ensures |r| == 4 <==> 0x1_0000 <= c as int
    ensures |r| == 1 ==> r[0] == c as int
  {
    var cp := c as int;
    if cp < 0x80 then [cp]
    else if cp < 0x800 then [0xC0 + cp / 64, 0x80 + cp % 64]
    else if cp < 0x1_0000 then [0xE0 + cp / 4096, 0x80 + (cp / 64) % 64, 0x80 + cp % 64]
    else [0xF0 + cp / 262144, 0x80 + (cp / 4096) % 64, 0x80 + (cp / 64) % 64, 0x80 + cp % 64]
  }

  /** `Buffer.from(s)` (the default `'utf8'` encoding). */
  function Encode(s: string): (r: seq<byte>)
    ensures |s| <= |r| <= 4 * |s|
  {
    if |s| == 0 then [] else EncodeChar(s[0]) + Encode(s[1..])
  }

  predicate IsContinuation(b: byte) {
    0x80 <= b < 0xC0
  }

  predicate IsScalar(cp: int) {
    0 <= cp < 0xD800 || 0xE000 <= cp < 0x11_0000
  }

  /**
   * The first character of `bs` and the number of bytes it takes, if `bs`
   * starts with a well-formed sequence: overlong forms (a value that fits in
   * fewer bytes), surrogates and values past U+10FFFF are rejected.
   */
  function DecodeFirst(bs: seq<byte>): (r: Option<(char, nat)>)
    ensures r.Some? ==> 1 <= r.value.1 <= |bs|
  {
    if |bs| == 0 then None
    else if bs[0] < 0x80 then Some((bs[0] as char, 1))
    else if 0xC0 <= bs[0] < 0xE0 then
      if |bs| >= 2 && IsContinuation(bs[1]) then
        var cp: int := (bs[0] as int - 0xC0) * 64 + (bs[1] as int - 0x80);
        if 0x80 <= cp then Some((cp as char, 2)) else None
      else None
    else if 0xE0 <= bs[0] < 0xF0 then
      if |bs| >= 3 && IsContinuation(bs[1]) && IsContinuation(bs[2]) then
        var cp: int := (bs[0] as int - 0xE0) * 4096 + (bs[1] as int - 0x80) * 64 + (bs[2] as int - 0x80);
        if 0x800 <= cp && IsScalar(cp) then Some((cp as char, 3)) else None
      else None
    else if 0xF0 <= bs[0] < 0xF8 then
      if |bs| >= 4 && IsContinuation(bs[1]) && IsContinuation(bs[2]) && IsContinuation(bs[3]) then
        var cp: int := (bs[0] as int - 0xF0) * 262144 + (bs[1] as int - 0x80) * 4096 + (bs[2] as int - 0x80) * 64 + (bs[3] as int - 0x80);
        if 0x1_0000 <= cp && IsScalar(cp) then Some((cp as char, 4)) else None
      else None
    else None
  }

  /** Decodes a whole byte sequence, failing on the first malformed sequence. */
  function Decode(bs: seq<byte>): Option<string>
    decreases |bs|
  {
    if |bs| == 0 then Some([])
    else match DecodeFirst(bs)
      case None => None
      case Some((c, k)) =>
        match Decode(bs[k..])
        case None => None
        case Some(s) => Some([c] + s)
  }

  lemma {:induction false} DivSplit(x: nat)
    ensures x / 64 / 64 == x / 4096
    ensures x / 4096 / 64 == x / 262144
    ensures x / 64 == 64 * (x / 4096) + (x / 64) % 64
    ensures x / 4096 == 64 * (x / 262144) + (x / 4096) % 64
  {
  }

  /** Decoding the encoding of one character, whatever follows, gives that character back. */
  lemma {:induction false} DecodeFirstEncodeChar(c: char, rest: seq<byte>)
    ensures DecodeFirst(EncodeChar(c) + rest) == Some((c, |EncodeChar(c)|))
  {
    var cp := c as int;
    DivSplit(cp);
  }

  lemma {:induction false} DivMod64(q: nat, d: nat)
    requires d < 64
    ensures (q * 64 + d) / 64 == q && (q * 64 + d) % 64 == d
  {
  }

  lemma {:induction false} CanonicalTwo(bs: seq<byte>)
    requires |bs| >= 2 && 0xC0 <= bs[0] < 0xE0 && IsContinuation(bs[1])
    ensures var cp := (bs[0] as int - 0xC0) * 64 + (bs[1] as int - 0x80);
            0x80 <= cp < 0x800 ==> bs[..2] == EncodeChar(cp as char)
  {
    DivMod64(bs[0] as int - 0xC0, bs[1] as int - 0x80);
  }

  lemma {:induction false} CanonicalThree(bs: seq<byte>)
    requires |bs| >= 3 && 0xE0 <= bs[0] < 0xF0 && IsContinuation(bs[1]) && IsContinuation(bs[2])
    ensures var cp := (bs[0] as int - 0xE0) * 4096 + (bs[1] as int - 0x80) * 64 + (bs[2] as int - 0x80);
            0x800 <= cp && IsScalar(cp) ==> bs[..3] == EncodeChar(cp as char)
  {
    var x, y, z := bs[0] as int - 0xE0, bs[1] as int - 0x80, bs[2] as int - 0x80;
    var hi := x * 64 + y;
    assert x * 4096 + y * 64 + z == hi * 64 + z;
    DivMod64(hi, z);
    DivMod64(x, y);
    DivSplit(hi * 64 + z);
  }

  lemma {:induction false} CanonicalFour(bs: seq<byte>)
    requires |bs| >= 4 && 0xF0 <= bs[0] < 0xF8
    requires IsContinuation(bs[1]) && IsContinuation(bs[2]) && IsContinuation(bs[3])
    ensures var cp := (bs[0] as int - 0xF0) * 262144 + (bs[1] as int - 0x80) * 4096 + (bs[2] as int - 0x80) * 64 + (bs[3] as int - 0x80);
            0x1_0000 <= cp && IsScalar(cp) ==> bs[..4] == EncodeChar(cp as char)
  {
    var w, x, y, z := bs[0] as int - 0xF0, bs[1] as int - 0x80, bs[2] as int - 0x80, bs[3] as int - 0x80;
    var top := w * 64 + x;
    var hi := top * 64 + y;
    assert w * 262144 + x * 4096 + y * 64 + z == hi * 64 + z;
    DivMod64(hi, z);
    DivMod64(top, y);
    DivMod64(w, x);
    DivSplit(hi * 64 + z);
  }

  /** Decoding is canonical: the bytes a decoded character takes are exactly its encoding. */
  lemma {:induction false} DecodeFirstCanonical(bs: seq<byte>)
    requires DecodeFirst(bs).Some?
    ensures bs[..DecodeFirst(bs).value.1] == EncodeChar(DecodeFirst(bs).value.0)
  {
    if bs[0] < 0x80 {
    } else if bs[0] < 0xE0 {
      CanonicalTwo(bs);
    } else if bs[0] < 0xF0 {
      CanonicalThree(bs);
    } else {
      CanonicalFour(bs);
    }
  }

  /** The encoding of a concatenation is the concatenation of the encodings. */
  lemma {:induction false} EncodeAppend(a: string, b: string)
    ensures Encode(a + b) == Encode(a) + Encode(b)
  {
    if |a| > 0 {
      assert (a + b)[1..] == a[1..] + b;
      EncodeAppend(a[1..], b);
    } else {
      assert a + b == b;
    }
  }

  /** Round trip: decoding `Buffer.from(s)` gives `s` back. */
  lemma {:induction false} DecodeEncode(s: string)
    ensures Decode(Encode(s)) == Some(s)
  {
    if |s| > 0 {
      var e := EncodeChar(s[0]);
      DecodeFirstEncodeChar(s[0], Encode(s[1..]));
      assert (e + Encode(s[1..]))[|e|..] == Encode(s[1..]);
      DecodeEncode(s[1..]);
      assert [s[0]] + s[1..] == s;
    }
  }

  /** One step of `Decode`: the first character, the bytes it takes, and the decoded rest. */
  lemma {:induction false} DecodeStep(bs: seq<byte>) returns (c: char, k: nat, tail: string)
    requires |bs| > 0 && Decode(bs).Some?
    ensures 1 <= k <= |bs| && bs[..k] == EncodeChar(c)
    ensures Decode(bs[k..]) == Some(tail) && Decode(bs) == Some([c] + tail)
  {
    c, k := DecodeFirst(bs).value.0, DecodeFirst(bs).value.1;
    tail := Decode(bs[k..]).value;
    DecodeFirstCanonical(bs);
  }

  lemma {:induction false} EncodeCons(c: char, tail: string)
    ensures Encode([c] + tail) == EncodeChar(c) + Encode(tail)
  {
    assert ([c] + tail)[1..] == tail;
  }

  /** Only encodings decode: bytes that decode to `s` are exactly `Buffer.from(s)`. */
  lemma {:induction false} DecodeOnlyEncodings(bs: seq<byte>)
    requires Decode(bs).Some?
    ensures Encode(Decode(bs).value) == bs
    decreases |bs|
  {
    if |bs| > 0 {
      var c, k, tail := DecodeStep(bs);
      DecodeOnlyEncodings(bs[k..]);
      EncodeCons(c, tail);
      assert bs == bs[..k] + bs[k..];
    }
  }

  /** ASCII text is encoded byte for byte. */
  lemma {:induction false} EncodeAscii(s: string)
    requires forall i :: 0 <= i < |s| ==> s[i] as int < 0x80
    ensures |Encode(s)| == |s|
    ensures forall i :: 0 <= i < |s| ==> Encode(s)[i] == s[i] as int
  {
    if |s| > 0 {
      EncodeAscii(s[1..]);
    }
  }
}
