/** UTF-8 (RFC 3629), the encoding `urllib.parse.quote` applies to a
    string before it percent-encodes the bytes. A Dafny `char` is a
    Unicode scalar value, so every string of this model has an encoding.
    Python strings can also hold lone surrogates, for which the encoding
    raises; those strings are not modelled. */
module Utf8 {
  import opened Wrappers

  newtype byte = x: int | 0 <= x < 256

  predicate IsScalar(n: int) {
    0 <= n < 0xD800 || 0xE000 <= n < 0x11_0000
  }

  /** A continuation byte `10xxxxxx` carrying the low six bits of `n`. */
  function Cont(n: nat): (b: byte)
    ensures 0x80 <= b < 0xC0
  {
    (0x80 + n % 64) as byte
  }

  /** The one to four bytes that encode `c`. */
  function EncodeChar(c: char): (r: seq<byte>)
    ensures 1 <= |r| <= 4
  {
    var n := c as int;
    if n < 0x80 then [n as byte]
    else if n < 0x800 then [(0xC0 + n / 64) as byte, Cont(n)]
    else if n < 0x1_0000 then [(0xE0 + n / 64 / 64) as byte, Cont(n / 64), Cont(n)]
    else [(0xF0 + n / 64 / 64 / 64) as byte, Cont(n / 64 / 64), Cont(n / 64), Cont(n)]
  }

  /** The encoding of a string: its characters' encodings, in order. */
  function Encode(s: string): (r: seq<byte>)
    ensures |r| >= |s|
  {
    if s == [] then [] else EncodeChar(s[0]) + Encode(s[1..])
  }

  predicate IsCont(b: byte) { 0x80 <= b < 0xC0 }

  /** The scalar value at the front of `bs` and the number of bytes it
      takes, or `None` when the front is not a well-formed encoding
      (a stray continuation byte, a truncated sequence, an overlong form,
      a surrogate, or a value past U+10FFFF). */
  function DecodeChar(bs: seq<byte>): (r: Option<(char, nat)>)
    ensures r.Some? ==> 1 <= r.value.1 <= |bs|
  {
    if bs == [] then None
    else if bs[0] < 0x80 then Some((bs[0] as int as char, 1))
    else if 0xC2 <= bs[0] < 0xE0 && |bs| >= 2 && IsCont(bs[1]) then
      var n := (bs[0] as int - 0xC0) * 64 + (bs[1] as int - 0x80);
      Some((n as char, 2))
    else if 0xE0 <= bs[0] < 0xF0 && |bs| >= 3 && IsCont(bs[1]) && IsCont(bs[2]) then
      var n := ((bs[0] as int - 0xE0) * 64 + (bs[1] as int - 0x80)) * 64 + (bs[2] as int - 0x80);
      if 0x800 <= n && IsScalar(n) then Some((n as char, 3)) else None
    else if 0xF0 <= bs[0] < 0xF5 && |bs| >= 4 && IsCont(bs[1]) && IsCont(bs[2]) && IsCont(bs[3]) then
      var n := (((bs[0] as int - 0xF0) * 64 + (bs[1] as int - 0x80)) * 64 + (bs[2] as int - 0x80)) * 64
        + (bs[3] as int - 0x80);
      if 0x1_0000 <= n < 0x11_0000 then Some((n as char, 4)) else None
    else None
  }

  /** Decoding a whole byte string: `None` unless it is well-formed UTF-8. */
  function Decode(bs: seq<byte>): Option<string>
    decreases |bs|
  {
    if bs == [] then Some([])
    else
      match DecodeChar(bs)
      case None => None
      case Some((c, len)) =>
        match Decode(bs[len..])
        case None => None
        case Some(rest) => Some([c] + rest)
  }

  /** `n` splits into a six-bit digit and the rest. */
  lemma SixBits(n: nat)
    ensures n == n / 64 * 64 + n % 64 && 0 <= n % 64 < 64
  {
  }

  /** The bytes of one character decode back to it, whatever follows. */
  lemma DecodeEncodeChar(c: char, rest: seq<byte>)
    ensures DecodeChar(EncodeChar(c) + rest) == Some((c, |EncodeChar(c)|))
  {
    var n := c as int;
    var bs := EncodeChar(c) + rest;
    SixBits(n);
    SixBits(n / 64);
    SixBits(n / 64 / 64);
    if n < 0x80 {
    } else if n < 0x800 {
      assert bs[0] as int - 0xC0 == n / 64;
      assert bs[1] as int - 0x80 == n % 64;
    } else if n < 0x1_0000 {
      assert bs[0] as int - 0xE0 == n / 64 / 64;
      assert bs[1] as int - 0x80 == n / 64 % 64;
      assert bs[2] as int - 0x80 == n % 64;
    } else {
      assert bs[0] as int - 0xF0 == n / 64 / 64 / 64;
      assert bs[1] as int - 0x80 == n / 64 / 64 % 64;
      assert bs[2] as int - 0x80 == n / 64 % 64;
      assert bs[3] as int - 0x80 == n % 64;
    }
  }

  /** Decoding inverts encoding. */
  lemma {:induction false} DecodeEncode(s: string)
    ensures Decode(Encode(s)) == Some(s)
  {
    if s != [] {
      var e := EncodeChar(s[0]);
      DecodeEncodeChar(s[0], Encode(s[1..]));
      assert (e + Encode(s[1..]))[|e|..] == Encode(s[1..]);
      DecodeEncode(s[1..]);
      assert Encode(s) == e + Encode(s[1..]);
      assert s == [s[0]] + s[1..];
    }
  }

  /** Two- and three-byte forms, as section 3 of RFC 3629 lays them out:
      U+00F1 is C3 B1 and U+20AC is E2 82 AC. */
  lemma EncodeCharExamples()
    ensures EncodeChar('\U{F1}') == [0xC3, 0xB1]
    ensures EncodeChar('\U{20AC}') == [0xE2, 0x82, 0xAC]
  {
  }

  /** An ASCII character is its own single byte. */
  lemma {:induction false} EncodeAscii(s: string)
    requires forall k :: 0 <= k < |s| ==> s[k] as int < 0x80
    ensures Encode(s) == seq(|s|, k requires 0 <= k < |s| => s[k] as int as byte)
    decreases |s|
  {
    if s != [] {
      EncodeAscii(s[1..]);
    }
  }
}
