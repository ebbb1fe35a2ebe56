/**
 * Well-formed UTF-8, as `String::from_utf8` accepts it: every code point in
 * its shortest form, no surrogates, nothing above U+10FFFF. `char` holds a
 * Unicode scalar value.
 */
module Utf8 {
  import opened Wrappers
  import opened Bytes

  predicate IsContinuation(b: byte)
  {
    0x80 <= b < 0xC0
  }

  /** A Unicode scalar value: a code point that is not a surrogate. */
  predicate IsScalar(cp: int)
  {
    0 <= cp < 0xD800 || 0xE000 <= cp < 0x11_0000
  }

  /** The first character of a byte string and how many bytes it took. */
  datatype Decoded = Decoded(c: char, width: nat)

  /** Decodes the character that starts s, or None if s does not start with a well-formed sequence. */
  function DecodeFirst(s: seq<byte>): (r: Option<Decoded>)
    requires |s| > 0
    ensures r.Some? ==> 1 <= r.value.width <= |s|
  {
    var b0 := s[0] as int;
    if b0 < 0x80 then
      Some(Decoded(b0 as char, 1))
    else if b0 < 0xC0 then
      None
    else if b0 < 0xE0 then
      if |s| >= 2 && IsContinuation(s[1]) then
        var cp := (b0 - 0xC0) * 0x40 + (s[1] as int - 0x80);
        if 0x80 <= cp then Some(Decoded(cp as char, 2)) else None
      else None
    else if b0 < 0xF0 then
      if |s| >= 3 && IsContinuation(s[1]) && IsContinuation(s[2]) then
        var cp := (b0 - 0xE0) * 0x1000 + (s[1] as int - 0x80) * 0x40 + (s[2] as int - 0x80);
        if 0x800 <= cp && IsScalar(cp) then Some(Decoded(cp as char, 3)) else None
      else None
    else if b0 < 0xF8 then
      if |s| >= 4 && IsContinuation(s[1]) && IsContinuation(s[2]) && IsContinuation(s[3]) then
        var cp := (b0 - 0xF0) * 0x4_0000 + (s[1] as int - 0x80) * 0x1000 + (s[2] as int - 0x80) * 0x40 + (s[3] as int - 0x80);
        if 0x1_0000 <= cp < 0x11_0000 then Some(Decoded(cp as char, 4)) else None
      else None
    else
      None
  }

  /** `String::from_utf8(bytes).ok()`. */
  function Decode(s: seq<byte>): Option<string>
    decreases |s|
  {
    if s == [] then Some("")
    else match DecodeFirst(s)
      case None => None
      case Some(d) =>
        match Decode(s[d.width..])
        case None => None
        case Some(t) => Some([d.c] + t)
  }

  /** The UTF-8 encoding of one character. */
  function EncodeChar(c: char): (b: seq<byte>)
    ensures 1 <= |b| <= 4
  {
    var cp := c as int;
    if cp < 0x80 then [cp]
    else if cp < 0x800 then [0xC0 + cp / 0x40, 0x80 + cp % 0x40]
    else if cp < 0x1_0000 then [0xE0 + cp / 0x1000, 0x80 + (cp / 0x40) % 0x40, 0x80 + cp % 0x40]
    else [0xF0 + cp / 0x4_0000, 0x80 + (cp / 0x1000) % 0x40, 0x80 + (cp / 0x40) % 0x40, 0x80 + cp % 0x40]
  }

  /** The UTF-8 encoding of a string (what `String::into_bytes` returns). */
  function Encode(t: string): seq<byte>
  {
    if t == [] then [] else EncodeChar(t[0]) + Encode(t[1..])
  }

  /** The encoding of a character is decoded back to that character, whatever follows it. */
  lemma DecodeFirstOfEncodeChar(c: char, rest: seq<byte>)
    ensures DecodeFirst(EncodeChar(c) + rest) == Some(Decoded(c, |EncodeChar(c)|))
  {
    var cp := c as int;
    if cp < 0x80 {
    } else if cp < 0x800 {
      DecodeTwoBytes(c, rest);
    } else if cp < 0x1_0000 {
      DecodeThreeBytes(c, rest);
    } else {
      DecodeFourBytes(c, rest);
    }
  }

  lemma DecodeTwoBytes(c: char, rest: seq<byte>)
    requires 0x80 <= c as int < 0x800
    ensures DecodeFirst(EncodeChar(c) + rest) == Some(Decoded(c, 2))
  {
    var cp := c as int;
    var d0, d1 := cp / 0x40, cp % 0x40;
    assert cp == d0 * 0x40 + d1;
    var s := EncodeChar(c) + rest;
    assert s[0] as int == 0xC0 + d0 && s[1] as int == 0x80 + d1;
  }

  lemma DecodeThreeBytes(c: char, rest: seq<byte>)
    requires 0x800 <= c as int < 0x1_0000
    ensures DecodeFirst(EncodeChar(c) + rest) == Some(Decoded(c, 3))
  {
    var cp := c as int;
    var q := cp / 0x40;
    var d0, d1, d2 := cp / 0x1000, q % 0x40, cp % 0x40;
    assert cp == q * 0x40 + d2;
    assert q == d0 * 0x40 + d1;
    assert cp == d0 * 0x1000 + d1 * 0x40 + d2;
    var s := EncodeChar(c) + rest;
    assert s[0] as int == 0xE0 + d0 && s[1] as int == 0x80 + d1 && s[2] as int == 0x80 + d2;
  }

  lemma DecodeFourBytes(c: char, rest: seq<byte>)
    requires 0x1_0000 <= c as int
    ensures DecodeFirst(EncodeChar(c) + rest) == Some(Decoded(c, 4))
  {
    var cp := c as int;
    var q := cp / 0x40;
    var r := cp / 0x1000;
    var d0, d1, d2, d3 := cp / 0x4_0000, r % 0x40, q % 0x40, cp % 0x40;
    assert cp == q * 0x40 + d3;
    assert q == r * 0x40 + d2;
    assert r == d0 * 0x40 + d1;
    assert cp == d0 * 0x4_0000 + d1 * 0x1000 + d2 * 0x40 + d3;
    var s := EncodeChar(c) + rest;
    assert s[0] as int == 0xF0 + d0 && s[1] as int == 0x80 + d1;
    assert s[2] as int == 0x80 + d2 && s[3] as int == 0x80 + d3;
  }

  /** Every string survives a UTF-8 round trip. */
  lemma {:induction false} DecodeEncode(t: string)
    ensures Decode(Encode(t)) == Some(t)
  {
    if t != [] {
      var e := EncodeChar(t[0]);
      var rest := Encode(t[1..]);
      DecodeFirstOfEncodeChar(t[0], rest);
      assert (e + rest)[|e|..] == rest;
      DecodeEncode(t[1..]);
      assert [t[0]] + t[1..] == t;
    }
  }

  /** Reading a 6-bit digit off the bottom of a number. */
  lemma Digit64(q: int, d: int)
    requires 0 <= d < 0x40
    ensures (q * 0x40 + d) / 0x40 == q && (q * 0x40 + d) % 0x40 == d
  {
  }

  /** Reading the top digit off a number of two 6-bit digits and more. */
  lemma Digit4096(q: int, d: int)
    requires 0 <= d < 0x1000
    ensures (q * 0x1000 + d) / 0x1000 == q
  {
  }

  lemma Digit262144(q: int, d: int)
    requires 0 <= d < 0x4_0000
    ensures (q * 0x4_0000 + d) / 0x4_0000 == q
  {
  }

  /** A character decoded off the front of s is encoded as exactly the bytes it was decoded from. */
  lemma EncodeCharOfDecodeFirst(s: seq<byte>)
    requires |s| > 0 && DecodeFirst(s).Some?
    ensures EncodeChar(DecodeFirst(s).value.c) == s[..DecodeFirst(s).value.width]
  {
    var b0 := s[0] as int;
    var d := DecodeFirst(s).value;
    var cp := d.c as int;
    if b0 < 0x80 {
      assert s[..1] == [s[0]];
    } else if b0 < 0xE0 {
      var d0, d1 := b0 - 0xC0, s[1] as int - 0x80;
      Digit64(d0, d1);
      assert s[..2] == [s[0], s[1]];
    } else if b0 < 0xF0 {
      var d0, d1, d2 := b0 - 0xE0, s[1] as int - 0x80, s[2] as int - 0x80;
      assert cp == (d0 * 0x40 + d1) * 0x40 + d2;
      Digit64(d0 * 0x40 + d1, d2);
      Digit64(d0, d1);
      Digit4096(d0, d1 * 0x40 + d2);
      assert s[..3] == [s[0], s[1], s[2]];
    } else {
      var d0, d1, d2, d3 := b0 - 0xF0, s[1] as int - 0x80, s[2] as int - 0x80, s[3] as int - 0x80;
      assert cp == ((d0 * 0x40 + d1) * 0x40 + d2) * 0x40 + d3;
      Digit64((d0 * 0x40 + d1) * 0x40 + d2, d3);
      Digit64(d0 * 0x40 + d1, d2);
      Digit4096(d0 * 0x40 + d1, d2 * 0x40 + d3);
      Digit64(d0, d1);
      Digit262144(d0, (d1 * 0x40 + d2) * 0x40 + d3);
      assert s[..4] == [s[0], s[1], s[2], s[3]];
    }
  }

  /** Whatever `Decode` accepts is the UTF-8 encoding of the string it returns. */
  lemma {:induction false} EncodeOfDecode(s: seq<byte>)
    requires Decode(s).Some?
    ensures Encode(Decode(s).value) == s
    decreases |s|
  {
    if s != [] {
      var d := DecodeFirst(s).value;
      var t := Decode(s[d.width..]).value;
      EncodeCharOfDecodeFirst(s);
      EncodeOfDecode(s[d.width..]);
      assert ([d.c] + t)[1..] == t;
      assert s[..d.width] + s[d.width..] == s;
    }
  }

  /** `String::from_utf8` gives t exactly when the bytes are the UTF-8 encoding of t. */
  lemma DecodeExactlyEncodings(s: seq<byte>, t: string)
    ensures Decode(s) == Some(t) <==> s == Encode(t)
  {
    if Decode(s) == Some(t) {
      EncodeOfDecode(s);
    }
    if s == Encode(t) {
      DecodeEncode(t);
    }
  }
}
