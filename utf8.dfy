/** UTF-8 as defined by RFC 3629: the encoding `String.getBytes(UTF_8)` and
    HBase `Bytes.toBytes(String)` produce, and the decoding `new String(bytes,
    UTF_8)` and HBase `Bytes.toString` perform. Strings are sequences of Unicode
    scalar values. */
module Utf8 {
  import opened JavaLang

  const REPLACEMENT: char := '\U{FFFD}'

  predicate IsContinuation(b: Byte) { 0x80 <= b < 0xC0 }

  /** The bytes of one scalar value: 1 to 4 bytes by the RFC 3629 table. */
  function EncodeChar(c: char): (r: Bytes)
    ensures 1 <= |r| <= 4
    ensures |r| == 1 <==> c as int < 0x80
  {
    var cp := c as int;
    if cp < 0x80 then [cp]
    else if cp < 0x800 then [0xC0 + cp / 64, 0x80 + cp % 64]
    else if cp < 0x1_0000 then [0xE0 + cp / 4096, 0x80 + (cp / 64) % 64, 0x80 + cp % 64]
    else [0xF0 + cp / 262144, 0x80 + (cp / 4096) % 64, 0x80 + (cp / 64) % 64, 0x80 + cp % 64]
  }

  function Encode(s: string): (r: Bytes)
    ensures |s| <= |r| <= 4 * |s|
  {
    if s == [] then [] else EncodeChar(s[0]) + Encode(s[1..])
  }

  /** Decodes the sequence starting at b[0]: the scalar value and the number of
      bytes it took; a byte that does not start a well-formed sequence yields
      U+FFFD and is skipped alone. */
  function DecodeOne(b: Bytes): (r: (char, nat))
    requires |b| > 0
    ensures 1 <= r.1 <= |b| && r.1 <= 4
  {
    var b0 := b[0] as int;
    if b0 < 0x80 then (b0 as char, 1)
    else if 0xC2 <= b0 < 0xE0 && |b| >= 2 && IsContinuation(b[1]) then
      (((b0 - 0xC0) * 64 + (b[1] as int - 0x80)) as char, 2)
    else if 0xE0 <= b0 < 0xF0 && |b| >= 3 && IsContinuation(b[1]) && IsContinuation(b[2]) then
      var cp := (b0 - 0xE0) * 4096 + (b[1] as int - 0x80) * 64 + (b[2] as int - 0x80);
      if 0x800 <= cp && (cp < 0xD800 || 0xE000 <= cp) then (cp as char, 3) else (REPLACEMENT, 1)
    else if 0xF0 <= b0 < 0xF5 && |b| >= 4 && IsContinuation(b[1]) && IsContinuation(b[2]) && IsContinuation(b[3]) then
      var cp := (b0 - 0xF0) * 262144 + (b[1] as int - 0x80) * 4096 + (b[2] as int - 0x80) * 64 + (b[3] as int - 0x80);
      if 0x1_0000 <= cp < 0x11_0000 then (cp as char, 4) else (REPLACEMENT, 1)
    else (REPLACEMENT, 1)
  }

  function Decode(b: Bytes): (s: string)
    ensures |s| <= |b|
    decreases |b|
  {
    if b == [] then []
    else
      var (c, n) := DecodeOne(b);
      [c] + Decode(b[n..])
  }

  lemma SplitDigits(cp: int)
    requires 0 <= cp
    ensures (cp / 64) % 64 * 64 + cp % 64 == cp % 4096
    ensures (cp / 4096) % 64 * 4096 + cp % 4096 == cp % 262144
    ensures cp / 64 * 64 + cp % 64 == cp
    ensures cp / 4096 * 4096 + cp % 4096 == cp
    ensures cp / 262144 * 262144 + cp % 262144 == cp
  {
    SplitLow(cp);
    SplitHigh(cp);
  }

  lemma SplitLow(cp: int)
    requires 0 <= cp
    ensures (cp / 64) % 64 * 64 + cp % 64 == cp % 4096
  {
    var q := cp / 64;
    var low := q % 64 * 64 + cp % 64;
    assert cp == q / 64 * 4096 + low;
    assert 0 <= low < 4096;
  }

  lemma SplitHigh(cp: int)
    requires 0 <= cp
    ensures (cp / 4096) % 64 * 4096 + cp % 4096 == cp % 262144
  {
    var q := cp / 4096;
    var low := q % 64 * 4096 + cp % 4096;
    assert cp == q / 64 * 262144 + low;
    assert 0 <= low < 262144;
  }

  lemma DecodesTwo(c: char, b: Bytes)
    requires 0x80 <= c as int < 0x800
    requires |b| >= 2 && b[..2] == EncodeChar(c)
    ensures DecodeOne(b) == (c, 2)
  {
    var cp := c as int;
    assert b[0] == 0xC0 + cp / 64 && b[1] == 0x80 + cp % 64;
    SplitDigits(cp);
  }

  lemma DecodesThree(c: char, b: Bytes)
    requires 0x800 <= c as int < 0x1_0000
    requires |b| >= 3 && b[..3] == EncodeChar(c)
    ensures DecodeOne(b) == (c, 3)
  {
    var cp := c as int;
    assert b[0] == 0xE0 + cp / 4096 && b[1] == 0x80 + (cp / 64) % 64 && b[2] == 0x80 + cp % 64;
    SplitDigits(cp);
    assert (b[0] as int - 0xE0) * 4096 + (b[1] as int - 0x80) * 64 + (b[2] as int - 0x80) == cp;
  }

  lemma DecodesFour(c: char, b: Bytes)
    requires 0x1_0000 <= c as int
    requires |b| >= 4 && b[..4] == EncodeChar(c)
    ensures DecodeOne(b) == (c, 4)
  {
    var cp := c as int;
    assert b[0] == 0xF0 + cp / 262144 && b[1] == 0x80 + (cp / 4096) % 64;
    assert b[2] == 0x80 + (cp / 64) % 64 && b[3] == 0x80 + cp % 64;
    SplitDigits(cp);
    assert (b[0] as int - 0xF0) * 262144 + (b[1] as int - 0x80) * 4096 + (b[2] as int - 0x80) * 64 + (b[3] as int - 0x80) == cp;
  }

  lemma EncodeCharDecodes(c: char, rest: Bytes)
    ensures DecodeOne(EncodeChar(c) + rest) == (c, |EncodeChar(c)|)
  {
    var cp := c as int;
    var e := EncodeChar(c);
    var b := e + rest;
    assert b[..|e|] == e;
    if cp < 0x80 {
    } else if cp < 0x800 {
      DecodesTwo(c, b);
    } else if cp < 0x1_0000 {
      DecodesThree(c, b);
    } else {
      DecodesFour(c, b);
    }
  }

  /** Decoding what was encoded gives the string back (the String round trip
      of the codec). */
  lemma {:induction false} DecodeEncode(s: string)
    ensures Decode(Encode(s)) == s
  {
    if s != [] {
      var e := EncodeChar(s[0]);
      EncodeCharDecodes(s[0], Encode(s[1..]));
      assert (e + Encode(s[1..]))[|e|..] == Encode(s[1..]);
      DecodeEncode(s[1..]);
    }
  }

  /** Distinct strings have distinct encodings, so distinct column names give
      distinct qualifiers. */
  lemma EncodeInjective(s: string, t: string)
    requires Encode(s) == Encode(t)
    ensures s == t
  {
    DecodeEncode(s);
    DecodeEncode(t);
  }

  lemma {:induction false} EncodeAppend(s: string, t: string)
    ensures Encode(s + t) == Encode(s) + Encode(t)
  {
    if s != [] {
      assert (s + t)[1..] == s[1..] + t;
      EncodeAppend(s[1..], t);
    } else {
      assert s + t == t;
    }
  }

  /** ASCII text is encoded byte for byte. */
  lemma {:induction false} EncodeAscii(s: string)
    requires forall i :: 0 <= i < |s| ==> s[i] as int < 0x80
    ensures |Encode(s)| == |s|
    ensures forall i :: 0 <= i < |s| ==> Encode(s)[i] == s[i] as int
  {
    if s != [] {
      EncodeAscii(s[1..]);
    }
  }
}
