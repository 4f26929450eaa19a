/**
 * UTF-8 as Python's `bytes.decode('utf-8', 'replace')` reads it: a
 * well-formed sequence (Table 3-7 of the Unicode Standard) becomes its
 * scalar value, and each maximal ill-formed subpart becomes one U+FFFD.
 */
module Utf8 {
  type Byte = x: int | 0 <= x < 256

  const Replacement: char := 0xFFFD as char

  predicate IsCont(b: Byte) { 0x80 <= b <= 0xBF }

  /** The character at the front of `b` and the number of bytes it takes. */
  function DecodeStep(b: seq<Byte>): (r: (char, nat))
    requires |b| > 0
    ensures 1 <= r.1 <= |b| && r.1 <= 4
  {
    var b0: int := b[0];
    var b1: int := if |b| >= 2 then b[1] else 0;
    var b2: int := if |b| >= 3 then b[2] else 0;
    var b3: int := if |b| >= 4 then b[3] else 0;
    if b0 < 0x80 then
      (b0 as char, 1)
    else if 0xC2 <= b0 <= 0xDF then
      if |b| >= 2 && IsCont(b[1]) then (((b0 - 0xC0) * 64 + (b1 - 0x80)) as char, 2)
      else (Replacement, 1)
    else if 0xE0 <= b0 <= 0xEF then
      var lo := if b0 == 0xE0 then 0xA0 else 0x80;
      var hi := if b0 == 0xED then 0x9F else 0xBF;
      if |b| >= 2 && lo <= b[1] <= hi then
        if |b| >= 3 && IsCont(b[2]) then
          (((b0 - 0xE0) * 4096 + (b1 - 0x80) * 64 + (b2 - 0x80)) as char, 3)
        else (Replacement, 2)
      else (Replacement, 1)
    else if 0xF0 <= b0 <= 0xF4 then
      var lo := if b0 == 0xF0 then 0x90 else 0x80;
      var hi := if b0 == 0xF4 then 0x8F else 0xBF;
      if |b| >= 2 && lo <= b[1] <= hi then
        if |b| >= 3 && IsCont(b[2]) then
          if |b| >= 4 && IsCont(b[3]) then
            (((b0 - 0xF0) * 262144 + (b1 - 0x80) * 4096 + (b2 - 0x80) * 64 + (b3 - 0x80)) as char, 4)
          else (Replacement, 3)
        else (Replacement, 2)
      else (Replacement, 1)
    else
      (Replacement, 1)
  }

  /** `bytes.decode('utf-8', 'replace')`. */
  function Decode(b: seq<Byte>): string
    decreases |b|
  {
    if b == [] then [] else
      var (c, n) := DecodeStep(b);
      [c] + Decode(b[n..])
  }

  /** Each step of the decoder reads at least one byte and yields one
      character, so decoding never lengthens. */
  lemma {:induction false} DecodeShorter(b: seq<Byte>)
    ensures |Decode(b)| <= |b|
    decreases |b|
  {
    if b != [] {
      DecodeShorter(b[DecodeStep(b).1..]);
    }
  }

  /** `str.encode('utf-8')` of one character. */
  function EncodeChar(c: char): (r: seq<Byte>)
    ensures 1 <= |r| <= 4
  {
    var n := c as int;
    if n < 0x80 then [n]
    else if n < 0x800 then [0xC0 + n / 64, 0x80 + n % 64]
    else if n < 0x10000 then [0xE0 + n / 4096, 0x80 + (n / 64) % 64, 0x80 + n % 64]
    else [0xF0 + n / 262144, 0x80 + (n / 4096) % 64, 0x80 + (n / 64) % 64, 0x80 + n % 64]
  }

  /** `str.encode('utf-8')`. */
  function Encode(s: string): seq<Byte> {
    if s == [] then [] else EncodeChar(s[0]) + Encode(s[1..])
  }

  lemma DecodeStepTwo(c: char, rest: seq<Byte>)
    requires 0x80 <= c as int < 0x800
    ensures DecodeStep(EncodeChar(c) + rest) == (c, 2)
  {
    var n := c as int;
    assert (n / 64) * 64 + n % 64 == n;
  }

  lemma DecodeStepThree(c: char, rest: seq<Byte>)
    requires 0x800 <= c as int < 0x10000
    ensures DecodeStep(EncodeChar(c) + rest) == (c, 3)
  {
    var n := c as int;
    var b := EncodeChar(c) + rest;
    var a, m, z := n / 4096, (n / 64) % 64, n % 64;
    assert n / 64 == a * 64 + m;
    assert a * 4096 + m * 64 + z == n;
    assert b[0] == 0xE0 + a && b[1] == 0x80 + m && b[2] == 0x80 + z;
    assert a == 0 ==> m >= 0x20;
    assert a == 0xD ==> m <= 0x1F;
  }

  lemma DecodeStepFour(c: char, rest: seq<Byte>)
    requires 0x10000 <= c as int
    ensures DecodeStep(EncodeChar(c) + rest) == (c, 4)
  {
    var n := c as int;
    var b := EncodeChar(c) + rest;
    var a, m1, m2, z := n / 262144, (n / 4096) % 64, (n / 64) % 64, n % 64;
    assert n / 4096 == a * 64 + m1;
    assert n / 64 == (n / 4096) * 64 + m2;
    assert a * 262144 + m1 * 4096 + m2 * 64 + z == n;
    assert b[0] == 0xF0 + a && b[1] == 0x80 + m1 && b[2] == 0x80 + m2 && b[3] == 0x80 + z;
    assert a <= 4;
    assert a == 0 ==> m1 >= 0x10;
    assert a == 4 ==> m1 <= 0x0F;
  }

  lemma DecodeStepEncodeChar(c: char, rest: seq<Byte>)
    ensures DecodeStep(EncodeChar(c) + rest) == (c, |EncodeChar(c)|)
  {
    var n := c as int;
    if n < 0x80 {
    } else if n < 0x800 {
      DecodeStepTwo(c, rest);
    } else if n < 0x10000 {
      DecodeStepThree(c, rest);
    } else {
      DecodeStepFour(c, rest);
    }
  }

  /** Decoding what was encoded gives the text back. */
  lemma {:induction false} DecodeEncode(s: string)
    ensures Decode(Encode(s)) == s
  {
    if s != [] {
      var e := EncodeChar(s[0]);
      DecodeStepEncodeChar(s[0], Encode(s[1..]));
      assert (e + Encode(s[1..]))[|e|..] == Encode(s[1..]);
      DecodeEncode(s[1..]);
    }
  }

  /** Bytes below 0x80 decode one for one. */
  lemma {:induction false} DecodeAscii(b: seq<Byte>)
    requires forall k :: 0 <= k < |b| ==> b[k] < 0x80
    ensures |Decode(b)| == |b|
    ensures forall k :: 0 <= k < |b| ==> Decode(b)[k] as int == b[k]
  {
    if b != [] {
      DecodeAscii(b[1..]);
    }
  }
}
