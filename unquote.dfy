/**
 * `urllib.parse.unquote` with its defaults (UTF-8, errors replaced): every
 * "%XX" escape (section 2.1 of RFC 3986) becomes the byte XX, every other
 * ASCII character stands for its own byte, UTF-8 decodes each run of those
 * bytes, and characters outside ASCII are kept as they are.
 */
module Unquote {
  import opened Strings
  import opened Utf8

  predicate IsHex(c: char) {
    ('0' <= c <= '9') || ('a' <= c <= 'f') || ('A' <= c <= 'F')
  }

  function HexValue(c: char): (v: nat)
    requires IsHex(c)
    ensures v < 16
  {
    if '0' <= c <= '9' then c as int - '0' as int
    else if 'a' <= c <= 'f' then c as int - 'a' as int + 10
    else c as int - 'A' as int + 10
  }

  /** What one position of the input contributes: a byte, or a character
      outside ASCII that is passed through. */
  datatype Piece = Octet(b: Byte) | Wide(c: char)

  /** The input read left to right into bytes and wide characters. A '%'
      not followed by two hex digits stands for itself. */
  function Pieces(s: string): seq<Piece>
    decreases |s|
  {
    if s == [] then []
    else if s[0] == '%' && |s| >= 3 && IsHex(s[1]) && IsHex(s[2]) then
      [Octet(16 * HexValue(s[1]) + HexValue(s[2]))] + Pieces(s[3..])
    else if s[0] as int < 0x80 then
      [Octet(s[0] as int)] + Pieces(s[1..])
    else
      [Wide(s[0])] + Pieces(s[1..])
  }

  /** Length of the run of bytes at the front of `ps`. */
  function OctetRun(ps: seq<Piece>): (n: nat)
    ensures n <= |ps|
    ensures forall k :: 0 <= k < n ==> ps[k].Octet?
    ensures n < |ps| ==> ps[n].Wide?
  {
    if ps == [] || ps[0].Wide? then 0 else 1 + OctetRun(ps[1..])
  }

  function Octets(ps: seq<Piece>): (b: seq<Byte>)
    requires forall k :: 0 <= k < |ps| ==> ps[k].Octet?
    ensures |b| == |ps| && forall k :: 0 <= k < |ps| ==> b[k] == ps[k].b
  {
    seq(|ps|, k requires 0 <= k < |ps| => ps[k].b)
  }

  /** Decode every run of bytes as UTF-8; keep the wide characters. */
  function Assemble(ps: seq<Piece>): string
    decreases |ps|
  {
    if ps == [] then []
    else if ps[0].Wide? then [ps[0].c] + Assemble(ps[1..])
    else
      var n := OctetRun(ps);
      Decode(Octets(ps[..n])) + Assemble(ps[n..])
  }

  /** `unquote(s)`, with its early return for a string that has no '%'. */
  function Unquote(s: string): string {
    if '%' !in s then s else Assemble(Pieces(s))
  }

  /** Unquoting never lengthens a text: an escape is three characters for
      one byte, and a byte decodes to at most one character. */
  lemma UnquoteShorter(s: string)
    ensures |Unquote(s)| <= |s|
  {
    PiecesShorter(s);
    AssembleShorter(Pieces(s));
  }

  lemma {:induction false} PiecesShorter(s: string)
    ensures |Pieces(s)| <= |s|
    decreases |s|
  {
    if s != [] {
      if s[0] == '%' && |s| >= 3 && IsHex(s[1]) && IsHex(s[2]) {
        PiecesShorter(s[3..]);
      } else {
        PiecesShorter(s[1..]);
      }
    }
  }

  lemma {:induction false} AssembleShorter(ps: seq<Piece>)
    ensures |Assemble(ps)| <= |ps|
    decreases |ps|
  {
    if ps != [] {
      if ps[0].Wide? {
        AssembleShorter(ps[1..]);
      } else {
        var n := OctetRun(ps);
        DecodeShorter(Octets(ps[..n]));
        AssembleShorter(ps[n..]);
      }
    }
  }

  // ---- the inverse: percent-encoding ----

  predicate Unreserved(b: Byte) {
    ('a' as int <= b <= 'z' as int) || ('A' as int <= b <= 'Z' as int)
    || ('0' as int <= b <= '9' as int) || b == '-' as int || b == '.' as int
    || b == '_' as int || b == '~' as int
  }

  function HexDigit(v: nat): (c: char)
    requires v < 16
    ensures IsHex(c) && HexValue(c) == v
  {
    "0123456789ABCDEF"[v]
  }

  /** Percent-encoding of bytes (section 2.1 of RFC 3986): unreserved
      characters (section 2.3) stay, every other byte becomes "%XX". */
  function EscapeBytes(b: seq<Byte>): string {
    if b == [] then []
    else if Unreserved(b[0]) then [b[0] as char] + EscapeBytes(b[1..])
    else ['%', HexDigit(b[0] / 16), HexDigit(b[0] % 16)] + EscapeBytes(b[1..])
  }

  /** Percent-encode the UTF-8 form of a text. */
  function PercentEncode(s: string): string {
    EscapeBytes(Encode(s))
  }

  lemma {:induction false} PiecesOfEscape(b: seq<Byte>)
    ensures |Pieces(EscapeBytes(b))| == |b|
    ensures forall k :: 0 <= k < |b| ==> Pieces(EscapeBytes(b))[k] == Octet(b[k])
  {
    if b != [] {
      PiecesOfEscape(b[1..]);
      var e := EscapeBytes(b);
      if Unreserved(b[0]) {
        assert e[1..] == EscapeBytes(b[1..]);
      } else {
        assert e[3..] == EscapeBytes(b[1..]);
        assert 16 * (b[0] / 16) + b[0] % 16 == b[0];
      }
    }
  }

  lemma {:induction false} AssembleOctets(ps: seq<Piece>)
    requires forall k :: 0 <= k < |ps| ==> ps[k].Octet?
    ensures Assemble(ps) == Decode(Octets(ps))
  {
    if ps != [] {
      var n := OctetRun(ps);
      assert n == |ps|;
      assert ps[..n] == ps;
    }
  }

  /** Percent-decoding undoes percent-encoding of any text. */
  lemma UnquotePercentEncode(s: string)
    ensures Unquote(PercentEncode(s)) == s
  {
    var e := PercentEncode(s);
    var b := Encode(s);
    PiecesOfEscape(b);
    AssembleOctets(Pieces(e));
    assert Octets(Pieces(e)) == b;
    DecodeEncode(s);
    if '%' !in e {
      EscapeWithoutPercent(s);
    }
  }

  lemma {:induction false} EscapeConcat(a: seq<Byte>, b: seq<Byte>)
    ensures EscapeBytes(a + b) == EscapeBytes(a) + EscapeBytes(b)
  {
    if a != [] {
      assert (a + b)[0] == a[0];
      assert (a + b)[1..] == a[1..] + b;
      EscapeConcat(a[1..], b);
      var head := if Unreserved(a[0]) then [a[0] as char] else ['%', HexDigit(a[0] / 16), HexDigit(a[0] % 16)];
      assert EscapeBytes(a + b) == head + EscapeBytes(a[1..] + b);
      assert EscapeBytes(a) == head + EscapeBytes(a[1..]);
    } else {
      assert a + b == b;
    }
  }

  /** With nothing to escape, the encoding is the text itself. */
  lemma {:induction false} EscapeWithoutPercent(s: string)
    requires '%' !in PercentEncode(s)
    ensures PercentEncode(s) == s
  {
    if s != [] {
      var e := EncodeChar(s[0]);
      EscapeConcat(e, Encode(s[1..]));
      var n := s[0] as int;
      assert n < 0x80;
      assert e == [n];
      assert '%' !in PercentEncode(s[1..]);
      EscapeWithoutPercent(s[1..]);
      assert PercentEncode(s) == [s[0]] + PercentEncode(s[1..]);
    }
  }

  lemma {:induction false} EncodeConcat(a: string, b: string)
    ensures Encode(a + b) == Encode(a) + Encode(b)
  {
    if a != [] {
      assert (a + b)[0] == a[0];
      assert (a + b)[1..] == a[1..] + b;
      EncodeConcat(a[1..], b);
      assert Encode(a + b) == EncodeChar(a[0]) + Encode(a[1..] + b);
    } else {
      assert a + b == b;
    }
  }

  lemma PercentEncodeConcat(a: string, b: string)
    ensures PercentEncode(a + b) == PercentEncode(a) + PercentEncode(b)
  {
    EncodeConcat(a, b);
    EscapeConcat(Encode(a), Encode(b));
  }

  /** The characters percent-encoding can produce. */
  predicate EscapedChar(c: char) {
    c == '%' || IsHex(c) || (c as int < 0x80 && Unreserved(c as int))
  }

  lemma {:induction false} EscapeBytesChars(b: seq<Byte>)
    ensures |EscapeBytes(b)| >= |b|
    ensures forall k :: 0 <= k < |EscapeBytes(b)| ==> EscapedChar(EscapeBytes(b)[k])
  {
    if b != [] {
      EscapeBytesChars(b[1..]);
    }
  }

  /** An encoded non-empty text is non-empty and made of unreserved
      characters, '%' and hex digits only. */
  lemma PercentEncodeChars(s: string)
    ensures s != [] ==> PercentEncode(s) != []
    ensures forall k :: 0 <= k < |PercentEncode(s)| ==> EscapedChar(PercentEncode(s)[k])
  {
    EscapeBytesChars(Encode(s));
    if s != [] {
      assert Encode(s) == EncodeChar(s[0]) + Encode(s[1..]);
    }
  }

  /** Unreserved ASCII text is its own encoding. */
  lemma {:induction false} PercentEncodeUnreserved(s: string)
    requires forall k :: 0 <= k < |s| ==> s[k] as int < 0x80 && Unreserved(s[k] as int)
    ensures PercentEncode(s) == s
  {
    if s != [] {
      PercentEncodeUnreserved(s[1..]);
      EscapeConcat(EncodeChar(s[0]), Encode(s[1..]));
    }
  }

  lemma PercentEncodeIDiaeresis()
    ensures PercentEncode("\U{EF}") == "%C3%AF"
  {
    var i := "\U{EF}";
    assert i[1..] == [];
    assert EncodeChar(i[0]) == [0xC3, 0xAF];
    assert Encode(i) == [0xC3, 0xAF];
    var e := EscapeBytes([0xAF]);
    assert e == "%AF";
  }

  lemma PercentEncodeAsciiParts()
    ensures PercentEncode("na") == "na" && PercentEncode("ve.txt") == "ve.txt"
  {
    assert forall k :: 0 <= k < 2 ==> "na"[k] as int < 0x80 && Unreserved("na"[k] as int);
    PercentEncodeUnreserved("na");
    assert forall k :: 0 <= k < 6 ==> "ve.txt"[k] as int < 0x80 && Unreserved("ve.txt"[k] as int);
    PercentEncodeUnreserved("ve.txt");
  }

  lemma PercentEncodeNaive()
    ensures PercentEncode("na\U{EF}ve.txt") == "na%C3%AFve.txt"
  {
    var n, i, v := "na", "\U{EF}", "ve.txt";
    NaiveParts();
    PercentEncodeConcat(n, i + v);
    PercentEncodeConcat(i, v);
    PercentEncodeAsciiParts();
    PercentEncodeIDiaeresis();
  }

  lemma NaiveParts()
    ensures "na\U{EF}ve.txt" == "na" + ("\U{EF}" + "ve.txt")
    ensures "na%C3%AFve.txt" == "na" + ("%C3%AF" + "ve.txt")
  {
  }

  /** The worked example of the bot's filename handling. */
  lemma UnquoteNaive()
    ensures Unquote("na%C3%AFve.txt") == "na\U{EF}ve.txt"
  {
    PercentEncodeNaive();
    UnquotePercentEncode("na\U{EF}ve.txt");
  }
}
