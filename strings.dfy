/**
 * The handful of Python `str` operations the bot relies on, written out as
 * total functions over `seq<char>`: `strip`, `find`, `split`, slicing,
 * ASCII lower-casing, and the decimal rendering and parsing of integers
 * (`str(n)` and `int(s)`).
 */
module Strings {
  import opened Wrappers

  /** Python's `str.isspace` for one character. */
  predicate IsSpace(c: char) {
    var n := c as int;
    (9 <= n <= 13) || (28 <= n <= 32) || n == 0x85 || n == 0xA0 || n == 0x1680
    || (0x2000 <= n <= 0x200A) || n == 0x2028 || n == 0x2029 || n == 0x202F
    || n == 0x205F || n == 0x3000
  }

  predicate IsQuote(c: char) { c == '"' }

  /** Number of leading characters of `s` that `drop` removes. */
  function LeadingCount(s: string, drop: char -> bool): (n: nat)
    ensures n <= |s|
    ensures forall k :: 0 <= k < n ==> drop(s[k])
    ensures n < |s| ==> !drop(s[n])
  {
    if s == [] || !drop(s[0]) then 0 else 1 + LeadingCount(s[1..], drop)
  }

  /** Number of trailing characters of `s` that `drop` removes. */
  function TrailingCount(s: string, drop: char -> bool): (n: nat)
    ensures n <= |s|
    ensures forall k :: |s| - n <= k < |s| ==> drop(s[k])
    ensures n < |s| ==> !drop(s[|s| - 1 - n])
  {
    if s == [] || !drop(s[|s| - 1]) then 0 else 1 + TrailingCount(s[..|s| - 1], drop)
  }

  /** `r` is `s` with a run of droppable characters cut off before index
      `i` and another after `i + |r|`. */
  predicate CutAt(s: string, drop: char -> bool, r: string, i: int) {
    && 0 <= i && i + |r| <= |s| && s[i..i + |r|] == r
    && (forall k :: 0 <= k < i ==> drop(s[k]))
    && (forall k :: i + |r| <= k < |s| ==> drop(s[k]))
  }

  /** `s.strip(chars)`: remove the characters `drop` selects from both ends. */
  function Trim(s: string, drop: char -> bool): (r: string)
    ensures r == [] <==> forall k :: 0 <= k < |s| ==> drop(s[k])
    ensures r != [] ==> !drop(r[0]) && !drop(r[|r| - 1])
    ensures exists i :: CutAt(s, drop, r, i)
  {
    var i := LeadingCount(s, drop);
    var t := s[i..];
    var r := t[..|t| - TrailingCount(t, drop)];
    assert s[i..i + |r|] == r;
    assert CutAt(s, drop, r, i);
    r
  }

  /** `s.strip()`. */
  function Strip(s: string): string { Trim(s, IsSpace) }

  /** `s.strip('"')`. */
  function StripQuotes(s: string): string { Trim(s, IsQuote) }

  lemma {:induction false} TrimKeeps(s: string, drop: char -> bool)
    requires s == [] || (!drop(s[0]) && !drop(s[|s| - 1]))
    ensures Trim(s, drop) == s
  {
    var i := LeadingCount(s, drop);
    assert i == 0;
    var n := TrailingCount(s, drop);
    assert n == 0;
  }

  /** Stripping cuts exactly the dropped characters around `s[i..j]`. */
  lemma {:induction false} TrimBetween(s: string, drop: char -> bool, i: nat, j: nat)
    requires i < j <= |s| && !drop(s[i]) && !drop(s[j - 1])
    requires forall k :: 0 <= k < i ==> drop(s[k])
    requires forall k :: j <= k < |s| ==> drop(s[k])
    ensures Trim(s, drop) == s[i..j]
  {
    var a := LeadingCount(s, drop);
    assert a == i;
    var t := s[a..];
    var n := TrailingCount(t, drop);
    assert t[|t| - 1 - (|s| - j)] == s[j - 1];
    assert n == |s| - j;
    assert t[..|t| - n] == s[i..j];
  }

  /** A stripped text that is not empty neither starts nor ends with what
      the strip drops. */
  lemma TrimKeepsEnds(s: string, drop: char -> bool)
    requires s != [] && Trim(s, drop) == s
    ensures !drop(s[0]) && !drop(s[|s| - 1])
  {
  }

  /** Stripping twice strips no more than stripping once. */
  lemma StripIdempotent(s: string)
    ensures Strip(Strip(s)) == Strip(s)
  {
    TrimKeeps(Strip(s), IsSpace);
  }

  predicate StartsWith(s: string, p: string) {
    |p| <= |s| && s[..|p|] == p
  }

  /** A concatenation starts with its left part and ends as its right part does. */
  lemma ConcatEnds(a: string, b: string)
    requires b != []
    ensures StartsWith(a + b, a) && (a + b)[|a + b| - 1] == b[|b| - 1]
  {
    assert (a + b)[..|a|] == a;
  }

  predicate Occurs(s: string, m: string, k: int) {
    0 <= k && k + |m| <= |s| && s[k..k + |m|] == m
  }

  /** `s.find(m, from)`: the first occurrence of `m` at or after `from`. */
  function IndexOf(s: string, m: string, from: nat): (r: Option<nat>)
    ensures r.Some? ==> from <= r.value && Occurs(s, m, r.value)
    ensures r.Some? ==> forall k :: from <= k < r.value ==> !Occurs(s, m, k)
    ensures r.None? ==> forall k :: from <= k ==> !Occurs(s, m, k)
    decreases |s| - from
  {
    if from + |m| > |s| then None
    else if s[from..from + |m|] == m then Some(from)
    else IndexOf(s, m, from + 1)
  }

  /** `m in s`. */
  predicate Contains(s: string, m: string) {
    IndexOf(s, m, 0).Some?
  }

  /** `s.split(sep)[0]`: the text before the first `sep`. */
  function FirstPiece(s: string, sep: string): (r: string)
    requires sep != []
    ensures StartsWith(s, r)
    ensures !Contains(r, sep)
    ensures r == s || Occurs(s, sep, |r|)
    ensures forall k :: 0 <= k < |r| ==> !Occurs(s, sep, k)
  {
    match IndexOf(s, sep, 0)
    case None => s
    case Some(k) =>
      assert forall j :: 0 <= j ==> !Occurs(s[..k], sep, j) by {
        forall j | 0 <= j && Occurs(s[..k], sep, j) ensures false {
          assert s[j..j + |sep|] == s[..k][j..j + |sep|];
          assert Occurs(s, sep, j);
        }
      }
      s[..k]
  }

  /** `s.split(sep)[-1]`. Python splits left to right without overlaps: each
      cut is made at the leftmost separator of what is left (the one
      `FirstPiece` stops at), so this is the last piece of what follows the
      first separator, or `s` when there is none. */
  function LastPiece(s: string, sep: string): string
    requires sep != []
    decreases |s|
  {
    match IndexOf(s, sep, 0)
    case None => s
    case Some(k) => LastPiece(s[k + |sep|..], sep)
  }

  /** The last piece is a suffix of `s` free of `sep`, and unless it is all
      of `s` a separator ends right before it. */
  lemma {:induction false} LastPieceIsSuffix(s: string, sep: string)
    requires sep != []
    ensures var r := LastPiece(s, sep);
      && |r| <= |s| && r == s[|s| - |r|..]
      && !Contains(r, sep)
      && (|r| < |s| ==> Occurs(s, sep, |s| - |r| - |sep|))
    decreases |s|
  {
    match IndexOf(s, sep, 0)
    case None =>
    case Some(k) =>
      var rest := s[k + |sep|..];
      LastPieceIsSuffix(rest, sep);
      LastPieceStep(s, sep, k, rest, LastPiece(rest, sep));
  }

  /** The cuts agree with `FirstPiece`: the last piece of `s` is the last
      piece of what follows the first piece and its separator. */
  lemma {:induction false} LastPieceAfterFirst(s: string, sep: string)
    requires sep != []
    ensures FirstPiece(s, sep) == s ==> LastPiece(s, sep) == s
    ensures FirstPiece(s, sep) != s ==>
      LastPiece(s, sep) == LastPiece(s[|FirstPiece(s, sep)| + |sep|..], sep)
  {
    match IndexOf(s, sep, 0)
    case None =>
      assert LastPiece(s, sep) == s;
    case Some(k) =>
      assert FirstPiece(s, sep) == s[..k];
      assert |FirstPiece(s, sep)| == k < |s|;
      assert LastPiece(s, sep) == LastPiece(s[k + |sep|..], sep);
  }

  /** One cut of `LastPiece`: a suffix of what follows the separator at `k`
      is a suffix of `s`, and the separator before it lies in `s`. */
  lemma LastPieceStep(s: string, sep: string, k: nat, rest: string, r: string)
    requires Occurs(s, sep, k) && rest == s[k + |sep|..]
    requires |r| <= |rest| && r == rest[|rest| - |r|..]
    requires |r| < |rest| ==> Occurs(rest, sep, |rest| - |r| - |sep|)
    ensures r == s[|s| - |r|..]
    ensures Occurs(s, sep, |s| - |r| - |sep|)
  {
    assert s[|s| - |r|..] == rest[|rest| - |r|..];
    if |r| < |rest| {
      OccursInDrop(s, k + |sep|, sep, |rest| - |r| - |sep|);
    }
  }

  lemma OccursInDrop(s: string, a: nat, m: string, j: int)
    requires a <= |s| && Occurs(s[a..], m, j)
    ensures Occurs(s, m, a + j)
  {
    assert s[a..][j..j + |m|] == s[a + j..a + j + |m|];
  }

  /** Overlapping separators: in "x/u/u/y" the second "/u/" overlaps the
      first, so only the first one splits. */
  lemma LastPieceOverlap()
    ensures LastPiece("x/u/u/y", "/u/") == "u/y"
  {
    var s := "x/u/u/y";
    assert s[0] == 'x' && s[1..4] == "/u/";
    IndexOfIs(s, "/u/", 0, 1);
    var rest := s[4..];
    assert rest == "u/y";
    assert !Contains(rest, "/u/") by {
      assert forall k :: 0 <= k ==> !Occurs(rest, "/u/", k);
    }
  }

  /** `s[:n]`, which never fails in Python. */
  function Take(s: string, n: nat): (r: string)
    ensures |r| == if |s| <= n then |s| else n
    ensures StartsWith(s, r)
  {
    if |s| <= n then s else s[..n]
  }

  function LowerChar(c: char): char {
    if 'A' <= c <= 'Z' then (c as int + 32) as char else c
  }

  /** `s.lower()` restricted to ASCII letters. */
  function Lower(s: string): (r: string)
    ensures |r| == |s| && forall k :: 0 <= k < |s| ==> r[k] == LowerChar(s[k])
  {
    seq(|s|, k requires 0 <= k < |s| => LowerChar(s[k]))
  }

  /** Does `m` occur at `k` in `s` when ASCII letters are compared without case? */
  predicate OccursNoCase(s: string, m: string, k: int) {
    0 <= k && k + |m| <= |s| && Lower(s[k..k + |m|]) == Lower(m)
  }

  // ---- decimal integers ----

  predicate IsDigit(c: char) { '0' as int <= c as int <= '9' as int }

  function DigitChar(d: nat): (c: char)
    requires d < 10
    ensures IsDigit(c) && c as int - '0' as int == d
  {
    ('0' as int + d) as char
  }

  /** The value of a string of ASCII digits. */
  function DigitsValue(s: string): nat
    requires forall k :: 0 <= k < |s| ==> IsDigit(s[k])
  {
    if s == [] then 0
    else
      assert IsDigit(s[|s| - 1]);
      DigitsValue(s[..|s| - 1]) * 10 + (s[|s| - 1] as int - '0' as int)
  }

  /** `str(n)` for a natural number. */
  function NatToString(n: nat): (r: string)
    ensures r != [] && forall k :: 0 <= k < |r| ==> IsDigit(r[k])
    ensures r[0] == '0' ==> n == 0 && r == "0"
  {
    if n < 10 then [DigitChar(n)] else NatToString(n / 10) + [DigitChar(n % 10)]
  }

  /** `str(n)` for any integer. */
  function IntToString(n: int): string {
    if n < 0 then "-" + NatToString(-n) else NatToString(n)
  }

  lemma {:induction false} NatToStringValue(n: nat)
    ensures DigitsValue(NatToString(n)) == n
  {
    if n >= 10 {
      NatToStringValue(n / 10);
      var s := NatToString(n);
      assert s[..|s| - 1] == NatToString(n / 10);
    }
  }

  /** The digits of an integer literal as Python's `int()` accepts them:
      digits, with single underscores allowed between two digits. */
  predicate ValidDigits(s: string) {
    && s != []
    && IsDigit(s[0]) && IsDigit(s[|s| - 1])
    && (forall k :: 0 <= k < |s| ==> IsDigit(s[k]) || s[k] == '_')
    && (forall j, k :: 0 <= j < |s| && 0 <= k < |s| && k == j + 1 ==> s[j] != '_' || s[k] != '_')
  }

  function WithoutUnderscores(s: string): (r: string)
    ensures forall k :: 0 <= k < |r| ==> r[k] != '_'
    ensures (forall k :: 0 <= k < |s| ==> s[k] != '_') ==> r == s
    ensures (forall k :: 0 <= k < |s| ==> IsDigit(s[k]) || s[k] == '_') ==>
              forall k :: 0 <= k < |r| ==> IsDigit(r[k])
  {
    if s == [] then []
    else if s[0] == '_' then WithoutUnderscores(s[1..])
    else [s[0]] + WithoutUnderscores(s[1..])
  }

  /** `t` without one leading sign character. */
  function Unsigned(t: string): (r: string)
    ensures r == t || (t != [] && (t[0] == '+' || t[0] == '-') && r == t[1..])
  {
    if t != [] && (t[0] == '-' || t[0] == '+') then t[1..] else t
  }

  /** `int(s)` in base 10: `None` stands for the `ValueError` Python raises.
      Surrounding whitespace is ignored, one sign is allowed, and the digits
      may be grouped with single underscores. */
  function ParseInt(s: string): (r: Option<int>)
    ensures r.None? <==> !ValidDigits(Unsigned(Strip(s)))
    ensures r.Some? ==>
      var t := Strip(s);
      r.value == (if t[0] == '-' then -1 else 1) * DigitsValue(WithoutUnderscores(Unsigned(t)))
  {
    var t := Strip(s);
    if t == [] then None
    else
      var body := Unsigned(t);
      if !ValidDigits(body) then None
      else
        var v: int := DigitsValue(WithoutUnderscores(body));
        var i: int := if t[0] == '-' then -v else v;
        Some(i)
  }

  /** `int()` ignores the whitespace around a number. */
  lemma {:induction false} ParseIntSurrounded(n: int, pre: string, post: string)
    requires forall k :: 0 <= k < |pre| ==> IsSpace(pre[k])
    requires forall k :: 0 <= k < |post| ==> IsSpace(post[k])
    ensures ParseInt(pre + IntToString(n) + post) == Some(n)
  {
    var d := IntToString(n);
    var s := pre + d + post;
    StripDecimal(n);
    assert !IsSpace(d[0]) && !IsSpace(d[|d| - 1]) by {
      TrimKeepsEnds(d, IsSpace);
    }
    assert s[|pre|..|pre| + |d|] == d;
    TrimBetween(s, IsSpace, |pre|, |pre| + |d|);
    ParseIntSameStrip(s, d);
    ParseIntToString(n);
  }

  /** `int()` reads only the stripped text. */
  lemma ParseIntSameStrip(s: string, t: string)
    requires Strip(s) == Strip(t)
    ensures ParseInt(s) == ParseInt(t)
  {
  }

  /** `int()` refuses the empty text and a lone sign. */
  lemma ParseIntRejects()
    ensures ParseInt("") == None
    ensures ParseInt("+") == None
    ensures ParseInt("-") == None
  {
    TrimKeeps("+", IsSpace);
    TrimKeeps("-", IsSpace);
    assert !ValidDigits([]);
    assert Unsigned("+") == [] && Unsigned("-") == [];
  }

  lemma DecimalIsValid(m: nat)
    ensures ValidDigits(NatToString(m))
    ensures WithoutUnderscores(NatToString(m)) == NatToString(m)
  {
    var d := NatToString(m);
    assert IsDigit(d[|d| - 1]);
  }

  lemma StripDecimal(n: int)
    ensures Strip(IntToString(n)) == IntToString(n)
  {
    var m: nat := if n < 0 then -n else n;
    var d := NatToString(m);
    var s := IntToString(n);
    assert IsDigit(d[|d| - 1]);
    assert s[|s| - 1] == d[|d| - 1];
    assert !IsSpace(s[0]) && !IsSpace(s[|s| - 1]);
    TrimKeeps(s, IsSpace);
  }

  /** `int(str(n)) == n`. */
  lemma ParseIntToString(n: int)
    ensures ParseInt(IntToString(n)) == Some(n)
  {
    var m: nat := if n < 0 then -n else n;
    var d := NatToString(m);
    var s := IntToString(n);
    StripDecimal(n);
    DecimalIsValid(m);
    NatToStringValue(m);
    UnsignedDecimal(n);
    ParseIntOf(s, d, d);
  }

  lemma UnsignedDecimal(n: int)
    ensures var s := IntToString(n);
      Unsigned(s) == NatToString(if n < 0 then -n else n) && (s[0] == '-' <==> n < 0)
  {
  }

  lemma ParseIntOf(s: string, d: string, w: string)
    requires Strip(s) != [] && Unsigned(Strip(s)) == d
    requires ValidDigits(d) && WithoutUnderscores(d) == w
    ensures ParseInt(s) == Some((if Strip(s)[0] == '-' then -1 else 1) * DigitsValue(w))
  {
  }

  // ---- occurrences in concatenations ----

  lemma OccursInLeft(a: string, b: string, m: string, k: int)
    requires 0 <= k && k + |m| <= |a|
    ensures Occurs(a + b, m, k) <==> Occurs(a, m, k)
  {
    assert (a + b)[k..k + |m|] == a[k..k + |m|];
  }

  lemma OccursInRight(a: string, b: string, m: string, k: int)
    requires |a| <= k
    ensures Occurs(a + b, m, k) <==> Occurs(b, m, k - |a|)
  {
    if k + |m| <= |a| + |b| {
      assert (a + b)[k..k + |m|] == b[k - |a|..k - |a| + |m|];
    }
  }

  lemma OccursAt(s: string, m: string, k: int, j: int)
    requires Occurs(s, m, k) && 0 <= j < |m|
    ensures s[k + j] == m[j]
  {
    assert s[k..k + |m|][j] == s[k + j];
  }

  /** `IndexOf` finds the first occurrence. */
  lemma IndexOfIs(s: string, m: string, from: nat, j: nat)
    requires from <= j && Occurs(s, m, j)
    requires forall k :: from <= k < j ==> !Occurs(s, m, k)
    ensures IndexOf(s, m, from) == Some(j)
  {
  }

  /** A separator that starts with `c` cannot occur in text without `c`. */
  lemma NotContainsWithout(s: string, m: string)
    requires m != [] && m[0] !in s
    ensures !Contains(s, m)
  {
  }
}
