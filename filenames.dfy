/**
 * File names: `sanitize_filename`, which makes a display/upload name out of
 * whatever a server or a user supplied, and `extract_filename`, which reads
 * the name of a download from its Content-Disposition header or, failing
 * that, from the last segment of its URL path.
 */
module Filenames {
  import opened Wrappers
  import opened Strings
  import opened Urls
  import opened Unquote

  // ---- os.path.splitext ----

  /** Is there a character other than '.' strictly between `lo` and `hi`? */
  predicate HasNonDot(p: string, lo: int, hi: int)
    requires -1 <= lo && hi <= |p|
  {
    exists k :: lo < k < hi && p[k] != '.'
  }

  /** `posixpath.splitext`: the extension is the text from the last '.' of
      the last path segment, unless that segment is dots up to that point
      (so ".bashrc" and "..." have no extension). */
  function SplitExt(p: string): (r: (string, string))
    ensures r.0 + r.1 == p
    ensures r.1 == [] || (r.1[0] == '.' && '/' !in r.1 && '.' !in r.1[1..])
    ensures r.1 != [] ==> HasNonDot(p, LastOf(p, '/'), |r.0|)
    ensures var sep, dot := LastOf(p, '/'), LastOf(p, '.');
      if dot > sep && HasNonDot(p, sep, dot) then |r.0| == dot else r.1 == []
  {
    var sep := LastOf(p, '/');
    var dot := LastOf(p, '.');
    if dot > sep && HasNonDot(p, sep, dot) then
      (p[..dot], p[dot..])
    else
      (p, [])
  }

  // ---- sanitize_filename ----

  /** The characters `[\r\n\t\0]` that a sanitized name never holds. */
  predicate IsControl(c: char) { c == '\r' || c == '\n' || c == '\t' || c == '\0' }

  predicate NoControls(s: string) { forall k :: 0 <= k < |s| ==> !IsControl(s[k]) }

  /** `re.sub(r"[\r\n\t\0]+", "", s)`: every other character is kept, in
      order and as often as it occurs. */
  function RemoveControls(s: string): (r: string)
    ensures NoControls(r) && |r| <= |s|
    ensures NoControls(s) ==> r == s
  {
    if s == [] then []
    else if IsControl(s[0]) then RemoveControls(s[1..])
    else [s[0]] + RemoveControls(s[1..])
  }

  /** Every character other than a control character is kept as often as
      it occurs; control characters are all gone. */
  lemma {:induction false} RemoveControlsCounts(s: string)
    ensures forall c :: multiset(RemoveControls(s))[c] == if IsControl(c) then 0 else multiset(s)[c]
    decreases |s|
  {
    if s != [] {
      RemoveControlsCounts(s[1..]);
      assert s == [s[0]] + s[1..];
      var head := if IsControl(s[0]) then [] else [s[0]];
      assert RemoveControls(s) == head + RemoveControls(s[1..]);
    }
  }

  /** The removal works character by character: it distributes over
      concatenation. */
  lemma {:induction false} RemoveControlsAppend(a: string, b: string)
    ensures RemoveControls(a + b) == RemoveControls(a) + RemoveControls(b)
    decreases |a|
  {
    if a == [] {
      assert a + b == b;
      assert RemoveControls(a) == [];
    } else {
      var ab := a + b;
      assert ab[0] == a[0] && ab[1..] == a[1..] + b;
      RemoveControlsAppend(a[1..], b);
      var head := if IsControl(a[0]) then [] else [a[0]];
      assert RemoveControls(ab) == head + RemoveControls(ab[1..]);
      assert RemoveControls(a) == head + RemoveControls(a[1..]);
    }
  }

  /** One character: a control character goes, any other stays. */
  lemma RemoveControlsOne(c: char)
    ensures RemoveControls([c]) == if IsControl(c) then [] else [c]
  {
  }

  const MaxNameLength := 180
  const RootKeep := 160
  const ExtKeep := 20

  /** The name before the length cap: the stripped name, or `fallback`
      (as given, not stripped) when that is empty, without control
      characters. */
  function Cleaned(name: string, fallback: string): (c: string)
    ensures NoControls(c)
    ensures Strip(name) != [] ==> c == RemoveControls(Strip(name))
    ensures Strip(name) == [] ==> c == RemoveControls(fallback)
  {
    var n := Strip(name);
    RemoveControls(if n == [] then fallback else n)
  }

  /** `sanitize_filename(name, fallback)`. */
  function SanitizeFilename(name: string, fallback: string): (r: string)
    ensures NoControls(r)
    ensures |r| <= MaxNameLength
    ensures |Cleaned(name, fallback)| <= MaxNameLength ==> r == Cleaned(name, fallback)
    ensures |Cleaned(name, fallback)| > MaxNameLength ==>
      var (root, ext) := SplitExt(Cleaned(name, fallback));
      r == Take(root, RootKeep) + Take(ext, ExtKeep)
  {
    var c := Cleaned(name, fallback);
    if |c| > MaxNameLength then
      var (root, ext) := SplitExt(c);
      CapKeepsClean(root, ext);
      Take(root, RootKeep) + Take(ext, ExtKeep)
    else
      c
  }

  lemma CapKeepsClean(root: string, ext: string)
    requires NoControls(root + ext)
    ensures NoControls(Take(root, RootKeep) + Take(ext, ExtKeep))
  {
    var c := root + ext;
    var a, b := Take(root, RootKeep), Take(ext, ExtKeep);
    forall k | 0 <= k < |a + b| ensures !IsControl((a + b)[k]) {
      if k < |a| {
        assert (a + b)[k] == root[k] == c[k];
      } else {
        assert (a + b)[k] == ext[k - |a|] == c[|root| + k - |a|];
      }
    }
  }

  /** A name that is already clean (non-blank, stripped, no control
      characters, short enough) comes back unchanged. */
  lemma SanitizeKeepsCleanName(name: string, fallback: string)
    requires name != [] && Strip(name) == name && NoControls(name) && |name| <= MaxNameLength
    ensures SanitizeFilename(name, fallback) == name
  {
  }

  /** Sanitizing again changes nothing once the result is non-blank and
      has no surrounding white space. */
  lemma SanitizeIdempotent(name: string, fallback: string)
    requires var r := SanitizeFilename(name, fallback); r != [] && Strip(r) == r
    ensures SanitizeFilename(SanitizeFilename(name, fallback), fallback) == SanitizeFilename(name, fallback)
  {
    SanitizeKeepsCleanName(SanitizeFilename(name, fallback), fallback);
  }

  /** ... but it is not idempotent in general: a NUL in front of a space
      hides the space from the strip that comes before the removal. */
  lemma SanitizeNotIdempotent()
    ensures SanitizeFilename("\0 a", "file") == " a"
    ensures SanitizeFilename(" a", "file") == "a"
  {
    SanitizeNulSpace("\0 a");
    SanitizeSpaceA(" a");
  }

  lemma SanitizeNulSpace(s: string)
    requires s == "\0 a"
    ensures SanitizeFilename(s, "file") == " a"
  {
    assert s[0] == '\0' && s[|s| - 1] == 'a';
    TrimKeeps(s, IsSpace);
    assert s[1..] == " a";
    assert NoControls(" a");
    assert Cleaned(s, "file") == " a";
  }

  lemma SanitizeSpaceA(s: string)
    requires s == " a"
    ensures SanitizeFilename(s, "file") == "a"
  {
    assert s == [' ', 'a'];
    StripSpaceThen('a');
    assert NoControls("a");
    assert Cleaned(s, "file") == "a";
  }

  lemma StripSpaceThen(c: char)
    requires !IsSpace(c)
    ensures Strip([' ', c]) == [c]
  {
    var s := [' ', c];
    assert LeadingCount(s, IsSpace) == 1 by {
      assert LeadingCount(s[1..], IsSpace) == 0;
    }
    assert s[1..] == [c];
  }

  /** A blank name gives the fallback, which is used as given. */
  lemma SanitizeBlankUsesFallback(name: string, fallback: string)
    requires Strip(name) == [] && NoControls(fallback) && |fallback| <= MaxNameLength
    ensures SanitizeFilename(name, fallback) == fallback
  {
  }

  /** A name of control characters only comes out empty, not as the
      fallback: the emptiness test runs before the removal. */
  lemma SanitizeOnlyControls(name: string, fallback: string)
    requires name != [] && forall k :: 0 <= k < |name| ==> name[k] == '\0'
    ensures SanitizeFilename(name, fallback) == []
  {
    assert !IsSpace(name[0]) && !IsSpace(name[|name| - 1]);
    TrimKeeps(name, IsSpace);
    RemoveControlsCounts(name);
  }

  /** A long name keeps its first 160 characters and, when its extension
      is at most 20 characters long, the whole extension. */
  lemma SanitizeKeepsShortExtension(name: string, fallback: string)
    requires var c := Cleaned(name, fallback); |c| > MaxNameLength && |SplitExt(c).1| <= ExtKeep
    ensures var c := Cleaned(name, fallback);
      var (root, ext) := SplitExt(c);
      var r := SanitizeFilename(name, fallback);
      && r == Take(root, RootKeep) + ext
      && (|root| >= RootKeep ==> r == c[..RootKeep] + ext)
      && |r| >= |ext| && r[|r| - |ext|..] == ext
  {
    var c := Cleaned(name, fallback);
    var (root, ext) := SplitExt(c);
    var r := SanitizeFilename(name, fallback);
    assert Take(ext, ExtKeep) == ext;
    assert r == Take(root, RootKeep) + ext;
    ConcatParts(Take(root, RootKeep), ext, 0);
    ConcatParts(root, ext, RootKeep);
  }

  lemma ConcatParts(a: string, b: string, n: nat)
    ensures (a + b)[|a + b| - |b|..] == b
    ensures n <= |a| ==> (a + b)[..n] == a[..n] && a[..n] == Take(a, n)
  {
  }

  // ---- extract_filename ----

  const ExtMarker := "filename*="
  const Utf8Tag := "utf-8''"
  const BasicMarker := "filename="

  /** The longest run of characters outside `stops` that starts at `q`. */
  function RunFrom(s: string, q: nat, stops: set<char>): (r: string)
    requires q <= |s|
    ensures q + |r| <= |s| && s[q..q + |r|] == r
    ensures forall k :: 0 <= k < |r| ==> r[k] !in stops
    ensures q + |r| < |s| ==> s[q + |r|] in stops
  {
    s[q..FirstOf(s, stops, q)]
  }

  /** What `(?:utf-8''|UTF-8'')?([^;]+)` captures when matched at `q`,
      letters compared without case: the tag is taken only when at least
      one character of the value follows it, and otherwise the expression
      backtracks and captures the tag itself. */
  function ExtValueAt(cd: string, q: nat): (r: Option<string>)
    requires q <= |cd|
    ensures r.Some? <==> q < |cd| && cd[q] != ';'
    ensures r.Some? ==> r.value != [] && ';' !in r.value
  {
    if q < |cd| && cd[q] != ';' then
      if OccursNoCase(cd, Utf8Tag, q) && q + |Utf8Tag| < |cd| && cd[q + |Utf8Tag|] != ';' then
        Some(RunFrom(cd, q + |Utf8Tag|, {';'}))
      else
        Some(RunFrom(cd, q, {';'}))
    else
      None
  }

  /** Does the extended pattern match at `p`? */
  predicate ExtMatchAt(cd: string, p: int) {
    OccursNoCase(cd, ExtMarker, p) && ExtValueAt(cd, p + |ExtMarker|).Some?
  }

  /** `re.search(r"filename\*=(?:utf-8''|UTF-8'')?([^;]+)", cd, flags=re.IGNORECASE)`
      from index `from`: the capture of the leftmost match. */
  function FindExtValue(cd: string, from: nat): (r: Option<string>)
    ensures r.Some? <==> exists p :: from <= p && ExtMatchAt(cd, p)
    ensures r.Some? ==>
      exists p :: from <= p && ExtMatchAt(cd, p) && r == ExtValueAt(cd, p + |ExtMarker|)
        && forall p' :: from <= p' < p ==> !ExtMatchAt(cd, p')
    decreases |cd| - from
  {
    if from + |ExtMarker| > |cd| then None
    else if ExtMatchAt(cd, from) then ExtValueAt(cd, from + |ExtMarker|)
    else FindExtValue(cd, from + 1)
  }

  /** What `"?([^";]+)"?` captures when matched at `q`. An opening quote
      is skipped; without a character of the value after it the match
      fails, since the quote cannot start the value either. */
  function BasicValueAt(cd: string, q: nat): (r: Option<string>)
    requires q <= |cd|
    ensures r.Some? ==> r.value != [] && '"' !in r.value && ';' !in r.value
  {
    var v := if q < |cd| && cd[q] == '"' then q + 1 else q;
    if v < |cd| && cd[v] !in {'"', ';'} then Some(RunFrom(cd, v, {'"', ';'})) else None
  }

  predicate BasicMatchAt(cd: string, p: int) {
    Occurs(cd, BasicMarker, p) && BasicValueAt(cd, p + |BasicMarker|).Some?
  }

  /** `re.search(r'filename="?([^";]+)"?', cd)` from index `from`. */
  function FindBasicValue(cd: string, from: nat): (r: Option<string>)
    ensures r.Some? <==> exists p :: from <= p && BasicMatchAt(cd, p)
    ensures r.Some? ==>
      exists p :: from <= p && BasicMatchAt(cd, p) && r == BasicValueAt(cd, p + |BasicMarker|)
        && forall p' :: from <= p' < p ==> !BasicMatchAt(cd, p')
    decreases |cd| - from
  {
    if from + |BasicMarker| > |cd| then None
    else if BasicMatchAt(cd, from) then BasicValueAt(cd, from + |BasicMarker|)
    else FindBasicValue(cd, from + 1)
  }

  /** The Content-Disposition header of a response; response headers are
      keyed by their lower-cased names, so both spellings the source tries
      find the same entry. */
  function ContentDisposition(headers: Headers): string {
    if "content-disposition" in headers then headers["content-disposition"] else ""
  }

  /** The name carried by an extended `filename*=` parameter: surrounding
      blanks and quotes removed, then percent-decoded. */
  function ExtName(value: string): string {
    Unquote.Unquote(Strip(StripQuotes(Strip(value))))
  }

  /** The name the URL suggests: the last segment of its path, or the
      fallback when that is empty. */
  function UrlName(url: string, fallback: string): (r: string)
    ensures var path := UrlParse(url).path;
      if path == [] || path[|path| - 1] == '/' then r == fallback
      else r != [] && |r| <= |path| && r == path[|path| - |r|..] && '/' !in r && '?' !in r && '#' !in r
  {
    var base := Basename(UrlParse(url).path);
    if base == [] then fallback else base
  }

  /** `extract_filename(headers, url, fallback)`. */
  function ExtractFilename(headers: Headers, url: string, fallback: string): (r: string)
    ensures NoControls(r) && |r| <= MaxNameLength
    ensures var cd := ContentDisposition(headers);
      && (FindExtValue(cd, 0).Some? ==> r == SanitizeFilename(ExtName(FindExtValue(cd, 0).value), fallback))
      && (FindExtValue(cd, 0).None? && FindBasicValue(cd, 0).Some? ==>
            r == SanitizeFilename(FindBasicValue(cd, 0).value, fallback))
      && (FindExtValue(cd, 0).None? && FindBasicValue(cd, 0).None? ==>
            r == SanitizeFilename(UrlName(url, fallback), fallback))
  {
    var cd := ContentDisposition(headers);
    var ext := if Contains(Lower(cd), ExtMarker) then FindExtValue(cd, 0) else None;
    ExtMatchHasMarker(cd);
    if ext.Some? then
      SanitizeFilename(ExtName(ext.value), fallback)
    else
      var basic := FindBasicValue(cd, 0);
      if basic.Some? then SanitizeFilename(basic.value, fallback)
      else SanitizeFilename(UrlName(url, fallback), fallback)
  }

  /** The cheap test `"filename*=" in cd.lower()` holds whenever the
      pattern matches, so it never hides a match. */
  lemma ExtMatchHasMarker(cd: string)
    ensures FindExtValue(cd, 0).Some? ==> Contains(Lower(cd), ExtMarker)
  {
    if FindExtValue(cd, 0).Some? {
      var p :| 0 <= p && ExtMatchAt(cd, p);
      MarkersLowerCase();
      LowerOccurs(cd, ExtMarker, p);
      assert Occurs(Lower(cd), ExtMarker, p);
    }
  }

  lemma MarkersLowerCase()
    ensures Lower(ExtMarker) == ExtMarker && Lower(Utf8Tag) == Utf8Tag
  {
    assert forall k :: 0 <= k < |ExtMarker| ==> LowerChar(ExtMarker[k]) == ExtMarker[k];
    assert forall k :: 0 <= k < |Utf8Tag| ==> LowerChar(Utf8Tag[k]) == Utf8Tag[k];
  }

  /** A case-insensitive match of a lower-case pattern is a match in the
      lower-cased text. */
  lemma LowerOccurs(s: string, m: string, k: int)
    requires Lower(m) == m && OccursNoCase(s, m, k)
    ensures Occurs(Lower(s), m, k)
  {
    assert Lower(s)[k..k + |m|] == Lower(s[k..k + |m|]);
  }

  // ---- what extract_filename recovers ----

  /** A lower-casing that gives a character other than a letter started
      from that character. */
  lemma LowerCharOfSymbol(x: char, c: char)
    requires !('a' <= c <= 'z') && LowerChar(x) == c
    ensures x == c
  {
  }

  /** An exact occurrence is also one without case. */
  lemma OccursIsNoCase(s: string, m: string, k: int)
    requires Occurs(s, m, k)
    ensures OccursNoCase(s, m, k)
  {
  }

  /** When the character at `j` of `m` is a symbol that `pre` lacks and
      that comes no earlier in `m`, `m` cannot start inside `pre`. */
  lemma NoEarlierOccurrence(pre: string, m: string, rest: string, j: nat)
    requires j < |m| && m[j] !in pre && !('a' <= m[j] <= 'z') && !('A' <= m[j] <= 'Z')
    requires forall i :: 0 <= i < j ==> m[i] != m[j]
    ensures forall p :: 0 <= p < |pre| ==> !OccursNoCase(pre + m + rest, m, p)
  {
    var cd := pre + m + rest;
    forall p | 0 <= p < |pre| ensures !OccursNoCase(cd, m, p) {
      if OccursNoCase(cd, m, p) {
        var w := cd[p..p + |m|];
        assert Lower(w)[j] == Lower(m)[j];
        LowerCharOfSymbol(w[j], m[j]);
      }
    }
  }

  lemma UpperTagMatches()
    ensures Lower("UTF-8''") == Lower(Utf8Tag)
  {
  }

  /** An extended parameter `filename*=UTF-8''<value>` after text with no
      '*' in it yields `value` when the value has no ';'. */
  lemma ExtFoundAfter(pre: string, value: string)
    requires '*' !in pre && value != [] && ';' !in value
    ensures FindExtValue(pre + ExtMarker + ("UTF-8''" + value), 0) == Some(value)
  {
    var rest := "UTF-8''" + value;
    var cd := pre + ExtMarker + rest;
    NoEarlierOccurrence(pre, ExtMarker, rest, 8);
    var q := |pre| + |ExtMarker|;
    assert cd[|pre|..q] == ExtMarker;
    assert OccursNoCase(cd, ExtMarker, |pre|);
    assert cd[q..] == rest;
    assert cd[q..q + |Utf8Tag|] == rest[..7] == "UTF-8''";
    UpperTagMatches();
    assert OccursNoCase(cd, Utf8Tag, q);
    var v := q + |Utf8Tag|;
    assert cd[v..] == value;
    assert v < |cd| && cd[v] == value[0] && cd[q] == 'U';
    FirstOfIs(cd, {';'}, v, |cd|);
    assert RunFrom(cd, v, {';'}) == value;
    assert ExtValueAt(cd, q) == Some(value);
    assert ExtMatchAt(cd, |pre|);
  }

  /** A basic parameter `filename="<value>"` after text with no '=' in it
      yields `value` when the value has no '"' and no ';'. */
  lemma BasicFoundAfter(pre: string, value: string, post: string)
    requires '=' !in pre && value != [] && '"' !in value && ';' !in value
    ensures FindBasicValue(pre + BasicMarker + (['"'] + value + ['"'] + post), 0) == Some(value)
  {
    var rest := ['"'] + value + ['"'] + post;
    var cd := pre + BasicMarker + rest;
    NoEarlierOccurrence(pre, BasicMarker, rest, 8);
    forall p | 0 <= p < |pre| ensures !BasicMatchAt(cd, p) {
      if Occurs(cd, BasicMarker, p) {
        OccursIsNoCase(cd, BasicMarker, p);
      }
    }
    var q := |pre| + |BasicMarker|;
    assert cd[|pre|..q] == BasicMarker;
    assert cd[q..] == rest;
    assert cd[q] == '"';
    var v := q + 1;
    assert cd[v..v + |value|] == rest[1..1 + |value|] == value;
    assert cd[v] == value[0] && cd[v + |value|] == '"';
    FirstOfIs(cd, {'"', ';'}, v, v + |value|);
    assert RunFrom(cd, v, {'"', ';'}) == value;
    assert BasicValueAt(cd, q) == Some(value);
    assert BasicMatchAt(cd, |pre|);
  }

  /** Without a '*' the extended pattern cannot match. */
  lemma NoStarNoExt(cd: string)
    requires '*' !in cd
    ensures FindExtValue(cd, 0).None?
  {
    forall p | 0 <= p && ExtMatchAt(cd, p) ensures false {
      var w := cd[p..p + |ExtMarker|];
      assert Lower(w)[8] == Lower(ExtMarker)[8];
      LowerCharOfSymbol(w[8], '*');
    }
  }

  /** An encoded name has no blank or quote at either end, so it reaches
      the decoder untouched, and the decoder gives the name back. */
  lemma ExtNameOfEncoding(name: string)
    requires name != []
    ensures ExtName(PercentEncode(name)) == name
    ensures ';' !in PercentEncode(name)
  {
    var e := PercentEncode(name);
    PercentEncodeChars(name);
    assert EscapedChar(e[0]) && EscapedChar(e[|e| - 1]);
    TrimKeeps(e, IsSpace);
    TrimKeeps(e, IsQuote);
    UnquotePercentEncode(name);
    EncodingHasNoSemicolon(name);
  }

  lemma EncodingHasNoSemicolon(name: string)
    ensures ';' !in PercentEncode(name)
  {
    var e := PercentEncode(name);
    PercentEncodeChars(name);
    forall k | 0 <= k < |e| ensures e[k] != ';' {
      assert EscapedChar(e[k]);
    }
  }

  const Attachment := "attachment; "

  lemma ExtHeaderText(e: string)
    ensures '*' !in Attachment
    ensures "attachment; filename*=UTF-8''" + e == Attachment + ExtMarker + ("UTF-8''" + e)
  {
    assert "attachment; filename*=UTF-8''" == Attachment + ExtMarker + "UTF-8''";
  }

  lemma BasicHeaderText(name: string)
    requires '*' !in name
    ensures var cd := "attachment; filename=\"" + name + "\"";
      && cd == Attachment + BasicMarker + (['"'] + name + ['"'] + [])
      && '*' !in cd && '=' !in Attachment
  {
    var a := "attachment; filename=\"";
    assert a == Attachment + BasicMarker + ['"'];
    assert '*' !in a && '=' !in Attachment;
  }

  /** A header `attachment; filename*=UTF-8''<percent-encoded name>` gives
      back the name, sanitized. */
  lemma ExtractExtendedName(name: string, url: string, fallback: string)
    requires name != []
    ensures var cd := "attachment; filename*=UTF-8''" + PercentEncode(name);
      ExtractFilename(map["content-disposition" := cd], url, fallback) == SanitizeFilename(name, fallback)
  {
    var e := PercentEncode(name);
    ExtHeaderText(e);
    ExtNameOfEncoding(name);
    ExtFoundAfter(Attachment, e);
    var cd := Attachment + ExtMarker + ("UTF-8''" + e);
    assert ContentDisposition(map["content-disposition" := cd]) == cd;
  }

  /** A header `attachment; filename="<name>"` gives back the name,
      sanitized, when it has no '"', ';' or '*'. */
  lemma ExtractBasicName(name: string, url: string, fallback: string)
    requires name != [] && '"' !in name && ';' !in name && '*' !in name
    ensures var cd := "attachment; filename=\"" + name + "\"";
      ExtractFilename(map["content-disposition" := cd], url, fallback) == SanitizeFilename(name, fallback)
  {
    var cd := "attachment; filename=\"" + name + "\"";
    BasicHeaderText(name);
    BasicFoundAfter(Attachment, name, []);
    NoStarNoExt(cd);
    assert ContentDisposition(map["content-disposition" := cd]) == cd;
  }

  /** When both parameters are present the extended one wins, even though
      the basic one comes first. */
  lemma ExtendedBeatsBasic(basic: string, name: string, url: string, fallback: string)
    requires '*' !in basic && name != []
    ensures var cd := "attachment; filename=\"" + basic + "\"; filename*=UTF-8''" + PercentEncode(name);
      ExtractFilename(map["content-disposition" := cd], url, fallback) == SanitizeFilename(name, fallback)
  {
    var e := PercentEncode(name);
    var pre := "attachment; filename=\"" + basic + "\"; ";
    BothHeaderText(basic, e);
    ExtNameOfEncoding(name);
    ExtFoundAfter(pre, e);
    var cd := pre + ExtMarker + ("UTF-8''" + e);
    assert ContentDisposition(map["content-disposition" := cd]) == cd;
  }

  lemma BothHeaderText(basic: string, e: string)
    requires '*' !in basic
    ensures var pre := "attachment; filename=\"" + basic + "\"; ";
      && '*' !in pre
      && "attachment; filename=\"" + basic + "\"; filename*=UTF-8''" + e == pre + ExtMarker + ("UTF-8''" + e)
  {
    var a, b := "attachment; filename=\"", "\"; ";
    assert '*' !in a && '*' !in b;
    assert "\"; filename*=UTF-8''" == b + ExtMarker + "UTF-8''";
    assert a + basic + "\"; filename*=UTF-8''" + e == a + basic + (b + ExtMarker + "UTF-8''") + e;
  }

  /** The tag with nothing after it: the expression backtracks and
      captures the tag itself. */
  lemma ExtTagOnly(pre: string)
    requires '*' !in pre
    ensures FindExtValue(pre + ExtMarker + "UTF-8''", 0) == Some("UTF-8''")
  {
    var cd := pre + ExtMarker + "UTF-8''";
    NoEarlierOccurrence(pre, ExtMarker, "UTF-8''", 8);
    var q := |pre| + |ExtMarker|;
    assert cd[|pre|..q] == ExtMarker;
    assert OccursNoCase(cd, ExtMarker, |pre|);
    assert cd[q..] == "UTF-8''" && |cd| == q + |Utf8Tag|;
    FirstOfIs(cd, {';'}, q, |cd|);
    assert RunFrom(cd, q, {';'}) == "UTF-8''";
    assert ExtValueAt(cd, q) == Some("UTF-8''");
    assert ExtMatchAt(cd, |pre|);
  }

  lemma TagIsItsOwnName()
    ensures ExtName("UTF-8''") == "UTF-8''" && NoControls("UTF-8''")
    ensures Strip("UTF-8''") == "UTF-8''"
  {
    var v := "UTF-8''";
    TagEnds(v);
    TrimKeeps(v, IsSpace);
    TrimKeeps(v, IsQuote);
    assert '%' !in v;
  }

  lemma TagEnds(v: string)
    requires v == "UTF-8''"
    ensures !IsSpace(v[0]) && !IsSpace(v[|v| - 1]) && !IsQuote(v[0]) && !IsQuote(v[|v| - 1])
    ensures NoControls(v)
  {
    assert v[0] == 'U' && v[|v| - 1] == '\'';
  }

  /** An extended parameter with the charset tag and no value names the
      file "UTF-8''". */
  lemma ExtendedWithoutValue(url: string, fallback: string)
    ensures ExtractFilename(map["content-disposition" := "attachment; filename*=UTF-8''"], url, fallback) == "UTF-8''"
  {
    var cd := Attachment + ExtMarker + "UTF-8''";
    TagOnlyHeaderText();
    ExtTagOnly(Attachment);
    TagIsItsOwnName();
    SanitizeKeepsCleanName("UTF-8''", fallback);
    assert ContentDisposition(map["content-disposition" := cd]) == cd;
  }

  lemma TagOnlyHeaderText()
    ensures '*' !in Attachment
    ensures "attachment; filename*=UTF-8''" == Attachment + ExtMarker + "UTF-8''"
  {
  }

  /** Without a Content-Disposition header the name comes from the URL. */
  lemma ExtractWithoutHeader(headers: Headers, url: string, fallback: string)
    requires "content-disposition" !in headers
    ensures ExtractFilename(headers, url, fallback) == SanitizeFilename(UrlName(url, fallback), fallback)
  {
    assert ContentDisposition(headers) == [];
  }

  /** The last '/' of `a + "/" + b` is the one before `b` when `b` has none. */
  lemma {:induction false} LastSlash(a: string, b: string)
    requires '/' !in b
    ensures LastOf(a + "/" + b, '/') == |a|
    decreases |b|
  {
    if b != [] {
      var c := a + "/" + b;
      assert c[..|c| - 1] == a + "/" + b[..|b| - 1];
      LastSlash(a, b[..|b| - 1]);
    }
  }

  /** For a plain URL whose path ends in a clean name, that name is the
      file name. */
  lemma ExtractFromPlainUrl(scheme: string, host: string, dir: string, name: string, query: string,
                            fallback: string)
    requires PlainUrl(scheme, host, dir + "/" + name, query)
    requires '/' !in name && name != [] && Strip(name) == name && NoControls(name) && |name| <= MaxNameLength
    ensures ExtractFilename(map[], scheme + "://" + host + dir + "/" + name + query, fallback) == name
  {
    var path := dir + "/" + name;
    var url := scheme + "://" + host + path + query;
    assert scheme + "://" + host + dir + "/" + name + query == url;
    ParsePlainUrl(scheme, host, path, query);
    LastSlash(dir, name);
    assert Basename(path) == path[|dir| + 1..] == name;
    assert UrlName(url, fallback) == name;
    ExtractWithoutHeader(map[], url, fallback);
    SanitizeKeepsCleanName(name, fallback);
  }

  /** The header `filename*=UTF-8''na%C3%AFve.txt` names the file "naïve.txt". */
  lemma NaiveHeader(url: string, fallback: string)
    ensures ExtractFilename(map["content-disposition" := "filename*=UTF-8''na%C3%AFve.txt"], url, fallback)
      == "na\U{EF}ve.txt"
  {
    var name := "na\U{EF}ve.txt";
    var e := "na%C3%AFve.txt";
    PercentEncodeNaive();
    NaiveHeaderText();
    ExtNameOfEncoding(name);
    ExtFoundAfter([], e);
    NaiveNameClean(name);
    SanitizeKeepsCleanName(name, fallback);
  }

  /** With no header, `https://h/a/b/report.pdf?x=1` names the file
      "report.pdf". */
  lemma ReportFromUrl(fallback: string)
    ensures ExtractFilename(map[], "https://h/a/b/report.pdf?x=1", fallback) == "report.pdf"
  {
    var name := "report.pdf";
    ReportNameClean(name);
    ReportUrlPlain();
    ExtractFromPlainUrl("https", "h", "/a/b", name, "?x=1", fallback);
    ReportUrlText();
  }

  lemma NaiveNameClean(name: string)
    requires name == "na\U{EF}ve.txt"
    ensures name != [] && Strip(name) == name && NoControls(name) && |name| <= MaxNameLength
  {
    assert name[0] == 'n' && name[|name| - 1] == 't';
    TrimKeeps(name, IsSpace);
  }

  lemma NaiveHeaderText()
    ensures "filename*=UTF-8''na%C3%AFve.txt" == [] + ExtMarker + ("UTF-8''" + "na%C3%AFve.txt")
  {
  }

  lemma ReportNameClean(name: string)
    requires name == "report.pdf"
    ensures '/' !in name && name != [] && Strip(name) == name && NoControls(name) && |name| <= MaxNameLength
  {
    assert name[0] == 'r' && name[|name| - 1] == 'f';
    TrimKeeps(name, IsSpace);
  }

  lemma ReportUrlPlain()
    ensures PlainUrl("https", "h", "/a/b" + "/" + "report.pdf", "?x=1")
  {
    assert "/a/b" + "/" + "report.pdf" == "/a/b/report.pdf";
  }

  lemma ReportUrlText()
    ensures "https" + "://" + "h" + "/a/b" + "/" + "report.pdf" + "?x=1" == "https://h/a/b/report.pdf?x=1"
  {
  }
}
