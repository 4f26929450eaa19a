/**
 * The part of `urllib.parse.urlparse` that the bot reads (scheme, network
 * location and path), and the browser-like request headers derived from it.
 */
module Urls {
  import opened Wrappers
  import opened Strings

  // ---- urlparse ----

  datatype Parsed = Parsed(scheme: string, netloc: string, path: string)

  predicate IsAsciiAlpha(c: char) { ('a' <= c <= 'z') || ('A' <= c <= 'Z') }

  predicate IsSchemeChar(c: char) {
    IsAsciiAlpha(c) || ('0' <= c <= '9') || c == '+' || c == '-' || c == '.'
  }

  predicate IsC0OrSpace(c: char) { c as int <= 0x20 }

  predicate IsUnsafe(c: char) { c == '\t' || c == '\r' || c == '\n' }

  /** `url.replace(c, "")` for the tab, CR and LF characters. */
  function RemoveUnsafe(s: string): (r: string)
    ensures forall k :: 0 <= k < |r| ==> !IsUnsafe(r[k])
    ensures (forall k :: 0 <= k < |s| ==> !IsUnsafe(s[k])) ==> r == s
  {
    if s == [] then []
    else if IsUnsafe(s[0]) then RemoveUnsafe(s[1..])
    else [s[0]] + RemoveUnsafe(s[1..])
  }

  /** Index of the first character of `s[from..]` in `stops`, or `|s|`. */
  function FirstOf(s: string, stops: set<char>, from: nat): (i: nat)
    requires from <= |s|
    ensures from <= i <= |s|
    ensures forall k :: from <= k < i ==> s[k] !in stops
    ensures i < |s| ==> s[i] in stops
    decreases |s| - from
  {
    if from == |s| || s[from] in stops then from else FirstOf(s, stops, from + 1)
  }

  /** `s.rfind(c)`: the index of the last `c`, or -1. */
  function LastOf(s: string, c: char): (i: int)
    ensures -1 <= i < |s|
    ensures i >= 0 ==> s[i] == c
    ensures forall k :: i < k < |s| ==> s[k] != c
  {
    if s == [] then -1
    else if s[|s| - 1] == c then |s| - 1
    else LastOf(s[..|s| - 1], c)
  }

  /** The scheme, if `url` starts with one: a letter, scheme characters,
      then ':'. */
  function SchemeEnd(url: string): Option<nat> {
    var i := FirstOf(url, {':'}, 0);
    if 0 < i < |url| && IsAsciiAlpha(url[0]) && forall k :: 0 <= k < i ==> IsSchemeChar(url[k])
    then Some(i) else None
  }

  /** Schemes whose last path segment may carry ";parameters". */
  const UsesParams: set<string> := {"", "ftp", "hdl", "prospero", "http", "imap", "https",
    "shttp", "rtsp", "rtsps", "rtspu", "sip", "sips", "mms", "sftp", "tel"}

  /** `_splitparams(url)[0]`: the path without the parameters of its last
      segment. */
  function WithoutParams(path: string): string {
    var slash := LastOf(path, '/');
    var from: nat := if slash < 0 then 0 else slash;
    var i := FirstOf(path, {';'}, from);
    if slash >= 0 && i == |path| then path else path[..i]
  }

  /** The clean-up urlsplit does first: leading C0 controls and spaces
      are dropped, and tabs, CRs and LFs are removed throughout. */
  function Clean(raw: string): string {
    RemoveUnsafe(raw[LeadingCount(raw, IsC0OrSpace)..])
  }

  /** The scheme, lower-cased, and the rest of the URL. */
  function SplitScheme(url: string): (string, string) {
    match SchemeEnd(url)
    case Some(i) => (Lower(url[..i]), url[i + 1..])
    case None => ("", url)
  }

  /** The network location after "//", up to the first '/', '?' or '#'. */
  function SplitNetloc(rest: string): (r: (string, string))
    ensures forall k :: 0 <= k < |r.0| ==> r.0[k] !in {'/', '?', '#'}
  {
    if StartsWith(rest, "//") then
      var d := FirstOf(rest, {'/', '?', '#'}, 2);
      assert forall k :: 0 <= k < d - 2 ==> rest[2..d][k] == rest[k + 2];
      (rest[2..d], rest[d..])
    else ("", rest)
  }

  /** The path: what precedes the first '#', then the first '?'. */
  function CutQueryAndFragment(rest: string): (path: string)
    ensures '?' !in path && '#' !in path
  {
    var noFragment := rest[..FirstOf(rest, {'#'}, 0)];
    var path := noFragment[..FirstOf(noFragment, {'?'}, 0)];
    assert '?' !in path && '#' !in path;
    path
  }

  /** `urlparse(url)`, reduced to the scheme, the network location and the
      path (query, fragment and parameters cut off). */
  function UrlParse(raw: string): (p: Parsed)
    ensures '?' !in p.path && '#' !in p.path
    ensures forall k :: 0 <= k < |p.netloc| ==> p.netloc[k] !in {'/', '?', '#'}
  {
    var (scheme, rest) := SplitScheme(Clean(raw));
    var (netloc, rest2) := SplitNetloc(rest);
    var path := CutQueryAndFragment(rest2);
    Parsed(scheme, netloc, if scheme in UsesParams && ';' in path then WithoutParams(path) else path)
  }

  /** `os.path.basename(path)`: the text after the last '/'. */
  function Basename(path: string): (r: string)
    ensures '/' !in r
    ensures |r| <= |path| && r == path[|path| - |r|..]
  {
    path[LastOf(path, '/') + 1..]
  }

  /** A URL in the usual shape: a lower-case scheme, "://", a host, and a
      path, then an optional query. */
  predicate PlainUrl(scheme: string, host: string, path: string, query: string) {
    && scheme != [] && IsAsciiAlpha(scheme[0]) && (forall k :: 0 <= k < |scheme| ==> IsSchemeChar(scheme[k]))
    && Lower(scheme) == scheme && scheme in UsesParams
    && (forall k :: 0 <= k < |host| ==> host[k] !in {'/', '?', '#', ':'} && !IsUnsafe(host[k]))
    && (path == [] || path[0] == '/')
    && (forall k :: 0 <= k < |path| ==> path[k] !in {'?', '#', ';'} && !IsUnsafe(path[k]))
    && (query == [] || query[0] == '?')
    && (forall k :: 0 <= k < |query| ==> !IsUnsafe(query[k]) && query[k] != '#')
  }

  lemma CleanPlainUrl(scheme: string, host: string, path: string, query: string)
    requires PlainUrl(scheme, host, path, query)
    ensures Clean(scheme + "://" + host + path + query) == scheme + "://" + host + path + query
  {
    var url := scheme + "://" + host + path + query;
    var n := |scheme|;
    assert !IsC0OrSpace(url[0]);
    assert url[LeadingCount(url, IsC0OrSpace)..] == url;
    forall k | 0 <= k < |url| ensures !IsUnsafe(url[k]) {
      if k < n { assert url[k] == scheme[k]; }
      else if k >= n + 3 + |host| + |path| {
        assert url[k] == query[k - n - 3 - |host| - |path|];
      } else if k >= n + 3 + |host| {
        assert url[k] == path[k - n - 3 - |host|];
      } else if k >= n + 3 {
        assert url[k] == host[k - n - 3];
      }
    }
  }

  lemma SplitSchemePlainUrl(scheme: string, host: string, path: string, query: string)
    requires PlainUrl(scheme, host, path, query)
    ensures SplitScheme(scheme + "://" + host + path + query) == (scheme, "//" + host + path + query)
  {
    var tail := "//" + host + path + query;
    assert scheme + "://" + host + path + query == scheme + ":" + tail;
    SchemeEndOf(scheme, tail);
  }

  /** A scheme followed by ':' is recognised as the scheme. */
  lemma SchemeEndOf(scheme: string, tail: string)
    requires scheme != [] && IsAsciiAlpha(scheme[0]) && forall k :: 0 <= k < |scheme| ==> IsSchemeChar(scheme[k])
    ensures var url := scheme + ":" + tail;
      && SchemeEnd(url) == Some(|scheme|) && url[..|scheme|] == scheme && url[|scheme| + 1..] == tail
  {
    var url := scheme + ":" + tail;
    var n := |scheme|;
    assert forall k :: 0 <= k < n ==> url[k] == scheme[k];
    assert url[n] == ':';
    FirstOfIs(url, {':'}, 0, n);
    assert url[..n] == scheme;
    assert url[n + 1..] == tail;
  }

  lemma SplitNetlocPlainUrl(scheme: string, host: string, path: string, query: string)
    requires PlainUrl(scheme, host, path, query)
    ensures SplitNetloc("//" + host + path + query) == (host, path + query)
  {
    var rest := "//" + host + path + query;
    var d := 2 + |host|;
    assert StartsWith(rest, "//");
    assert forall k :: 2 <= k < d ==> rest[k] == host[k - 2];
    assert d < |rest| ==> rest[d] == (if path != [] then path[0] else query[0]);
    FirstOfIs(rest, {'/', '?', '#'}, 2, d);
    assert rest[2..d] == host;
    assert rest[d..] == path + query;
  }

  lemma PathOfPlainUrl(scheme: string, host: string, path: string, query: string)
    requires PlainUrl(scheme, host, path, query)
    ensures CutQueryAndFragment(path + query) == path
  {
    var rest := path + query;
    forall k | 0 <= k < |rest| ensures rest[k] != '#' {
      if k < |path| { assert rest[k] == path[k]; } else { assert rest[k] == query[k - |path|]; }
    }
    FirstOfIs(rest, {'#'}, 0, |rest|);
    assert rest[..|rest|] == rest;
    assert forall k :: 0 <= k < |path| ==> rest[k] == path[k];
    assert |path| < |rest| ==> rest[|path|] == query[0];
    FirstOfIs(rest, {'?'}, 0, |path|);
    assert rest[..|path|] == path;
  }

  /** For such a URL, urlparse recovers the parts it was built from. */
  lemma ParsePlainUrl(scheme: string, host: string, path: string, query: string)
    requires PlainUrl(scheme, host, path, query)
    ensures UrlParse(scheme + "://" + host + path + query) == Parsed(scheme, host, path)
  {
    CleanPlainUrl(scheme, host, path, query);
    SplitSchemePlainUrl(scheme, host, path, query);
    SplitNetlocPlainUrl(scheme, host, path, query);
    PathOfPlainUrl(scheme, host, path, query);
    assert ';' !in path;
  }

  lemma FirstOfIs(s: string, stops: set<char>, from: nat, i: nat)
    requires from <= i <= |s|
    requires forall k :: from <= k < i ==> s[k] !in stops
    requires i < |s| ==> s[i] in stops
    ensures FirstOf(s, stops, from) == i
  {
  }

  // ---- build_headers ----

  const UserAgent := "Mozilla/5.0 (X11; Linux x86_64) AppleWebKit/537.36 (KHTML, like Gecko) Chrome/120 Safari/537.36"

  type Headers = map<string, string>

  /** `scheme://netloc` of a URL. */
  function Origin(url: string): (r: string)
    ensures var p := UrlParse(url); var n := |p.scheme| + 3;
      && |r| == n + |p.netloc| && r[..n] == p.scheme + "://"
      && forall k :: n <= k < |r| ==> r[k] !in {'/', '?', '#'}
  {
    var p := UrlParse(url);
    var r := p.scheme + "://" + p.netloc;
    assert r[..|p.scheme| + 3] == p.scheme + "://";
    assert forall k :: |p.scheme| + 3 <= k < |r| ==> r[k] == p.netloc[k - |p.scheme| - 3];
    r
  }

  /** The browser-like request headers sent with every download. */
  function BuildHeaders(url: string): (h: Headers)
    ensures h.Keys == {"User-Agent", "Accept", "Accept-Language", "Referer", "Origin", "Connection"}
    ensures h["Origin"] == Origin(url) && h["Referer"] == h["Origin"] + "/"
  {
    var origin := Origin(url);
    map["User-Agent" := UserAgent,
        "Accept" := "*/*",
        "Accept-Language" := "en-US,en;q=0.9,id;q=0.8",
        "Referer" := origin + "/",
        "Origin" := origin,
        "Connection" := "keep-alive"]
  }

  /** The headers of the retry after a 451: a copy without Origin and Referer. */
  function RetryHeaders(h: Headers): (r: Headers)
    ensures r.Keys == h.Keys - {"Origin", "Referer"}
    ensures forall k :: k in r ==> r[k] == h[k]
  {
    h - {"Origin", "Referer"}
  }

  /** The origin of a plain URL is its scheme and host. */
  lemma OriginOfPlainUrl(scheme: string, host: string, path: string, query: string)
    requires PlainUrl(scheme, host, path, query)
    ensures Origin(scheme + "://" + host + path + query) == scheme + "://" + host
    ensures BuildHeaders(scheme + "://" + host + path + query)["Referer"] == scheme + "://" + host + "/"
  {
    ParsePlainUrl(scheme, host, path, query);
  }
}
