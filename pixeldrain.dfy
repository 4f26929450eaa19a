/**
 * The pixeldrain helpers: the file id of a share or API link, the download
 * and info URLs of an id, and the file name the info endpoint reports.
 */
module Pixeldrain {
  import opened Wrappers
  import opened Strings

  const Site := "pixeldrain.com"
  const SharePath := "/u/"
  const ApiPath := "/api/file/"
  const ShareMarker := Site + SharePath
  const ApiMarker := Site + ApiPath
  const ApiPrefix := "https://" + ApiMarker

  /** `pixeldrain_id_from_url`: the id of a share or API link, or `None`
      when the URL mentions neither. */
  function PixeldrainIdFromUrl(url: string): (r: Option<string>)
    ensures r.None? <==> !Contains(url, ShareMarker) && !Contains(url, ApiMarker)
  {
    if Contains(url, ShareMarker) then Some(Strip(FirstPiece(LastPiece(url, SharePath), "?")))
    else if Contains(url, ApiMarker) then Some(Strip(FirstPiece(LastPiece(url, ApiPath), "?")))
    else None
  }

  /** `pixeldrain_download_url`. */
  function PixeldrainDownloadUrl(id: string): (u: string)
    ensures StartsWith(u, ApiPrefix) && u[|ApiPrefix|..] == id
  {
    ApiPrefix + id
  }

  /** `pixeldrain_info_url`. */
  function PixeldrainInfoUrl(id: string): (u: string)
    ensures u == PixeldrainDownloadUrl(id) + "/info"
  {
    ApiPrefix + id + "/info"
  }

  const ShareRoot := "https://" + ShareMarker

  lemma ApiPrefixFacts()
    ensures Occurs(ApiPrefix, ApiMarker, 8)
    ensures Occurs(ApiPrefix, ApiPath, 22)
    ensures 'u' !in ApiPrefix
    ensures 'f' !in ApiPrefix[..27]
    ensures |ApiPrefix| == 32
  {
    assert ApiPrefix[8..32] == ApiMarker;
    assert ApiPrefix[22..32] == ApiPath;
    ApiPrefixLetters();
  }

  lemma ApiPrefixLetters()
    ensures 'u' !in ApiPrefix
    ensures 'f' !in ApiPrefix[..27]
  {
    assert 'u' !in "https://" && 'u' !in Site && 'u' !in ApiPath;
    assert ApiPrefix[..27] == "https://" + Site + "/api/";
  }

  lemma ShareRootFacts()
    ensures Occurs(ShareRoot, ShareMarker, 8) && Occurs(ShareRoot, SharePath, 22)
    ensures 'u' !in ShareRoot[..23] && |ShareRoot| == 25
  {
    assert ShareRoot[8..25] == ShareMarker;
    assert ShareRoot[22..25] == SharePath;
    assert ShareRoot[..23] == "https://pixeldrain.com" + "/";
  }

  /** The API link of a plain id gives that id back. */
  lemma PixeldrainRoundTrip(id: string)
    requires '/' !in id && '?' !in id && Strip(id) == id
    ensures PixeldrainIdFromUrl(PixeldrainDownloadUrl(id)) == Some(id)
  {
    var A := ApiPath;
    var url := ApiPrefix + id;
    ApiLinkMarkers(id);
    assert url[22 + |A|..] == id;
    NotContainsWithout(id, A);
    assert LastPiece(url, A) == LastPiece(id, A);
    assert LastPiece(id, A) == id;
    NotContainsWithout(id, "?");
    assert FirstPiece(id, "?") == id;
  }

  /** In an API link the share marker is absent, and the API path is first
      found where the prefix puts it. */
  lemma ApiLinkMarkers(id: string)
    requires '/' !in id
    ensures var url := ApiPrefix + id;
      && url == PixeldrainDownloadUrl(id)
      && !Contains(url, ShareMarker) && Contains(url, ApiMarker)
      && IndexOf(url, ApiPath, 0) == Some(22)
  {
    var P, A := ApiPrefix, ApiPath;
    var url := P + id;
    ApiPrefixFacts();
    assert url == PixeldrainDownloadUrl(id);
    assert !Contains(url, ShareMarker) by {
      if Contains(url, ShareMarker) {
        var k := IndexOf(url, ShareMarker, 0).value;
        OccursAt(url, ShareMarker, k, 16);
        if k + 16 < |P| {
          OccursAt(url, ShareMarker, k, 15);
        }
      }
    }
    assert Contains(url, ApiMarker) by {
      OccursInLeft(P, id, ApiMarker, 8);
    }
    assert IndexOf(url, A, 0) == Some(22) by {
      OccursInLeft(P, id, A, 22);
      forall k | 0 <= k < 22 ensures !Occurs(url, A, k) {
        if Occurs(url, A, k) {
          OccursAt(url, A, k, 5);
        }
      }
      IndexOfIs(url, A, 0, 22);
    }
  }

  lemma ShareLinkFirstMarker(tail: string)
    ensures Contains(ShareRoot + tail, ShareMarker)
    ensures IndexOf(ShareRoot + tail, SharePath, 0) == Some(22)
  {
    var S, U := ShareRoot, SharePath;
    var url := S + tail;
    ShareRootFacts();
    OccursInLeft(S, tail, ShareMarker, 8);
    OccursInLeft(S, tail, U, 22);
    forall k | 0 <= k < 22 ensures !Occurs(url, U, k) {
      if Occurs(url, U, k) {
        OccursAt(url, U, k, 1);
      }
    }
    IndexOfIs(url, U, 0, 22);
  }

  lemma ShareLinkTail(id: string, query: string)
    requires '/' !in id && '?' !in id
    requires query == [] || (query[0] == '?' && !Contains(query, SharePath))
    ensures LastPiece(id + query, SharePath) == id + query
    ensures FirstPiece(id + query, "?") == id
  {
    var U := SharePath;
    var tail := id + query;
    assert !Contains(tail, U) by {
      if Contains(tail, U) {
        var k := IndexOf(tail, U, 0).value;
        OccursAt(tail, U, k, 0);
        if k >= |id| {
          OccursInRight(id, query, U, k);
        }
      }
    }
    if query == [] {
      assert tail == id;
      NotContainsWithout(id, "?");
    } else {
      assert Occurs(tail, "?", |id|);
      forall k | 0 <= k < |id| ensures !Occurs(tail, "?", k) {
        assert tail[k] == id[k];
      }
      IndexOfIs(tail, "?", 0, |id|);
      assert tail[..|id|] == id;
    }
  }

  /** A share link followed by nothing or by a query gives its id. */
  lemma PixeldrainShareLink(id: string, query: string)
    requires '/' !in id && '?' !in id && Strip(id) == id
    requires query == [] || (query[0] == '?' && !Contains(query, SharePath))
    ensures PixeldrainIdFromUrl(ShareRoot + id + query) == Some(id)
  {
    var tail := id + query;
    var url := ShareRoot + tail;
    assert url == ShareRoot + id + query;
    ShareLinkFirstMarker(tail);
    assert url[22 + 3..] == tail;
    ShareLinkTail(id, query);
    assert LastPiece(url, SharePath) == tail;
  }

  // ---- try_get_pixeldrain_filename ----

  /** A JSON value, as far as the info lookup looks at it. */
  datatype Json = JString(s: string) | JOther

  /** A reply of the info endpoint: its status, and its body when that
      parses as a JSON object (`None` for any other body). */
  datatype InfoReply = InfoReply(status: int, body: Option<map<string, Json>>)

  /** The keys tried, in order. */
  const NameKeys: seq<string> := ["name", "filename", "file_name"]

  /** `key in j and isinstance(j[key], str) and j[key].strip()`. */
  predicate Usable(obj: map<string, Json>, key: string) {
    key in obj && obj[key].JString? && Strip(obj[key].s) != []
  }

  /** The index of the first usable key of `keys`, or `|keys|`. */
  function FirstUsable(obj: map<string, Json>, keys: seq<string>): (i: nat)
    ensures i <= |keys|
    ensures forall j :: 0 <= j < i ==> !Usable(obj, keys[j])
    ensures i < |keys| ==> Usable(obj, keys[i])
  {
    if keys == [] || Usable(obj, keys[0]) then 0
    else
      var i := FirstUsable(obj, keys[1..]);
      assert forall j :: 1 <= j <= i ==> keys[j] == keys[1..][j - 1];
      1 + i
  }

  /** The stripped value of the first usable key of `keys`. */
  function NameFrom(obj: map<string, Json>, keys: seq<string>): (r: Option<string>)
    ensures var i := FirstUsable(obj, keys);
      && (r.None? <==> i == |keys|)
      && (r.Some? ==> i < |keys| && r.value == Strip(obj[keys[i]].s))
    ensures r.Some? ==> r.value != [] && Strip(r.value) == r.value
  {
    if keys == [] then None
    else if Usable(obj, keys[0]) then
      StripIdempotent(obj[keys[0]].s);
      Some(Strip(obj[keys[0]].s))
    else
      var r := NameFrom(obj, keys[1..]);
      assert r.Some? ==> keys[FirstUsable(obj, keys)] == keys[1..][FirstUsable(obj, keys[1..])];
      r
  }

  /** The file name the info endpoint reports, or `None` when the request
      raised (`reply == None`), the status is not 200, the body is not a
      JSON object or no key holds a non-blank string. */
  function InfoName(reply: Option<InfoReply>): (r: Option<string>)
    ensures r.Some? ==> r.value != [] && Strip(r.value) == r.value
    ensures r.Some? ==> reply.Some? && reply.value.status == 200 && reply.value.body.Some?
  {
    match reply
    case None => None
    case Some(rep) =>
      if rep.status != 200 || rep.body.None? then None
      else NameFrom(rep.body.value, NameKeys)
  }

  /** `try_get_pixeldrain_filename`: the loop over the three keys. */
  method TryGetPixeldrainFilename(reply: Option<InfoReply>) returns (r: Option<string>)
    ensures r == InfoName(reply)
  {
    if reply.None? || reply.value.status != 200 || reply.value.body.None? {
      return None;
    }
    var obj := reply.value.body.value;
    for i := 0 to |NameKeys|
      invariant NameFrom(obj, NameKeys[i..]) == NameFrom(obj, NameKeys)
    {
      var key := NameKeys[i];
      assert NameKeys[i..][1..] == NameKeys[i + 1..];
      if key in obj && obj[key].JString? && Strip(obj[key].s) != [] {
        return Some(Strip(obj[key].s));
      }
    }
    return None;
  }

  /** "name" wins over the other keys whenever it holds a non-blank string. */
  lemma NameKeyFirst(obj: map<string, Json>)
    requires Usable(obj, "name")
    ensures InfoName(Some(InfoReply(200, Some(obj)))) == Some(Strip(obj["name"].s))
  {
  }

  /** A blank "name" and a non-string "filename" both count as missing. */
  lemma BlankNameFallsThrough(obj: map<string, Json>)
    requires obj == map["name" := JString(""), "filename" := JOther, "file_name" := JString("a.bin")]
    ensures InfoName(Some(InfoReply(200, Some(obj)))) == Some("a.bin")
  {
    TrimKeeps("a.bin", IsSpace);
    assert !Usable(obj, NameKeys[0]) && !Usable(obj, NameKeys[1]) && Usable(obj, NameKeys[2]);
  }
}
