/**
 * `download_to_tmp`: fetch a URL into a temporary file while keeping the
 * status message up to date, with a byte ceiling, a 60-second stall
 * timeout and a progress display throttled to one update every 5 seconds.
 *
 * The network is data: what each GET returned (or that it raised), the
 * response headers, and the events of its body stream, each carrying the
 * clock readings the loop takes. The temporary file is a flag.
 */
module Download {
  import opened Wrappers
  import opened Strings
  import opened Sizes
  import opened Urls
  import opened Filenames

  // ---- the abstract network ----

  type Bytes = n: int | n > 0 witness 1

  /** One event of `r.iter_content(...)`. A non-empty chunk carries the
      clock read right after it is written (`last_data_time`) and the one
      read for the throttle (`now`); an empty chunk the one read for the
      stall test; `Broken` is the stream (or the file write) raising. */
  datatype Chunk = Data(size: Bytes, readAt: real, checkAt: real) | Empty(at: real) | Broken

  datatype Reply = Reply(status: int, headers: Headers, chunks: seq<Chunk>)

  /** What the GET requests give: `None` when `requests.get` raised. The
      retry reply is only used after a 451. `startedAt` is the clock read
      just before the stream is opened. */
  datatype Network = Network(first: Option<Reply>, retry: Option<Reply>, startedAt: real)

  /** Every way `download_to_tmp` raises, in the order of the source. */
  datatype Failure =
    | RequestFailed            // requests.get raised
    | HttpError(status: int)   // "HTTP <status>"
    | BadContentLength         // int() of the Content-Length raised
    | DeclaredTooLarge(total: int)
    | Stalled                  // no data for more than 60 seconds
    | StreamTooLarge(downloaded: nat)
    | StreamBroken
    | MeasuredTooLarge(size: nat)

  /** The failures raised before the temporary file is created. */
  predicate BeforeStream(f: Failure) {
    f.RequestFailed? || f.HttpError? || f.BadContentLength? || f.DeclaredTooLarge?
  }

  datatype Outcome = Done(filename: string, size: nat) | Failed(failure: Failure)

  // ---- before the stream ----

  /** The reply the stream is read from (`None` if a request raised) and
      the headers of each request sent: one retry, without Origin and
      Referer, after a 451. */
  function Fetch(url: string, net: Network): (r: (Option<Reply>, seq<Headers>))
    ensures |r.1| >= 1 && r.1[0] == BuildHeaders(url)
    ensures net.first.Some? && net.first.value.status == 451 <==> |r.1| == 2
    ensures |r.1| == 2 ==> r.1[1] == RetryHeaders(r.1[0]) && r.0 == net.retry
    ensures |r.1| == 1 ==> r.0 == net.first
  {
    var h := BuildHeaders(url);
    if net.first.Some? && net.first.value.status == 451 then (net.retry, [h, RetryHeaders(h)])
    else (net.first, [h])
  }

  /** `int(r.headers.get("content-length") or 0)`; `None` is the ValueError. */
  function DeclaredLength(headers: Headers): (r: Option<int>)
    ensures ("content-length" !in headers || headers["content-length"] == []) ==> r == Some(0)
    ensures "content-length" in headers && headers["content-length"] != [] ==> r == ParseInt(headers["content-length"])
  {
    var v := if "content-length" in headers then headers["content-length"] else "";
    if v == [] then Some(0) else ParseInt(v)
  }

  /** The checks that can fail before the temporary file exists. */
  function Precheck(rep: Reply, maxBytes: int): (r: Option<Failure>)
    ensures rep.status != 200 ==> r == Some(HttpError(rep.status))
    ensures rep.status == 200 && DeclaredLength(rep.headers).None? ==> r == Some(BadContentLength)
    ensures rep.status == 200 && DeclaredLength(rep.headers).Some? ==>
      var total := DeclaredLength(rep.headers).value;
      total > 0 && total > maxBytes ==> r == Some(DeclaredTooLarge(total))
    ensures r.None? <==>
      && rep.status == 200 && DeclaredLength(rep.headers).Some?
      && !(DeclaredLength(rep.headers).value > 0 && DeclaredLength(rep.headers).value > maxBytes)
  {
    if rep.status != 200 then Some(HttpError(rep.status))
    else match DeclaredLength(rep.headers)
      case None => Some(BadContentLength)
      case Some(total) => if total > 0 && total > maxBytes then Some(DeclaredTooLarge(total)) else None
  }

  // ---- the stream loop ----

  /** The loop's variables, with what it has done so far: the sizes
      written, the clock readings at which the throttle opened, and the
      texts that passed the duplicate test and went to `safe_edit`. */
  datatype Loop = Loop(downloaded: nat, lastUpdate: real, lastDataTime: real, lastShown: string,
                       written: seq<nat>, openings: seq<real>, shown: seq<string>)

  /** The loop variables as lines 160-163 set them. */
  function Start(startedAt: real): Loop {
    Loop(0, 0.0, startedAt, "", [], [], [])
  }

  /** `int(downloaded * 100 / total)`, exact for the sizes concerned. */
  function Percent(downloaded: nat, total: int): (p: nat)
    requires total > 0
    ensures p * total <= downloaded * 100 < (p + 1) * total
  {
    downloaded * 100 / total
  }

  /** The progress text: a percentage and both sizes when the server
      declared a length, only the downloaded size otherwise. */
  function ProgressText(downloaded: nat, total: int): string {
    if total > 0 then
      "Download: " + IntToString(Percent(downloaded, total)) + "% (" + FormatSize(downloaded) + "/" + FormatSize(total) + ")"
    else
      "Download: " + FormatSize(downloaded)
  }

  /** With a declared length the progress text is "Download: ", the floor
      percentage and '%', then the sizes in parentheses. */
  lemma ProgressTextDeclared(downloaded: nat, total: int)
    requires total > 0
    ensures var t := ProgressText(downloaded, total);
      && StartsWith(t, "Download: " + IntToString(Percent(downloaded, total)) + "%")
      && t[|t| - 1] == ')'
  {
    var p := IntToString(Percent(downloaded, total));
    var lead := "Download: " + p + "%";
    var rest := " (" + FormatSize(downloaded) + "/" + FormatSize(total) + ")";
    var t := "Download: " + p + "% (" + FormatSize(downloaded) + "/" + FormatSize(total) + ")";
    assert t == lead + rest;
    ConcatEnds(lead, rest);
  }

  /** Without one it is "Download: " and the size, with no '%' in it: the
      size is digits and a unit of capital letters ending in 'B'. */
  lemma ProgressTextUndeclared(downloaded: nat, total: int)
    requires total <= 0
    ensures var t := ProgressText(downloaded, total);
      && StartsWith(t, "Download: ") && '%' !in t && t[|t| - 1] == 'B'
  {
    var f := FormatSize(downloaded);
    FormatSizeText(downloaded);
    ConcatEnds("Download: ", f);
    var t := "Download: " + f;
    forall i | 0 <= i < |t| ensures t[i] != '%' {
      if i >= 10 {
        assert t[i] == f[i - 10];
      }
    }
  }

  /** The edit `safe_edit` sends: none when the message already shows the
      text. The message object is not refreshed by an edit, so the text
      compared with is the one the message was sent with. */
  function SafeEditSends(current: string, text: string): (r: seq<string>)
    ensures r == [] <==> text == current
    ensures r != [] ==> r == [text]
  {
    if current == text then [] else [text]
  }

  /** The edits `safe_edit` sends for a sequence of texts. */
  function EditsOf(current: string, texts: seq<string>): (r: seq<string>)
    ensures texts == [] ==> r == []
    ensures |r| <= |texts|
    ensures forall t :: t in r <==> t in texts && t != current
  {
    if texts == [] then []
    else EditsOf(current, texts[..|texts| - 1]) + SafeEditSends(current, texts[|texts| - 1])
  }

  /** The edits for two stretches of texts are those of the first, then
      those of the second: the texts are sent in order. */
  lemma {:induction false} EditsOfAppend(current: string, a: seq<string>, b: seq<string>)
    ensures EditsOf(current, a + b) == EditsOf(current, a) + EditsOf(current, b)
    decreases |b|
  {
    if b == [] {
      assert a + b == a;
    } else {
      var b0, t := b[..|b| - 1], b[|b| - 1];
      assert (a + b)[..|a + b| - 1] == a + b0 && (a + b)[|a + b| - 1] == t;
      EditsOfAppend(current, a, b0);
      assert EditsOf(current, a + b) == EditsOf(current, a + b0) + SafeEditSends(current, t);
      assert EditsOf(current, b) == EditsOf(current, b0) + SafeEditSends(current, t);
    }
  }

  /** Each text other than the one the message shows is sent as often as
      it comes; that one is never sent. */
  lemma {:induction false} EditsOfCounts(current: string, texts: seq<string>)
    ensures forall t :: multiset(EditsOf(current, texts))[t] == if t == current then 0 else multiset(texts)[t]
    decreases |texts|
  {
    if texts != [] {
      var init, last := texts[..|texts| - 1], texts[|texts| - 1];
      EditsOfCounts(current, init);
      assert texts == init + [last];
    }
  }

  lemma EditsOfSnoc(current: string, texts: seq<string>, t: string)
    ensures EditsOf(current, texts + [t]) == EditsOf(current, texts) + SafeEditSends(current, t)
  {
    assert (texts + [t])[..|texts|] == texts;
  }

  /** How a stretch of the stream ends. */
  datatype Halt = Going | Ended | StalledOut | Overflow | BrokenOff

  /** One event of the loop (lines 167-190). */
  function Step(s: Loop, c: Chunk, total: int, maxBytes: int): (r: (Loop, Halt))
    ensures r.1 in {Going, StalledOut, Overflow, BrokenOff}
    ensures c.Broken? ==> r.1 == BrokenOff
    ensures c.Empty? ==> r.1 in {Going, StalledOut}
    ensures c.Data? ==> r.1 in {Going, Overflow} && r.0.lastDataTime == c.readAt
    ensures !c.Data? ==> r.0 == s
    ensures c.Empty? ==> (r.1 == StalledOut <==> c.at - s.lastDataTime > 60.0)
    ensures c.Data? ==> r.0.downloaded == s.downloaded + c.size && r.0.written == s.written + [c.size]
    ensures c.Data? ==> (r.1 == Overflow <==> r.0.downloaded > maxBytes)
  {
    match c
    case Broken => (s, BrokenOff)
    case Empty(at) => if at - s.lastDataTime > 60.0 then (s, StalledOut) else (s, Going)
    case Data(n, readAt, now) =>
      var s1 := s.(downloaded := s.downloaded + n, lastDataTime := readAt, written := s.written + [n]);
      if s1.downloaded > maxBytes then (s1, Overflow)
      else if now - s.lastUpdate >= 5.0 then
        var s2 := s1.(lastUpdate := now, openings := s.openings + [now]);
        var text := ProgressText(s1.downloaded, total);
        if text != s.lastShown then
          (s2.(lastShown := text, shown := s.shown + [text]), Going)
        else
          (s2, Going)
      else
        (s1, Going)
  }

  /** The loop over a stretch of the stream: each event in turn until one
      ends it. */
  function Stream(s: Loop, cs: seq<Chunk>, total: int, maxBytes: int): (r: (Loop, Halt))
    ensures r.1 != Going
    decreases |cs|
  {
    if cs == [] then (s, Ended)
    else
      var (s1, h) := Step(s, cs[0], total, maxBytes);
      if h == Going then Stream(s1, cs[1..], total, maxBytes) else (s1, h)
  }

  /** The loop from position `i`: one step, then the loop from `i + 1`
      when the step lets it go on. */
  lemma StreamUnfold(s: Loop, cs: seq<Chunk>, i: nat, total: int, maxBytes: int)
    requires i < |cs|
    ensures var (s1, h) := Step(s, cs[i], total, maxBytes);
      Stream(s, cs[i..], total, maxBytes) == if h == Going then Stream(s1, cs[i + 1..], total, maxBytes) else (s1, h)
  {
    assert cs[i..][0] == cs[i] && cs[i..][1..] == cs[i + 1..];
  }

  function FailureOf(h: Halt, s: Loop): Failure
    requires h in {StalledOut, Overflow, BrokenOff}
  {
    match h
    case StalledOut => Stalled
    case Overflow => StreamTooLarge(s.downloaded)
    case BrokenOff => StreamBroken
  }

  /** All of `download_to_tmp`: the outcome, the loop's final variables,
      the requests sent, the message edits, and whether the temporary
      file was created and whether it is still there (`present`). */
  datatype Run = Run(outcome: Outcome, loop: Option<Loop>, requests: seq<Headers>, edits: seq<string>,
                     created: bool, present: bool)

  const DoneText := "Download selesai: "

  /** Why the download fails before the temporary file is created, if
      it does. */
  function PreFailure(url: string, maxBytes: int, net: Network): (f: Option<Failure>)
    ensures f.Some? ==> BeforeStream(f.value)
    ensures Fetch(url, net).0.None? ==> f == Some(RequestFailed)
    ensures Fetch(url, net).0.Some? ==> f == Precheck(Fetch(url, net).0.value, maxBytes)
    ensures f.None? <==> Fetch(url, net).0.Some? && Precheck(Fetch(url, net).0.value, maxBytes).None?
  {
    var reply := Fetch(url, net).0;
    if reply.None? then Some(RequestFailed) else Precheck(reply.value, maxBytes)
  }

  /** The name the file is given: `extract_filename`, sanitized once more. */
  function DownloadName(headers: Headers, url: string, hint: string): string {
    SanitizeFilename(ExtractFilename(headers, url, hint), hint)
  }

  /** The name is sanitized a second time; that changes nothing when the
      first pass gave a non-empty name with no surrounding white space. */
  lemma DownloadNameFacts(headers: Headers, url: string, hint: string)
    ensures var r := DownloadName(headers, url, hint);
      && NoControls(r) && |r| <= MaxNameLength
      && var e := ExtractFilename(headers, url, hint);
        (e != [] && Strip(e) == e ==> r == e)
  {
    var e := ExtractFilename(headers, url, hint);
    if e != [] && Strip(e) == e {
      SanitizeKeepsCleanName(e, hint);
    }
  }

  function RunDownload(url: string, status: string, hint: string, maxBytes: int, net: Network): (r: Run)
    ensures r.requests == Fetch(url, net).1
    ensures r.present <==> r.outcome.Done?
    ensures r.present ==> r.created && r.outcome.size <= maxBytes
    ensures !r.created <==> r.outcome.Failed? && BeforeStream(r.outcome.failure)
    ensures !r.created ==> r.edits == [] && r.loop.None?
  {
    var reqs := Fetch(url, net).1;
    var pre := PreFailure(url, maxBytes, net);
    if pre.Some? then Run(Failed(pre.value), None, reqs, [], false, false)
    else
      var rep := Fetch(url, net).0.value;
      var total := DeclaredLength(rep.headers).value;
      var (s, h) := Stream(Start(net.startedAt), rep.chunks, total, maxBytes);
      var (outcome, closing, present) := Finish(status, DownloadName(rep.headers, url, hint), maxBytes, s, h);
      Run(outcome, Some(s), reqs, EditsOf(status, s.shown) + closing, true, present)
  }

  /** Lines 192-214, after the loop: the outcome, the edit that closes
      the download (if any), and whether the temporary file is still there. */
  function Finish(status: string, name: string, maxBytes: int, s: Loop, h: Halt): (r: (Outcome, seq<string>, bool))
    requires h != Going
    ensures r.2 <==> r.0.Done?
    ensures r.0.Done? ==> r.0.size == s.downloaded <= maxBytes && r.0.filename == name
    ensures r.0.Failed? ==> !BeforeStream(r.0.failure) && r.1 == []
  {
    if h.StalledOut? || h.Overflow? || h.BrokenOff? then (Failed(FailureOf(h, s)), [], false)
    else if s.downloaded > maxBytes then (Failed(MeasuredTooLarge(s.downloaded)), [], false)
    else (Done(name, s.downloaded), SafeEditSends(status, DoneText + FormatSize(s.downloaded)), true)
  }

  // ---- what the loop keeps ----

  function Sum(s: seq<nat>): nat {
    if s == [] then 0 else Sum(s[..|s| - 1]) + s[|s| - 1]
  }

  /** `downloaded` is the total of the chunks written. */
  predicate Counted(s: Loop) { s.downloaded == Sum(s.written) }

  /** The throttle: counting the start value 0 as an opening, every
      opening comes at least 5 seconds after the one before, and
      `last_update` is the latest. */
  predicate Spaced(s: Loop) {
    var o := [0.0] + s.openings;
    s.lastUpdate == o[|o| - 1] && forall i :: 1 <= i < |o| ==> o[i] - o[i - 1] >= 5.0
  }

  /** `last_shown` is the last text shown, and no text is shown twice in
      a row. */
  predicate NoRepeats(s: Loop) {
    && (s.shown == [] ==> s.lastShown == "")
    && (s.shown != [] ==> s.lastShown == s.shown[|s.shown| - 1])
    && forall i :: 1 <= i < |s.shown| ==> s.shown[i] != s.shown[i - 1]
  }

  predicate Invariant(s: Loop) { Counted(s) && Spaced(s) && NoRepeats(s) }

  /** The loop starts with nothing counted, written or shown, the stall
      clock at the time the stream was opened, and the invariant holding. */
  lemma StartInvariant(startedAt: real)
    ensures var s := Start(startedAt);
      && s.downloaded == 0 && s.written == [] && s.openings == [] && s.shown == []
      && s.lastUpdate == 0.0 && s.lastDataTime == startedAt && s.lastShown == ""
      && Invariant(s)
  {
  }

  lemma StepKeepsInvariant(s: Loop, c: Chunk, total: int, maxBytes: int)
    requires Invariant(s)
    ensures Invariant(Step(s, c, total, maxBytes).0)
  {
    StepCounted(s, c, total, maxBytes);
    StepSpaced(s, c, total, maxBytes);
    StepNoRepeats(s, c, total, maxBytes);
  }

  lemma StepCounted(s: Loop, c: Chunk, total: int, maxBytes: int)
    requires Counted(s)
    ensures Counted(Step(s, c, total, maxBytes).0)
  {
    if c.Data? {
      var r := Step(s, c, total, maxBytes).0;
      assert r.written[..|r.written| - 1] == s.written;
    }
  }

  lemma StepSpaced(s: Loop, c: Chunk, total: int, maxBytes: int)
    requires Spaced(s)
    ensures Spaced(Step(s, c, total, maxBytes).0)
  {
    if c.Data? {
      var r := Step(s, c, total, maxBytes).0;
      if r.openings != s.openings {
        assert [0.0] + r.openings == [0.0] + s.openings + [c.checkAt];
      }
    }
  }

  lemma StepNoRepeats(s: Loop, c: Chunk, total: int, maxBytes: int)
    requires NoRepeats(s)
    ensures NoRepeats(Step(s, c, total, maxBytes).0)
  {
    if c.Data? {
      var r := Step(s, c, total, maxBytes).0;
      if r.shown != s.shown {
        assert r.shown == s.shown + [r.lastShown];
      }
    }
  }

  /** The loop keeps the three invariants over any stream. */
  lemma {:induction false} StreamKeepsInvariant(s: Loop, cs: seq<Chunk>, total: int, maxBytes: int)
    requires Invariant(s)
    ensures Invariant(Stream(s, cs, total, maxBytes).0)
    decreases |cs|
  {
    if cs != [] {
      StepKeepsInvariant(s, cs[0], total, maxBytes);
      var (s1, h) := Step(s, cs[0], total, maxBytes);
      if h == Going {
        StreamKeepsInvariant(s1, cs[1..], total, maxBytes);
      }
    }
  }

  /** The ceiling: the loop stops on the first chunk that takes the count
      over `maxBytes`, and otherwise never exceeds it. */
  lemma {:induction false} StreamCeiling(s: Loop, cs: seq<Chunk>, total: int, maxBytes: int)
    requires s.downloaded <= maxBytes
    ensures var (r, h) := Stream(s, cs, total, maxBytes);
      && (h == Overflow ==> r.downloaded > maxBytes && r.written != [] && r.downloaded - r.written[|r.written| - 1] <= maxBytes)
      && (h != Overflow ==> r.downloaded <= maxBytes)
    decreases |cs|
  {
    if cs != [] {
      var (s1, h) := Step(s, cs[0], total, maxBytes);
      if h == Going {
        StreamCeiling(s1, cs[1..], total, maxBytes);
      }
    }
  }

  /** An empty chunk within 60 seconds of the last data changes nothing. */
  lemma EmptyChunkInTime(s: Loop, at: real, cs: seq<Chunk>, total: int, maxBytes: int)
    requires at - s.lastDataTime <= 60.0
    ensures Stream(s, [Empty(at)] + cs, total, maxBytes) == Stream(s, cs, total, maxBytes)
  {
    assert ([Empty(at)] + cs)[1..] == cs;
  }

  /** An empty chunk more than 60 seconds after the last data ends the
      download as stalled, whatever follows. */
  lemma EmptyChunkLate(s: Loop, at: real, cs: seq<Chunk>, total: int, maxBytes: int)
    requires at - s.lastDataTime > 60.0
    ensures Stream(s, [Empty(at)] + cs, total, maxBytes) == (s, StalledOut)
  {
    assert ([Empty(at)] + cs)[0] == Empty(at);
  }

  // ---- what download_to_tmp promises ----

  /** A run whose response is accepted, in terms of the stream and
      what follows it. */
  lemma AcceptedRun(url: string, status: string, hint: string, maxBytes: int, net: Network)
    requires PreFailure(url, maxBytes, net).None?
    ensures var rep := Fetch(url, net).0.value;
      var (s, h) := Stream(Start(net.startedAt), rep.chunks, DeclaredLength(rep.headers).value, maxBytes);
      var f := Finish(status, DownloadName(rep.headers, url, hint), maxBytes, s, h);
      RunDownload(url, status, hint, maxBytes, net) == Run(f.0, Some(s), Fetch(url, net).1, EditsOf(status, s.shown) + f.1, true, f.2)
  {
  }

  /** On success the size reported is what was written, within the
      limit, and the temporary file is there; on any failure it is not. */
  lemma DownloadResult(url: string, status: string, hint: string, maxBytes: int, net: Network)
    ensures var r := RunDownload(url, status, hint, maxBytes, net);
      && (r.outcome.Done? ==> r.loop.Some? && r.outcome.size == Sum(r.loop.value.written) && r.outcome.size <= maxBytes)
      && (r.outcome.Failed? ==> !r.present)
      && (r.loop.Some? ==> Invariant(r.loop.value))
  {
    var (reply, reqs) := Fetch(url, net);
    if reply.Some? && Precheck(reply.value, maxBytes).None? {
      var rep := reply.value;
      var total := DeclaredLength(rep.headers).value;
      StreamKeepsInvariant(Start(net.startedAt), rep.chunks, total, maxBytes);
      RunLoop(url, status, hint, maxBytes, net);
    }
  }

  /** The loop variables a run ends with are those of the stream. */
  lemma RunLoop(url: string, status: string, hint: string, maxBytes: int, net: Network)
    requires Fetch(url, net).0.Some? && Precheck(Fetch(url, net).0.value, maxBytes).None?
    ensures var rep := Fetch(url, net).0.value;
      var s := Stream(Start(net.startedAt), rep.chunks, DeclaredLength(rep.headers).value, maxBytes).0;
      var r := RunDownload(url, status, hint, maxBytes, net);
      r.loop == Some(s) && (r.outcome.Done? ==> r.outcome.size == s.downloaded)
  {
  }

  /** With a limit that is not negative the measure after the loop never
      fails: the loop already stopped at the first chunk over the limit. */
  lemma NoMeasuredFailure(url: string, status: string, hint: string, maxBytes: int, net: Network)
    requires maxBytes >= 0
    ensures !RunDownload(url, status, hint, maxBytes, net).outcome.Failed?
      || !RunDownload(url, status, hint, maxBytes, net).outcome.failure.MeasuredTooLarge?
  {
    if PreFailure(url, maxBytes, net).None? {
      var rep := Fetch(url, net).0.value;
      var total := DeclaredLength(rep.headers).value;
      var (s, h) := Stream(Start(net.startedAt), rep.chunks, total, maxBytes);
      StreamCeiling(Start(net.startedAt), rep.chunks, total, maxBytes);
      AcceptedRun(url, status, hint, maxBytes, net);
      FinishMeasured(status, DownloadName(rep.headers, url, hint), maxBytes, s, h);
    } else {
      RejectedRun(url, status, hint, maxBytes, net);
    }
  }

  /** The measure after the loop fails exactly when the loop ran to the
      end of the body and counted more than the limit. */
  lemma FinishMeasured(status: string, name: string, maxBytes: int, s: Loop, h: Halt)
    requires h != Going
    ensures var o := Finish(status, name, maxBytes, s, h).0;
      o.Failed? && o.failure.MeasuredTooLarge? <==> h == Ended && s.downloaded > maxBytes
  {
  }

  /** A run rejected before the stream fails as `PreFailure` says. */
  lemma RejectedRun(url: string, status: string, hint: string, maxBytes: int, net: Network)
    requires PreFailure(url, maxBytes, net).Some?
    ensures RunDownload(url, status, hint, maxBytes, net)
      == Run(Failed(PreFailure(url, maxBytes, net).value), None, Fetch(url, net).1, [], false, false)
  {
  }

  /** A negative limit reaches the measure after the loop: an empty body
      is 0 bytes, not over the limit for the loop, over it for the
      measure. */
  lemma NegativeLimitMeasured(url: string, status: string, hint: string, at: real)
    ensures RunDownload(url, status, hint, -1, Network(Some(Reply(200, map[], [])), None, at)).outcome
      == Failed(MeasuredTooLarge(0))
  {
    var net := Network(Some(Reply(200, map[], [])), None, at);
    assert DeclaredLength(map[]) == Some(0);
    assert PreFailure(url, -1, net).None?;
    EmptyBodyRun(url, status, hint, -1, net);
  }

  /** An accepted reply with an empty body ends the loop at once, with
      nothing written; only the measure can then fail. */
  lemma EmptyBodyRun(url: string, status: string, hint: string, maxBytes: int, net: Network)
    requires PreFailure(url, maxBytes, net).None?
    requires Fetch(url, net).0.value.chunks == []
    ensures maxBytes < 0 ==> RunDownload(url, status, hint, maxBytes, net).outcome == Failed(MeasuredTooLarge(0))
    ensures maxBytes >= 0 ==> RunDownload(url, status, hint, maxBytes, net).outcome.Done?
  {
    var rep := Fetch(url, net).0.value;
    var s := Start(net.startedAt);
    var name := DownloadName(rep.headers, url, hint);
    assert Stream(s, rep.chunks, DeclaredLength(rep.headers).value, maxBytes) == (s, Ended);
    var f := Finish(status, name, maxBytes, s, Ended);
    assert maxBytes < 0 ==> f.0 == Failed(MeasuredTooLarge(0));
    AcceptedRun(url, status, hint, maxBytes, net);
  }

  /** A 451 is retried once, without Origin and Referer; the status of the
      retry is final. */
  lemma RetryOnce(url: string, status: string, hint: string, maxBytes: int, net: Network)
    requires net.first.Some? && net.first.value.status == 451
    ensures var r := RunDownload(url, status, hint, maxBytes, net);
      && r.requests == [BuildHeaders(url), RetryHeaders(BuildHeaders(url))]
      && (net.retry.Some? && net.retry.value.status != 200 ==> r.outcome == Failed(HttpError(net.retry.value.status)))
  {
  }

  /** A Content-Length over the limit fails before anything is created. */
  lemma DeclaredLengthGate(url: string, status: string, hint: string, maxBytes: int, net: Network, total: int)
    requires net.first.Some? && net.first.value.status == 200
    requires DeclaredLength(net.first.value.headers) == Some(total) && total > 0 && total > maxBytes
    ensures var r := RunDownload(url, status, hint, maxBytes, net);
      r.outcome == Failed(DeclaredTooLarge(total)) && !r.created && r.edits == []
  {
  }

  /** A Content-Length that understates the size shows more than 100%. */
  lemma OverHundredPercent()
    ensures ProgressText(2048, 1024) == "Download: 200% (2KB/1KB)"
  {
    assert Percent(2048, 1024) == 200;
    assert NatToString(200) == "200";
    ExactMultiple(2, 1);
    ExactMultiple(1, 1);
  }

  // ---- download_to_tmp, step by step ----

  /** One download into a temporary file, reporting on a status message
      whose text is `status`. The loop's variables are fields; so are the
      observable effects: the requests sent, the message edits, and the
      temporary file. */
  class Transfer {
    const status: string
    var downloaded: nat
    var lastUpdate: real
    var lastDataTime: real
    var lastShown: string
    ghost var written: seq<nat>
    ghost var openings: seq<real>
    ghost var shown: seq<string>
    var edits: seq<string>
    var requests: seq<Headers>
    var created: bool
    var present: bool

    ghost function Vars(): Loop
      reads this`downloaded, this`lastUpdate, this`lastDataTime, this`lastShown,
            this`written, this`openings, this`shown
    {
      Loop(downloaded, lastUpdate, lastDataTime, lastShown, written, openings, shown)
    }

    constructor (status: string)
      ensures this.status == status && Vars() == Start(0.0)
      ensures edits == [] && requests == [] && !created && !present
    {
      this.status := status;
      downloaded, lastUpdate, lastDataTime, lastShown := 0, 0.0, 0.0, "";
      written, openings, shown := [], [], [];
      edits, requests, created, present := [], [], false, false;
    }

    /** `safe_edit`: nothing is sent when the message already shows the
        text; a failed edit is swallowed. */
    method SafeEdit(text: string)
      modifies this`edits
      ensures edits == old(edits) + SafeEditSends(status, text)
    {
      if status != text {
        edits := edits + [text];
      }
    }

    /** The progress text of lines 183-187, built with `human_size`. */
    static method Progress(downloaded: nat, total: int) returns (text: string)
      ensures text == ProgressText(downloaded, total)
    {
      var done := HumanSize(downloaded);
      if total > 0 {
        var whole := HumanSize(total);
        text := "Download: " + IntToString(downloaded * 100 / total) + "% (" + done + "/" + whole + ")";
      } else {
        text := "Download: " + done;
      }
    }

    /** Lines 180-190, after a chunk within the limit: the throttle, then
        the duplicate test, then the edit. */
    method Throttle(now: real, total: int, ghost e: seq<string>)
      requires edits == e + EditsOf(status, shown)
      modifies this`lastUpdate, this`openings, this`lastShown, this`shown, this`edits
      ensures now - old(lastUpdate) >= 5.0 ==> lastUpdate == now && openings == old(openings) + [now]
      ensures now - old(lastUpdate) < 5.0 ==> lastUpdate == old(lastUpdate) && openings == old(openings)
      ensures var text := ProgressText(downloaded, total);
        if now - old(lastUpdate) >= 5.0 && text != old(lastShown) then
          lastShown == text && shown == old(shown) + [text]
        else
          lastShown == old(lastShown) && shown == old(shown) && edits == old(edits)
      ensures edits == e + EditsOf(status, shown)
    {
      if now - lastUpdate >= 5.0 {
        lastUpdate := now;
        openings := openings + [now];
        var text := Progress(downloaded, total);
        if text != lastShown {
          Show(text, e);
        }
      }
    }

    /** Lines 188-190: a new text becomes the last one shown, and is
        sent through `safe_edit`. */
    method Show(text: string, ghost e: seq<string>)
      requires edits == e + EditsOf(status, shown)
      modifies this`lastShown, this`shown, this`edits
      ensures lastShown == text && shown == old(shown) + [text]
      ensures edits == e + EditsOf(status, shown)
    {
      ghost var before := shown;
      lastShown := text;
      shown := shown + [text];
      SafeEdit(text);
      EditsOfSnoc(status, before, text);
      ghost var sent := SafeEditSends(status, text);
      assert edits == (e + EditsOf(status, before)) + sent == e + (EditsOf(status, before) + sent);
    }

    /** One pass of the `for chunk` loop: `h` is `Going` when the loop
        goes on to the next chunk. */
    method Consume(c: Chunk, total: int, maxBytes: int, ghost e: seq<string>) returns (h: Halt)
      requires edits == e + EditsOf(status, shown)
      modifies this`downloaded, this`lastUpdate, this`lastDataTime, this`lastShown,
               this`written, this`openings, this`shown, this`edits
      ensures (Vars(), h) == Step(old(Vars()), c, total, maxBytes)
      ensures edits == e + EditsOf(status, shown)
    {
      if c.Broken? {
        h := BrokenOff;
      } else if c.Empty? {
        h := if c.at - lastDataTime > 60.0 then StalledOut else Going;
      } else {
        written := written + [c.size];
        downloaded := downloaded + c.size;
        lastDataTime := c.readAt;
        if downloaded > maxBytes {
          h := Overflow;
        } else {
          Throttle(c.checkAt, total, e);
          h := Going;
        }
      }
    }

    /** Lines 160-190: the loop variables set up, then the loop until the
        stream ends or a chunk raises. */
    method ReadStream(cs: seq<Chunk>, startedAt: real, total: int, maxBytes: int) returns (halt: Halt)
      modifies this`downloaded, this`lastUpdate, this`lastDataTime, this`lastShown,
               this`written, this`openings, this`shown, this`edits
      ensures (Vars(), halt) == Stream(Start(startedAt), cs, total, maxBytes)
      ensures edits == old(edits) + EditsOf(status, shown)
    {
      downloaded, lastUpdate, lastDataTime, lastShown := 0, 0.0, startedAt, "";
      written, openings, shown := [], [], [];
      ghost var goal := Stream(Start(startedAt), cs, total, maxBytes);
      ghost var e := old(edits);
      var i := 0;
      while i < |cs|
        invariant 0 <= i <= |cs|
        invariant Stream(Vars(), cs[i..], total, maxBytes) == goal
        invariant edits == e + EditsOf(status, shown)
        decreases |cs| - i
      {
        var h := Pass(cs, i, total, maxBytes, e);
        if h != Going {
          return h;
        }
        i := i + 1;
      }
      return Ended;
    }

    /** One pass of the loop at position `i`, against the loop over the
        rest of the stream; the edits keep being those of the texts shown. */
    method Pass(cs: seq<Chunk>, i: nat, total: int, maxBytes: int, ghost e: seq<string>) returns (h: Halt)
      requires i < |cs| && edits == e + EditsOf(status, shown)
      modifies this`downloaded, this`lastUpdate, this`lastDataTime, this`lastShown,
               this`written, this`openings, this`shown, this`edits
      ensures h == Going ==> Stream(Vars(), cs[i + 1..], total, maxBytes) == Stream(old(Vars()), cs[i..], total, maxBytes)
      ensures h != Going ==> (Vars(), h) == Stream(old(Vars()), cs[i..], total, maxBytes)
      ensures edits == e + EditsOf(status, shown)
    {
      StreamUnfold(Vars(), cs, i, total, maxBytes);
      h := Consume(cs[i], total, maxBytes, e);
    }

    /** Lines 139-153: the request, its one retry after a 451, and the
        checks of the status and the declared length. */
    method Open(url: string, maxBytes: int, net: Network) returns (rep: Reply, total: int, failure: Option<Failure>)
      modifies this`requests
      ensures requests == old(requests) + Fetch(url, net).1
      ensures failure == PreFailure(url, maxBytes, net)
      ensures failure.None? ==> rep == Fetch(url, net).0.value && total == DeclaredLength(rep.headers).value
    {
      var headers := BuildHeaders(url);
      requests := requests + [headers];
      var reply := net.first;
      if reply.Some? && reply.value.status == 451 {
        var headers2 := RetryHeaders(headers);
        requests := requests + [headers2];
        reply := net.retry;
      }
      rep, total := Reply(0, map[], []), 0;
      if reply.None? {
        return rep, total, Some(RequestFailed);
      }
      if reply.value.status != 200 {
        return rep, total, Some(HttpError(reply.value.status));
      }
      var declared := DeclaredLength(reply.value.headers);
      if declared.None? {
        return rep, total, Some(BadContentLength);
      }
      if declared.value > 0 && declared.value > maxBytes {
        return rep, total, Some(DeclaredTooLarge(declared.value));
      }
      return reply.value, declared.value, None;
    }

    /** `download_to_tmp(url, status_msg, filename_hint, max_bytes)`. */
    method DownloadToTmp(url: string, hint: string, maxBytes: int, net: Network) returns (out: Outcome)
      modifies this
      ensures var r := RunDownload(url, status, hint, maxBytes, net);
        && out == r.outcome
        && requests == old(requests) + r.requests
        && edits == old(edits) + r.edits
        && (r.loop.Some? ==> Vars() == r.loop.value)
        && (r.loop.None? ==> Vars() == old(Vars()))
        && created == (old(created) || r.created)
        && present == (if r.created then r.present else old(present))
    {
      var rep, total, failure := Open(url, maxBytes, net);
      if failure.Some? {
        return Failed(failure.value);
      }
      AcceptedRun(url, status, hint, maxBytes, net);
      var filename := DownloadName(rep.headers, url, hint);
      out := Receive(filename, maxBytes, net.startedAt, rep, total);
    }

    /** Lines 157-214, once the response is accepted: the temporary file
        is created and the body streamed into it. */
    method Receive(filename: string, maxBytes: int, startedAt: real, rep: Reply, total: int) returns (out: Outcome)
      modifies this`downloaded, this`lastUpdate, this`lastDataTime, this`lastShown,
               this`written, this`openings, this`shown, this`edits, this`created, this`present
      ensures var (s, h) := Stream(Start(startedAt), rep.chunks, total, maxBytes);
        var f := Finish(status, filename, maxBytes, s, h);
        && out == f.0 && edits == old(edits) + (EditsOf(status, s.shown) + f.1) && Vars() == s
        && created && present == f.2
    {
      created, present := true, true;
      ghost var before := edits;
      var halt := ReadStream(rep.chunks, startedAt, total, maxBytes);
      ghost var progress := EditsOf(status, shown);
      ghost var f := Finish(status, filename, maxBytes, Vars(), halt);
      out := Complete(filename, maxBytes, halt);
      assert edits == before + progress + f.1;
      assert before + progress + f.1 == before + (progress + f.1);
    }

    /** Lines 192-214: a failed loop removes the file; a finished one is
        measured, then the status message says so. */
    method Complete(filename: string, maxBytes: int, halt: Halt) returns (out: Outcome)
      requires halt != Going && present
      modifies this`present, this`edits
      ensures var (o, closing, p) := Finish(status, filename, maxBytes, Vars(), halt);
        out == o && edits == old(edits) + closing && present == p
    {
      if halt != Ended {
        present := false;
        var failure := match halt
          case StalledOut => Stalled
          case Overflow => StreamTooLarge(downloaded)
          case _ => StreamBroken;
        return Failed(failure);
      }
      if downloaded > maxBytes {
        present := false;
        return Failed(MeasuredTooLarge(downloaded));
      }
      var size := HumanSize(downloaded);
      SafeEdit(DoneText + size);
      return Done(filename, downloaded);
    }
  }
}
