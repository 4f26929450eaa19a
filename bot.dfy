/**
 * The bot's command handlers: `/u` and `/mirror` remember what a user asked
 * for in the two pending maps (keyed by user id), the host buttons pick the
 * upload target, and `/leech` downloads a URL and forwards it to Telegram
 * when it is small enough for a bot to send.
 *
 * What Telegram and the upload worker do is given as a `World`: whether
 * each call succeeds, the link an upload returns, the pixeldrain info reply
 * and the network behind the download. The messages the bot shows are
 * `Notice`s rather than their Indonesian texts.
 */
module Bot {
  import opened Wrappers
  import opened Strings
  import opened Pixeldrain
  import opened Download

  /** The most a leech or a mirror downloads: 60 MiB. */
  const MaxTaskBytes: int := 60 * 1024 * 1024

  /** The most the bot forwards to Telegram itself: 45 MiB. */
  const MaxTgSendBytes: int := 45 * 1024 * 1024

  // ---- hosts and the host menu ----

  /** The host keys, in the order of the menu. */
  const HostOrder: seq<string> := ["gofile", "pixeldrain", "uguu"]

  const HostNames: map<string, string> := map["gofile" := "Gofile", "pixeldrain" := "Pixeldrain", "uguu" := "Uguu"]

  /** `HOSTS.get(host, host)`. */
  function HostLabel(host: string): string {
    if host in HostNames then HostNames[host] else host
  }

  datatype Button = Button(text: string, data: string)

  /** `menu(prefix)`: one button per host, labelled with its display name,
      whose callback data is the prefix, ':' and the host key. */
  function Menu(prefix: string): (r: seq<Button>)
    ensures |r| == |HostOrder|
    ensures forall i :: 0 <= i < |r| ==> r[i].text == HostLabel(HostOrder[i]) && r[i].data == prefix + ":" + HostOrder[i]
  {
    [Button("Gofile", prefix + ":" + "gofile"),
     Button("Pixeldrain", prefix + ":" + "pixeldrain"),
     Button("Uguu", prefix + ":" + "uguu")]
  }

  /** `s.split(":", 1)[1]`: what follows the first ':'. */
  function AfterColon(s: string): (r: string)
    requires ':' in s
    ensures |r| < |s| && r == s[|s| - |r|..]
    ensures s[|s| - |r| - 1] == ':' && ':' !in s[..|s| - |r| - 1]
  {
    if s[0] == ':' then s[1..]
    else
      var r := AfterColon(s[1..]);
      assert s[1..][..|s| - |r| - 2] == s[1..|s| - |r| - 1];
      r
  }

  /** The callback data of a button gives back its host key. */
  lemma CallbackRoundTrip(prefix: string, host: string)
    requires ':' !in prefix
    ensures ':' in prefix + ":" + host
    ensures AfterColon(prefix + ":" + host) == host
  {
    var s := prefix + ":" + host;
    assert s[|prefix|] == ':';
    var r := AfterColon(s);
    var c := |s| - |r| - 1;
    assert s[..|prefix|] == prefix;
    assert c == |prefix|;
    assert s[c + 1..] == host;
  }

  /** Every button of a menu leads back to its own host, and shows that
      host's display name. */
  lemma MenuRoundTrip(prefix: string, i: int)
    requires ':' !in prefix && 0 <= i < |HostOrder|
    ensures var b := Menu(prefix)[i];
      && StartsWith(b.data, prefix + ":")
      && ':' in b.data && AfterColon(b.data) == HostOrder[i] && HostOrder[i] in HostNames
      && HostLabel(AfterColon(b.data)) == b.text
  {
    CallbackRoundTrip(prefix, HostOrder[i]);
    var b := Menu(prefix)[i];
    assert b.data[..|prefix| + 1] == prefix + ":";
  }

  // ---- pick_media ----

  /** A document or a video; `fileName` is "" when Telegram gives none. */
  datatype File = File(fileId: string, fileName: string)

  /** The media of a message: its document, its video, and the file ids
      of its photo sizes (the last is the largest). */
  datatype Message = Message(document: Option<File>, video: Option<File>, photo: seq<string>)

  /** `pick_media(msg)`: the file id and a file name of the document, else
      of the video, else of the largest photo; `None` for no media. */
  function PickMedia(m: Message): (r: Option<(string, string)>)
    ensures r.None? <==> m.document.None? && m.video.None? && m.photo == []
    ensures r.Some? ==> r.value.1 != []
    ensures m.document.Some? ==>
      && r.value.0 == m.document.value.fileId
      && (m.document.value.fileName != [] ==> r.value.1 == m.document.value.fileName)
      && (m.document.value.fileName == [] ==> r.value.1 == "file")
    ensures m.document.None? && m.video.Some? ==>
      && r.value.0 == m.video.value.fileId
      && (m.video.value.fileName != [] ==> r.value.1 == m.video.value.fileName)
      && (m.video.value.fileName == [] ==> r.value.1 == "video.mp4")
    ensures m.document.None? && m.video.None? && m.photo != [] ==>
      r.value.0 == m.photo[|m.photo| - 1] && r.value.1 == "photo.jpg"
  {
    match m.document
    case Some(d) => Some((d.fileId, if d.fileName != [] then d.fileName else "file"))
    case None =>
      match m.video
      case Some(v) => Some((v.fileId, if v.fileName != [] then v.fileName else "video.mp4"))
      case None => if m.photo != [] then Some((m.photo[|m.photo| - 1], "photo.jpg")) else None
  }

  /** What `/u` accepts: a message whose picked file id is not empty. */
  predicate HasMedia(m: Message) {
    PickMedia(m).Some? && PickMedia(m).value.0 != []
  }

  // ---- what the bot shows ----

  /** Why a handler stopped with "Error": the download failed, the upload
      raised, or the message could not be sent. */
  datatype Reason = DownloadFailed(failure: Failure) | UploadFailed | SendFailed

  datatype Notice =
    | AskForReply                           // "Reply ke file dulu."
    | NoMedia                               // the replied message has no media
    | Usage(command: string)                // "Gunakan: /<command> <url>"
    | ChooseHost(prompt: string, buttons: seq<Button>)
    | NotFound(prefix: string)              // the pending entry is gone
    | UnknownAction                         // "Aksi tidak dikenali."
    | Starting(target: Option<string>)      // "Memulai download...", with the target host of a mirror
    | Progress(text: string)                // an edit of the status message
    | Uploading(hostName: string, size: nat)   // "Upload ke <hostName>... (<size>)"
    | Uploaded(hostName: string, link: string)
    | Mirrored(hostName: string, link: string)
    | MirrorSummary(hostName: string, filename: string, size: nat, link: string)
    | TooBig(size: nat)                     // too large for the bot to send
    | SendingToTelegram
    | Document(filename: string, size: nat) // the file, forwarded
    | Finished                              // "Selesai"
    | Error(reason: Reason)

  const UploadPrompt := "Upload ke mana?"
  const MirrorPrompt := "Mirror ke mana?"
  const StartingText := "Memulai download..."

  /** The status edits a download made, as notices. */
  function ProgressNotices(edits: seq<string>): (r: seq<Notice>)
    ensures |r| == |edits| && forall i :: 0 <= i < |r| ==> r[i] == Progress(edits[i])
  {
    if edits == [] then [] else [Progress(edits[0])] + ProgressNotices(edits[1..])
  }

  // ---- the outside world ----

  /** How the calls a handler makes turn out: `answered` for `q.answer()`,
      `editOk` for `q.edit_message_text`, `fileOk` for `get_file`,
      `driveOk` for `download_to_drive`, `upload` for the link `upload_file`
      returns (`None` when it raises), `sendOk` for sending a message or
      a document, `info` for the pixeldrain info request and `net` for the
      download. */
  datatype World = World(answered: bool, editOk: bool, fileOk: bool, driveOk: bool, upload: Option<string>,
                         sendOk: bool, info: Option<InfoReply>, net: Network)

  /** The two pending maps, everything shown so far, and the temporary
      files left on disk. */
  datatype State = State(pendingUpload: map<int, Message>, pendingMirror: map<int, string>,
                         notices: seq<Notice>, leftover: nat)

  /** Lines 267-273 and 367-373: a pixeldrain link is fetched from the API,
      named after what the info endpoint reports; anything else is fetched
      as given and named "file" unless its headers say otherwise. */
  function Target(rawUrl: string, info: Option<InfoReply>): (r: (string, string))
    ensures r.1 != []
    ensures var id := PixeldrainIdFromUrl(rawUrl);
      if id.Some? && id.value != [] then
        && r.0 == PixeldrainDownloadUrl(id.value)
        && (InfoName(info).Some? ==> r.1 == InfoName(info).value)
        && (InfoName(info).None? ==> r.1 == "file")
      else r == (rawUrl, "file")
  {
    var id := PixeldrainIdFromUrl(rawUrl);
    if id.Some? && id.value != [] then (PixeldrainDownloadUrl(id.value), InfoName(info).GetOr("file"))
    else (rawUrl, "file")
  }

  /** The download a leech or a mirror makes, with `status` the text of the
      message its progress is shown in. */
  function Obtained(status: string, rawUrl: string, w: World): Run {
    var (url, hint) := Target(rawUrl, w.info);
    RunDownload(url, status, hint, MaxTaskBytes, w.net)
  }

  // ---- the handlers, on values ----

  /** What was shown stays shown: a handler only appends notices. */
  predicate Extends(after: seq<Notice>, before: seq<Notice>) {
    |before| <= |after| && after[..|before|] == before
  }

  /** `cmd_u`: a reply to a message with media is remembered for the user,
      who is then asked for a host. */
  function UCommand(st: State, uid: int, reply: Option<Message>): (r: State)
    ensures r.pendingMirror == st.pendingMirror && r.leftover == st.leftover
    ensures reply.Some? && HasMedia(reply.value) ==>
      r.pendingUpload == st.pendingUpload[uid := reply.value] && r.notices == st.notices + [ChooseHost(UploadPrompt, Menu("up"))]
    ensures reply.None? || !HasMedia(reply.value) ==>
      r.pendingUpload == st.pendingUpload && r.notices == st.notices + [if reply.None? then AskForReply else NoMedia]
  {
    if reply.None? then st.(notices := st.notices + [AskForReply])
    else if !HasMedia(reply.value) then st.(notices := st.notices + [NoMedia])
    else st.(pendingUpload := st.pendingUpload[uid := reply.value],
             notices := st.notices + [ChooseHost(UploadPrompt, Menu("up"))])
  }

  /** `cmd_mirror`: the first argument, stripped, is remembered for the
      user, who is then asked for a host. */
  function MirrorCommand(st: State, uid: int, args: seq<string>): (r: State)
    ensures r.pendingUpload == st.pendingUpload && r.leftover == st.leftover
    ensures args == [] ==> r.pendingMirror == st.pendingMirror && r.notices == st.notices + [Usage("mirror")]
    ensures args != [] ==>
      r.pendingMirror == st.pendingMirror[uid := Strip(args[0])] && r.notices == st.notices + [ChooseHost(MirrorPrompt, Menu("mi"))]
  {
    if args == [] then st.(notices := st.notices + [Usage("mirror")])
    else st.(pendingMirror := st.pendingMirror[uid := Strip(args[0])],
             notices := st.notices + [ChooseHost(MirrorPrompt, Menu("mi"))])
  }

  /** Lines 277-304, after the download: too large for Telegram, or
      forwarded. */
  function LeechTail(out: Outcome, w: World): seq<Notice> {
    match out
    case Failed(f) => [Error(DownloadFailed(f))]
    case Done(name, size) =>
      if size > MaxTgSendBytes then [TooBig(size)]
      else if w.sendOk then [SendingToTelegram, Document(name, size), Finished]
      else [SendingToTelegram, Error(SendFailed)]
  }

  /** `cmd_leech`. */
  function LeechCommand(st: State, args: seq<string>, w: World): (r: State)
    ensures r.pendingUpload == st.pendingUpload && r.pendingMirror == st.pendingMirror && r.leftover == st.leftover
    ensures args == [] ==> r.notices == st.notices + [Usage("leech")]
    ensures args != [] ==> Extends(r.notices, st.notices + [Starting(None)])
  {
    if args == [] then st.(notices := st.notices + [Usage("leech")])
    else
      var r := Obtained(StartingText, Strip(args[0]), w);
      LeechNoticesExtend(st.notices, r.edits, r.outcome, w);
      st.(notices := LeechNotices(st.notices, r.edits, r.outcome, w))
  }

  /** `q.edit_message_text(n)`: shown, or raised. */
  function Say(st: State, w: World, n: Notice): (r: State)
    ensures r.pendingUpload == st.pendingUpload && r.pendingMirror == st.pendingMirror && r.leftover == st.leftover
    ensures Extends(r.notices, st.notices) && |r.notices| <= |st.notices| + 1
    ensures r.notices == st.notices + [n] <==> w.editOk
  {
    if w.editOk then st.(notices := st.notices + [n]) else st
  }

  /** Lines 327-353: the "up:" button for a pending upload. */
  function UploadClick(st: State, uid: int, host: string, w: World): (r: State)
    requires uid in st.pendingUpload
    ensures r.pendingMirror == st.pendingMirror && Extends(r.notices, st.notices)
    ensures r.pendingUpload == st.pendingUpload || r.pendingUpload == st.pendingUpload - {uid}
    ensures r.leftover == st.leftover || r.leftover == st.leftover + 1
    ensures !w.fileOk ==> r == st
  {
    var hostName := HostLabel(host);
    if !HasMedia(st.pendingUpload[uid]) || !w.fileOk then st
    else if !w.editOk then st.(leftover := st.leftover + 1)
    else if !w.driveOk then st.(notices := st.notices + [Progress("Download: 0%")], leftover := st.leftover + 1)
    else
      var said := st.notices + [Progress("Download: 0%"), Progress("Download: 100%")];
      match w.upload
      case None => st.(notices := said)
      case Some(link) =>
        if !w.sendOk then st.(notices := said + [Uploaded(hostName, link)])
        else st.(pendingUpload := st.pendingUpload - {uid}, notices := said + [Uploaded(hostName, link), Uploaded(hostName, link)])
  }

  /** Lines 377-399, after the download: the upload, then its link. */
  function MirrorTail(hostName: string, out: Outcome, w: World): seq<Notice> {
    match out
    case Failed(f) => [Error(DownloadFailed(f))]
    case Done(name, size) =>
      [Uploading(hostName, size)] +
      match w.upload
      case None => [Error(UploadFailed)]
      case Some(link) =>
        [Mirrored(hostName, link)] + (if w.sendOk then [MirrorSummary(hostName, name, size, link)] else [Error(SendFailed)])
  }

  /** Lines 361-405: the "mi:" button for a pending mirror. */
  function MirrorClick(st: State, uid: int, host: string, w: World): State
    requires uid in st.pendingMirror
  {
    var hostName := HostLabel(host);
    if !w.editOk then st
    else
      var r := Obtained(MirrorPrompt, st.pendingMirror[uid], w);
      st.(pendingMirror := st.pendingMirror - {uid},
          notices := MirrorNotices(st.notices, hostName, r.edits, r.outcome, w))
  }

  /** `on_button`, for the user `uid` pressing a button with data `data`. */
  function Click(st: State, uid: int, data: string, w: World): (r: State)
    ensures Extends(r.notices, st.notices)
    ensures st.leftover <= r.leftover <= st.leftover + 1
    ensures !w.answered ==> r == st
  {
    if !w.answered then st
    else if StartsWith(data, "up:") then
      assert data[2] == ':';
      if uid !in st.pendingUpload then Say(st, w, NotFound("up")) else UploadClick(st, uid, AfterColon(data), w)
    else if StartsWith(data, "mi:") then
      assert data[2] == ':';
      if uid !in st.pendingMirror then Say(st, w, NotFound("mi")) else MirrorClick(st, uid, AfterColon(data), w)
    else Say(st, w, UnknownAction)
  }

  // ---- what the handlers promise ----

  /** After a leech's download: a failure is reported as such; a file over
      45 MiB is refused; otherwise it is sent, and the leech finishes iff
      sending works. */
  lemma LeechTailFacts(out: Outcome, w: World)
    ensures var r := LeechTail(out, w);
      && 1 <= |r| <= 3
      && (out.Failed? ==> r == [Error(DownloadFailed(out.failure))])
      && (out.Done? && out.size > MaxTgSendBytes ==> r == [TooBig(out.size)])
      && (out.Done? && out.size <= MaxTgSendBytes ==>
            && r[0] == SendingToTelegram
            && (Document(out.filename, out.size) in r <==> w.sendOk)
            && (r[|r| - 1] == Finished <==> w.sendOk)
            && (r[|r| - 1] == Error(SendFailed) <==> !w.sendOk))
  {
  }

  /** After a mirror's download: a failure is reported as such; otherwise
      the upload is announced with the size, and its link, then the summary
      is shown only when the upload returned a link and sending works. */
  lemma MirrorTailFacts(hostName: string, out: Outcome, w: World)
    ensures var r := MirrorTail(hostName, out, w);
      && |r| <= 3
      && (out.Failed? ==> r == [Error(DownloadFailed(out.failure))])
      && (out.Done? ==> |r| >= 2 && r[0] == Uploading(hostName, out.size))
      && (out.Done? && w.upload.None? ==> r == [Uploading(hostName, out.size), Error(UploadFailed)])
      && (out.Done? && w.upload.Some? ==> r[1] == Mirrored(hostName, w.upload.value))
      && (forall i :: 0 <= i < |r| && r[i].MirrorSummary? ==>
            out.Done? && w.upload.Some? && w.sendOk && r[i] == MirrorSummary(hostName, out.filename, out.size, w.upload.value))
      && (out.Done? && w.upload.Some? && w.sendOk ==>
            r[|r| - 1] == MirrorSummary(hostName, out.filename, out.size, w.upload.value))
  {
  }

  /** Every remembered upload has media to send. */
  predicate Valid(st: State) {
    forall u :: u in st.pendingUpload ==> HasMedia(st.pendingUpload[u])
  }

  /** The URL `/mirror` remembers has no surrounding white space, so the
      button press reads it as it was stored. */
  lemma MirrorCommandPending(st: State, uid: int, args: seq<string>)
    requires args != []
    ensures var n := MirrorCommand(st, uid, args);
      uid in n.pendingMirror && n.pendingMirror[uid] == Strip(args[0]) && Strip(n.pendingMirror[uid]) == n.pendingMirror[uid]
  {
    StripIdempotent(args[0]);
  }

  /** A button press changes only the entries of the user who pressed it,
      and only by removing them. */
  lemma ClickOnlyRemovesOwn(st: State, uid: int, data: string, w: World)
    ensures var n := Click(st, uid, data, w);
      && (n.pendingUpload == st.pendingUpload || n.pendingUpload == st.pendingUpload - {uid})
      && (n.pendingMirror == st.pendingMirror || n.pendingMirror == st.pendingMirror - {uid})
      && (n.pendingUpload == st.pendingUpload || n.pendingMirror == st.pendingMirror)
  {
  }

  /** A mirror drops the pending URL once the prompt is edited, keeps the
      other map and the files on disk as they were, and appends to what
      was shown, starting with the target host; if the edit raises, nothing
      changes. */
  lemma MirrorClickFacts(st: State, uid: int, host: string, w: World)
    requires uid in st.pendingMirror
    ensures var r := MirrorClick(st, uid, host, w);
      && r.pendingUpload == st.pendingUpload && r.leftover == st.leftover
      && (w.editOk ==> r.pendingMirror == st.pendingMirror - {uid} && Extends(r.notices, st.notices + [Starting(Some(HostLabel(host)))]))
      && (!w.editOk ==> r == st)
  {
    var r := Obtained(MirrorPrompt, st.pendingMirror[uid], w);
    MirrorNoticesExtend(st.notices, HostLabel(host), r.edits, r.outcome, w);
  }

  /** The state after a mirror whose prompt was edited. */
  lemma MirrorClickIs(st: State, uid: int, host: string, w: World, n: State)
    requires uid in st.pendingMirror && w.editOk
    requires var r := Obtained(MirrorPrompt, st.pendingMirror[uid], w);
      n == State(st.pendingUpload, st.pendingMirror - {uid},
                 MirrorNotices(st.notices, HostLabel(host), r.edits, r.outcome, w), st.leftover)
    ensures n == MirrorClick(st, uid, host, w)
  {
  }

  /** A "mi:" press for a user with no pending URL changes no map and, if
      the prompt can be edited, says so. */
  lemma MirrorClickAbsent(st: State, uid: int, data: string, w: World)
    requires w.answered && StartsWith(data, "mi:") && uid !in st.pendingMirror
    ensures var n := Click(st, uid, data, w);
      && n.pendingMirror == st.pendingMirror && n.pendingUpload == st.pendingUpload
      && n.notices == st.notices + (if w.editOk then [NotFound("mi")] else [])
  {
    assert !StartsWith(data, "up:") by { assert data[0] == 'm'; }
  }

  /** A "mi:" press for a user with a pending URL drops it on every path
      once the prompt has been edited, whatever the download and the upload
      do; if that first edit raises, the URL stays. */
  lemma MirrorClickRemoves(st: State, uid: int, data: string, w: World)
    requires w.answered && StartsWith(data, "mi:") && uid in st.pendingMirror
    ensures var n := Click(st, uid, data, w);
      && n.pendingUpload == st.pendingUpload && n.leftover == st.leftover
      && (w.editOk ==> n.pendingMirror == st.pendingMirror - {uid})
      && (!w.editOk ==> n == st)
  {
    assert !StartsWith(data, "up:") by { assert data[0] == 'm'; }
  }

  /** An "up:" press for a user with a pending message drops it only when
      every call up to the link messages succeeded. */
  lemma UploadClickRemoves(st: State, uid: int, data: string, w: World)
    requires w.answered && StartsWith(data, "up:") && uid in st.pendingUpload
    ensures var n := Click(st, uid, data, w);
      && n.pendingMirror == st.pendingMirror
      && (uid !in n.pendingUpload <==>
            HasMedia(st.pendingUpload[uid]) && w.fileOk && w.editOk && w.driveOk && w.upload.Some? && w.sendOk)
  {
  }

  /** The temporary file of an upload is left behind exactly when the
      edit before the Telegram download, or that download, raises. */
  lemma UploadClickLeftover(st: State, uid: int, data: string, w: World)
    requires Valid(st)
    ensures var n := Click(st, uid, data, w);
      n.leftover == st.leftover
        + (if w.answered && StartsWith(data, "up:") && uid in st.pendingUpload && w.fileOk && !(w.editOk && w.driveOk)
           then 1 else 0)
  {
    if w.answered && !StartsWith(data, "up:") && StartsWith(data, "mi:") && uid in st.pendingMirror {
      MirrorClickRemoves(st, uid, data, w);
    }
  }

  /** Each button of the mirror menu continues the user's pending mirror
      with the host it names. */
  lemma MirrorMenuClick(st: State, uid: int, i: int, w: World)
    requires 0 <= i < |HostOrder| && w.answered && uid in st.pendingMirror
    ensures Click(st, uid, Menu("mi")[i].data, w) == MirrorClick(st, uid, HostOrder[i], w)
  {
    MenuRoundTrip("mi", i);
    var data := Menu("mi")[i].data;
    assert !StartsWith(data, "up:") by { assert data[0] == 'm'; }
  }

  /** Every handler keeps `Valid`. */
  lemma HandlersKeepValid(st: State, uid: int, reply: Option<Message>, args: seq<string>, data: string, w: World)
    requires Valid(st)
    ensures Valid(UCommand(st, uid, reply))
    ensures Valid(MirrorCommand(st, uid, args))
    ensures Valid(LeechCommand(st, args, w))
    ensures Valid(Click(st, uid, data, w))
  {
    ClickOnlyRemovesOwn(st, uid, data, w);
  }

  /** The notices a leech adds after `prior`, for a download that made
      the edits `e` and ended in `out`. */
  function LeechNotices(prior: seq<Notice>, e: seq<string>, out: Outcome, w: World): seq<Notice> {
    prior + [Starting(None)] + ProgressNotices(e) + LeechTail(out, w)
  }

  /** A leech keeps what was shown before it and first says it is starting. */
  lemma LeechNoticesExtend(prior: seq<Notice>, e: seq<string>, out: Outcome, w: World)
    ensures Extends(LeechNotices(prior, e, out, w), prior + [Starting(None)])
  {
    var head := prior + [Starting(None)];
    assert LeechNotices(prior, e, out, w)[..|head|] == head;
  }

  lemma LeechNoticesFacts(prior: seq<Notice>, e: seq<string>, out: Outcome, w: World)
    requires out.Done? ==> out.size <= MaxTaskBytes
    ensures var ns := LeechNotices(prior, e, out, w);
      && |prior| <= |ns| && ns[..|prior|] == prior
      && ((exists i :: |prior| <= i < |ns| && ns[i].Document?) <==> out.Done? && out.size <= MaxTgSendBytes && w.sendOk)
      && (forall i :: |prior| <= i < |ns| && ns[i].Document? ==> ns[i] == Document(out.filename, out.size) && ns[i].size <= MaxTgSendBytes)
      && (forall i :: |prior| <= i < |ns| && ns[i].TooBig? ==> MaxTgSendBytes < ns[i].size <= MaxTaskBytes)
  {
    var ns := LeechNotices(prior, e, out, w);
    var progress := ProgressNotices(e);
    var tail := LeechTail(out, w);
    var k := |prior| + 1 + |progress|;
    forall i | |prior| <= i < k
      ensures !ns[i].Document? && !ns[i].TooBig?
    {
      if i > |prior| {
        assert ns[i] == progress[i - |prior| - 1];
      }
    }
    forall i | k <= i < |ns|
      ensures ns[i] == tail[i - k]
    {
    }
    if out.Done? && out.size <= MaxTgSendBytes && w.sendOk {
      assert ns[k + 1] == Document(out.filename, out.size);
    }
    assert ns[..|prior|] == prior;
  }

  /** The leech forwards a file exactly when the download succeeded, the
      file is within the Telegram limit and sending works; what it forwards
      is within 45 MiB, and what it refuses as too large is over 45 MiB and
      within 60 MiB. */
  lemma LeechGate(st: State, args: seq<string>, w: World)
    requires args != []
    ensures var n := LeechCommand(st, args, w);
      var r := Obtained(StartingText, Strip(args[0]), w);
      && n.pendingUpload == st.pendingUpload && n.pendingMirror == st.pendingMirror
      && n.notices == LeechNotices(st.notices, r.edits, r.outcome, w)
      && ((exists i :: |st.notices| <= i < |n.notices| && n.notices[i].Document?) <==>
            r.outcome.Done? && r.outcome.size <= MaxTgSendBytes && w.sendOk)
      && (forall i :: |st.notices| <= i < |n.notices| && n.notices[i].Document? ==>
            n.notices[i] == Document(r.outcome.filename, r.outcome.size) && n.notices[i].size <= MaxTgSendBytes)
      && (forall i :: |st.notices| <= i < |n.notices| && n.notices[i].TooBig? ==>
            MaxTgSendBytes < n.notices[i].size <= MaxTaskBytes)
  {
    var r := Obtained(StartingText, Strip(args[0]), w);
    LeechNoticesFacts(st.notices, r.edits, r.outcome, w);
  }

  /** The notices a mirror adds after `prior`. */
  function MirrorNotices(prior: seq<Notice>, hostName: string, e: seq<string>, out: Outcome, w: World): seq<Notice> {
    prior + [Starting(Some(hostName))] + ProgressNotices(e) + MirrorTail(hostName, out, w)
  }

  /** A mirror keeps what was shown before it and first says it is starting,
      with its target. */
  lemma MirrorNoticesExtend(prior: seq<Notice>, hostName: string, e: seq<string>, out: Outcome, w: World)
    ensures Extends(MirrorNotices(prior, hostName, e, out, w), prior + [Starting(Some(hostName))])
  {
    var head := prior + [Starting(Some(hostName))];
    assert MirrorNotices(prior, hostName, e, out, w)[..|head|] == head;
  }

  lemma MirrorNoticesFacts(prior: seq<Notice>, hostName: string, e: seq<string>, out: Outcome, w: World)
    requires out.Done? ==> out.size <= MaxTaskBytes
    ensures var ns := MirrorNotices(prior, hostName, e, out, w);
      forall i :: |prior| <= i < |ns| && ns[i].MirrorSummary? ==>
        && out.Done? && w.upload.Some? && w.sendOk
        && ns[i] == MirrorSummary(hostName, out.filename, out.size, w.upload.value) && ns[i].size <= MaxTaskBytes
  {
    var ns := MirrorNotices(prior, hostName, e, out, w);
    var progress := ProgressNotices(e);
    var tail := MirrorTail(hostName, out, w);
    var k := |prior| + 1 + |progress|;
    forall i | |prior| <= i < k
      ensures !ns[i].MirrorSummary?
    {
      if i > |prior| {
        assert ns[i] == progress[i - |prior| - 1];
      }
    }
    forall i | k <= i < |ns|
      ensures ns[i] == tail[i - k]
    {
    }
  }

  /** A mirror's summary reports the name and size of the file downloaded,
      within 60 MiB, and the link the upload returned. */
  lemma MirrorSummaryFacts(st: State, uid: int, host: string, w: World)
    requires uid in st.pendingMirror
    ensures var n := MirrorClick(st, uid, host, w);
      var r := Obtained(MirrorPrompt, st.pendingMirror[uid], w);
      forall i :: |st.notices| <= i < |n.notices| && n.notices[i].MirrorSummary? ==>
        && r.outcome.Done? && w.upload.Some? && w.sendOk
        && n.notices[i] == MirrorSummary(HostLabel(host), r.outcome.filename, r.outcome.size, w.upload.value)
        && n.notices[i].size <= MaxTaskBytes
  {
    var r := Obtained(MirrorPrompt, st.pendingMirror[uid], w);
    MirrorNoticesFacts(st.notices, HostLabel(host), r.edits, r.outcome, w);
  }

  /** A share link is downloaded from the API, under the name the info
      endpoint gives or "file". */
  lemma ShareLinkTarget(id: string, query: string, info: Option<InfoReply>)
    requires '/' !in id && '?' !in id && Strip(id) == id && id != []
    requires query == [] || (query[0] == '?' && !Contains(query, SharePath))
    ensures Target(ShareRoot + id + query, info) == (PixeldrainDownloadUrl(id), InfoName(info).GetOr("file"))
  {
    PixeldrainShareLink(id, query);
  }

  // ---- the handlers, on the bot's state ----

  /** The state `commands.py` keeps between updates: the two pending maps
      (lines 25-26), and, for the model, what was shown and the temporary
      files left on disk. */
  class Controller {
    var pendingUpload: map<int, Message>
    var pendingMirror: map<int, string>
    var notices: seq<Notice>
    var leftover: nat

    ghost function Model(): State
      reads this
    {
      State(pendingUpload, pendingMirror, notices, leftover)
    }

    constructor ()
      ensures Model() == State(map[], map[], [], 0)
    {
      pendingUpload, pendingMirror, notices, leftover := map[], map[], [], 0;
    }

    /** `cmd_u(update, context)` for the user `uid`, replying to `reply`. */
    method CmdU(uid: int, reply: Option<Message>)
      modifies this
      ensures Model() == UCommand(old(Model()), uid, reply)
    {
      if reply.None? {
        notices := notices + [AskForReply];
        return;
      }
      var msg := reply.value;
      var media := PickMedia(msg);
      if media.None? || media.value.0 == [] {
        notices := notices + [NoMedia];
        return;
      }
      pendingUpload := pendingUpload[uid := msg];
      notices := notices + [ChooseHost(UploadPrompt, Menu("up"))];
    }

    /** `cmd_mirror(update, context)` for the user `uid`, with the command's
        arguments `args`. */
    method CmdMirror(uid: int, args: seq<string>)
      modifies this
      ensures Model() == MirrorCommand(old(Model()), uid, args)
    {
      if args == [] {
        notices := notices + [Usage("mirror")];
        return;
      }
      var url := Strip(args[0]);
      pendingMirror := pendingMirror[uid := url];
      notices := notices + [ChooseHost(MirrorPrompt, Menu("mi"))];
    }

    /** Lines 267-273: the URL to fetch and the name hint. */
    static method ResolveTarget(rawUrl: string, info: Option<InfoReply>) returns (url: string, hint: string)
      ensures (url, hint) == Target(rawUrl, info)
    {
      var id := PixeldrainIdFromUrl(rawUrl);
      if id.Some? && id.value != [] {
        url := PixeldrainDownloadUrl(id.value);
        var name := TryGetPixeldrainFilename(info);
        hint := name.GetOr("file");
      } else {
        url, hint := rawUrl, "file";
      }
    }

    /** Lines 275 and 375: `download_to_tmp` with the 60 MiB limit, its
        status edits shown; a temporary file is left when it succeeds. */
    method Download(status: string, url: string, hint: string, net: Network) returns (out: Outcome)
      modifies this`notices, this`leftover
      ensures var r := RunDownload(url, status, hint, MaxTaskBytes, net);
        && out == r.outcome && notices == old(notices) + ProgressNotices(r.edits)
        && leftover == old(leftover) + (if out.Done? then 1 else 0)
    {
      ghost var r := RunDownload(url, status, hint, MaxTaskBytes, net);
      var t := new Transfer(status);
      out := t.DownloadToTmp(url, hint, MaxTaskBytes, net);
      assert out == r.outcome;
      assert t.edits == r.edits;
      assert t.present == (r.created && r.present);
      notices := notices + ProgressNotices(t.edits);
      if t.present {
        leftover := leftover + 1;
      }
    }

    /** Lines 267-275: the target resolved, then downloaded. */
    method Obtain(status: string, rawUrl: string, w: World) returns (out: Outcome)
      modifies this`notices, this`leftover
      ensures var r := Obtained(status, rawUrl, w);
        && out == r.outcome && notices == old(notices) + ProgressNotices(r.edits)
        && (out.Done? ==> leftover == old(leftover) + 1) && (!out.Done? ==> leftover == old(leftover))
    {
      var url, hint := ResolveTarget(rawUrl, w.info);
      out := Download(status, url, hint, w.net);
    }

    /** `cmd_leech(update, context)` with the command's arguments `args`. */
    method CmdLeech(args: seq<string>, w: World)
      modifies this
      ensures Model() == LeechCommand(old(Model()), args, w)
    {
      if args == [] {
        notices := notices + [Usage("leech")];
        return;
      }
      Leech(Strip(args[0]), w);
    }

    /** Lines 259-312 for the URL `rawUrl`: the download, then its report;
        the `finally` of lines 309-312 removes the downloaded file. */
    method Leech(rawUrl: string, w: World)
      modifies this`notices, this`leftover
      ensures var r := Obtained(StartingText, rawUrl, w);
        notices == LeechNotices(old(notices), r.edits, r.outcome, w) && leftover == old(leftover)
    {
      notices := notices + [Starting(None)];
      var out := Obtain(StartingText, rawUrl, w);
      if out.Done? {
        leftover := leftover - 1;
      }
      notices := notices + LeechTail(out, w);
    }

    /** `q.edit_message_text(n)`. */
    method Say(w: World, n: Notice)
      modifies this`notices
      ensures notices == old(notices) + (if w.editOk then [n] else [])
    {
      if w.editOk {
        notices := notices + [n];
      }
    }

    /** Lines 327-353, for a user with a pending upload. */
    method ClickUpload(uid: int, host: string, w: World)
      requires uid in pendingUpload
      modifies this
      ensures Model() == UploadClick(old(Model()), uid, host, w)
    {
      var hostName := HostLabel(host);
      var media := PickMedia(pendingUpload[uid]);
      if media.None? || media.value.0 == [] || !w.fileOk {
        return;
      }
      leftover := leftover + 1;
      if !w.editOk {
        return;
      }
      if !w.driveOk {
        notices := notices + [Progress("Download: 0%")];
        return;
      }
      var said := [Progress("Download: 0%"), Progress("Download: 100%")];
      leftover := leftover - 1;
      if w.upload.None? {
        notices := notices + said;
        return;
      }
      var link := w.upload.value;
      if !w.sendOk {
        notices := notices + (said + [Uploaded(hostName, link)]);
        return;
      }
      notices := notices + (said + [Uploaded(hostName, link), Uploaded(hostName, link)]);
      pendingUpload := pendingUpload - {uid};
    }

    /** Lines 361-405, for a user with a pending mirror: the entry is
        dropped in the `finally` of line 404, whatever happened before. */
    method ClickMirror(uid: int, host: string, w: World)
      requires uid in pendingMirror
      modifies this
      ensures Model() == MirrorClick(old(Model()), uid, host, w)
    {
      if !w.editOk {
        return;
      }
      ghost var st := Model();
      var hostName, url := HostLabel(host), pendingMirror[uid];
      Mirror(hostName, url, w);
      pendingMirror := pendingMirror - {uid};
      MirrorClickIs(st, uid, host, w, Model());
    }

    /** Lines 364-399 for the URL `rawUrl`: the download, the upload and
        their report; the `finally` of lines 400-403 removes the file. */
    method Mirror(hostName: string, rawUrl: string, w: World)
      modifies this`notices, this`leftover
      ensures var r := Obtained(MirrorPrompt, rawUrl, w);
        notices == MirrorNotices(old(notices), hostName, r.edits, r.outcome, w) && leftover == old(leftover)
    {
      notices := notices + [Starting(Some(hostName))];
      var out := Obtain(MirrorPrompt, rawUrl, w);
      if out.Done? {
        leftover := leftover - 1;
      }
      notices := notices + MirrorTail(hostName, out, w);
    }

    /** `on_button(update, context)`: the user `uid` pressed a button whose
        callback data is `data` ("" when there is none). */
    method OnButton(uid: int, data: string, w: World)
      modifies this
      ensures Model() == Click(old(Model()), uid, data, w)
    {
      if !w.answered {
        return;
      }
      if StartsWith(data, "up:") {
        assert data[2] == ':';
        var host := AfterColon(data);
        if uid !in pendingUpload {
          Say(w, NotFound("up"));
          return;
        }
        ClickUpload(uid, host, w);
        return;
      }
      if StartsWith(data, "mi:") {
        assert data[2] == ':';
        var host := AfterColon(data);
        if uid !in pendingMirror {
          Say(w, NotFound("mi"));
          return;
        }
        ClickMirror(uid, host, w);
        return;
      }
      Say(w, UnknownAction);
    }
  }
}
