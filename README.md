# A Dafny model of the mirror/leech bot's `commands.py`

The bot takes a file or a URL from a Telegram chat. It then either mirrors
it to a file host (Gofile, Pixeldrain, Uguu) and answers with a link, or
leeches it back into the chat. This project models the logic of
`commands.py` and proves what it promises:

- how a download names its file (`extract_filename`, `sanitize_filename`,
  percent-decoding as `urllib.parse.unquote` does it, `urlparse`);
- how sizes are shown (`human_size`);
- the bounded streaming download `download_to_tmp`, as a class whose
  methods follow the source step by step;
- the pixeldrain helpers;
- the handlers, which keep the two pending maps (`pending_upload`,
  `pending_mirror`) between a command and the button press that completes it.

Modules, one per file:

| file | module | what it holds |
|---|---|---|
| wrappers.dfy | Wrappers | `Option` |
| strings.dfy | Strings | `strip`, `find`, `split`, `lower`, `int()` and decimal text |
| sizes.dfy | Sizes | `human_size`: the specification `FormatSize` and the loop `HumanSize` |
| utf8.dfy | Utf8 | UTF-8 encoding, and decoding with replacement characters |
| unquote.dfy | Unquote | `unquote` and a percent-encoder to check it against |
| urls.dfy | Urls | the parts of `urlparse` the bot reads, `os.path.basename`, `build_headers` |
| pixeldrain.dfy | Pixeldrain | `pixeldrain_*`, `try_get_pixeldrain_filename` |
| filenames.dfy | Filenames | `os.path.splitext`, `sanitize_filename`, `extract_filename` |
| download.dfy | Download | `safe_edit`'s guard; `download_to_tmp` as the spec `RunDownload` and the class `Transfer` |
| bot.dfy | Bot | `menu`, `pick_media`, the handlers as functions on `State` and as the class `Controller` |

Things the bot gets from outside are parameters:

- a download's server behaviour is a `Network`: the first reply, the reply
  to the retry, and the clock at the start;
- a reply's body is a sequence of `Chunk`s, and each chunk carries the
  clock readings taken at it;
- what Telegram, the pixeldrain info request and the upload worker do is a
  `World`: whether each call succeeds, and the link an upload returns.

The messages the bot shows are `Notice` values, not their Indonesian texts.
The exception is the progress texts of a download, which are kept exactly,
because the throttle and `safe_edit` compare them.

Three behaviours of the code worth noting:

- An "up:" press leaves its temporary file on disk when the edit at line 334
  or `download_to_drive` at line 335 raises. The file is created at line 331,
  and only the `try` at lines 338-342 removes it. `Bot.UploadClickLeftover`
  states when this happens.
- A "mi:" press removes the pending URL on every path after line 362. If the
  edit at line 362 itself raises, the entry stays, because that edit comes
  before the `try`. See `Bot.MirrorClickRemoves`.
- After the loop, `download_to_tmp` measures the file size again (lines
  197-199). In the model, the file holds exactly the bytes written. That
  second check can then fail only when `max_bytes` is negative: without it,
  the loop has already stopped on the first chunk over the limit. See
  `Download.NoMeasuredFailure` and `Download.NegativeLimitMeasured`.

## Model

| member | source | states |
|---|---|---|
| Sizes.UnitIndex | commands.py:28-34 | the unit picked is the largest power of 1024 not above the count, capped at PB |
| Sizes.RoundHalfEven | commands.py:31 | `:.0f` rounds to the nearest integer, ties to even |
| Sizes.HumanSize | commands.py:28-34 | the loop over the units computes `FormatSize` |
| Sizes.SmallCountsInBytes | commands.py:28-31 | a count below 1024 is shown as itself in B |
| Sizes.ExactMultiple | commands.py:28-34 | m·1024^k is shown as m with the k-th unit (m below 1024 unless the unit is PB) |
| Sizes.RoundExact | commands.py:31 | a count that is an exact multiple of the unit needs no rounding |
| Sizes.FormatSizeReads | commands.py:28-34 | the text is a decimal numeral followed by the unit chosen, and the numeral times the unit is within half a unit of the count |
| Sizes.FormatSizeText | commands.py:28-34 | the text ends in 'B' and holds only digits and capital letters |
| Sizes.UnitBeforeRounding | commands.py:30-33 | the unit is chosen before rounding: 1048575 shows as "1024KB" |
| Sizes.HalvesRoundToEven | commands.py:31 | 1.5 KiB and 2.5 KiB both show as "2KB" |
| Sizes.SampleSizes | commands.py:28-34 | 0, 1023, 1024 and 1048576 show as "0B", "1023B", "1KB", "1MB" |
| Strings.Trim | commands.py:74 | `strip` drops the selected characters at both ends and keeps the middle unchanged; the result is empty iff all were selected |
| Strings.StripIdempotent | commands.py:253 | stripping twice is stripping once |
| Strings.FirstPiece | commands.py:107 | `split(sep)[0]` is a prefix without the separator, ending where the leftmost one starts; no separator starts inside it |
| Strings.LastPieceIsSuffix | commands.py:107 | `split(sep)[-1]` is a suffix without the separator and, unless it is all of the text, a separator ends right before it |
| Strings.LastPieceAfterFirst | commands.py:107 | the cuts go left to right: the last piece is the last piece of what follows the first piece and its separator, or the whole text when there is no separator |
| Strings.LastPieceOverlap | commands.py:107 | overlapping separators do not both cut: "x/u/u/y" split on "/u/" ends with "u/y" |
| Strings.IndexOf | commands.py:85-87 | the leftmost occurrence at or after `from`, or none at all |
| Strings.Lower | commands.py:84 | `lower` maps each ASCII letter and keeps the length |
| Strings.ParseInt | commands.py:151 | `int()` gives `None` exactly when the stripped text, less one leading sign, is not ASCII digits with single underscores between them; otherwise the sign times the value of the digits |
| Strings.ParseIntToString | commands.py:151 | `int()` reads back any integer's decimal text |
| Strings.ParseIntSurrounded | commands.py:151 | white space around an integer's decimal text does not change what `int()` reads |
| Strings.ParseIntRejects | commands.py:151 | the empty text and a lone sign are refused |
| Strings.NatToStringValue | commands.py:31 | the decimal text of a count denotes that count |
| Utf8.DecodeEncode | commands.py:92 | decoding the UTF-8 bytes of a string gives the string back |
| Utf8.DecodeAscii | commands.py:92 | ASCII bytes decode one character each, to themselves |
| Unquote.UnquotePercentEncode | commands.py:92 | `unquote` inverts percent-encoding, for every string |
| Unquote.PercentEncodeChars | commands.py:89-92 | an encoding uses only '%', hex digits and unreserved ASCII, and is empty only for the empty string |
| Unquote.UnquoteNaive | commands.py:92 | "na%C3%AFve.txt" unquotes to "naïve.txt" |
| Unquote.UnquoteShorter | commands.py:92 | `unquote` never makes a text longer |
| Urls.RemoveUnsafe | commands.py:101 | tabs, CRs and LFs are removed, and clean text is left as it is |
| Urls.UrlParse | commands.py:101 | the path never holds '?' or '#', and the network location holds no '/', '?' or '#' |
| Urls.ParsePlainUrl | commands.py:63 | for a URL built from a scheme, a host, a path and a query, `urlparse` recovers the scheme, host and path |
| Urls.Basename | commands.py:102 | `basename` is the suffix after the last '/' and holds no '/' |
| Urls.BuildHeaders | commands.py:62-71 | exactly the six headers; Origin is `scheme://netloc`, and Referer is Origin with "/" |
| Urls.Origin | commands.py:63 | the origin is the scheme, "://" and a network location free of '/', '?' and '#' |
| Urls.RetryHeaders | commands.py:143-145 | the retry's headers are the first ones, without Origin and Referer |
| Urls.OriginOfPlainUrl | commands.py:63-68 | for a plain URL, Origin is its scheme and host |
| Pixeldrain.PixeldrainIdFromUrl | commands.py:105-110 | `None` exactly when the URL has neither marker |
| Pixeldrain.PixeldrainDownloadUrl | commands.py:112-113 | the API prefix, followed by the id and nothing else |
| Pixeldrain.PixeldrainInfoUrl | commands.py:115-116 | the info URL is the download URL followed by "/info" |
| Pixeldrain.PixeldrainRoundTrip | commands.py:105-113 | the id of an API link is the id it was built from |
| Pixeldrain.PixeldrainShareLink | commands.py:105-107 | a share link, with or without a query, gives its id |
| Pixeldrain.NameFrom | commands.py:124-126 | the stripped value of the first key holding a non-blank string; `None` iff there is no such key |
| Pixeldrain.InfoName | commands.py:118-129 | a name comes only from a 200 reply with a JSON object, and is stripped and non-empty |
| Pixeldrain.TryGetPixeldrainFilename | commands.py:118-129 | the loop over the keys computes `InfoName` |
| Pixeldrain.NameKeyFirst | commands.py:124-126 | a usable "name" wins over the other keys |
| Pixeldrain.BlankNameFallsThrough | commands.py:124-126 | a blank "name" and a non-string "filename" are skipped for "file_name" |
| Filenames.SplitExt | commands.py:78 | root + ext is the name; ext is empty or one '.' and what follows, with no '/' or other '.'; it is non-empty exactly when the last '.' follows the last '/' and something other than dots precedes it in the last segment |
| Filenames.RemoveControls | commands.py:77 | no CR, LF, tab or NUL is left, and a text without them is kept as it is |
| Filenames.RemoveControlsCounts | commands.py:77 | every other character is kept as many times as it occurs, and the controls not at all |
| Filenames.RemoveControlsAppend | commands.py:77 | the removal works piece by piece, so what is kept stays in order |
| Filenames.Cleaned | commands.py:74-77 | the stripped name without its controls; when the stripped name is empty, the fallback without its controls |
| Filenames.SanitizeFilename | commands.py:73-81 | no controls, at most 180 characters; a longer name becomes its root cut to 160 and its extension cut to 20 |
| Filenames.SanitizeKeepsCleanName | commands.py:73-81 | a stripped, clean, short name is kept |
| Filenames.SanitizeIdempotent | commands.py:73-81 | sanitizing again changes nothing when the result is stripped and non-empty |
| Filenames.SanitizeNotIdempotent | commands.py:74-77 | "\0 a" sanitizes to " a", which sanitizes to "a": stripping comes before the controls are removed |
| Filenames.SanitizeBlankUsesFallback | commands.py:74-76 | a blank name gives the fallback |
| Filenames.SanitizeOnlyControls | commands.py:74-77 | a name of NULs gives the empty name, not the fallback |
| Filenames.SanitizeKeepsShortExtension | commands.py:78-80 | a long name keeps an extension of at most 20 characters whole |
| Filenames.ExtValueAt | commands.py:89 | the optional `utf-8''` tag is skipped only if a value follows it; the value is non-empty and holds no ';' |
| Filenames.FindExtValue | commands.py:89 | the leftmost case-insensitive match of `filename*=`, if any |
| Filenames.FindBasicValue | commands.py:98 | the leftmost match of `filename=`, if any, after an optional quote |
| Filenames.ExtMatchHasMarker | commands.py:87-89 | whenever the expression matches, the test of line 87 passes, so that test never hides a match |
| Filenames.ExtractFilename | commands.py:83-103 | the extended parameter wins, then the basic one, then the URL's basename; the result is sanitized |
| Filenames.UrlName | commands.py:101-103 | a path that is empty or ends in '/' gives the fallback; otherwise the name is its non-empty last segment, free of '/', '?' and '#' |
| Filenames.ExtNameOfEncoding | commands.py:90-92 | the value of `filename*=` for a percent-encoded name decodes back to the name, and holds no ';' |
| Filenames.ExtractExtendedName | commands.py:88-96 | `filename*=UTF-8''` with a percent-encoded name gives back the name, sanitized |
| Filenames.ExtractBasicName | commands.py:98-100 | `filename="name"` gives back the name, sanitized |
| Filenames.ExtendedBeatsBasic | commands.py:87-100 | with both parameters, the extended one wins even when it comes second |
| Filenames.NoStarNoExt | commands.py:87-89 | without '*' in the header the extended branch is never taken |
| Filenames.ExtendedWithoutValue | commands.py:89 | `filename*=UTF-8''` with nothing after it names the file "UTF-8''" |
| Filenames.ExtractWithoutHeader | commands.py:101-103 | without the header, the name comes from the URL's path |
| Filenames.ExtractFromPlainUrl | commands.py:101-103 | the last path segment of a plain URL is the name, query ignored |
| Filenames.NaiveHeader | commands.py:88-96 | `filename*=UTF-8''na%C3%AFve.txt` gives "naïve.txt" |
| Filenames.ReportFromUrl | commands.py:101-103 | `https://h/a/b/report.pdf?x=1` with no header gives "report.pdf" |
| Download.Fetch | commands.py:139-146 | one request with the built headers; a 451 adds exactly one retry without Origin and Referer, and its reply is the one used |
| Download.DeclaredLength | commands.py:151 | a missing or empty Content-Length counts as 0; otherwise it is `int()` of the value |
| Download.Precheck | commands.py:148-153 | a non-200 reply fails with its status; an unreadable length fails as such; a positive declared length over the limit fails with that length; nothing else fails |
| Download.PreFailure | commands.py:139-153 | no reply fails as a failed request; a reply fails exactly as `Precheck` says; these are the failures before the stream |
| Download.Percent | commands.py:184 | `int(downloaded * 100 / total)` is the floor of the percentage |
| Download.ProgressTextDeclared | commands.py:183-185 | with a declared length the text is "Download: ", the floor percentage and '%', then the sizes in parentheses |
| Download.ProgressTextUndeclared | commands.py:186-187 | without one it is "Download: " and the size, with no '%' |
| Download.SafeEditSends | commands.py:36-45 | nothing is sent iff the text equals the message's text |
| Download.EditsOf | commands.py:188-190 | no texts, no edits; the edits are the shown texts that differ from the message's text, never more of them |
| Download.EditsOfAppend | commands.py:188-190 | the edits follow the order of the texts shown |
| Download.EditsOfCounts | commands.py:188-190 | each text is sent as often as it is shown, except the message's own text, which never is |
| Download.Step | commands.py:167-190 | a broken chunk stops the loop and changes nothing; an empty one changes nothing and stops it iff it comes over 60 seconds after data; a data chunk is written and counted, records its time, and stops the loop iff the count goes over the limit |
| Download.Stream | commands.py:167-190 | the loop always ends, by running out of chunks or by a stop |
| Download.StartInvariant | commands.py:160-163 | the loop starts with no bytes, nothing written or shown, the last update at 0, the last data at the start clock, and its invariant holding |
| Download.Finish | commands.py:192-214 | the file is kept iff the download succeeds, at the counted size within the limit; failures here are never pre-stream ones |
| Download.RunDownload | commands.py:138-214 | the request headers sent; the file is there iff the result is a success within the limit; no file is created iff it failed before the stream, with no edits |
| Download.StepKeepsInvariant | commands.py:167-190 | one chunk keeps the count equal to the bytes written, the throttle's 5-second spacing and no repeated text |
| Download.StreamKeepsInvariant | commands.py:160-190 | the whole loop keeps that invariant |
| Download.StreamCeiling | commands.py:177-178 | the loop stops on the first chunk that goes over the limit, and otherwise stays within it |
| Download.EmptyChunkInTime | commands.py:168-171 | an empty chunk within 60 seconds of data changes nothing |
| Download.EmptyChunkLate | commands.py:168-170 | an empty chunk over 60 seconds after data ends the loop as stalled |
| Download.DownloadResult | commands.py:138-214 | a success reports the bytes written, within the limit; after a failure no file is left; the loop's invariant holds |
| Download.AcceptedRun | commands.py:155-214 | an accepted reply is streamed, and then finished |
| Download.DownloadNameFacts | commands.py:155 | the name has no controls and at most 180 characters; the second sanitizing keeps a non-empty, stripped first result |
| Download.NoMeasuredFailure | commands.py:197-199 | with a limit of 0 or more, the measure after the loop never fails |
| Download.NegativeLimitMeasured | commands.py:197-199 | with the limit -1, an empty body fails at that measure |
| Download.RetryOnce | commands.py:142-149 | a 451 sends two requests, the second without Origin and Referer, and a non-200 retry fails with its status |
| Download.DeclaredLengthGate | commands.py:151-153 | a declared length over the limit fails before any file is created or edit sent |
| Download.OverHundredPercent | commands.py:183-185 | an understated length shows more than 100%: "Download: 200% (2KB/1KB)" |
| Download.Transfer.constructor | commands.py:160-163 | the loop variables start at zero and empty, with nothing sent and no file; `ReadStream` sets the last data time to the start clock |
| Download.Transfer.SafeEdit | commands.py:36-45 | an edit is sent iff the text differs from the message's text |
| Download.Transfer.Progress | commands.py:183-187 | builds `ProgressText` with `human_size` |
| Download.Transfer.Throttle | commands.py:180-190 | the throttle opens after 5 seconds; the text is shown and edited iff it differs from the last one shown |
| Download.Transfer.Show | commands.py:188-190 | the text is recorded as shown, and the edits sent stay those of the texts shown |
| Download.Transfer.Consume | commands.py:167-190 | one pass of the loop computes `Step` on the object's fields |
| Download.Transfer.Pass | commands.py:167-190 | one pass over chunk i: if the loop goes on, the rest of the stream from the new state is the stream from the old; otherwise it is its end |
| Download.Transfer.ReadStream | commands.py:160-190 | the loop computes `Stream` from the start values; its edits are those of the texts shown |
| Download.Transfer.Open | commands.py:139-153 | sends exactly `Fetch`'s requests and fails exactly as `PreFailure` says |
| Download.Transfer.Receive | commands.py:157-214 | creates the file, streams, and finishes as `Finish` says |
| Download.Transfer.Complete | commands.py:192-214 | removes the file on a failed loop or measure, else sends the final edit |
| Download.Transfer.DownloadToTmp | commands.py:138-214 | the outcome, requests, edits, loop state and file flags are those of `RunDownload` |
| Bot.Menu | commands.py:131-136 | one button per host in order, labelled with its display name, with data `prefix:host` |
| Bot.AfterColon | commands.py:322 | `split(":", 1)[1]`: what follows the first ':' |
| Bot.CallbackRoundTrip | commands.py:131-136 | the data `prefix:host` splits back to the host when the prefix has no ':' |
| Bot.MenuRoundTrip | commands.py:131-136 | each button's data starts with the prefix and ':', and leads back to a known host shown by its own label |
| Bot.PickMedia | commands.py:53-60 | the document, else the video, else the largest photo; a given file name is kept, and the defaults are "file", "video.mp4" and "photo.jpg"; `None` iff there is no media |
| Bot.Target | commands.py:267-273 | a pixeldrain id is fetched from the API under the info name or "file"; other URLs are fetched as given under "file"; the hint is never empty |
| Bot.ProgressNotices | commands.py:190 | each edit a download sends becomes one progress notice, in order |
| Bot.UCommand | commands.py:234-246 | `/u` stores the replied message iff it has media, touches nothing else, and answers with the host menu or the reason it refused |
| Bot.MirrorCommand | commands.py:248-255 | `/mirror` without arguments changes no map; otherwise it stores the stripped first argument, over any earlier one, and shows the host menu |
| Bot.MirrorCommandPending | commands.py:253-254 | the stored URL has no surrounding white space |
| Bot.LeechCommand | commands.py:257-312 | `/leech` changes neither map and leaves no file; without an argument it shows its usage, otherwise it first says it is starting |
| Bot.LeechTailFacts | commands.py:277-307 | after the download: a failure is reported; a file over 45 MiB is refused; otherwise it is sent, and "Selesai" comes iff sending works |
| Bot.MirrorTailFacts | commands.py:375-399 | after the download: a failure is reported; otherwise the upload is announced with the size, then its link, and the summary comes last iff the upload returned a link and sending works |
| Bot.LeechNoticesExtend | commands.py:263-307 | a leech keeps what was shown and starts with the starting notice |
| Bot.MirrorNoticesExtend | commands.py:362-399 | a mirror keeps what was shown and starts with the starting notice naming the host |
| Bot.Say | commands.py:324 | an edit of the button message changes no map; the notice is shown iff editing works |
| Bot.UploadClick | commands.py:327-353 | an "up:" press changes at most the presser's pending upload, by removing it, leaves at most one file, and does nothing when `get_file` fails |
| Bot.MirrorClickFacts | commands.py:355-405 | once line 362's edit works the pending URL is dropped and the starting notice names the host; if that edit raises, nothing changes |
| Bot.Click | commands.py:314-407 | a button press only appends notices, leaves at most one more file, and does nothing when the answer fails |
| Bot.ClickOnlyRemovesOwn | commands.py:314-407 | a button press changes at most one map, and only by dropping the presser's entry |
| Bot.MirrorClickAbsent | commands.py:355-359 | a "mi:" press with no pending URL changes no map, and reports it when the edit works |
| Bot.MirrorClickRemoves | commands.py:361-405 | once line 362's edit works, the pending URL is dropped whatever the download and upload do; if that edit raises, nothing changes |
| Bot.UploadClickRemoves | commands.py:327-353 | the pending upload is dropped iff every call up to `send_message` succeeded |
| Bot.UploadClickLeftover | commands.py:331-342 | a temporary file is left exactly when the edit or the Telegram download after its creation raises |
| Bot.MirrorMenuClick | commands.py:355-356 | a mirror-menu button continues the pending mirror with the host it names |
| Bot.HandlersKeepValid | commands.py:241-245 | every remembered upload has media, after every handler |
| Bot.LeechNoticesFacts | commands.py:277-304 | a leech forwards iff the download succeeded within 45 MiB and sending works; it refuses as too large only sizes over 45 MiB and within 60 MiB |
| Bot.LeechGate | commands.py:275-304 | the same, for `/leech` with an argument, and no map changes |
| Bot.MirrorNoticesFacts | commands.py:377-390 | a mirror summary appears only after a successful download, upload and send, with that file's name and size (within 60 MiB) and the link |
| Bot.MirrorSummaryFacts | commands.py:375-390 | the same, for a "mi:" press |
| Bot.ShareLinkTarget | commands.py:267-270 | a share link is fetched from the API under the info name or "file" |
| Bot.Controller.constructor | commands.py:25-26 | both maps start empty |
| Bot.Controller.CmdU | commands.py:234-246 | the new state is `UCommand` of the old |
| Bot.Controller.CmdMirror | commands.py:248-255 | the new state is `MirrorCommand` of the old |
| Bot.Controller.ResolveTarget | commands.py:267-273 | computes `Target`, calling the info loop |
| Bot.Controller.Download | commands.py:275 | runs `download_to_tmp` with the 60 MiB limit; a file is left iff it succeeded |
| Bot.Controller.Obtain | commands.py:267-275 | resolves the target, then downloads it |
| Bot.Controller.CmdLeech | commands.py:257-312 | the new state is `LeechCommand` of the old; the `finally` removes the downloaded file |
| Bot.Controller.Leech | commands.py:259-312 | shows the notices `LeechNotices` gives for the download, and the `finally` leaves no file |
| Bot.Controller.Say | commands.py:324 | an edit is shown iff editing works |
| Bot.Controller.ClickUpload | commands.py:327-353 | the new state is `UploadClick` of the old |
| Bot.Controller.ClickMirror | commands.py:361-405 | the new state is `MirrorClick` of the old |
| Bot.Controller.Mirror | commands.py:364-403 | shows the notices `MirrorNotices` gives for the download, and the `finally` leaves no file |
| Bot.Controller.OnButton | commands.py:314-407 | the new state is `Click` of the old |

## Left out

- Telegram calls (`reply_text`, `edit_message_text`, `send_message`,
  `reply_document`, `get_file`, `download_to_drive`): left out as I/O. Each
  one is a success flag in `World`.
- A failure of the replies the commands send after updating a map: left out,
  because the maps are already updated by then.
- Bot.LeechCommand: the reply "Memulai download..." at line 263 is taken to
  succeed. If it raised, the handler would end before the download.
- `requests` I/O: left out. A reply is a status, lower-cased headers and a
  sequence of chunks. Connection timeouts, redirects and `chunk_size` are
  not modelled.
- `worker.upload_file`: its body is not part of this model. It is a link, or a failure.
- `tempfile` and `os`: the temporary file is modelled as flags (`created`,
  `present`) and a count of files left. Its name is not modelled. The size
  on disk is taken to be the bytes written.
- `os.remove` failing: left out, because the source ignores it.
- `time.time()`: the clock readings are carried by the chunks.
- Async scheduling and concurrent updates: left out. Each handler runs to
  completion on the state.
- `human_size` uses floats: modelled as exact division with rounding half
  to even. This matches what `:.0f` prints except where a float division is
  inexact.
- Regular expressions, `lower()`, `strip()` and `os.path.basename`: modelled
  for the patterns and the characters the source uses. Case folding is
  ASCII only. The whitespace set is that of Python's `str.isspace`.
- Strings.ParseInt: the digits `int()` also accepts from other scripts
  (Arabic-Indic, full-width and so on) are rejected.
- `urlparse` raising `ValueError`: left out, as are the URL parts that the
  bot does not read.
- `r.close()`: left out, because it has no effect on the model.
- `log_owner`: left out, because its errors are swallowed and it changes no
  state.
- `cmd_start`: left out, because it only greets the user.
- `safe_edit` on the bot's own messages (lines 277-307 and 375-399) is
  treated as always sending. That message's text is a prompt that never
  equals what is sent. Only the download's status edits go through the
  compared guard.
- `Bot.PickMedia`: a pending message without media is handled as if
  `get_file` had failed. `Bot.HandlersKeepValid` shows that no such message
  is ever stored.
- Exception texts: not modelled. An error notice carries its cause (a
  `Failure`, an upload failure or a send failure) instead of the text.
