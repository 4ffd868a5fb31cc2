# Media relay bot: routing and video-note decisions

This project models the decision logic of a Telegram bot that turns `.mp3`
attachments into voice messages and `.mp4` attachments into round video
notes (`bot.py`). It covers three parts:

- **Attachment intake** (`handle_document`). The bot uses the first present
  field among document, audio, video and voice. It then tries two rules in order.
  The audio rule matches a lower-cased file name ending in `.mp3` or a mime
  type containing `audio/mpeg`. The video rule matches a name ending in `.mp4`
  or a mime type containing `video/mp4`. Anything matching neither is
  rejected. So a file named `clip.mp4` with mime `audio/mpeg` goes to audio.
- **The video-note decision chain** (`process_mp4`). The checks run in this
  order: a 20 MiB byte cap (inclusive), a 60 s duration limit (inclusive), and
  a near-square test 0.9 <= w/h <= 1.1 (inclusive at both ends). A square
  video goes out unchanged. A non-square video is padded onto a square
  canvas of side max(w, h); the padded file goes out as a video note when it
  is within the cap, and as a regular video otherwise. If padding fails, the
  original goes out as a regular video. If probing fails, including a zero
  height (division by zero), the original also goes out as a regular video.
- **Temp-file discipline** (both `process_*` handlers). The handlers are
  methods of a `Handler` object. Its state is the set of temp files on disk,
  the replies sent so far, and a counter that hands out fresh file names. Each
  handler is proved, with the corrected fetch (see ## Findings), to leave the
  disk exactly as it found it. Each is also proved to send exactly the replies
  that a pure function of the step outcomes gives.

The external steps are inputs to the model, not computations. These are:
getting the file handle, the download, probing, the opus encode, and the
pad-and-re-encode with the padded file's size.

Modules: `Wrappers` (Option), `Text` (lower-casing, suffix and substring
tests), `Intake` (attachment choice and routing), `VideoPolicy` (limits,
aspect test, pad geometry), `Replies` (the replies each handler sends, as
functions of the step outcomes, and the properties of the decision chain),
`Handlers` (the `Handler` class with the handlers as methods).

`bot.py` makes a single pad attempt onto a canvas of side max(w, h) and has
no recompression ladder. The resize in `bot.py:176-179` never changes the clip,
because both targets equal the original sides (`VideoPolicy.ResizeKeepsSize`).
The trim at `bot.py:165-166` cannot be reached, because any video over 60 s
has already been refused at `bot.py:144-146`.

## Model

| member | source | states |
|---|---|---|
| `Text.Lower` | bot.py:55 | the result has the input's length and each character is the lower-cased input character |
| `Text.LowerIdempotent` | bot.py:55 | lower-casing an already lower-cased name changes nothing |
| `Text.Contains` | bot.py:59-61 | the substring test is true iff the pattern occurs at some index of the string |
| `Intake.FirstPresent` | bot.py:45-46 | the chosen attachment is the first present field; there is none iff every field is absent |
| `Intake.FirstAttachment` | bot.py:45-46 | the fields are tried in the order document, audio, video, voice: a present one hides every later one, and there is none iff all four are absent |
| `Intake.NameOf` | bot.py:52-55 | a missing file name reads as the empty string; otherwise the result has the name's length and each character is the lower-cased character of the name at the same index, so no upper-case letter remains |
| `Intake.MimeOf` | bot.py:53 | a missing mime type reads as the empty string; otherwise the mime type is used as given, not lower-cased |
| `Text.EndsWith` | bot.py:59-61 | `s` ends with `suffix` iff `s` is some string followed by `suffix` |
| `Intake.Classify` | bot.py:58-65 | audio iff the mp3 rule holds; video iff the mp3 rule fails and the mp4 rule holds; rejected iff neither holds |
| `Intake.DispatchOf` | bot.py:41-49 | no message means nothing is done; no attachment means the prompt; otherwise the route of the first attachment |
| `Intake.Mp3RuleWins` | bot.py:59-62 | an attachment matching both rules goes to the audio path |
| `Intake.DocumentFieldFirst` | bot.py:45 | a present document field decides the route whatever the other fields hold |
| `Intake.ExtensionIgnoresCase` | bot.py:55-61 | a file name and its lower-cased form are routed alike |
| `Intake.UpperCaseMp3IsAudio` | bot.py:55-60 | `SONG.MP3` is audio, and an `.mp4` name with mime `audio/mpeg` is audio |
| `Intake.MimeIsCaseSensitive` | bot.py:53-65 | mime `AUDIO/MPEG` without a file name is rejected, since the mime is not lower-cased |
| `Intake.IsMp3` | bot.py:59 | the audio rule holds iff the lower-cased name ends in `.mp3` or `audio/mpeg` occurs at some index of the mime type |
| `Intake.IsMp4` | bot.py:61 | the video rule holds iff the lower-cased name ends in `.mp4` or `video/mp4` occurs at some index of the mime type |
| `VideoPolicy.WithinSizeCap` | bot.py:130 | a size passes iff it is at most 20·1024·1024 bytes; the same test decides the padded file at bot.py:190 |
| `VideoPolicy.TooLong` | bot.py:144 | a duration is refused iff it is strictly more than 60 s |
| `VideoPolicy.AspectRatio` | bot.py:149 | for a non-zero height the ratio is non-negative and times the height gives the width |
| `VideoPolicy.IsSquare` | bot.py:149-150 | equal sides are square, and a zero width is never square |
| `VideoPolicy.ResizedClip` | bot.py:176-179 | the resized clip's width and height never exceed max(w, h) |
| `Replies.Mp3Replies` | bot.py:75-99 | the audio path sends exactly one reply, either the voice message or the error text |
| `Replies.Mp4Decide` | bot.py:128-220 | the fetch error happens iff the fetch failed; "too large" happens iff the download succeeded and is over the cap; a padded outcome carries the pad layout of the probed width and height |
| `Replies.Mp4Replies` | bot.py:128-226 | the video path sends at least one reply, and every reply before the last is an advisory text |
| `Replies.DocumentReplies` | bot.py:39-65 | nothing is sent iff there is no message; with no attachment, or an unsupported one, exactly one text and no media is sent |
| `VideoPolicy.SquareByCrossMultiplication` | bot.py:149-150 | for h > 0 the ratio test is equivalent to 9h <= 10w <= 11h |
| `VideoPolicy.SquareToleranceAsymmetric` | bot.py:149-150 | both ends of the tolerance are inclusive (9x10 and 11x10 are square, 8x10 is not), and 10x9 is not square although 9x10 is |
| `VideoPolicy.Pad` | bot.py:168-181 | the canvas is square with side max(w, h) and the resized clip fits inside it |
| `VideoPolicy.ResizeKeepsSize` | bot.py:176-179 | the aspect-preserving resize to the target side returns the original width and height |
| `VideoPolicy.PadIsTight` | bot.py:169-181 | the canvas side equals the longer side of the composited clip, which is the original clip |
| `Replies.NoAttachmentOnlyPrompts` | bot.py:45-49 | a message without any attachment field gets exactly the prompt |
| `Replies.UnsupportedOnlyRejects` | bot.py:63-65 | an attachment matching neither rule gets exactly the rejection text, whatever the conversion steps would do |
| `Replies.Mp3SendsOneReply` | bot.py:75-99 | the audio path sends one reply: the voice message iff download and encode succeed, the error text otherwise |
| `Replies.SizeCheckFirst` | bot.py:128-132 | a download over 20 MiB is refused as too large, and the result does not depend on the probe or pad outcome |
| `Replies.SizeCapInclusive` | bot.py:130 | a download of exactly 20 MiB passes the size check |
| `Replies.DurationLimit` | bot.py:144-146 | after the size check, a probed video is refused as too long iff its duration exceeds 60 s |
| `Replies.ZeroHeightAfterDuration` | bot.py:144-150 | with height 0 the result is "too long" if the duration exceeds 60 s, and a probe failure otherwise |
| `Replies.SquareSentUnmodified` | bot.py:149-213 | the original goes out as a video note iff it passed size and duration, has a non-zero height and is near-square |
| `Replies.NonSquareOutcomes` | bot.py:189-203 | for a non-square video the padded file is a note iff it is within 20 MiB, a regular video iff it is over, and a pad failure sends the original |
| `Replies.ProbeFailureSendsOriginal` | bot.py:215-220 | a failed probe, or a zero height within the duration limit, sends the advisory and then the original as a regular video |
| `Replies.VideoNotesMeetLimits` | bot.py:128-197 | every video note sent is at most 20 MiB and at most 60 s, and is either the near-square original or a square canvas of side max(w, h) holding the whole clip |
| `Replies.Mp4SendsAtMostOneMedia` | bot.py:128-226 | the video path sends at most one media reply, and exactly one unless the download failed or a limit refused the file |
| `Handlers.Handler.CreateTemp` | bot.py:158-159 | a temp file with a name not on disk is added and nothing else changes |
| `Handlers.Handler.Send` | bot.py:93 | appends one reply to those sent, and leaves the disk and the name counter unchanged; every `reply_*` call goes through it |
| `Handlers.Mp3TempCount` | bot.py:79-85 | the audio path creates at most two temp files: none iff the file handle was refused, two iff the download succeeded |
| `Handlers.Mp4TempCount` | bot.py:124-159 | the video path creates at most two temp files: none iff the file handle was refused, and two exactly for a fetched, in-limit, non-square video with a non-zero height, that is on every run that reaches the pad step |
| `Handlers.Handler.Unlink` | bot.py:227-232 | removes the recorded path from disk if one was recorded; nothing else changes |
| `Handlers.Handler.Fetch` | bot.py:121-126 | a temp file exists iff the file handle was obtained, and its path is always recorded; success iff the download succeeded |
| `Handlers.Handler.FetchAsWritten` | bot.py:121-126 | as written: a temp file exists iff the file handle was obtained, but its path is recorded only when the download succeeded |
| `Handlers.Handler.ProcessMp3` | bot.py:67-111 | with the corrected fetch (see ## Findings): sends exactly the audio path's replies, leaves the disk as it was, and creates 0, 1 or 2 temp files by how far the fetch got |
| `Handlers.Handler.PadAndSend` | bot.py:152-209 | announces the pad, sends the padded file or the fallback, and removes the one temp file it created |
| `Handlers.Handler.ProcessMp4` | bot.py:113-232 | with the corrected fetch (see ## Findings): sends exactly the replies of the decision chain, leaves the disk as it was, and creates the padded temp file only on the pad path |
| `Handlers.Handler.HandleDocument` | bot.py:39-65 | with the corrected fetch (see ## Findings): sends exactly the replies of the dispatch, leaves the disk as it was, creates no temp file when nothing is dispatched or the type is unsupported, and as many as the audio or video path creates otherwise |
| `Handlers.DownloadFailureLeaks` | bot.py:79-81 | with the fetch as written, a failed download followed by the clean-up leaves a file on disk |
| `Handlers.DownloadFailureCleansUp` | bot.py:124-126 | with the corrected fetch, the same run leaves the disk empty |

## Findings

| source | as written | input that shows it | evidently intended | confidence | as-written member | corrected member |
|---|---|---|---|---|---|---|
| bot.py:124-126 | the temp file is created by `NamedTemporaryFile(delete=False)`, but `temp_mp4_path` is assigned only after `download_to_drive` returns; the same pattern appears for the mp3 at bot.py:79-81 | `get_file` succeeds and `download_to_drive` raises (a network error): the clean-up sees no path and the empty temp file stays on disk | the clean-up removes every temp file the request created | high; not executed | `Handlers.Handler.FetchAsWritten` (shown by `Handlers.DownloadFailureLeaks`) | `Handlers.Handler.Fetch` (used by both handlers; shown by `Handlers.DownloadFailureCleansUp`) |

## Left out

- The Telegram API calls (`get_file`, `download_to_drive`, `reply_*`) are inputs or recorded replies. Every send is assumed to succeed, so the fallbacks that a failing send would trigger (bot.py:199-203, 215-220 and 224-226 entered from a send) are not modelled.
- moviepy probing and encoding are abstracted to success or failure, plus the probed duration and size and the padded file's byte size. The `VideoFileClip` re-opened inside the pad step is assumed to report the same width and height as the probe.
- Float arithmetic: the duration is a real number, and the aspect ratio is the exact real quotient. For dimensions near 2^50, float rounding of w/h could differ at the bounds.
- `Text.Lower`: only ASCII letters are lower-cased; Python's full Unicode case mapping is not modelled.
- `VideoPolicy.ResizedClip`: the library's rounding of the resized side is modelled as the floor. With the targets the source uses, the result is exact either way.
- The centring offset of the composited clip is computed inside moviepy and is not modelled.
- Creating a temp file and unlinking one are assumed to succeed. The logged "failed to remove" branches (bot.py:102-111, 205-209, 228-232) are not modelled.
- The trim at bot.py:165-166 is unreachable and is not modelled.
- The `update.message` checks inside `process_mp3` and `process_mp4` (bot.py:69-70, 115-116) are unreachable after `handle_document`'s own check.
- The `/start` greeting, logging set-up, `main`, the launcher script and the import smoke test are not part of this model.
- The `logger` calls inside the handlers (bot.py:42, 47, 56, 64, 72, 95, 98, 142, 153, 193, 200, 216, 222, 225) write only to the log and are not modelled.
- `MimeOf` folds the second fallback `getattr(document, 'mimetype', '')` at bot.py:53 into its one field: the platform's attachment objects have no `mimetype` attribute, so that fallback always yields the empty string.
- Concurrency between requests is not modelled: each request runs on its own `Handler`.
