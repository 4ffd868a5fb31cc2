/** What the handlers send back, as pure functions of the outcomes of the
    steps the bot cannot control (download, probe, encode). */
module Replies {
  import opened Wrappers
  import opened Intake
  import opened VideoPolicy

  /** The advisory and error texts the bot can send. */
  datatype Notice =
    | AskForMedia       // no attachment in the message
    | UnsupportedType   // attachment is neither mp3 nor mp4
    | Mp3Failed         // the audio path failed
    | VideoTooLarge     // downloaded file is over the byte cap
    | VideoTooLong      // probed duration is over the limit
    | NotSquare         // announces the attempt to pad
    | PaddedTooLarge    // padded file is over the byte cap
    | PadFailed         // padding raised; the original follows
    | AnalyzeFailed     // probing raised; the original follows
    | Mp4Failed         // the video path failed before probing

  /** Which video file a media reply carries. */
  datatype VideoFile = Original | Padded(layout: PadLayout)

  datatype Reply =
    | Text(notice: Notice)
    | Voice                    // the re-encoded mono 48 kHz opus file
    | VideoNote(file: VideoFile)
    | Video(file: VideoFile)

  predicate IsMedia(r: Reply) {
    !r.Text?
  }

  /** How fetching the attachment ended: the platform refused the file
      handle (no local file yet), the download into a fresh temp file
      failed, or the file is on disk. */
  datatype Fetch = GetFileFailed | DownloadFailed | Downloaded

  /** What probing the downloaded video reported. */
  datatype Probe = Probe(duration: real, width: nat, height: nat)

  /** How the pad-and-re-encode step ended, with the padded file's size. */
  datatype PadResult = PadError | PadDone(size: nat)

  datatype Mp3Env = Mp3Env(fetch: Fetch, encodeOk: bool)

  /** `size` is the downloaded file's size; `probe` is None when probing
      raised. `probe` is read only after the size check, `pad` only for a
      non-square video. */
  datatype Mp4Env = Mp4Env(fetch: Fetch, size: nat, probe: Option<Probe>, pad: PadResult)

  function Mp3Replies(env: Mp3Env): (r: seq<Reply>)
    ensures |r| == 1 && (r[0] == Voice || r[0] == Text(Mp3Failed))
  {
    if env.fetch == Downloaded && env.encodeOk then [Voice] else [Text(Mp3Failed)]
  }

  /** The terminal outcome of the video path. */
  datatype Mp4Outcome =
    | FetchError
    | RejectTooLarge
    | RejectTooLong
    | ProbeFailedSendOriginal
    | NoteOriginal
    | PadFailedSendOriginal
    | NotePadded(layout: PadLayout)
    | VideoPadded(layout: PadLayout)

  /** The decision chain of `process_mp4`: size, then duration, then the
      aspect ratio (a zero height raises there), then the padded size. */
  function Mp4Decide(env: Mp4Env): (o: Mp4Outcome)
    ensures o == FetchError <==> env.fetch != Downloaded
    ensures o == RejectTooLarge <==> env.fetch == Downloaded && !WithinSizeCap(env.size)
    ensures o.NotePadded? || o.VideoPadded? ==>
      env.probe.Some? && env.probe.value.height > 0 &&
      o.layout == Pad(env.probe.value.width, env.probe.value.height)
  {
    if env.fetch != Downloaded then FetchError
    else if !WithinSizeCap(env.size) then RejectTooLarge
    else match env.probe
      case None => ProbeFailedSendOriginal
      case Some(p) =>
        if TooLong(p.duration) then RejectTooLong
        else if p.height == 0 then ProbeFailedSendOriginal
        else if IsSquare(p.width, p.height) then NoteOriginal
        else match env.pad
          case PadError => PadFailedSendOriginal
          case PadDone(s) =>
            if WithinSizeCap(s) then NotePadded(Pad(p.width, p.height))
            else VideoPadded(Pad(p.width, p.height))
  }

  function Mp4Replies(env: Mp4Env): (r: seq<Reply>)
    ensures |r| >= 1
    ensures forall k :: 0 <= k < |r| - 1 ==> r[k].Text?
  {
    match Mp4Decide(env)
    case FetchError => [Text(Mp4Failed)]
    case RejectTooLarge => [Text(VideoTooLarge)]
    case RejectTooLong => [Text(VideoTooLong)]
    case ProbeFailedSendOriginal => [Text(AnalyzeFailed), Video(Original)]
    case NoteOriginal => [VideoNote(Original)]
    case PadFailedSendOriginal => [Text(NotSquare), Text(PadFailed), Video(Original)]
    case NotePadded(l) => [Text(NotSquare), VideoNote(Padded(l))]
    case VideoPadded(l) => [Text(NotSquare), Text(PaddedTooLarge), Video(Padded(l))]
  }

  /** Everything `handle_document` sends for one update. */
  function DocumentReplies(msg: Option<Message>, mp3: Mp3Env, mp4: Mp4Env): (r: seq<Reply>)
    ensures r == [] <==> msg.None?
    ensures DispatchOf(msg) == Prompted || DispatchOf(msg) == Dispatched(Unsupported) ==>
      |r| == 1 && r[0].Text?
  {
    match DispatchOf(msg)
    case Ignored => []
    case Prompted => [Text(AskForMedia)]
    case Dispatched(ToAudio) => Mp3Replies(mp3)
    case Dispatched(ToVideo) => Mp4Replies(mp4)
    case Dispatched(Unsupported) => [Text(UnsupportedType)]
  }

  function MediaCount(rs: seq<Reply>): nat {
    if rs == [] then 0 else (if IsMedia(rs[0]) then 1 else 0) + MediaCount(rs[1..])
  }

  // ---------------------------------------------------------------------
  // Intake

  /** Without an attachment the user gets the prompt and nothing else. */
  lemma NoAttachmentOnlyPrompts(m: Message, mp3: Mp3Env, mp4: Mp4Env)
    requires m.document.None? && m.audio.None? && m.video.None? && m.voice.None?
    ensures DocumentReplies(Some(m), mp3, mp4) == [Text(AskForMedia)]
  {}

  /** An unsupported attachment gets the rejection text, whatever the
      conversion steps would have done. */
  lemma UnsupportedOnlyRejects(m: Message, mp3: Mp3Env, mp4: Mp4Env)
    requires FirstAttachment(m).Some? && !IsMp3(FirstAttachment(m).value) && !IsMp4(FirstAttachment(m).value)
    ensures DocumentReplies(Some(m), mp3, mp4) == [Text(UnsupportedType)]
  {}

  // ---------------------------------------------------------------------
  // Audio path

  /** The audio path sends exactly one reply: the voice message when the
      download and the encode both succeed, the error text otherwise. */
  lemma Mp3SendsOneReply(env: Mp3Env)
    ensures |Mp3Replies(env)| == 1
    ensures Mp3Replies(env)[0] == Voice <==> env.fetch == Downloaded && env.encodeOk
  {}

  // ---------------------------------------------------------------------
  // Video path

  /** An oversized download is rejected before probing: the result does not
      depend on the probe or the pad outcome at all. */
  lemma SizeCheckFirst(env: Mp4Env, probe: Option<Probe>, pad: PadResult)
    requires env.fetch == Downloaded && env.size > MaxNoteBytes
    ensures Mp4Decide(env) == RejectTooLarge
    ensures Mp4Replies(env.(probe := probe, pad := pad)) == [Text(VideoTooLarge)]
  {}

  /** A download of exactly 20 MiB passes the size check. */
  lemma SizeCapInclusive(env: Mp4Env)
    requires env.fetch == Downloaded && env.size == 20 * 1024 * 1024
    ensures Mp4Decide(env) != RejectTooLarge
  {}

  /** After the size check, a probed video is refused as too long exactly
      when its duration exceeds 60 s; 60 s itself is accepted. */
  lemma DurationLimit(env: Mp4Env)
    requires env.fetch == Downloaded && WithinSizeCap(env.size) && env.probe.Some?
    ensures Mp4Decide(env) == RejectTooLong <==> env.probe.value.duration > 60.0
  {}

  /** A zero height is a probe failure only once the duration passed: a
      long video with zero height is still refused as too long. */
  lemma ZeroHeightAfterDuration(env: Mp4Env)
    requires env.fetch == Downloaded && WithinSizeCap(env.size)
    requires env.probe.Some? && env.probe.value.height == 0
    ensures Mp4Decide(env) == (if env.probe.value.duration > 60.0 then RejectTooLong
                               else ProbeFailedSendOriginal)
  {}

  /** The original goes out unmodified as a video note iff it passed the
      size and duration checks and is near-square. */
  lemma SquareSentUnmodified(env: Mp4Env)
    ensures Mp4Decide(env) == NoteOriginal <==>
      env.fetch == Downloaded && WithinSizeCap(env.size) && env.probe.Some? &&
      !TooLong(env.probe.value.duration) && env.probe.value.height > 0 &&
      IsSquare(env.probe.value.width, env.probe.value.height)
  {}

  /** For a video that passed every check but is not square, the padded
      file is a video note iff it is within the cap, a regular video
      otherwise, and a pad failure sends the original as a regular video. */
  lemma NonSquareOutcomes(env: Mp4Env)
    requires env.fetch == Downloaded && WithinSizeCap(env.size) && env.probe.Some?
    requires !TooLong(env.probe.value.duration) && env.probe.value.height > 0
    requires !IsSquare(env.probe.value.width, env.probe.value.height)
    ensures env.pad.PadError? ==> Mp4Decide(env) == PadFailedSendOriginal
    ensures env.pad.PadDone? ==>
      (Mp4Decide(env).NotePadded? <==> env.pad.size <= MaxNoteBytes) &&
      (Mp4Decide(env).VideoPadded? <==> env.pad.size > MaxNoteBytes)
  {}

  /** A probe failure, including the division by a zero height, sends the
      original as a regular video after the advisory. */
  lemma ProbeFailureSendsOriginal(env: Mp4Env)
    requires env.fetch == Downloaded && WithinSizeCap(env.size)
    requires env.probe.None? || (!TooLong(env.probe.value.duration) && env.probe.value.height == 0)
    ensures Mp4Replies(env) == [Text(AnalyzeFailed), Video(Original)]
  {}

  /** Every video note the handler sends meets the platform's limits: at
      most 20 MiB and 60 s, and square: the original within the ratio
      tolerance, or the padded canvas of side max(w, h) holding the whole
      clip. */
  lemma {:induction false} VideoNotesMeetLimits(env: Mp4Env, k: nat)
    requires k < |Mp4Replies(env)| && Mp4Replies(env)[k].VideoNote?
    ensures Mp4Replies(env)[k].file == Original ==> env.size <= MaxNoteBytes
    ensures Mp4Replies(env)[k].file.Padded? ==> env.pad.PadDone? && env.pad.size <= MaxNoteBytes
    ensures env.probe.Some? && !TooLong(env.probe.value.duration) && env.probe.value.height > 0
    ensures Mp4Replies(env)[k].file == Original ==>
      IsSquare(env.probe.value.width, env.probe.value.height)
    ensures Mp4Replies(env)[k].file.Padded? ==>
      var l := Mp4Replies(env)[k].file.layout;
      && l.canvas.width == l.canvas.height == Max(env.probe.value.width, env.probe.value.height)
      && l.clip == Size(env.probe.value.width, env.probe.value.height)
  {
    var p := env.probe;
    if Mp4Decide(env).NotePadded? {
      PadIsTight(p.value.width, p.value.height);
    }
  }

  /** Each video request ends in at most one media reply; there is one
      exactly when the download succeeded and neither limit refused it. */
  lemma Mp4SendsAtMostOneMedia(env: Mp4Env)
    ensures MediaCount(Mp4Replies(env)) ==
      if Mp4Decide(env) in {FetchError, RejectTooLarge, RejectTooLong} then 0 else 1
  {
    var rs := Mp4Replies(env);
    if |rs| >= 2 {
      assert rs[1..] == [rs[1]] + rs[2..];
      MediaCountCons(rs[1], rs[2..]);
      MediaCountSingle(rs[|rs| - 1]);
      if |rs| == 3 {
        assert rs[2..] == [rs[2]];
      }
    } else {
      MediaCountSingle(rs[0]);
    }
  }

  lemma MediaCountCons(r: Reply, rs: seq<Reply>)
    ensures MediaCount([r] + rs) == (if IsMedia(r) then 1 else 0) + MediaCount(rs)
  {
    assert ([r] + rs)[1..] == rs;
  }

  lemma MediaCountSingle(r: Reply)
    ensures MediaCount([r]) == if IsMedia(r) then 1 else 0
  {
    MediaCountCons(r, []);
  }
}
