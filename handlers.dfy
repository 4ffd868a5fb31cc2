/** The handlers `handle_document`, `process_mp3` and `process_mp4` as
    step-by-step procedures over the request's temp files and the replies
    sent so far. Every external step is an input outcome. */
module Handlers {
  import opened Wrappers
  import opened Intake
  import opened VideoPolicy
  import opened Replies

  /** A temp file's name; fresh names are handed out by a counter. */
  type Path = nat

  /** How many temp files the audio path creates: the downloaded mp3 once
      the file handle is obtained, the ogg once the download succeeded. */
  function Mp3TempCount(env: Mp3Env): (n: nat)
    ensures n <= 2
    ensures n == 0 <==> env.fetch == GetFileFailed
    ensures n == 2 <==> env.fetch == Downloaded
  {
    match env.fetch
    case GetFileFailed => 0
    case DownloadFailed => 1
    case Downloaded => 2
  }

  /** How many temp files the video path creates: the downloaded mp4, and
      the padded file only on the pad path. */
  function Mp4TempCount(env: Mp4Env): (n: nat)
    ensures n <= 2
    ensures n == 0 <==> env.fetch == GetFileFailed
    ensures n == 2 <==>
      (env.fetch == Downloaded && WithinSizeCap(env.size) && env.probe.Some? &&
       !TooLong(env.probe.value.duration) && env.probe.value.height > 0 &&
       !IsSquare(env.probe.value.width, env.probe.value.height))
  {
    if env.fetch == GetFileFailed then 0
    else if Mp4Decide(env).PadFailedSendOriginal? || Mp4Decide(env).NotePadded? ||
            Mp4Decide(env).VideoPadded? then 2
    else 1
  }

  class Handler {
    /** Temp files currently on disk. */
    var disk: set<Path>
    /** Replies sent to the chat, in order. */
    var replies: seq<Reply>
    /** The next unused temp-file name. */
    var nextName: nat

    ghost predicate Valid()
      reads this
    {
      forall p :: p in disk ==> p < nextName
    }

    constructor ()
      ensures Valid() && disk == {} && replies == [] && nextName == 0
    {
      disk, replies, nextName := {}, [], 0;
    }

    /** A fresh named temp file kept after closing (`delete=False`). */
    method CreateTemp() returns (p: Path)
      requires Valid()
      modifies this
      ensures Valid()
      ensures p !in old(disk) && disk == old(disk) + {p}
      ensures replies == old(replies) && nextName == old(nextName) + 1
    {
      p := nextName;
      disk := disk + {p};
      nextName := nextName + 1;
    }

    /** The `finally` clean-up of one path local: removes the file if the
        local was set and the file exists. */
    method Unlink(path: Option<Path>)
      modifies this
      ensures disk == if path.Some? then old(disk) - {path.value} else old(disk)
      ensures replies == old(replies) && nextName == old(nextName)
    {
      if path.Some? && path.value in disk {
        disk := disk - {path.value};
      }
    }

    method Send(r: Reply)
      modifies this
      ensures replies == old(replies) + [r]
      ensures disk == old(disk) && nextName == old(nextName)
    {
      replies := replies + [r];
    }

    /** Fetches the attachment into a temp file, recording the path as soon
        as the file exists, so that the `finally` removes it even when the
        download fails. */
    method Fetch(f: Fetch) returns (ok: bool, tracked: Option<Path>)
      requires Valid()
      modifies this
      ensures Valid()
      ensures ok <==> f == Downloaded
      ensures f == GetFileFailed ==> tracked == None && disk == old(disk) && nextName == old(nextName)
      ensures f != GetFileFailed ==>
        tracked.Some? && tracked.value !in old(disk) &&
        disk == old(disk) + {tracked.value} && nextName == old(nextName) + 1
      ensures replies == old(replies)
    {
      tracked := None;
      if f == GetFileFailed {
        return false, None;
      }
      var p := CreateTemp();
      tracked := Some(p);
      ok := f == Downloaded;
    }

    /** The fetch as bot.py:76-81 and 121-126 write it: the path local is
        assigned only after the download returns, so a failed download
        leaves the temp file on disk with nothing pointing to it. */
    method FetchAsWritten(f: Fetch) returns (ok: bool, tracked: Option<Path>)
      requires Valid()
      modifies this
      ensures Valid()
      ensures ok <==> f == Downloaded
      ensures tracked.Some? <==> f == Downloaded
      ensures f == GetFileFailed ==> disk == old(disk)
      ensures nextName == old(nextName) + (if f == GetFileFailed then 0 else 1)
      ensures f != GetFileFailed ==>
        exists p :: p !in old(disk) && disk == old(disk) + {p} &&
                    (tracked.Some? ==> tracked.value == p)
      ensures replies == old(replies)
    {
      tracked := None;
      if f == GetFileFailed {
        return false, None;
      }
      var p := CreateTemp();
      if f == DownloadFailed {
        return false, None;
      }
      tracked := Some(p);
      ok := true;
    }

    /** `process_mp3`: download, re-encode to a voice message, send it, and
        remove both temp files whatever happened. */
    method ProcessMp3(env: Mp3Env)
      requires Valid()
      modifies this
      ensures Valid()
      ensures disk == old(disk)
      ensures replies == old(replies) + Mp3Replies(env)
      ensures nextName == old(nextName) + Mp3TempCount(env)
    {
      var tempOgg: Option<Path> := None;
      var ok, tempMp3 := Fetch(env.fetch);
      if !ok {
        Send(Text(Mp3Failed));
      } else {
        var ogg := CreateTemp();
        tempOgg := Some(ogg);
        if env.encodeOk {
          Send(Voice);
        } else {
          Send(Text(Mp3Failed));
        }
      }
      // finally
      Unlink(tempMp3);
      Unlink(tempOgg);
    }

    /** The non-square branch of `process_mp4`: announce, pad into a fresh
        temp file, send the result by its size, and remove the padded file. */
    method PadAndSend(p: Probe, pad: PadResult)
      requires Valid() && p.height > 0
      modifies this
      ensures Valid()
      ensures disk == old(disk) && nextName == old(nextName) + 1
      ensures replies == old(replies) + [Text(NotSquare)] +
        match pad
        case PadError => [Text(PadFailed), Video(Original)]
        case PadDone(s) =>
          if WithinSizeCap(s) then [VideoNote(Padded(Pad(p.width, p.height)))]
          else [Text(PaddedTooLarge), Video(Padded(Pad(p.width, p.height)))]
    {
      Send(Text(NotSquare));
      var padded := CreateTemp();
      var layout := Pad(p.width, p.height);
      match pad {
        case PadError =>
          Send(Text(PadFailed));
          Send(Video(Original));
        case PadDone(s) =>
          if WithinSizeCap(s) {
            Send(VideoNote(Padded(layout)));
          } else {
            Send(Text(PaddedTooLarge));
            Send(Video(Padded(layout)));
          }
      }
      // finally
      Unlink(Some(padded));
    }

    /** `process_mp4`: the size check, the probe with its duration and
        aspect checks, the pad fallback, and the final clean-up. Its branches
        follow `Mp4Decide` step by step; the postcondition ties the two. */
    method ProcessMp4(env: Mp4Env)
      requires Valid()
      modifies this
      ensures Valid()
      ensures disk == old(disk)
      ensures replies == old(replies) + Mp4Replies(env)
      ensures nextName == old(nextName) + Mp4TempCount(env)
    {
      var ok, tempMp4 := Fetch(env.fetch);
      if !ok {
        Send(Text(Mp4Failed));
      } else if !WithinSizeCap(env.size) {
        Send(Text(VideoTooLarge));
      } else if env.probe.None? {
        Send(Text(AnalyzeFailed));
        Send(Video(Original));
      } else {
        var p := env.probe.value;
        if TooLong(p.duration) {
          Send(Text(VideoTooLong));
        } else if p.height == 0 {
          // width / height raises inside the probing block
          Send(Text(AnalyzeFailed));
          Send(Video(Original));
        } else if IsSquare(p.width, p.height) {
          Send(VideoNote(Original));
        } else {
          PadAndSend(p, env.pad);
        }
      }
      // finally
      Unlink(tempMp4);
    }

    /** `handle_document`: pick the attachment, classify it, and dispatch
        to one of the two paths or reply with a prompt or a rejection. */
    method HandleDocument(msg: Option<Message>, mp3: Mp3Env, mp4: Mp4Env)
      requires Valid()
      modifies this
      ensures Valid()
      ensures disk == old(disk)
      ensures replies == old(replies) + DocumentReplies(msg, mp3, mp4)
      ensures !DispatchOf(msg).Dispatched? || DispatchOf(msg).route == Unsupported ==>
        nextName == old(nextName)
      ensures DispatchOf(msg) == Dispatched(ToAudio) ==> nextName == old(nextName) + Mp3TempCount(mp3)
      ensures DispatchOf(msg) == Dispatched(ToVideo) ==> nextName == old(nextName) + Mp4TempCount(mp4)
    {
      if msg.None? {
        return;
      }
      var attachment := FirstAttachment(msg.value);
      if attachment.None? {
        Send(Text(AskForMedia));
        return;
      }
      match Classify(attachment.value) {
        case ToAudio => ProcessMp3(mp3);
        case ToVideo => ProcessMp4(mp4);
        case Unsupported => Send(Text(UnsupportedType));
      }
    }
  }

  /** A failed download in the code as written leaves a temp file behind
      after the clean-up has run. */
  method DownloadFailureLeaks() returns (leaked: set<Path>)
    ensures leaked != {}
  {
    var h := new Handler();
    var ok, tracked := h.FetchAsWritten(DownloadFailed);
    h.Send(Text(Mp4Failed));
    h.Unlink(tracked);
    leaked := h.disk;
  }

  /** With the corrected fetch, the same failed download leaves nothing. */
  method DownloadFailureCleansUp() returns (leaked: set<Path>)
    ensures leaked == {}
  {
    var h := new Handler();
    var ok, tracked := h.Fetch(DownloadFailed);
    h.Send(Text(Mp4Failed));
    h.Unlink(tracked);
    leaked := h.disk;
  }
}
