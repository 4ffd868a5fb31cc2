/** Attachment intake of `handle_document`: which attachment of an incoming
    message is used, and whether it goes to the audio path, the video path or
    is rejected. */
module Intake {
  import opened Wrappers
  import opened Text

  /** One attachment as the chat platform describes it; either field may be
      missing. */
  datatype Attachment = Attachment(fileName: Option<string>, mimeType: Option<string>)

  /** The four message fields that may carry an attachment. */
  datatype Message = Message(
    document: Option<Attachment>,
    audio: Option<Attachment>,
    video: Option<Attachment>,
    voice: Option<Attachment>)

  /** The attachment fields in the order the handler tries them. */
  function Fields(m: Message): seq<Option<Attachment>> {
    [m.document, m.audio, m.video, m.voice]
  }

  /** The first present entry of `fs`, like Python's chained `or`. */
  function FirstPresent(fs: seq<Option<Attachment>>): (a: Option<Attachment>)
    ensures a.None? <==> forall k :: 0 <= k < |fs| ==> fs[k].None?
    ensures a.Some? ==> exists k :: 0 <= k < |fs| && fs[k] == a &&
                         forall j :: 0 <= j < k ==> fs[j].None?
  {
    if fs == [] then None
    else if fs[0].Some? then fs[0]
    else
      var a := FirstPresent(fs[1..]);
      assert forall k :: 0 < k < |fs| ==> fs[k] == fs[1..][k - 1];
      a
  }

  /** The first present field among document, audio, video and voice. */
  function FirstAttachment(m: Message): (a: Option<Attachment>)
    ensures a.None? <==> m.document.None? && m.audio.None? && m.video.None? && m.voice.None?
    ensures m.document.Some? ==> a == m.document
    ensures m.document.None? && m.audio.Some? ==> a == m.audio
    ensures m.document.None? && m.audio.None? && m.video.Some? ==> a == m.video
    ensures m.document.None? && m.audio.None? && m.video.None? ==> a == m.voice
  {
    var fs := Fields(m);
    assert |fs| == 4 && fs[0] == m.document && fs[1] == m.audio && fs[2] == m.video && fs[3] == m.voice;
    FirstPresent(Fields(m))
  }

  /** The lower-cased file name; a missing name reads as the empty string. */
  function NameOf(a: Attachment): (r: string)
    ensures a.fileName.None? ==> r == ""
    ensures a.fileName.Some? ==> |r| == |a.fileName.value|
    ensures a.fileName.Some? ==> forall i :: 0 <= i < |r| ==> r[i] == LowerChar(a.fileName.value[i])
    ensures forall i :: 0 <= i < |r| ==> !IsUpper(r[i])
  {
    Lower(a.fileName.GetOr(""))
  }

  /** The mime type as given (not lower-cased); missing reads as empty. */
  function MimeOf(a: Attachment): (r: string)
    ensures a.mimeType.None? ==> r == ""
    ensures a.mimeType.Some? ==> r == a.mimeType.value
  {
    a.mimeType.GetOr("")
  }

  /** The audio rule: an `.mp3` name or a mime type mentioning `audio/mpeg`. */
  predicate IsMp3(a: Attachment)
    ensures IsMp3(a) <==> EndsWith(NameOf(a), ".mp3") ||
                          exists i: nat :: OccursAt(MimeOf(a), "audio/mpeg", i)
  {
    EndsWith(NameOf(a), ".mp3") || Contains(MimeOf(a), "audio/mpeg")
  }

  /** The video rule: an `.mp4` name or a mime type mentioning `video/mp4`. */
  predicate IsMp4(a: Attachment)
    ensures IsMp4(a) <==> EndsWith(NameOf(a), ".mp4") ||
                          exists i: nat :: OccursAt(MimeOf(a), "video/mp4", i)
  {
    EndsWith(NameOf(a), ".mp4") || Contains(MimeOf(a), "video/mp4")
  }

  datatype Route = ToAudio | ToVideo | Unsupported

  /** The audio rule is tried first, then the video rule; anything else is
      unsupported. */
  function Classify(a: Attachment): (r: Route)
    ensures r == ToAudio <==> IsMp3(a)
    ensures r == ToVideo <==> !IsMp3(a) && IsMp4(a)
    ensures r == Unsupported <==> !IsMp3(a) && !IsMp4(a)
  {
    if IsMp3(a) then ToAudio
    else if IsMp4(a) then ToVideo
    else Unsupported
  }

  /** What `handle_document` does with an update: nothing without a message,
      a prompt without an attachment, otherwise the route of the attachment. */
  datatype Dispatch = Ignored | Prompted | Dispatched(route: Route)

  function DispatchOf(msg: Option<Message>): (d: Dispatch)
    ensures d == Ignored <==> msg.None?
    ensures d == Prompted <==> msg.Some? && FirstAttachment(msg.value).None?
    ensures d.Dispatched? ==> d.route == Classify(FirstAttachment(msg.value).value)
  {
    match msg
    case None => Ignored
    case Some(m) =>
      match FirstAttachment(m)
      case None => Prompted
      case Some(a) => Dispatched(Classify(a))
  }

  /** An attachment matching both rules goes to the audio path. */
  lemma Mp3RuleWins(a: Attachment)
    requires IsMp3(a) && IsMp4(a)
    ensures Classify(a) == ToAudio
  {}

  /** The document field hides every other field: whatever audio, video or
      voice carry, the document alone decides the route. */
  lemma DocumentFieldFirst(m: Message, a: Attachment)
    requires m.document == Some(a)
    ensures DispatchOf(Some(m)) == Dispatched(Classify(a))
  {}

  /** The extension test ignores letter case: a name and its lower-cased form
      are routed alike. */
  lemma ExtensionIgnoresCase(name: string, mime: Option<string>)
    ensures Classify(Attachment(Some(name), mime)) == Classify(Attachment(Some(Lower(name)), mime))
  {
    LowerIdempotent(name);
  }

  /** Concrete consequences: an upper-case `.MP3` name is audio; an `.mp4`
      name declared as `audio/mpeg` is audio too. */
  lemma UpperCaseMp3IsAudio()
    ensures Classify(Attachment(Some("SONG.MP3"), None)) == ToAudio
    ensures Classify(Attachment(Some("clip.mp4"), Some("audio/mpeg"))) == ToAudio
  {
    assert Lower("SONG.MP3") == "song.mp3";
    assert "song.mp3"[4..] == ".mp3";
  }

  /** The mime test is case-sensitive: an upper-case `AUDIO/MPEG` without a
      file name is rejected. */
  lemma MimeIsCaseSensitive()
    ensures Classify(Attachment(None, Some("AUDIO/MPEG"))) == Unsupported
  {
    var s := "AUDIO/MPEG";
    assert !OccursAt(s, "audio/mpeg", 0) by { assert s[0] != 'a'; }
    assert !Contains(s, "audio/mpeg");
    assert !OccursAt(s, "video/mp4", 0) by { assert s[0] != 'v'; }
    assert !OccursAt(s, "video/mp4", 1) by { assert s[1] != 'v'; }
    assert Lower("") == "";
  }
}
