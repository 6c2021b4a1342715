/**
 * What the script takes from ffprobe's JSON once it is parsed: the duration
 * of the container and the frame size of the first video stream. Running
 * ffprobe and `json.loads` are not modelled; the parsed document is an input,
 * and so are the `float()` / `int()` conversions, as partial functions.
 */
module Probe {
  import opened Wrappers

  /** A JSON value, as far as the script looks at it. */
  datatype JValue = JNull | JBool(b: bool) | JNumber(n: real) | JString(s: string) | JArrayOrObject

  type Fields = map<string, JValue>

  /** ffprobe's document: its "format" object ({} when absent) and its
      "streams" array ([] when absent). */
  datatype ProbeDoc = ProbeDoc(format: Fields, streams: seq<Fields>)

  /** The metadata the script keeps for a file. */
  datatype Meta = Meta(duration: real, width: int, height: int)

  /** What probing one file gives the merge step: the metadata, None
      (ffprobe failed or its output was unusable), or FileNotFoundError
      because ffprobe is not installed. */
  datatype ProbeReply = Probed(meta: Meta) | ProbeFailed | ProberMissing

  /** `dict.get(key)`: None when the key is absent or holds JSON null. */
  function Get(m: Fields, key: string): Option<JValue>
  {
    if key in m && m[key] != JNull then Some(m[key]) else None
  }

  /** `stream.get("codec_type") == "video"` */
  predicate IsVideoStream(s: Fields)
  {
    Get(s, "codec_type") == Some(JString("video"))
  }

  /** The index of the first video stream, when there is one. */
  predicate FirstVideoAt(streams: seq<Fields>, k: nat)
  {
    k < |streams| && IsVideoStream(streams[k]) && forall j :: 0 <= j < k ==> !IsVideoStream(streams[j])
  }

  /** The `for stream in ...: if ...: break` search for the first video stream. */
  method FindVideoStream(streams: seq<Fields>) returns (idx: Option<nat>)
    ensures idx.None? <==> forall j :: 0 <= j < |streams| ==> !IsVideoStream(streams[j])
    ensures idx.Some? ==> FirstVideoAt(streams, idx.value)
  {
    idx := None;
    var i := 0;
    while i < |streams|
      invariant 0 <= i <= |streams|
      invariant forall j :: 0 <= j < i ==> !IsVideoStream(streams[j])
    {
      if IsVideoStream(streams[i]) {
        idx := Some(i);
        break;
      }
      i := i + 1;
    }
  }

  /** The metadata read from the first video stream `s`: None when the
      duration, width or height is absent or does not convert. */
  function MetaFrom(format: Fields, s: Fields, seconds: JValue -> Option<real>, pixels: JValue -> Option<int>): Option<Meta>
  {
    var d, w, h := Get(format, "duration"), Get(s, "width"), Get(s, "height");
    if d.None? || w.None? || h.None? then None
    else
      var sec, wid, hei := seconds(d.value), pixels(w.value), pixels(h.value);
      if sec.None? || wid.None? || hei.None? then None
      else Some(Meta(sec.value, wid.value, hei.value))
  }

  /**
   * `_get_video_metadata_ffprobe` after `json.loads`: None when no stream is
   * a video stream; otherwise the duration of the format and the width and
   * height of the FIRST video stream, or None when any of the three is
   * missing (or, as the script's `except ValueError` does, fails to convert).
   */
  method ExtractMetadata(doc: ProbeDoc, seconds: JValue -> Option<real>, pixels: JValue -> Option<int>)
    returns (r: Option<Meta>)
    ensures (forall j :: 0 <= j < |doc.streams| ==> !IsVideoStream(doc.streams[j])) ==> r.None?
    ensures forall k: nat :: FirstVideoAt(doc.streams, k) ==> r == MetaFrom(doc.format, doc.streams[k], seconds, pixels)
  {
    var idx := FindVideoStream(doc.streams);
    if idx.None? {
      return None;
    }
    r := MetaFrom(doc.format, doc.streams[idx.value], seconds, pixels);
  }

  /** A video stream listed after a non-video one is still found, and a later
      video stream never overrides the first. */
  lemma FirstVideoStreamWins(format: Fields, audio: Fields, first: Fields, second: Fields)
    requires !IsVideoStream(audio) && IsVideoStream(first) && IsVideoStream(second)
    ensures FirstVideoAt([audio, first, second], 1)
    ensures !FirstVideoAt([audio, first, second], 2)
  {
  }
}
