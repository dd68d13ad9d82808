/**
 * `_canPlay` and the codec probes built on it.  The browser's answer to
 * `canPlayType` is not modelled: each media element carries it as an
 * uninterpreted function from MIME type to answer ("", "maybe" or
 * "probably" in practice, but any string here).
 */
module Media {
  import opened Wrappers

  /**
   * One of the two `<audio>`/`<video>` elements the detector creates once.
   * `hasCanPlayType` says whether the element has a `canPlayType` method at
   * all (what `video5` and `audio5` test); `canPlayType` is its answer.
   */
  datatype MediaElement = MediaElement(hasCanPlayType: bool, canPlayType: string -> string)

  /** The element pair of the page. */
  datatype MediaHost = MediaHost(audio: MediaElement, video: MediaElement)

  /** `/^audio\//.test(mime)`: the prefix "audio/", case-sensitive. */
  predicate IsAudioMime(mime: string) {
    |mime| >= 6 && mime[..6] == "audio/"
  }

  /** A type that starts with "video/" goes to the video element. */
  lemma VideoMimeNotAudio(mime: string)
    requires |mime| >= 6 && mime[..6] == "video/"
    ensures !IsAudioMime(mime)
  {
    assert mime[..6][0] == 'v';
  }

  /** The element `_canPlay` asks about `mime`. */
  function ElementFor(m: MediaHost, mime: string): (e: MediaElement)
    ensures IsAudioMime(mime) ==> e == m.audio
    ensures !IsAudioMime(mime) ==> e == m.video
  {
    if IsAudioMime(mime) then m.audio else m.video
  }

  /**
   * `_canPlay(mime, exactly)` as a truth value.  A missing `canPlayType`
   * gives `undefined`, which is falsy.  With a truthy `exactly` the answer
   * must be that very string; otherwise any non-empty answer will do.
   */
  function CanPlay(m: MediaHost, mime: string, exactly: Option<string>): (r: bool)
    ensures r ==> ElementFor(m, mime).hasCanPlayType
    ensures r ==> ElementFor(m, mime).canPlayType(mime) != ""
    ensures r && exactly.Some? && exactly.value != "" ==> ElementFor(m, mime).canPlayType(mime) == exactly.value
  {
    var e := ElementFor(m, mime);
    var exact := exactly.Some? && exactly.value != "";
    if !e.hasCanPlayType then false
    else
      var answer := e.canPlayType(mime);
      if exact then answer != "" && answer == exactly.value else answer != ""
  }

  /** An exact match is a non-empty answer, so it is also a loose match. */
  lemma CanPlayExactImpliesLoose(m: MediaHost, mime: string, exactly: string)
    ensures CanPlay(m, mime, Some(exactly)) ==> CanPlay(m, mime, None)
  {
  }

  /** Both directions of `_canPlay`: true exactly when the right element gives the wanted answer. */
  lemma CanPlayCharacterised(m: MediaHost, mime: string, exactly: Option<string>)
    ensures CanPlay(m, mime, exactly) <==>
      var e := ElementFor(m, mime);
      && e.hasCanPlayType
      && e.canPlayType(mime) != ""
      && (exactly.Some? && exactly.value != "" ==> e.canPlayType(mime) == exactly.value)
  {
  }

  /** An audio type is only ever asked of the audio element, any other type of the video element. */
  lemma CanPlayRouting(m: MediaHost, m': MediaHost, mime: string, exactly: Option<string>)
    requires IsAudioMime(mime) ==> m.audio == m'.audio
    requires !IsAudioMime(mime) ==> m.video == m'.video
    ensures CanPlay(m, mime, exactly) == CanPlay(m', mime, exactly)
  {
  }

  /** The `avc1` codec string of an H.264 profile name; baseline for anything else. */
  function H264Codec(profile: Option<string>): (codec: string)
    ensures |codec| == 11 && codec[..5] == "avc1."
    ensures profile.None? ==> codec == "avc1.42E01E"
  {
    if profile.None? || profile.value == "" then "avc1.42E01E"
    else if profile.value == "main30" then "avc1.4D401E"
    else if profile.value == "high30" then "avc1.64001E"
    else if profile.value == "high40" then "avc1.640028"
    else if profile.value == "high50" then "avc1.640032"
    else "avc1.42E01E"
  }

  /** The profiles the detector knows, each with its own codec string. */
  const KnownProfiles: seq<string> := ["main30", "high30", "high40", "high50"]

  /** Distinct known profiles ask for distinct codecs, and none of them asks for baseline. */
  lemma H264CodecDistinct(p: string, q: string)
    requires p in KnownProfiles && q in KnownProfiles
    ensures H264Codec(Some(p)) == H264Codec(Some(q)) <==> p == q
    ensures H264Codec(Some(p)) != H264Codec(None)
  {
  }

  /** An unknown profile name falls back to the baseline codec. */
  lemma H264CodecFallback(p: string)
    requires p !in KnownProfiles
    ensures H264Codec(Some(p)) == H264Codec(None)
  {
  }

  /** The MIME type `mp4H264AAC` asks about: H.264 video with AAC-LC audio in MP4. */
  function Mp4Mime(codec: string): (mime: string)
    ensures |mime| >= 6 && mime[..6] == "video/"
  {
    var prefix := "video/mp4; codecs=\"";
    assert (prefix + codec + ",mp4a.40.2\"")[..6] == prefix[..6];
    prefix + codec + ",mp4a.40.2\""
  }

  /** The probe for the "high40" profile names level 4.0 of the High profile. */
  lemma Mp4MimeHigh40()
    ensures Mp4Mime(H264Codec(Some("high40"))) == "video/mp4; codecs=\"avc1.640028,mp4a.40.2\""
  {
  }

  /** `mp4H264AAC(profile)`: the video element answers "probably" for H.264 in that profile with AAC. */
  function Mp4H264AAC(m: MediaHost, profile: Option<string>): (r: bool)
    ensures r <==> m.video.hasCanPlayType && m.video.canPlayType(Mp4Mime(H264Codec(profile))) == "probably"
  {
    VideoMimeNotAudio(Mp4Mime(H264Codec(profile)));
    CanPlay(m, Mp4Mime(H264Codec(profile)), Some("probably"))
  }

  /** `webmVP8Vorbis()` */
  function WebmVP8Vorbis(m: MediaHost): (r: bool)
    ensures r <==> m.video.hasCanPlayType && m.video.canPlayType("video/webm; codecs=\"vp8, vorbis\"") == "probably"
  {
    VideoMimeNotAudio("video/webm; codecs=\"vp8, vorbis\"");
    CanPlay(m, "video/webm; codecs=\"vp8, vorbis\"", Some("probably"))
  }

  /** `webmVP9Opus()` */
  function WebmVP9Opus(m: MediaHost): (r: bool)
    ensures r <==> m.video.hasCanPlayType && m.video.canPlayType("video/webm; codecs=\"vp9, opus\"") == "probably"
  {
    VideoMimeNotAudio("video/webm; codecs=\"vp9, opus\"");
    CanPlay(m, "video/webm; codecs=\"vp9, opus\"", Some("probably"))
  }

  /** `oggTheoraVorbis()` */
  function OggTheoraVorbis(m: MediaHost): (r: bool)
    ensures r <==> m.video.hasCanPlayType && m.video.canPlayType("video/ogg; codecs=\"theora, vorbis\"") == "probably"
  {
    VideoMimeNotAudio("video/ogg; codecs=\"theora, vorbis\"");
    CanPlay(m, "video/ogg; codecs=\"theora, vorbis\"", Some("probably"))
  }

  /** `m4aAAC()` */
  function M4aAAC(m: MediaHost): (r: bool)
    ensures r <==> m.audio.hasCanPlayType && m.audio.canPlayType("audio/mp4; codecs=\"mp4a.40.2\"") == "probably"
  {
    CanPlay(m, "audio/mp4; codecs=\"mp4a.40.2\"", Some("probably"))
  }

  /** `mp3()`: any non-empty answer, "maybe" included. */
  function Mp3(m: MediaHost): (r: bool)
    ensures r <==> m.audio.hasCanPlayType && m.audio.canPlayType("audio/mpeg") != ""
  {
    CanPlay(m, "audio/mpeg", None)
  }

  /** `oggVorbis()` */
  function OggVorbis(m: MediaHost): (r: bool)
    ensures r <==> m.audio.hasCanPlayType && m.audio.canPlayType("audio/ogg; codecs=\"vorbis\"") == "probably"
  {
    CanPlay(m, "audio/ogg; codecs=\"vorbis\"", Some("probably"))
  }

  /** `webmOpus()` */
  function WebmOpus(m: MediaHost): (r: bool)
    ensures r <==> m.audio.hasCanPlayType && m.audio.canPlayType("audio/webm; codecs=\"opus\"") == "probably"
  {
    CanPlay(m, "audio/webm; codecs=\"opus\"", Some("probably"))
  }

  /** `wavPCM()`: any non-empty answer, "maybe" included. */
  function WavPCM(m: MediaHost): (r: bool)
    ensures r <==> m.audio.hasCanPlayType && m.audio.canPlayType("audio/wav") != ""
  {
    CanPlay(m, "audio/wav", None)
  }

  /** The video probes depend on the video element alone. */
  lemma VideoProbesIgnoreAudio(m: MediaHost, m': MediaHost, profile: Option<string>)
    requires m.video == m'.video
    ensures Mp4H264AAC(m, profile) == Mp4H264AAC(m', profile)
    ensures WebmVP8Vorbis(m) == WebmVP8Vorbis(m') && WebmVP9Opus(m) == WebmVP9Opus(m')
    ensures OggTheoraVorbis(m) == OggTheoraVorbis(m')
  {
  }

  /** The audio probes depend on the audio element alone. */
  lemma AudioProbesIgnoreVideo(m: MediaHost, m': MediaHost)
    requires m.audio == m'.audio
    ensures M4aAAC(m) == M4aAAC(m') && Mp3(m) == Mp3(m') && OggVorbis(m) == OggVorbis(m')
    ensures WebmOpus(m) == WebmOpus(m') && WavPCM(m) == WavPCM(m')
  {
  }

  /** An element without `canPlayType` supports nothing. */
  lemma NoCanPlayTypeNoSupport(m: MediaHost, mime: string, exactly: Option<string>)
    requires !ElementFor(m, mime).hasCanPlayType
    ensures !CanPlay(m, mime, exactly)
  {
  }
}
