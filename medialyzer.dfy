/**
 * The `RadiantML` detector: the navigator snapshot taken by the constructor,
 * its getters, and the feature tests that combine user-agent sniffing with
 * media probes — `flash`, `hlsVideo`, `hlsAudio`, `dash264` and `dashWebM`.
 */
module Medialyzer {
  import opened Wrappers
  import opened JsText
  import opened Scan
  import opened UserAgent
  import opened Plugins
  import opened Media

  /** A browser plugin; an absent `version` or `description` is the empty string. */
  datatype Plugin = Plugin(name: string, version: string, description: string)

  /** A MIME type entry and the plugin that handles it, `None` when disabled. */
  datatype MimeType = MimeType(mimeType: string, enabledPlugin: Option<Plugin>)

  /**
   * What the detector reads from `navigator`.  `plugins` and `mimeTypes` are
   * `None` when the browser lacks the property; `standalone` is its truth value.
   */
  datatype Navigator = Navigator(
    userAgent: string,
    plugins: Option<seq<Plugin>>,
    mimeTypes: Option<seq<MimeType>>,
    standalone: bool)

  /**
   * What `new ActiveXObject('ShockwaveFlash.ShockwaveFlash')` and its
   * `GetVariable('$version')` do on this host: the object cannot be created,
   * it is created but the query throws, or the query returns a descriptor.
   */
  datatype ActiveXOutcome = NoActiveX | VersionQueryFailed | VersionString(descriptor: string)

  /**
   * The rest of the page the feature tests consult: `!!window.chrome`, the
   * result of the Media Source Extensions test, the media elements and ActiveX.
   */
  datatype Host = Host(chrome: bool, mse: bool, media: MediaHost, activeX: ActiveXOutcome)

  /** `_getUserAgent()`: `nav.userAgent || null`. */
  function SnapshotUserAgent(nav: Navigator): (r: Option<string>)
    ensures r.None? <==> nav.userAgent == ""
    ensures r.Some? ==> r.value == nav.userAgent
  {
    if nav.userAgent != "" then Some(nav.userAgent) else None
  }

  /** `_getPlugins()`: the plugin list when present and non-empty, else `null`. */
  function SnapshotPlugins(nav: Navigator): (r: Option<seq<Plugin>>)
    ensures r.None? <==> nav.plugins.None? || nav.plugins.value == []
    ensures r.Some? ==> r == nav.plugins
  {
    if nav.plugins.Some? && |nav.plugins.value| > 0 then nav.plugins else None
  }

  /** `_getMimeTypes()`: the MIME type list when present and non-empty, else `null`. */
  function SnapshotMimeTypes(nav: Navigator): (r: Option<seq<MimeType>>)
    ensures r.None? <==> nav.mimeTypes.None? || nav.mimeTypes.value == []
    ensures r.Some? ==> r == nav.mimeTypes
  {
    if nav.mimeTypes.Some? && |nav.mimeTypes.value| > 0 then nav.mimeTypes else None
  }

  /** `_getStandaloneMode()`: `true` in an iOS home-screen app, otherwise `null`. */
  function SnapshotStandalone(nav: Navigator): (r: Option<bool>)
    ensures r.Some? <==> nav.standalone
    ensures r != Some(false)
  {
    if nav.standalone then Some(true) else None
  }

  /**
   * A `RadiantML` instance: the four values its constructor stores.  They are
   * never written again, so the instance is a value.
   */
  datatype RadiantML = RadiantML(
    userAgent: Option<string>,
    plugins: Option<seq<Plugin>>,
    mimeTypes: Option<seq<MimeType>>,
    standalone: Option<bool>)
  {
    /** What every snapshot satisfies: no empty string, no empty list, no stored `false`. */
    predicate Valid() {
      && userAgent != Some("")
      && (plugins.Some? ==> plugins.value != [])
      && (mimeTypes.Some? ==> mimeTypes.value != [])
      && standalone != Some(false)
    }

    function GetUserAgent(): Option<string> { userAgent }
    function GetPlugins(): Option<seq<Plugin>> { plugins }
    function GetMimeTypes(): Option<seq<MimeType>> { mimeTypes }
    function GetStandaloneMode(): Option<bool> { standalone }

    /** The user agent as the classifiers receive it: a string or `null`. */
    function Ua(): JsUa {
      if userAgent.Some? then UaString(userAgent.value) else UaNull
    }
  }

  /** `new RadiantML()`: the getters return what the navigator held, normalised to `null`. */
  function NewRadiantML(nav: Navigator): (r: RadiantML)
    ensures r.Valid()
    ensures r.GetUserAgent() == SnapshotUserAgent(nav)
    ensures r.GetPlugins() == SnapshotPlugins(nav)
    ensures r.GetMimeTypes() == SnapshotMimeTypes(nav)
    ensures r.GetStandaloneMode() == SnapshotStandalone(nav)
  {
    RadiantML(SnapshotUserAgent(nav), SnapshotPlugins(nav), SnapshotMimeTypes(nav), SnapshotStandalone(nav))
  }

  /** Every valid snapshot is the snapshot of some navigator. */
  lemma ValidIsReachable(r: RadiantML)
    requires r.Valid()
    ensures exists nav :: NewRadiantML(nav) == r
  {
    var nav := Navigator(
      if r.userAgent.Some? then r.userAgent.value else "",
      r.plugins, r.mimeTypes, r.standalone.Some?);
    assert SnapshotUserAgent(nav) == r.userAgent;
    assert SnapshotPlugins(nav) == r.plugins;
    assert SnapshotMimeTypes(nav) == r.mimeTypes;
    assert r.standalone.Some? ==> r.standalone.value;
    assert SnapshotStandalone(nav) == r.standalone;
    assert NewRadiantML(nav) == r;
  }

  /** The user agent the classifiers see is `null` exactly when the navigator's was empty. */
  lemma SnapshotUa(nav: Navigator)
    ensures NewRadiantML(nav).Ua() == if nav.userAgent == "" then UaNull else UaString(nav.userAgent)
  {
  }

  /** `plugins['Shockwave Flash']`: the first plugin with that name. */
  function FindPlugin(plugins: seq<Plugin>, name: string): (r: Option<Plugin>)
    ensures r.None? <==> forall i :: 0 <= i < |plugins| ==> plugins[i].name != name
    ensures r.Some? ==> r.value.name == name
    ensures r.Some? ==>
      exists i ::
        && 0 <= i < |plugins| && plugins[i] == r.value
        && (forall j :: 0 <= j < i ==> plugins[j].name != name)
  {
    if plugins == [] then None
    else if plugins[0].name == name then Some(plugins[0])
    else
      var r := FindPlugin(plugins[1..], name);
      assert r.Some? ==>
        exists i ::
          && 1 <= i < |plugins| && plugins[i] == r.value
          && (forall j :: 1 <= j < i ==> plugins[j].name != name) by {
        if r.Some? {
          var i :| 0 <= i < |plugins[1..]| && plugins[1..][i] == r.value
            && (forall j :: 0 <= j < i ==> plugins[1..][j].name != name);
          assert plugins[i + 1] == r.value;
          assert forall j :: 1 <= j < i + 1 ==> plugins[j] == plugins[1..][j - 1];
        }
      }
      r
  }

  /** `mimeTypes['application/x-shockwave-flash']`: the first entry of that type. */
  function FindMimeType(types: seq<MimeType>, mime: string): (r: Option<MimeType>)
    ensures r.None? <==> forall i :: 0 <= i < |types| ==> types[i].mimeType != mime
    ensures r.Some? ==> r.value.mimeType == mime
    ensures r.Some? ==>
      exists i ::
        && 0 <= i < |types| && types[i] == r.value
        && (forall j :: 0 <= j < i ==> types[j].mimeType != mime)
  {
    if types == [] then None
    else if types[0].mimeType == mime then Some(types[0])
    else
      var r := FindMimeType(types[1..], mime);
      assert r.Some? ==>
        exists i ::
          && 1 <= i < |types| && types[i] == r.value
          && (forall j :: 1 <= j < i ==> types[j].mimeType != mime) by {
        if r.Some? {
          var i :| 0 <= i < |types[1..]| && types[1..][i] == r.value
            && (forall j :: 0 <= j < i ==> types[1..][j].mimeType != mime);
          assert types[i + 1] == r.value;
          assert forall j :: 1 <= j < i + 1 ==> types[j] == types[1..][j - 1];
        }
      }
      r
  }

  const FlashPluginName := "Shockwave Flash"
  const FlashMimeType := "application/x-shockwave-flash"

  /** `[hasFlash, flashVersion]` */
  datatype FlashDetection = FlashDetection(detected: bool, version: Option<FlashVersion>)

  const NoFlash := FlashDetection(false, None)

  /**
   * `ie[0] && ie[1][0] < 11`: the ActiveX branch, taken for Internet Explorer
   * below version 11.  A `null` version compares as 0, so it passes; a
   * user agent with only "trident" is version 11 and does not.
   */
  function TakesActiveX(ml: RadiantML): (r: bool)
    ensures r <==>
      && ml.userAgent.Some? && Occurs(ml.userAgent.value, "msie")
      && (FindMsie(ml.userAgent.value).None? || FindMsie(ml.userAgent.value).value < 11)
  {
    NonStringsUnmarked();
    var ie := IsIE(ml.Ua());
    ie.detected && (ie.version.whole.None? || ie.version.whole.value < 11)
  }

  /** The version a found Flash plugin reports: its `version` property first, else its description. */
  function PluginFlashVersion(p: Plugin): (v: Option<FlashVersion>)
    ensures p.version != "" ==> v == ParsePluginVersion(p.version)
    ensures p.version == "" ==> v == ParsePluginDescription(p.description)
  {
    if p.version != "" then ParsePluginVersion(p.version)
    else if p.description != "" then ParsePluginDescription(p.description)
    else None
  }

  /**
   * `flash()`.  IE below 11 is asked through ActiveX; otherwise a non-null
   * plugin list is searched by name and, only when there is no plugin list,
   * the MIME type list is searched for an enabled Flash handler.
   */
  function Flash(ml: RadiantML, host: Host): (r: FlashDetection)
    ensures !r.detected ==> r == NoFlash
    ensures TakesActiveX(ml) ==> (r.detected <==> !host.activeX.NoActiveX?)
    ensures TakesActiveX(ml) && host.activeX.VersionQueryFailed? ==> r == FlashDetection(true, None)
    ensures TakesActiveX(ml) && host.activeX.VersionString? ==> r.version == ParsePluginDescription(host.activeX.descriptor)
    ensures !TakesActiveX(ml) && ml.plugins.Some? ==>
      (r.detected <==> FindPlugin(ml.plugins.value, FlashPluginName).Some?)
    ensures !TakesActiveX(ml) && ml.plugins.Some? && FindPlugin(ml.plugins.value, FlashPluginName).Some? ==>
      r.version == PluginFlashVersion(FindPlugin(ml.plugins.value, FlashPluginName).value)
    ensures !TakesActiveX(ml) && ml.plugins.None? && ml.mimeTypes.Some? ==>
      (r.detected <==> exists i :: (0 <= i < |ml.mimeTypes.value| && ml.mimeTypes.value[i].mimeType == FlashMimeType
        && ml.mimeTypes.value[i].enabledPlugin.Some?
        && forall j :: 0 <= j < i ==> ml.mimeTypes.value[j].mimeType != FlashMimeType))
    ensures
      && !TakesActiveX(ml) && ml.plugins.None? && ml.mimeTypes.Some?
      && FindMimeType(ml.mimeTypes.value, FlashMimeType).Some?
      && FindMimeType(ml.mimeTypes.value, FlashMimeType).value.enabledPlugin.Some?
      ==> r.version == ParsePluginDescription(FindMimeType(ml.mimeTypes.value, FlashMimeType).value.enabledPlugin.value.description)
    ensures !TakesActiveX(ml) && ml.plugins.None? && ml.mimeTypes.None? ==> r == NoFlash
  {
    if TakesActiveX(ml) then
      match host.activeX
      case NoActiveX => NoFlash
      case VersionQueryFailed => FlashDetection(true, None)
      case VersionString(s) => FlashDetection(true, ParsePluginDescription(s))
    else if ml.plugins.Some? then
      match FindPlugin(ml.plugins.value, FlashPluginName)
      case None => NoFlash
      case Some(p) => FlashDetection(true, PluginFlashVersion(p))
    else if ml.mimeTypes.Some? then
      match FindMimeType(ml.mimeTypes.value, FlashMimeType)
      case None => NoFlash
      case Some(m) =>
        match m.enabledPlugin
        case None => NoFlash
        case Some(p) =>
          FlashDetection(true, if p.description != "" then ParsePluginDescription(p.description) else None)
    else NoFlash
  }

  /**
   * A plugin list without Flash ends the search: the MIME types are not
   * consulted even when they name an enabled Flash handler.
   */
  lemma FlashPluginListShadowsMimeTypes(ml: RadiantML, host: Host)
    requires !TakesActiveX(ml) && ml.plugins.Some?
    requires forall i :: 0 <= i < |ml.plugins.value| ==> ml.plugins.value[i].name != FlashPluginName
    ensures Flash(ml, host) == NoFlash
  {
  }

  /** A found Flash plugin with a `version` property is read from that property. */
  lemma FlashPluginVersionFirst(ml: RadiantML, host: Host, i: nat)
    requires !TakesActiveX(ml) && ml.plugins.Some? && i < |ml.plugins.value|
    requires ml.plugins.value[i].name == FlashPluginName && ml.plugins.value[i].version != ""
    requires forall j :: 0 <= j < i ==> ml.plugins.value[j].name != FlashPluginName
    ensures Flash(ml, host) == FlashDetection(true, ParsePluginVersion(ml.plugins.value[i].version))
  {
    var r := FindPlugin(ml.plugins.value, FlashPluginName);
    var k :| 0 <= k < |ml.plugins.value| && ml.plugins.value[k] == r.value && r.value.name == FlashPluginName
      && forall j :: 0 <= j < k ==> ml.plugins.value[j].name != FlashPluginName;
    assert k == i;
  }

  /**
   * Internet Explorer below 11 reports Flash through ActiveX alone: when the
   * object cannot be created, plugin and MIME lists are ignored.
   */
  lemma FlashOldIEIgnoresPlugins(ml: RadiantML, host: Host, v: nat)
    requires ml.userAgent.Some? && FindMsie(ml.userAgent.value) == Some(v) && v < 11
    requires host.activeX == NoActiveX
    ensures TakesActiveX(ml)
    ensures Flash(ml, host) == NoFlash
  {
  }

  /** Internet Explorer 11, which has no "MSIE" token, is searched through the plugin list. */
  lemma FlashIE11SkipsActiveX(ml: RadiantML)
    requires ml.userAgent.Some? && IEMarked(ml.userAgent.value) && !Occurs(ml.userAgent.value, "msie")
    ensures !TakesActiveX(ml)
  {
  }

  /**
   * `video5()`: the video element has a `canPlayType` method.  Without one no
   * type outside "audio/" can be played; with one, `_canPlay` for such a type
   * is the element's own non-empty answer.
   */
  function Video5(host: Host): (r: bool)
    ensures !r ==> forall mime :: !IsAudioMime(mime) ==> !CanPlay(host.media, mime, None)
    ensures r ==> forall mime :: !IsAudioMime(mime) ==>
      (CanPlay(host.media, mime, None) <==> host.media.video.canPlayType(mime) != "")
  {
    host.media.video.hasCanPlayType
  }

  /** `audio5()`: the same for the audio element and the "audio/" types. */
  function Audio5(host: Host): (r: bool)
    ensures !r ==> forall mime :: IsAudioMime(mime) ==> !CanPlay(host.media, mime, None)
    ensures r ==> forall mime :: IsAudioMime(mime) ==>
      (CanPlay(host.media, mime, None) <==> host.media.audio.canPlayType(mime) != "")
  {
    host.media.audio.hasCanPlayType
  }

  /**
   * The test shared by `hlsVideo` and `hlsAudio`: iOS, Android 4 or later, or
   * the element's own answer for `mime`.  Reading the major version of an
   * Android user agent that has none is `null[0]`, which throws.
   */
  function HlsTest(ml: RadiantML, host: Host, mime: string): (r: Completion<bool>)
    ensures r.Throw? <==>
      !IsIOS(ml.Ua()).detected && IsAndroid(ml.Ua()).detected && IsAndroid(ml.Ua()).version.None?
    ensures IsIOS(ml.Ua()).detected ==> r == Normal(true)
    ensures !IsIOS(ml.Ua()).detected && !IsAndroid(ml.Ua()).detected ==> r == Normal(CanPlay(host.media, mime, None))
    ensures !IsIOS(ml.Ua()).detected && IsAndroid(ml.Ua()).version.Some? ==>
      r == Normal(IsAndroid(ml.Ua()).version.value.major >= 4 || CanPlay(host.media, mime, None))
  {
    var ios := IsIOS(ml.Ua());
    var android := IsAndroid(ml.Ua());
    if ios.detected then Normal(true)
    else if android.detected && android.version.None? then Throw
    else if android.detected && android.version.value.major >= 4 then Normal(true)
    else Normal(CanPlay(host.media, mime, None))
  }

  /** `hlsVideo()`: false without `<video>` support, else the HLS test on the playlist type. */
  function HlsVideo(ml: RadiantML, host: Host): (r: Completion<bool>)
    ensures !Video5(host) ==> r == Normal(false)
    ensures Video5(host) ==> r == HlsTest(ml, host, "application/vnd.apple.mpegurl")
  {
    if Video5(host) then HlsTest(ml, host, "application/vnd.apple.mpegurl") else Normal(false)
  }

  /** `hlsAudio()`: false without `<audio>` support, else the HLS test on the audio playlist type. */
  function HlsAudio(ml: RadiantML, host: Host): (r: Completion<bool>)
    ensures !Audio5(host) ==> r == Normal(false)
    ensures Audio5(host) ==> r == HlsTest(ml, host, "audio/mpegurl")
  {
    if Audio5(host) then HlsTest(ml, host, "audio/mpegurl") else Normal(false)
  }

  /** The HLS playlist type is not an audio type, so `hlsVideo` asks the video element. */
  lemma PlaylistTypeIsNotAudio()
    ensures !IsAudioMime("application/vnd.apple.mpegurl")
  {
    assert "application/vnd.apple.mpegurl"[..6][1] == 'p';
  }

  /**
   * Away from iOS and Android, `hlsVideo` is the video element's own answer
   * for the playlist type, "maybe" being enough.
   */
  lemma HlsVideoElsewhere(ml: RadiantML, host: Host)
    requires !IsIOS(ml.Ua()).detected && !IsAndroid(ml.Ua()).detected
    ensures HlsVideo(ml, host) == Normal(Video5(host) && host.media.video.canPlayType("application/vnd.apple.mpegurl") != "")
  {
    PlaylistTypeIsNotAudio();
  }

  /** Away from iOS and Android, `hlsAudio` is the audio element's own answer for "audio/mpegurl". */
  lemma HlsAudioElsewhere(ml: RadiantML, host: Host)
    requires !IsIOS(ml.Ua()).detected && !IsAndroid(ml.Ua()).detected
    ensures HlsAudio(ml, host) == Normal(Audio5(host) && host.media.audio.canPlayType("audio/mpegurl") != "")
  {
    assert "audio/mpegurl"[..6] == "audio/";
  }

  /** Android 4 or later gives HLS support wherever the element exists, whatever it answers. */
  lemma HlsAndroid4(ml: RadiantML, host: Host)
    requires !IsIOS(ml.Ua()).detected
    requires IsAndroid(ml.Ua()).version.Some? && IsAndroid(ml.Ua()).version.value.major >= 4
    ensures HlsVideo(ml, host) == Normal(Video5(host))
    ensures HlsAudio(ml, host) == Normal(Audio5(host))
  {
  }

  /**
   * The Android and Chrome condition of `dash264`: Android 4 or later with a
   * minor version of at least 2, in Chrome 34 or later.  The minor version is
   * compared on its own, so Android 5.0 and 5.1 fail it.  Each `[1][0]` on a
   * missing version throws.
   */
  function AndroidChromeGate(android: Detection, chrome: Detection): (r: Completion<bool>)
    ensures r == Normal(true) <==>
      && android.detected && android.version.Some?
      && android.version.value.major >= 4 && android.version.value.minor >= 2
      && chrome.detected && chrome.version.Some? && chrome.version.value.major >= 34
    ensures r.Throw? <==>
      || (android.detected && android.version.None?)
      || (android.detected && android.version.Some? && android.version.value.major >= 4
          && android.version.value.minor >= 2 && chrome.detected && chrome.version.None?)
  {
    if !android.detected then Normal(false)
    else if android.version.None? then Throw
    else if android.version.value.major < 4 then Normal(false)
    else if android.version.value.minor < 2 then Normal(false)
    else if !chrome.detected then Normal(false)
    else if chrome.version.None? then Throw
    else Normal(chrome.version.value.major >= 34)
  }

  /** Android 5.0 in Chrome 40 does not pass the gate, while Android 4.2 in Chrome 34 does. */
  lemma AndroidChromeGateMinorAlone()
    ensures AndroidChromeGate(Detection(true, Some(UaVersion(5, 0, 0))), Detection(true, Some(UaVersion(40, 0, 0)))) == Normal(false)
    ensures AndroidChromeGate(Detection(true, Some(UaVersion(4, 2, 0))), Detection(true, Some(UaVersion(34, 0, 0)))) == Normal(true)
  {
  }

  /**
   * `dash264()`.  Opera is refused first; then `_isAndroid` and `_isChrome`
   * both run, and the latter throws on a `null` user agent when the page has
   * `window.chrome`; the Android and Chrome gate is tried before the default
   * of Media Source Extensions with baseline H.264 and AAC.
   */
  function Dash264(ml: RadiantML, host: Host): (r: Completion<bool>)
    ensures !Video5(host) ==> r == Normal(false)
    ensures Video5(host) && IsOpera(ml.Ua()).detected ==> r == Normal(false)
    ensures r == Normal(true) ==> Video5(host) && !IsOpera(ml.Ua()).detected
    ensures Video5(host) && !IsOpera(ml.Ua()).detected && IsChrome(ml.Ua(), host.chrome).Normal? ==>
      r == match AndroidChromeGate(IsAndroid(ml.Ua()), IsChrome(ml.Ua(), host.chrome).value)
           case Throw => Throw
           case Normal(true) => Normal(true)
           case Normal(false) => Normal(host.mse && Mp4H264AAC(host.media, None))
    ensures Video5(host) && !IsOpera(ml.Ua()).detected && IsChrome(ml.Ua(), host.chrome).Throw? ==> r.Throw?
  {
    if !Video5(host) then Normal(false)
    else
      var ua := ml.Ua();
      if IsOpera(ua).detected then Normal(false)
      else
        var android := IsAndroid(ua);
        match IsChrome(ua, host.chrome)
        case Throw => Throw
        case Normal(chrome) =>
          match AndroidChromeGate(android, chrome)
          case Throw => Throw
          case Normal(true) => Normal(true)
          case Normal(false) => Normal(host.mse && Mp4H264AAC(host.media, None))
  }

  /** Without a user agent, a page that has `window.chrome` makes `dash264` throw. */
  lemma Dash264NullUserAgentThrows(ml: RadiantML, host: Host)
    requires ml.userAgent.None? && Video5(host) && host.chrome
    ensures Dash264(ml, host).Throw?
  {
    NonStringsUnmarked();
  }

  /** Outside Android the answer is Media Source Extensions with baseline H.264 and AAC. */
  lemma Dash264Default(ml: RadiantML, host: Host)
    requires Video5(host) && !IsOpera(ml.Ua()).detected && !IsAndroid(ml.Ua()).detected
    requires IsChrome(ml.Ua(), host.chrome).Normal?
    ensures Dash264(ml, host) == Normal(host.mse && Mp4H264AAC(host.media, None))
  {
  }

  /** `dashWebM()`: `<video>`, Media Source Extensions, and VP9/Opus or VP8/Vorbis in WebM. */
  function DashWebM(host: Host): (r: bool)
    ensures r <==>
      && Video5(host) && host.mse
      && (|| host.media.video.canPlayType("video/webm; codecs=\"vp9, opus\"") == "probably"
          || host.media.video.canPlayType("video/webm; codecs=\"vp8, vorbis\"") == "probably")
  {
    Video5(host) && host.mse && (WebmVP9Opus(host.media) || WebmVP8Vorbis(host.media))
  }
}
