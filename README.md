# Radiant MediaLyzer detector core, modelled in Dafny

Radiant MediaLyzer (`src/rml.js`) is a browser capability detector. A
`RadiantML` instance snapshots a few `navigator` properties when it is
constructed. It then answers feature questions by combining user-agent
sniffing with probes of the page's media elements:

- which codecs play;
- whether Flash is installed, and which version;
- whether HLS and MPEG-DASH streams can be expected to work.

This project models the logic of that core as pure Dafny functions over
values, and proves what each function promises.

| module | file | what it holds |
|---|---|---|
| `Wrappers` | `wrappers.dfy` | `Option` for JavaScript's `null`; `Completion` for a call that returns normally or throws |
| `JsText` | `js_text.dfy` | `\d`, `\s`, ASCII case folding, `parseInt(s, 10)` with its NaN, and `split` on one character with its inverse `Join` |
| `Scan` | `scan.dfy` | dedicated scanners for each regular expression the classifiers use; the version scanner is proved to accept exactly where a greed-free reading of its pattern does, and both scanners are proved to read the numbers of a well-formed match |
| `UserAgent` | `user_agent.dfy` | `_isAndroid`, `_isIOS`, `_isOpera`, `_isIE`, `_isNativeAndroidBrowser`, `_isChrome` |
| `Plugins` | `plugins.dfy` | `_parsePluginVersion` and `_parsePluginDescription` |
| `Media` | `media.dfy` | `_canPlay` and the codec probes built on it |
| `Medialyzer` | `medialyzer.dfy` | the constructor snapshot and its getters; `flash`, `hlsVideo`, `hlsAudio`, `dash264`, `dashWebM` |

The world outside the script enters as inputs:

- `Navigator` holds the user agent, the plugin and MIME type lists, and `standalone`.
- `Host` holds `!!window.chrome`, the Media Source Extensions test, and the two media elements.
- The ActiveX outcome is one of three cases: the object cannot be created, its version query throws, or the query returns a descriptor.
- Each media element has a flag saying whether it has `canPlayType`, plus an uninterpreted answer function from MIME type to string.

Where the code and its comments disagree, the model follows the code:

- **The WebView exclusion is dead code.** `_isChrome` calls `_isNativeAndroidBrowser()`, which calls `_isAndroid()`, both with no argument. `/android/i.test(undefined)` tests the string "undefined" and fails. So the WebView check never excludes anything, and `IsNativeAndroidBrowser` is proved false for every input.
- **`_isIE` returns `[ieVersion, 0, 0]` on every path.** When IE is not detected, the version is `null`.
- **The IE version regex is case-sensitive.** The "MSIE " pattern has no `i` flag, while the detection test ignores case. So "msie 9.0" is detected as IE with a `null` version.
- **`dash264` compares Android's minor version on its own** (`isAndroid[1][1] >= 2`). Android 5.0 and 5.1 therefore fail the "Android 4.2 and above" gate: see `AndroidChromeGateMinorAlone`.
- **Some paths throw, so the detector is not total:**
  - `hlsVideo`, `hlsAudio` and `dash264` read `isAndroid[1][0]` without checking that the version is non-null. An Android user agent without a parsable version therefore throws a TypeError. The HLS tests reach that read only when the user agent is not iOS, and `dash264` only when it is not Opera.
  - `dash264` does the same with Chrome's version.
  - `_isChrome(null)` calls `null.match` whenever `window.chrome` is set. This happens in `dash264` when the navigator's user agent is empty.
  - The model returns `Throw` on all of these paths.

## Model

| member | source | states |
|---|---|---|
| JsText.ParseInt | src/rml.js:59-63 | `parseInt(s, 10)` yields a number exactly when, after leading white space and at most one sign, a decimal digit follows |
| JsText.ParseIntDigits | src/rml.js:83-85 | `parseInt` of a non-empty digit string is that string's decimal value |
| JsText.ParseIntSigned | src/rml.js:59-63 | white space, an optional sign and a run of digits read as the signed value of those digits, whatever non-digit text follows |
| JsText.ParseIntSkipsSpace | src/rml.js:59-63 | leading white space does not change what `parseInt` reads |
| JsText.Split | src/rml.js:57 | `split` gives at least one field, and no field contains the separator |
| JsText.SplitJoin | src/rml.js:57 | splitting a dot-joined list of dot-free fields gives back exactly those fields |
| JsText.JoinSplit | src/rml.js:57 | splitting loses nothing: re-joining the fields gives the original string |
| Scan.VersionAt | src/rml.js:231 | a version read at a position starts with the pattern's word there, ignoring case |
| Scan.VersionAtTwoGroups | src/rml.js:231-238 | after the word, digits, the separator and digits with no separator after them read as those two numbers with patch 0 |
| Scan.VersionAtThreeGroups | src/rml.js:231-238 | with the separator and a third run of digits after the second group, the third run is the patch; an empty third run reads as 0 |
| Scan.VersionAtAccepts | src/rml.js:231-232 | the deterministic scanner finds a version at a position exactly when the regular expression `word\s?(\d+)S(\d+)` accepts there |
| Scan.FirstVersionFrom | src/rml.js:231-232 | the search over start positions from `i` on returns a position where the pattern matches, and no position before it (or, when it returns nothing, no position at all) matches |
| UserAgent.FindVersionOccurs | src/rml.js:231-233 | `ua.match(re)` for a version pattern is non-null exactly when the pattern matches at some position, so a detected family has a version exactly then |
| Scan.FindVersion | src/rml.js:231-232 | `ua.match(re)` for a version pattern is `null` exactly when no position matches; otherwise it is the match at the leftmost matching position |
| Scan.FirstMsieFrom | src/rml.js:260-262 | the same leftmost search for "MSIE <digits>": a matching position, with no match before it, or nothing when no position matches |
| Scan.MsieAt | src/rml.js:260 | a match of the case-sensitive "MSIE " is also an occurrence of "msie" ignoring case |
| Scan.MsieAtReads | src/rml.js:260-262 | "MSIE " followed by digits and a non-digit reads as the value of those digits |
| Scan.FindMsie | src/rml.js:260-262 | `re.exec(ua)` for the case-sensitive "MSIE <digits>" is the leftmost match, `null` exactly when there is none; a match implies that "msie" occurs |
| UserAgent.NonStringsUnmarked | src/rml.js:228-229 | the strings "null" and "undefined", which `test` sees for a missing user agent, contain none of the family markers |
| UserAgent.IsAndroid | src/rml.js:224-243 | detected exactly when "android" occurs in any case; otherwise `[false, null]`; once detected, the version is non-null exactly when "android X.Y" occurs, and it is the leftmost such match |
| UserAgent.IsIOS | src/rml.js:196-215 | detected exactly when "ipad", "iphone", "ipod" or "apple tv" occurs in any case; the version is non-null exactly when "os X_Y" occurs, and it is the leftmost such match |
| UserAgent.IsOpera | src/rml.js:279-299 | detected on "opr" or "opios"; the version is non-null exactly when "opr/X.Y" occurs, and it is the leftmost such match, so iOS Opera is detected without a version |
| UserAgent.IsIE | src/rml.js:252-270 | detected exactly when "msie" or "trident" occurs; the second and third entries are always 0; not detected gives a `null` version; "trident" without "msie" gives 11; with "msie", the version is non-null exactly when the case-sensitive "MSIE <digit>" occurs, and it is the leftmost such match |
| UserAgent.IsNativeAndroidBrowser | src/rml.js:139-149 | false for every argument, because the Android test inside it runs on no user agent |
| UserAgent.IsChrome | src/rml.js:158-187 | throws exactly when `window.chrome` is set, the Opera markers are absent and the user agent is not a string; otherwise detected exactly when `window.chrome` is set and neither "opr" nor "opera" occurs, and the version is non-null exactly when "chrome/X.Y" occurs, and it is the leftmost such match |
| UserAgent.AndroidVersionExample | src/rml.js:229-238 | "android 5.1.1" is Android with version 5.1.1 |
| UserAgent.AndroidNoVersionExample | src/rml.js:229-241 | "Android" alone is Android with a `null` version |
| UserAgent.IEExamples | src/rml.js:257-266 | "Trident/7.0" is IE 11 and "MSIE 9.0" is IE 9 |
| UserAgent.ChromeOperaExclusion | src/rml.js:166-171 | a user agent containing "opr" is never Chrome, even when `window.chrome` is set |
| Plugins.ParsePluginVersion | src/rml.js:55-67 | the empty string gives `null`; otherwise a version comes back exactly when the first two "."-fields are non-empty, and it is `parseInt` of those two fields and of the third field, or 0 when that is missing or empty |
| Plugins.ParsePluginVersionDefined | src/rml.js:55-67 | a version comes back exactly when the first "." has a non-empty field before it and a non-empty field after it |
| Plugins.VersionOfFieldsPrefix | src/rml.js:59-63 | only the first three fields are read |
| Plugins.ParsePluginVersionIgnoresExtraFields | src/rml.js:57-63 | fields after the third do not change the result |
| Plugins.ParsePluginVersionJoin | src/rml.js:55-63 | dot-free fields joined with "." are read back as exactly those fields |
| Plugins.ParsePluginVersionPatchDefault | src/rml.js:62 | with two non-empty fields, or an empty third field, the result is the two fields through `parseInt` and patch 0 |
| Plugins.DigitRuns | src/rml.js:76 | every element of `match(/[\d]+/g)` is a non-empty run of digits |
| Plugins.DigitRunsEmpty | src/rml.js:76-77 | `match` finds nothing exactly when the text holds no digit |
| Plugins.TwoDigitRuns | src/rml.js:76-82 | there are at least two runs exactly when two digits are separated by a non-digit |
| Plugins.DigitRunsCons | src/rml.js:76 | after digit-free text, a run followed by a non-digit is the first match |
| Plugins.DigitRunsSkip | src/rml.js:76 | digit-free text in front changes no match |
| Plugins.DigitRunsCommaList | src/rml.js:76 | a comma-separated list of numbers matches as exactly those numbers |
| Plugins.ParsePluginDescription | src/rml.js:74-91 | the empty string gives `null`; otherwise a version comes back exactly when there are at least two runs of digits, and it is `parseInt` of the first two runs and of the third run, or 0 when there is none |
| Plugins.ParsePluginDescriptionSpec | src/rml.js:74-91 | a version comes back exactly when the text holds two separate numbers; it is the values of the first two runs and of the third run, or 0 |
| Plugins.ParsePluginDescriptionCommaList | src/rml.js:74-91 | a descriptor of the form "<platform> a,b,c,d" reads as `[a, b, c]` |
| Plugins.ActiveXDescriptorExample | src/rml.js:631 | "WIN 18,0,0,203" reads as `[18, 0, 0]` |
| Media.VideoMimeNotAudio | src/rml.js:39-41 | a type starting with "video/" does not pass the audio test |
| Media.CanPlay | src/rml.js:38-48 | a positive answer needs a `canPlayType` method and a non-empty answer, and in exact mode that answer must be the wanted string |
| Media.CanPlayCharacterised | src/rml.js:38-48 | both directions: true exactly when the routed element has `canPlayType` and answers non-empty, and in exact mode answers the wanted string |
| Media.CanPlayExactImpliesLoose | src/rml.js:44-46 | an exact match is also a loose match |
| Media.CanPlayRouting | src/rml.js:39-43 | the result depends only on the element the type is routed to |
| Media.NoCanPlayTypeNoSupport | src/rml.js:41-43 | an element without `canPlayType` supports nothing |
| Media.H264Codec | src/rml.js:352-363 | every profile maps to an 11-character `avc1.` codec; an absent profile gives baseline `avc1.42E01E` |
| Media.H264CodecDistinct | src/rml.js:353-362 | the four known profiles map to four different codecs, none of them baseline |
| Media.H264CodecFallback | src/rml.js:352-363 | any other profile name falls back to baseline |
| Media.Mp4Mime | src/rml.js:364 | the H.264 + AAC probe type is a "video/" type |
| Media.Mp4MimeHigh40 | src/rml.js:358-364 | the "high40" profile probes `video/mp4; codecs="avc1.640028,mp4a.40.2"` |
| Media.Mp4H264AAC | src/rml.js:351-365 | true exactly when the video element has `canPlayType` and answers "probably" for `video/mp4; codecs="<avc1 id>,mp4a.40.2"` |
| Media.WebmVP8Vorbis | src/rml.js:371-373 | true exactly when the video element answers "probably" for WebM VP8/Vorbis |
| Media.WebmVP9Opus | src/rml.js:379-381 | true exactly when the video element answers "probably" for WebM VP9/Opus |
| Media.OggTheoraVorbis | src/rml.js:387-389 | true exactly when the video element answers "probably" for Ogg Theora/Vorbis |
| Media.M4aAAC | src/rml.js:416-418 | true exactly when the audio element answers "probably" for MP4 AAC-LC |
| Media.Mp3 | src/rml.js:424-426 | true exactly when the audio element gives any non-empty answer for "audio/mpeg" |
| Media.OggVorbis | src/rml.js:432-434 | true exactly when the audio element answers "probably" for Ogg Vorbis |
| Media.WebmOpus | src/rml.js:440-442 | true exactly when the audio element answers "probably" for WebM Opus |
| Media.WavPCM | src/rml.js:448-450 | true exactly when the audio element gives any non-empty answer for "audio/wav" |
| Media.VideoProbesIgnoreAudio | src/rml.js:351-389 | the video codec probes depend on the video element alone |
| Media.AudioProbesIgnoreVideo | src/rml.js:416-450 | the audio codec probes depend on the audio element alone |
| Medialyzer.SnapshotUserAgent | src/rml.js:97-99 | `null` exactly when the navigator's user agent is empty, else that string |
| Medialyzer.SnapshotPlugins | src/rml.js:105-110 | `null` exactly when the plugin list is missing or empty, else that list |
| Medialyzer.SnapshotMimeTypes | src/rml.js:116-121 | `null` exactly when the MIME type list is missing or empty, else that list |
| Medialyzer.SnapshotStandalone | src/rml.js:127-132 | `true` exactly in standalone mode, never a stored `false` |
| Medialyzer.NewRadiantML | src/rml.js:19-24 | the four getters return the four snapshot values, and the instance satisfies `Valid` |
| Medialyzer.ValidIsReachable | src/rml.js:308-334 | every valid instance is the snapshot of some navigator, so `Valid` describes exactly what the getters can return |
| Medialyzer.SnapshotUa | src/rml.js:624 | the classifiers receive `null` exactly when the navigator's user agent was empty |
| Medialyzer.FindPlugin | src/rml.js:639 | `plugins['Shockwave Flash']` is the first plugin with that name, and `undefined` exactly when none has it |
| Medialyzer.FindMimeType | src/rml.js:651 | `mimeTypes[type]` is the first entry of that type, and `undefined` exactly when none has it |
| Medialyzer.TakesActiveX | src/rml.js:626-627 | the ActiveX branch is taken exactly when "msie" occurs and the leftmost "MSIE <digits>" is missing or below 11 |
| Medialyzer.PluginFlashVersion | src/rml.js:642-646 | a non-empty `version` property is parsed as a dotted version, even when that fails; otherwise the description is parsed |
| Medialyzer.Flash | src/rml.js:620-661 | an undetected result carries no version; IE below 11 decides by ActiveX alone, a failed version query giving `[true, null]` and a descriptor giving its parsed version; otherwise a plugin list decides by the name search, the version being that of the first Flash plugin; otherwise a MIME list decides by its first Flash entry having an enabled plugin, whose description gives the version; with none of them, `[false, null]` |
| Medialyzer.FlashPluginListShadowsMimeTypes | src/rml.js:636-659 | a plugin list without Flash gives `[false, null]` even when the MIME list names Flash |
| Medialyzer.FlashPluginVersionFirst | src/rml.js:639-647 | the first Flash plugin with a `version` property gives `[true, _parsePluginVersion(version)]` |
| Medialyzer.FlashOldIEIgnoresPlugins | src/rml.js:626-635 | when the leftmost "MSIE <digits>" is below 11, the ActiveX branch is taken, and a failed ActiveX creation gives `[false, null]` whatever the plugin lists hold |
| Medialyzer.FlashIE11SkipsActiveX | src/rml.js:626-627 | IE 11, identified by "trident" alone, does not take the ActiveX branch |
| Medialyzer.Video5 | src/rml.js:342-344 | without `canPlayType` on the video element no non-audio type plays; with it, a non-audio type plays exactly when the element answers non-empty |
| Medialyzer.Audio5 | src/rml.js:408-410 | the same for the audio element and the "audio/" types |
| Medialyzer.HlsTest | src/rml.js:676-680 | throws exactly when the user agent is Android without a version and not iOS; iOS gives true; Android with a version gives true from major version 4 on and the element's loose answer below it; neither family gives the element's loose answer |
| Medialyzer.HlsVideo | src/rml.js:670-683 | false without video support, else the HLS test on "application/vnd.apple.mpegurl" |
| Medialyzer.HlsAudio | src/rml.js:690-703 | false without audio support, else the HLS test on "audio/mpegurl" |
| Medialyzer.PlaylistTypeIsNotAudio | src/rml.js:678 | the HLS playlist type is routed to the video element |
| Medialyzer.HlsVideoElsewhere | src/rml.js:670-683 | away from iOS and Android, `hlsVideo` is video support plus a non-empty video answer for the playlist type |
| Medialyzer.HlsAudioElsewhere | src/rml.js:690-703 | away from iOS and Android, `hlsAudio` is audio support plus a non-empty audio answer for "audio/mpegurl" |
| Medialyzer.HlsAndroid4 | src/rml.js:670-703 | off iOS, Android 4 or later makes `hlsVideo` and `hlsAudio` exactly the element's `canPlayType` support |
| Medialyzer.AndroidChromeGate | src/rml.js:721-724 | true exactly for Android at least 4 with minor at least 2 in Chrome at least 34; throws exactly when a version it reads is `null` |
| Medialyzer.AndroidChromeGateMinorAlone | src/rml.js:721-722 | Android 5.0 with Chrome 40 fails the gate; Android 4.2 with Chrome 34 passes |
| Medialyzer.Dash264 | src/rml.js:710-731 | false without video support or under Opera; a true result never comes under Opera; otherwise a throw of `_isChrome` or of the gate propagates, the gate's true is final, and its false falls back to MSE with the baseline H.264 probe |
| Medialyzer.Dash264NullUserAgentThrows | src/rml.js:719-720 | with no user agent and `window.chrome` set, `dash264` throws |
| Medialyzer.Dash264Default | src/rml.js:725-728 | off Android and without a Chrome throw, `dash264` is MSE with the baseline H.264 + AAC probe |
| Medialyzer.DashWebM | src/rml.js:737-744 | true exactly when video is supported, MSE is available, and the video element answers "probably" for WebM VP9/Opus or VP8/Vorbis |

## Left out

- The DOM and host wiring: the immediately-invoked wrapper, `window`, `document`, `navigator` and `createElement`. Their values are inputs (`Navigator`, `Host`).
- The pure presence checks `mse`, `nativeFS`, `webAudio`, `eme`, `getUserMedia`, `rtcPeerConnection`, `rtcSessionDescription`, `webSocket` and `webWorker`. They only report whether a host object exists. `mse` enters as a boolean field of `Host`.
- `webStorage`, `canvas`, `canvasText`, `canvasBlending` and `canvasWebGL`. They are try/catch probes of host APIs.
- The behaviour of `new ActiveXObject(...)` and `GetVariable('$version')`. It is an input with three outcomes.
- What `canPlayType` answers. It is an uninterpreted function per element.
- Media.CanPlay: returns the truth value of `_canPlay`. Where the JavaScript returns a falsy non-boolean ("" or `undefined`) in exact mode, the model returns `false`.
- Plugins.ParsePluginVersion, Plugins.ParsePluginDescription, UserAgent.IsAndroid, UserAgent.IsIOS, UserAgent.IsOpera, UserAgent.IsChrome: `parseInt` results are unbounded integers (`JsInt` in the Flash versions, `nat` in `Scan.UaVersion`). The model does not capture JavaScript's loss of precision above 2^53, its `-0`, or `Infinity`: "android 99999999999999999999.1" reports a rounded major version in JavaScript and the exact one here.
- UserAgent.IsIE: keeps only the digits before the first "." of the "MSIE" version, not the number `parseFloat` gives. The fraction is not modelled, and neither is double rounding: "MSIE 10.9999999999999999" parses to 11 in JavaScript but reads as 10 here. For such a user agent `flash` goes to the plugin list in JavaScript, while Medialyzer.TakesActiveX takes the ActiveX branch.
- Case-insensitive matching is ASCII folding only. For the ASCII patterns used here, this is exactly what a non-Unicode `i` regular expression does. Nothing else about Unicode is modelled.
- Medialyzer.Flash: the lookups `nav.plugins[...]` and `nav.mimeTypes[...]` read the live navigator. The model searches the snapshot, which holds the same list object.
- Plugin and MIME-type objects are reduced to the properties the detector reads. A missing `version` or `description` is the empty string, since both are falsy.
