/**
 * The user-agent classifiers `_isAndroid`, `_isIOS`, `_isOpera`, `_isIE`,
 * `_isNativeAndroidBrowser` and `_isChrome`.  Each first tests for a family
 * marker anywhere in the string, ignoring ASCII case, and only then extracts
 * a version with a leftmost regular-expression match.
 */
module UserAgent {
  import opened Wrappers
  import opened JsText
  import opened Scan

  /**
   * The user-agent argument as a JavaScript value: the detector passes the
   * snapshot's string or `null`, and `_isNativeAndroidBrowser` passes nothing.
   */
  datatype JsUa = UaString(s: string) | UaNull | UaUndefined

  /** What `RegExp.prototype.test` looks at: the argument converted to a string. */
  function TestInput(u: JsUa): string {
    match u
    case UaString(s) => s
    case UaNull => "null"
    case UaUndefined => "undefined"
  }

  /** `[detected, version]`, with `None` for a `null` version. */
  datatype Detection = Detection(detected: bool, version: Option<UaVersion>)

  const NotDetected := Detection(false, None)

  const AndroidVersion := VersionPattern("android", true, '.')  // /android\s(\d+)\.(\d+)\.?(\d+)?/i
  const IOSVersion := VersionPattern("os", true, '_')           // /os\s(\d+)_(\d+)_?(\d+)?/i
  const ChromeVersion := VersionPattern("chrome/", false, '.')  // /chrome\/(\d+)\.(\d+)\.?(\d+)?/i
  const OperaVersion := VersionPattern("opr/", false, '.')      // /opr\/(\d+)\.(\d+)\.?(\d+)?/i

  /** `/android/i` */
  predicate AndroidMarked(t: string) {
    Occurs(t, "android")
  }

  /** `/(ipad|iphone|ipod|apple tv)/i` */
  predicate IOSMarked(t: string) {
    Occurs(t, "ipad") || Occurs(t, "iphone") || Occurs(t, "ipod") || Occurs(t, "apple tv")
  }

  /** `/(opr|opios)/i` */
  predicate OperaMarked(t: string) {
    Occurs(t, "opr") || Occurs(t, "opios")
  }

  /** `/(msie|trident)/i` */
  predicate IEMarked(t: string) {
    Occurs(t, "msie") || Occurs(t, "trident")
  }

  /** `/(opr|opera)/i`, the Opera exclusion inside `_isChrome`. */
  predicate OperaExcluded(t: string) {
    Occurs(t, "opr") || Occurs(t, "opera")
  }

  /** A version pattern matches somewhere in `s`. */
  predicate VersionOccurs(s: string, p: VersionPattern) {
    exists i :: 0 <= i <= |s| && VersionAt(s, i, p).Some?
  }

  /** A version pattern yields a version exactly when it matches somewhere. */
  lemma FindVersionOccurs(s: string, p: VersionPattern)
    ensures FindVersion(s, p).Some? <==> VersionOccurs(s, p)
  {
  }

  lemma NotFoldedAt(s: string, i: nat, w: string, k: nat)
    requires k < |w| && i + k < |s|
    requires Lower(s[i + k]) != w[k]
    ensures !FoldedAt(s, i, w)
  {
  }

  /** The strings `"null"` and `"undefined"` carry none of the markers the family tests look for. */
  lemma {:induction false} NonStringsUnmarked()
    ensures !AndroidMarked("null") && !IOSMarked("null") && !OperaMarked("null") && !IEMarked("null")
    ensures !AndroidMarked("undefined") && !IOSMarked("undefined") && !OperaMarked("undefined")
    ensures !IEMarked("undefined")
  {
    var n, u := "null", "undefined";
    forall w, i | w in ["android", "ipad", "iphone", "ipod", "apple tv", "opr", "opios", "msie", "trident"] && 0 <= i <= |n|
      ensures !FoldedAt(n, i, w)
    {
      if i + |w| <= |n| {
        NotFoldedAt(n, i, w, 0);
      }
    }
    forall w, i | w in ["android", "ipad", "iphone", "ipod", "apple tv", "opr", "opios", "msie", "trident"] && 0 <= i <= |u|
      ensures !FoldedAt(u, i, w)
    {
      if i + |w| <= |u| {
        if i == 5 {
          NotFoldedAt(u, i, w, 1);
        } else {
          NotFoldedAt(u, i, w, 0);
        }
      }
    }
  }

  /**
   * `_isAndroid(ua)`: detected exactly when "android" occurs; then the version
   * is non-null exactly when "android X.Y" occurs, and is read from the leftmost
   * such occurrence.
   */
  function IsAndroid(u: JsUa): (r: Detection)
    ensures r.detected <==> AndroidMarked(TestInput(u))
    ensures !r.detected ==> r == NotDetected
    ensures r.detected ==> u.UaString? && r.version == FindVersion(u.s, AndroidVersion)
  {
    if AndroidMarked(TestInput(u)) then
      NonStringsUnmarked();
      Detection(true, FindVersion(u.s, AndroidVersion))
    else NotDetected
  }

  /** `_isIOS(ua)`: the same shape, with the version written "os X_Y_Z". */
  function IsIOS(u: JsUa): (r: Detection)
    ensures r.detected <==> IOSMarked(TestInput(u))
    ensures !r.detected ==> r == NotDetected
    ensures r.detected ==> u.UaString? && r.version == FindVersion(u.s, IOSVersion)
  {
    if IOSMarked(TestInput(u)) then
      NonStringsUnmarked();
      Detection(true, FindVersion(u.s, IOSVersion))
    else NotDetected
  }

  /**
   * `_isOpera(ua)`: detected on "opr" or "opios"; the version only comes from
   * "opr/X.Y", so an iOS Opera build is detected without a version.
   */
  function IsOpera(u: JsUa): (r: Detection)
    ensures r.detected <==> OperaMarked(TestInput(u))
    ensures !r.detected ==> r == NotDetected
    ensures r.detected ==> u.UaString? && r.version == FindVersion(u.s, OperaVersion)
  {
    if OperaMarked(TestInput(u)) then
      NonStringsUnmarked();
      Detection(true, FindVersion(u.s, OperaVersion))
    else NotDetected
  }

  /**
   * The array `[ieVersion, 0, 0]` that `_isIE` always returns.  `whole` is the
   * run of digits before the first "." of the version, or `None` for `null`;
   * the fraction that `parseFloat` also reads, and its rounding, are left out.
   */
  datatype IeVersion = IeVersion(whole: Option<nat>, minor: nat, patch: nat)

  datatype IeDetection = IeDetection(detected: bool, version: IeVersion)

  /**
   * `_isIE(ua)`: detected on "msie" or "trident" in any case.  With "msie"
   * present the version comes from the case-sensitive "MSIE <number>" (null
   * when that is missing); with only "trident" it is 11.  A version array is
   * returned in every case, its last two entries 0.
   */
  function IsIE(u: JsUa): (r: IeDetection)
    ensures r.detected <==> IEMarked(TestInput(u))
    ensures r.version.minor == 0 && r.version.patch == 0
    ensures !r.detected ==> r.version.whole.None?
    ensures r.detected && !Occurs(TestInput(u), "msie") ==> r.version.whole == Some(11)
    ensures Occurs(TestInput(u), "msie") ==>
      && u.UaString?
      && (r.version.whole.Some? <==> exists i :: 0 <= i <= |u.s| && MsieAt(u.s, i).Some?)
      && r.version.whole == FindMsie(u.s)
  {
    var t := TestInput(u);
    if IEMarked(t) then
      if Occurs(t, "msie") then
        NonStringsUnmarked();
        IeDetection(true, IeVersion(FindMsie(u.s), 0, 0))
      else
        IeDetection(true, IeVersion(Some(11), 0, 0))
    else
      IeDetection(false, IeVersion(None, 0, 0))
  }

  /**
   * `_isNativeAndroidBrowser(ua)`.  It asks `_isAndroid()` without passing the
   * user agent, so the Android test runs on "undefined" and fails: the result
   * is false whatever the argument.
   */
  function IsNativeAndroidBrowser(u: JsUa): (r: bool)
    ensures !r
  {
    NonStringsUnmarked();
    var t := TestInput(u);
    IsAndroid(UaUndefined).detected && NativeAndroidPattern(t) && !Occurs(t, "chrome")
  }

  /**
   * `_isChrome(ua)` with `rootChrome` for `!!window.chrome`.  The WebView check
   * runs on no user agent and never excludes anything, so detection depends
   * only on the host flag and the Opera exclusion.  Reading the version calls
   * `ua.match`, which throws when the user agent is `null`.
   */
  function IsChrome(u: JsUa, rootChrome: bool): (r: Completion<Detection>)
    ensures r.Throw? <==> rootChrome && !OperaExcluded(TestInput(u)) && !u.UaString?
    ensures r.Normal? ==> (r.value.detected <==> rootChrome && !OperaExcluded(TestInput(u)))
    ensures r.Normal? && !r.value.detected ==> r.value == NotDetected
    ensures r.Normal? && r.value.detected ==> u.UaString? && r.value.version == FindVersion(u.s, ChromeVersion)
  {
    var isChrome := !IsNativeAndroidBrowser(UaUndefined) && rootChrome && !OperaExcluded(TestInput(u));
    if !isChrome then Normal(NotDetected)
    else if !u.UaString? then Throw
    else Normal(Detection(true, FindVersion(u.s, ChromeVersion)))
  }

  /** The version pattern matches "android 5.1.1" at its start. */
  lemma AndroidVersionAtStart()
    ensures VersionAt("android 5.1.1", 0, AndroidVersion) == Some(UaVersion(5, 1, 1))
  {
    var s := "android 5.1.1";
    assert PrefixAt(s, 0, AndroidVersion) by {
      assert FoldedAt(s, 0, "android");
      assert IsSpace(s[7]);
    }
    assert GroupStart(s, 0, AndroidVersion) == 8;
    DigitRunEndAt(s, 8, 9);
    DigitRunEndAt(s, 10, 11);
    DigitRunEndAt(s, 12, 13);
    assert s[8..9] == "5" && s[10..11] == "1" && s[12..13] == "1";
    assert DigitsValue("5") == 5 && DigitsValue("1") == 1;
    assert s[9] == '.' && s[11] == '.';
  }

  /** "android 5.1.1" reads as Android 5.1.1. */
  lemma AndroidVersionExample()
    ensures IsAndroid(UaString("android 5.1.1")) == Detection(true, Some(UaVersion(5, 1, 1)))
  {
    var s := "android 5.1.1";
    assert FoldedAt(s, 0, "android");
    AndroidVersionAtStart();
  }

  /** "Android" with no version digits is Android without a version. */
  lemma AndroidNoVersionExample()
    ensures IsAndroid(UaString("Android")) == Detection(true, None)
  {
    var t := "Android";
    assert FoldedAt(t, 0, "android");
    forall i | 0 <= i <= |t| ensures VersionAt(t, i, AndroidVersion).None? {
      assert !PrefixAt(t, i, AndroidVersion);
    }
  }

  /** "Trident/7.0" without "MSIE" is IE 11; "MSIE 9.0" is IE 9. */
  lemma IEExamples()
    ensures IsIE(UaString("Trident/7.0")) == IeDetection(true, IeVersion(Some(11), 0, 0))
    ensures IsIE(UaString("MSIE 9.0")) == IeDetection(true, IeVersion(Some(9), 0, 0))
  {
    var s := "Trident/7.0";
    assert FoldedAt(s, 0, "trident");
    forall i | 0 <= i <= |s| ensures !FoldedAt(s, i, "msie") {
      if i + 4 <= |s| {
        NotFoldedAt(s, i, "msie", 0);
      }
    }
    var t := "MSIE 9.0";
    assert FoldedAt(t, 0, "msie");
    assert DigitRunEnd(t, 5) == 6;
    assert MsieAt(t, 0) == Some(9);
  }

  /** An Opera user agent is never Chrome, even when Opera sets the `chrome` flag. */
  lemma ChromeOperaExclusion(ua: string)
    requires Occurs(ua, "opr")
    ensures IsChrome(UaString(ua), true) == Normal(NotDetected)
  {
  }
}
