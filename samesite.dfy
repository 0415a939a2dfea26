/** The `SameSiteNone` classifier: decides from a user-agent string whether a
    client handles the `SameSite=None` cookie attribute.

    The class holds one string, assigned by its constructor and never changed,
    so it is a value here, and each of its methods is a function of that value.
    The version-capturing patterns are read through a `VersionMatcher`. */
module SameSite {
  import opened Wrappers
  import opened Text
  import opened Patterns
  import opened Versions

  /** An instance of the classifier: the user-agent string it examines. */
  datatype SameSiteNone = SameSiteNone(uaStr: string)

  /** `new SameSiteNone()`: the constructor's argument defaults to the empty string. */
  const Default: SameSiteNone := SameSiteNone("")

  // The captured versions after `intval`, with 0 standing for "no match"
  // (each method starts its version variables at 0 and overwrites them only
  // when `preg_match` succeeds).

  function IosMajor(m: VersionMatcher, s: string): nat {
    match m.ios(s)
    case Some(v) => v
    case None => 0
  }

  function MacosVersion(m: VersionMatcher, s: string): (nat, nat) {
    match m.macos(s)
    case Some(v) => v
    case None => (0, 0)
  }

  function ChromiumMajor(m: VersionMatcher, s: string): nat {
    match m.chromium(s)
    case Some(v) => v
    case None => 0
  }

  function UcVersion(m: VersionMatcher, s: string): (nat, nat, nat) {
    match m.ucBrowser(s)
    case Some(v) => v
    case None => (0, 0, 0)
  }

  /** The UC Browser version as a sequence, for the lexicographic order. */
  function UcVersionSeq(m: VersionMatcher, s: string): seq<int> {
    var v := UcVersion(m, s);
    [v.0, v.1, v.2]
  }

  // ---------------------------------------------------------------------------
  // Entry point

  /** The static entry point: classify `useragent` with a fresh instance. */
  function IsSafe(m: VersionMatcher, useragent: string): (r: bool)
    ensures r <==> ShouldSendSameSiteNone(m, SameSiteNone(useragent))
    ensures r <==> !(HasWebKitSameSiteBug(m, SameSiteNone(useragent))
                     || DropsUnrecognizedSameSiteCookies(m, SameSiteNone(useragent)))
  {
    ShouldSendSameSiteNone(m, SameSiteNone(useragent))
  }

  /** Safe to send `SameSite=None` exactly when neither known defect applies. */
  function ShouldSendSameSiteNone(m: VersionMatcher, ua: SameSiteNone): (r: bool)
    ensures r <==> !(HasWebKitSameSiteBug(m, ua) || DropsUnrecognizedSameSiteCookies(m, ua))
  {
    !IsSameSiteNoneIncompatible(m, ua)
  }

  /** Either defect makes the client incompatible; only a client that shows an
      iOS 12 or macOS 10.14 version, a UC Browser token or a Chromium token
      can be incompatible at all. */
  function IsSameSiteNoneIncompatible(m: VersionMatcher, ua: SameSiteNone): (r: bool)
    ensures r ==> m.ios(ua.uaStr) == Some(12) || m.macos(ua.uaStr) == Some((10, 14))
                  || IsUcBrowser(ua) || IsChromiumBased(ua)
  {
    HasWebKitSameSiteBug(m, ua) || DropsUnrecognizedSameSiteCookies(m, ua)
  }

  // ---------------------------------------------------------------------------
  // The two rules

  /** WebKit treats `SameSite=None` as `Strict`: iOS 12, or macOS 10.14 with
      Safari or an embedded browser. Both branches need a pattern that
      actually matched, since the versions tested are not the default 0. */
  function HasWebKitSameSiteBug(m: VersionMatcher, ua: SameSiteNone): (r: bool)
    ensures r <==> m.ios(ua.uaStr) == Some(12)
                   || (m.macos(ua.uaStr) == Some((10, 14)) && (IsSafari(ua) || IsMacEmbeddedBrowser(ua)))
  {
    IsIosVersion(m, ua, 12) || (IsMacosxVersion(m, ua, 10, 14) && (IsSafari(ua) || IsMacEmbeddedBrowser(ua)))
  }

  /** The client drops cookies whose `SameSite` value it does not know: UC
      Browser below 12.13.2, otherwise Chromium 51 to 66. A UC Browser token
      decides the question by itself, whatever Chromium tokens are present. */
  function DropsUnrecognizedSameSiteCookies(m: VersionMatcher, ua: SameSiteNone): (r: bool)
    ensures IsUcBrowser(ua) ==> (r <==> !LexAtLeast(UcVersionSeq(m, ua.uaStr), [12, 13, 2]))
    ensures !IsUcBrowser(ua) ==> (r <==> IsChromiumBased(ua) && 51 <= ChromiumMajor(m, ua.uaStr) <= 66)
  {
    if IsUcBrowser(ua) then
      !IsUcBrowserVersionAtLeast(m, ua, 12, 13, 2)
    else
      IsChromiumBased(ua) && IsChromiumVersionAtLeast(m, ua, 51) && !IsChromiumVersionAtLeast(m, ua, 67)
  }

  // ---------------------------------------------------------------------------
  // The leaf predicates

  /** The iOS major version is `major`. With a match the captured version is
      compared with the target; without one only the target 0 holds, so a
      non-zero target needs a match. */
  function IsIosVersion(m: VersionMatcher, ua: SameSiteNone, major: int): (r: bool)
    ensures r ==> major >= 0
    ensures m.ios(ua.uaStr).Some? ==> (r <==> m.ios(ua.uaStr).value == major)
    ensures m.ios(ua.uaStr).None? ==> (r <==> major == 0)
    ensures major != 0 ==> (r <==> m.ios(ua.uaStr) == Some(major))
  {
    IosMajor(m, ua.uaStr) == major
  }

  /** The macOS version is `major`.`minor`, with the same reading of a missing match. */
  function IsMacosxVersion(m: VersionMatcher, ua: SameSiteNone, major: int, minor: int): (r: bool)
    ensures r ==> major >= 0 && minor >= 0
    ensures m.macos(ua.uaStr).Some? ==>
      (r <==> m.macos(ua.uaStr).value.0 == major && m.macos(ua.uaStr).value.1 == minor)
    ensures m.macos(ua.uaStr).None? ==> (r <==> major == 0 && minor == 0)
    ensures (major, minor) != (0, 0) ==>
      (r <==> m.macos(ua.uaStr).Some? && m.macos(ua.uaStr).value.0 == major && m.macos(ua.uaStr).value.1 == minor)
  {
    var v := MacosVersion(m, ua.uaStr);
    v.0 == major && v.1 == minor
  }

  /** Safari: a `Version/` token with ` Safari/` later on the same line, and no
      Chromium token anywhere, so Safari and Chromium never both hold. */
  function IsSafari(ua: SameSiteNone): (r: bool)
    ensures r <==> (exists i, j :: SafariMatchAt(ua.uaStr, i, j)) && !IsChromiumBased(ua)
    ensures r ==> Contains(ua.uaStr, VersionToken) && Contains(ua.uaStr, SafariToken)
  {
    if MatchesSafari(ua.uaStr) then
      var i, j :| SafariMatchAt(ua.uaStr, i, j);
      assert OccursAt(ua.uaStr, VersionToken, i) && OccursAt(ua.uaStr, SafariToken, j);
      !IsChromiumBased(ua)
    else
      false
  }

  /** A macOS embedded web view: the whole string is `Mozilla/<version>
      (Macintosh;...Mac OS X <version>) AppleWebKit/<version> (KHTML, like
      Gecko)`, with no browser token after it. */
  function IsMacEmbeddedBrowser(ua: SameSiteNone): (r: bool)
    ensures r ==> MozillaToken <= ua.uaStr
    ensures r ==> EndsWith(ua.uaStr, KhtmlToken) || EndsWith(ua.uaStr, KhtmlToken + "\n")
  {
    MatchesMacEmbedded(ua.uaStr)
  }

  /** A `Chrome` or `Chromium` token anywhere. */
  function IsChromiumBased(ua: SameSiteNone): (r: bool)
    ensures r ==> Contains(ua.uaStr, ChromToken)
    ensures r <==> exists i :: OccursAt(ua.uaStr, ChromToken, i)
                              && (OccursAt(ua.uaStr, "e", i + 5) || OccursAt(ua.uaStr, "ium", i + 5))
  {
    MatchesChromium(ua.uaStr)
  }

  /** The captured Chromium major version is at least `major`; a missing
      version counts as 0, so it meets no positive threshold. */
  function IsChromiumVersionAtLeast(m: VersionMatcher, ua: SameSiteNone, major: int): (r: bool)
    ensures m.chromium(ua.uaStr).None? ==> (r <==> major <= 0)
    ensures m.chromium(ua.uaStr).Some? ==> (r <==> m.chromium(ua.uaStr).value >= major)
  {
    ChromiumMajor(m, ua.uaStr) >= major
  }

  /** A `UCBrowser` token anywhere. */
  function IsUcBrowser(ua: SameSiteNone): (r: bool)
    ensures r <==> exists i :: OccursAt(ua.uaStr, UcBrowserToken, i)
  {
    MatchesUcBrowser(ua.uaStr)
  }

  /** The captured UC Browser version is at least `major`.`minor`.`build` in
      the lexicographic order; a missing version counts as 0.0.0. */
  function IsUcBrowserVersionAtLeast(m: VersionMatcher, ua: SameSiteNone, major: int, minor: int, build: int): (r: bool)
    ensures r <==> LexAtLeast(UcVersionSeq(m, ua.uaStr), [major, minor, build])
  {
    var v := UcVersion(m, ua.uaStr);
    LexTriple(v.0, v.1, v.2, major, minor, build);
    if v.0 != major then
      v.0 > major
    else if v.1 != minor then
      v.1 > minor
    else
      v.2 >= build
  }
}
