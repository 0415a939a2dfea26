/** Properties of the classifier that relate several of its members. */
module SameSiteFacts {
  import opened Wrappers
  import opened Text
  import opened Patterns
  import opened Versions
  import opened SameSite

  // ---------------------------------------------------------------------------
  // The decision table as a whole

  /** The decision table of the two rules, read directly off the captured versions
      and the four literal patterns. */
  predicate KnownIncompatible(m: VersionMatcher, s: string) {
    || m.ios(s) == Some(12)
    || (m.macos(s) == Some((10, 14)) && ((MatchesSafari(s) && !MatchesChromium(s)) || MatchesMacEmbedded(s)))
    || (MatchesUcBrowser(s) && !LexAtLeast(UcVersionSeq(m, s), [12, 13, 2]))
    || (!MatchesUcBrowser(s) && MatchesChromium(s) && 51 <= ChromiumMajor(m, s) < 67)
  }

  lemma IsSafeDecisionTable(m: VersionMatcher, s: string)
    ensures IsSafe(m, s) <==> !KnownIncompatible(m, s)
  {
  }

  /** A string with none of `(iP`, `Macintosh`, `Chrom` or `UCBrowser` in it
      is safe: no rule applies to an unrecognised client. */
  lemma UnknownAgentIsSafe(m: VersionMatcher, s: string)
    requires Sound(m)
    requires !Contains(s, "(iP") && !Contains(s, "Macintosh")
    requires !Contains(s, ChromToken) && !Contains(s, UcBrowserToken)
    ensures IsSafe(m, s)
  {
    var ua := SameSiteNone(s);
    assert m.ios(s).None?;
    if m.macos(s).Some? {
      MacintoshInToken(s);
    }
    assert m.macos(s).None?;
    assert !IsChromiumBased(ua) && !IsUcBrowser(ua);
    assert !HasWebKitSameSiteBug(m, ua);
    assert !DropsUnrecognizedSameSiteCookies(m, ua);
  }

  lemma MacintoshInToken(s: string)
    requires Contains(s, "(Macintosh;")
    ensures Contains(s, "Macintosh")
  {
    ContainsPart(s, "(Macintosh;", "Macintosh", 1);
  }

  /** The empty string, the constructor's default, is safe. */
  lemma DefaultIsSafe(m: VersionMatcher)
    requires Sound(m)
    ensures ShouldSendSameSiteNone(m, Default)
  {
    UnknownAgentIsSafe(m, "");
  }

  // ---------------------------------------------------------------------------
  // The UC Browser rule

  /** With a `UCBrowser` token only the UC Browser version decides: two
      matchers that agree on it agree on the rule, whatever Chromium version
      each reads. */
  lemma UcBrowserTakesPrecedence(m1: VersionMatcher, m2: VersionMatcher, ua: SameSiteNone)
    requires IsUcBrowser(ua) && m1.ucBrowser(ua.uaStr) == m2.ucBrowser(ua.uaStr)
    ensures DropsUnrecognizedSameSiteCookies(m1, ua) == DropsUnrecognizedSameSiteCookies(m2, ua)
    ensures DropsUnrecognizedSameSiteCookies(m1, ua) <==> !IsUcBrowserVersionAtLeast(m1, ua, 12, 13, 2)
  {
  }

  /** A version is at least itself. */
  lemma UcVersionAtLeastItself(m: VersionMatcher, ua: SameSiteNone)
    ensures var v := UcVersion(m, ua.uaStr); IsUcBrowserVersionAtLeast(m, ua, v.0, v.1, v.2)
  {
    LexReflexive(UcVersionSeq(m, ua.uaStr));
  }

  /** Meeting a threshold means meeting every lower one. */
  lemma UcThresholdMonotone(m: VersionMatcher, ua: SameSiteNone, high: (int, int, int), low: (int, int, int))
    requires IsUcBrowserVersionAtLeast(m, ua, high.0, high.1, high.2)
    requires LexAtLeast([high.0, high.1, high.2], [low.0, low.1, low.2])
    ensures IsUcBrowserVersionAtLeast(m, ua, low.0, low.1, low.2)
  {
    LexTransitive(UcVersionSeq(m, ua.uaStr), [high.0, high.1, high.2], [low.0, low.1, low.2]);
  }

  /** Failing a threshold means the version lies strictly below it. */
  lemma UcThresholdsOrdered(m: VersionMatcher, ua: SameSiteNone, t: (int, int, int))
    requires !IsUcBrowserVersionAtLeast(m, ua, t.0, t.1, t.2)
    ensures LexAtLeast([t.0, t.1, t.2], UcVersionSeq(m, ua.uaStr))
    ensures [t.0, t.1, t.2] != UcVersionSeq(m, ua.uaStr)
  {
    LexTotal(UcVersionSeq(m, ua.uaStr), [t.0, t.1, t.2]);
    if [t.0, t.1, t.2] == UcVersionSeq(m, ua.uaStr) {
      LexReflexive(UcVersionSeq(m, ua.uaStr));
    }
  }

  /** A `UCBrowser` token without a readable version is treated as 0.0.0,
      which is below the fixed 12.13.2, so such a client drops the cookie. */
  lemma UcWithoutVersionDrops(m: VersionMatcher, ua: SameSiteNone)
    requires m.ucBrowser(ua.uaStr).None?
    ensures !IsUcBrowserVersionAtLeast(m, ua, 12, 13, 2)
    ensures IsUcBrowser(ua) ==> DropsUnrecognizedSameSiteCookies(m, ua)
  {
    LexTriple(0, 0, 0, 12, 13, 2);
  }

  // ---------------------------------------------------------------------------
  // The Chromium rule

  /** Meeting a Chromium threshold means meeting every lower one. */
  lemma ChromiumThresholdMonotone(m: VersionMatcher, ua: SameSiteNone, high: int, low: int)
    requires IsChromiumVersionAtLeast(m, ua, high) && low <= high
    ensures IsChromiumVersionAtLeast(m, ua, low)
  {
  }

  /** Without a `UCBrowser` token the rule is the window 51 to 66 of the
      Chromium major version, and needs a captured version to apply. */
  lemma ChromiumWindow(m: VersionMatcher, ua: SameSiteNone)
    requires !IsUcBrowser(ua)
    ensures DropsUnrecognizedSameSiteCookies(m, ua) <==>
      IsChromiumBased(ua) && m.chromium(ua.uaStr).Some? && 51 <= m.chromium(ua.uaStr).value < 67
  {
  }

  // ---------------------------------------------------------------------------
  // The WebKit rule

  /** Safari and Chromium never both hold. */
  lemma SafariIsNotChromium(ua: SameSiteNone)
    ensures !(IsSafari(ua) && IsChromiumBased(ua))
  {
  }

  /** The macOS branch of the WebKit rule needs a captured 10.14 exactly. */
  lemma WebKitBugOnMacNeeds1014(m: VersionMatcher, ua: SameSiteNone)
    requires HasWebKitSameSiteBug(m, ua) && !IsIosVersion(m, ua, 12)
    ensures m.macos(ua.uaStr) == Some((10, 14))
    ensures IsSafari(ua) || IsMacEmbeddedBrowser(ua)
  {
  }

  /** The embedded-browser test accepts exactly the strings of its shape. */
  lemma MacEmbeddedIffShape(ua: SameSiteNone)
    ensures IsMacEmbeddedBrowser(ua) <==> exists e :: WellFormed(e) && Render(e) == ua.uaStr
  {
    ParseSound(ua.uaStr);
    if e :| WellFormed(e) && Render(e) == ua.uaStr {
      ParseRender(e);
    }
  }

  // ---------------------------------------------------------------------------
  // Worked examples

  /** iOS 12 is unsafe; iOS 13 with no other signal is safe. */
  lemma IosExamples(m: VersionMatcher, s: string)
    requires !IsUcBrowser(SameSiteNone(s)) && !IsChromiumBased(SameSiteNone(s))
    ensures m.ios(s) == Some(12) ==> !IsSafe(m, s)
    ensures m.ios(s) == Some(13) && m.macos(s).None? ==> IsSafe(m, s)
  {
  }

  /** Safari on macOS 10.14 is unsafe; Safari on macOS 10.15 is safe. */
  lemma MacSafariExamples(m: VersionMatcher, s: string)
    requires IsSafari(SameSiteNone(s)) && !IsUcBrowser(SameSiteNone(s)) && m.ios(s).None?
    ensures m.macos(s) == Some((10, 14)) ==> !IsSafe(m, s)
    ensures m.macos(s) == Some((10, 15)) ==> IsSafe(m, s)
  {
  }

  /** Chrome 50 and 70 lie outside the window, Chrome 60 inside it. */
  lemma ChromiumExamples(m: VersionMatcher, ua: SameSiteNone)
    requires !IsUcBrowser(ua) && IsChromiumBased(ua)
    ensures m.chromium(ua.uaStr) == Some(50) ==> !DropsUnrecognizedSameSiteCookies(m, ua)
    ensures m.chromium(ua.uaStr) == Some(60) ==> !ShouldSendSameSiteNone(m, ua)
    ensures m.chromium(ua.uaStr) == Some(70) ==> !DropsUnrecognizedSameSiteCookies(m, ua)
  {
  }

  /** UC Browser 12.13.1 drops the cookie; 12.13.2 and 12.14.0 do not. */
  lemma UcBrowserExamples(m: VersionMatcher, ua: SameSiteNone)
    requires IsUcBrowser(ua)
    ensures m.ucBrowser(ua.uaStr) == Some((12, 13, 1)) ==> !ShouldSendSameSiteNone(m, ua)
    ensures m.ucBrowser(ua.uaStr) == Some((12, 13, 2)) ==> !DropsUnrecognizedSameSiteCookies(m, ua)
    ensures m.ucBrowser(ua.uaStr) == Some((12, 14, 0)) ==> !DropsUnrecognizedSameSiteCookies(m, ua)
  {
    LexTriple(12, 13, 1, 12, 13, 2);
    LexTriple(12, 13, 2, 12, 13, 2);
    LexTriple(12, 14, 0, 12, 13, 2);
  }

  /** The parts of `Mozilla/5.0 (Macintosh; Intel Mac OS X 10_14_6)
      AppleWebKit/605.1.15 (KHTML, like Gecko)`, a macOS 10.14 web view. */
  const MojaveShape := EmbeddedShape("5.0", " Intel ", "10_14_6", "605.1.15", false)

  const MojaveWebView := Render(MojaveShape)

  /** A macOS 10.14 web view with no browser token is an embedded browser, and
      with the version 10.14 captured it is not sent `SameSite=None`. */
  lemma MojaveWebViewIsUnsafe(m: VersionMatcher)
    requires m.macos(MojaveWebView) == Some((10, 14))
    ensures IsMacEmbeddedBrowser(SameSiteNone(MojaveWebView))
    ensures !IsSafe(m, MojaveWebView)
  {
    ParseRender(MojaveShape);
  }

  /** The same web view followed by a Safari token is not an embedded browser. */
  lemma WebViewWithBrowserTokenIsNotEmbedded()
    ensures !IsMacEmbeddedBrowser(SameSiteNone(MojaveWebView + " Version/13.0.3 Safari/605.1.15"))
  {
    var token := " Version/13.0.3 Safari/605.1.15";
    var s := MojaveWebView + token;
    assert s[|s| - 1] == token[|token| - 1] == '5';
    assert !EndsWith(s, KhtmlToken) && !EndsWith(s, KhtmlToken + "\n");
  }
}
