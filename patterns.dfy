/** The regular expressions the classifier matches user-agent strings against.

    The four patterns whose only use is "does it match" (the Safari, embedded
    browser, Chromium and UC Browser tokens) are modelled exactly, as the set of
    strings they match. The four patterns whose captured digits are read (iOS,
    macOS, Chromium version, UC Browser version) are left abstract: which digits
    PCRE captures depends on its leftmost, greedy, backtracking search, so a
    `VersionMatcher` stands for whatever the regex engine returns, and `Sound`
    records what any real engine guarantees about it. */
module Patterns {
  import opened Wrappers
  import opened Text

  // ---------------------------------------------------------------------------
  // `/Version\/.* Safari\//`

  const VersionToken := "Version/"
  const SafariToken := " Safari/"

  /** `s[lo..hi]` holds no line break: the stretch a PCRE `.*` may cover. */
  predicate SameLine(s: string, lo: int, hi: int) {
    0 <= lo <= hi <= |s| && forall k :: lo <= k < hi ==> s[k] != '\n'
  }

  /** The Safari pattern matches with `Version/` at `i` and ` Safari/` at `j`. */
  predicate SafariMatchAt(s: string, i: int, j: int) {
    OccursAt(s, VersionToken, i) && OccursAt(s, SafariToken, j)
    && SameLine(s, i + |VersionToken|, j)
  }

  /** Everything before the first line break of `s`. */
  function FirstLine(s: string): (r: string)
    ensures r <= s && '\n' !in r
    ensures |r| < |s| ==> s[|r|] == '\n'
  {
    if |s| == 0 || s[0] == '\n' then [] else [s[0]] + FirstLine(s[1..])
  }

  /** The Safari pattern tried at start position `i`: `Version/` there, then
      ` Safari/` somewhere on the rest of that line. */
  function MatchesSafariAt(s: string, i: nat): bool {
    OccursAt(s, VersionToken, i) && Contains(FirstLine(s[i + |VersionToken|..]), SafariToken)
  }

  /** A text without line breaks occurs on the first line exactly when it
      occurs in the whole string with no line break before it. */
  lemma {:induction false} FirstLineOccurs(u: string, t: string, m: int)
    requires '\n' !in t
    ensures OccursAt(FirstLine(u), t, m) <==> OccursAt(u, t, m) && SameLine(u, 0, m)
  {
    var line := FirstLine(u);
    if OccursAt(line, t, m) {
      assert u[m..m + |t|] == line[m..m + |t|];
      forall k | 0 <= k < m ensures u[k] != '\n' {
        assert u[k] == line[k];
      }
    }
    if OccursAt(u, t, m) && SameLine(u, 0, m) {
      forall k | 0 <= k < m + |t| ensures u[k] != '\n' {
        if k >= m {
          assert u[k] == u[m..m + |t|][k - m];
        }
      }
      assert line[m..m + |t|] == u[m..m + |t|];
    }
  }

  /** Positions in a suffix `s[lo..]` are positions in `s` shifted by `lo`. */
  lemma SuffixOccurs(s: string, lo: nat, t: string, m: int)
    requires lo <= |s| && 0 <= m
    ensures OccursAt(s[lo..], t, m) <==> OccursAt(s, t, lo + m)
    ensures SameLine(s[lo..], 0, m) <==> SameLine(s, lo, lo + m)
  {
    if OccursAt(s[lo..], t, m) || OccursAt(s, t, lo + m) {
      assert s[lo..][m..m + |t|] == s[lo + m..lo + m + |t|];
    }
    if 0 <= m <= |s| - lo {
      assert forall k :: 0 <= k < m ==> s[lo..][k] == s[lo + k];
    }
  }

  lemma MatchesSafariAtIff(s: string, i: nat)
    ensures MatchesSafariAt(s, i) <==> exists j :: SafariMatchAt(s, i, j)
  {
    if OccursAt(s, VersionToken, i) {
      var lo := i + |VersionToken|;
      var line := FirstLine(s[lo..]);
      if Contains(line, SafariToken) {
        var m :| OccursAt(line, SafariToken, m);
        FirstLineOccurs(s[lo..], SafariToken, m);
        SuffixOccurs(s, lo, SafariToken, m);
        assert SafariMatchAt(s, i, lo + m);
      }
      if j :| SafariMatchAt(s, i, j) {
        FirstLineOccurs(s[lo..], SafariToken, j - lo);
        SuffixOccurs(s, lo, SafariToken, j - lo);
        assert OccursAt(line, SafariToken, j - lo);
      }
    }
  }

  /** The Safari pattern searched for from start position `from` onwards. */
  function MatchesSafariFrom(s: string, from: nat): (r: bool)
    requires from <= |s|
    ensures r <==> exists i, j :: from <= i && SafariMatchAt(s, i, j)
    decreases |s| - from
  {
    MatchesSafariAtIff(s, from);
    if MatchesSafariAt(s, from) then
      true
    else if from == |s| then
      false
    else
      MatchesSafariFrom(s, from + 1)
  }

  /** `preg_match('/Version\/.* Safari\//', s) === 1`. */
  function MatchesSafari(s: string): (r: bool)
    ensures r <==> exists i, j :: SafariMatchAt(s, i, j)
  {
    MatchesSafariFrom(s, 0)
  }

  // ---------------------------------------------------------------------------
  // `/^Mozilla\/[\.\d]+ \(Macintosh;.*Mac OS X [_\d]+\) AppleWebKit\/[\.\d]+ \(KHTML, like Gecko\)$/`

  const MozillaToken := "Mozilla/"
  const MacintoshToken := " (Macintosh;"
  const MacOsToken := "Mac OS X "
  const WebKitToken := ") AppleWebKit/"
  const KhtmlToken := " (KHTML, like Gecko)"

  /** The variable parts of a string the embedded-browser pattern matches:
      the Mozilla version, the platform text after `(Macintosh;`, the macOS
      version, the WebKit version, and whether a final line break follows
      (PCRE's `$` also matches just before a newline that ends the subject). */
  datatype EmbeddedShape = EmbeddedShape(
    mozilla: string, platform: string, osVersion: string, webKit: string, finalNewline: bool)

  /** Each part is drawn from the class the pattern allows there. */
  predicate WellFormed(e: EmbeddedShape) {
    && |e.mozilla| > 0 && AllIn(e.mozilla, IsDotOrDigit)
    && '\n' !in e.platform
    && |e.osVersion| > 0 && AllIn(e.osVersion, IsUnderscoreOrDigit)
    && |e.webKit| > 0 && AllIn(e.webKit, IsDotOrDigit)
  }

  /** The text between the macOS version's `Mac OS X ` and the WebKit token. */
  function OsPart(e: EmbeddedShape): string {
    e.platform + MacOsToken + e.osVersion
  }

  /** Everything after `(Macintosh;` up to the `(KHTML, like Gecko)` suffix. */
  function AfterMacintosh(e: EmbeddedShape): string {
    OsPart(e) + WebKitToken + e.webKit
  }

  /** Everything between `Mozilla/` and ` (KHTML, like Gecko)`. */
  function Inner(e: EmbeddedShape): string {
    e.mozilla + MacintoshToken + AfterMacintosh(e)
  }

  function LineEnd(finalNewline: bool): string {
    if finalNewline then "\n" else ""
  }

  /** The string the pattern reads as `e`. */
  function Render(e: EmbeddedShape): string {
    MozillaToken + Inner(e) + KhtmlToken + LineEnd(e.finalNewline)
  }

  /** Splits `x` into a non-empty leading run of class `p`, then `token`, then the rest. */
  function CutRunAfter(x: string, token: string, p: char -> bool): (r: Option<(string, string)>)
    ensures r.Some? ==> |r.value.0| > 0 && AllIn(r.value.0, p)
    ensures r.Some? ==> x == r.value.0 + token + r.value.1
  {
    var n := LeadingRun(x, p);
    if n > 0 && token <= x[n..] then
      assert x == x[..n] + x[n..] && x[n..] == token + x[n + |token|..];
      Some((x[..n], x[n + |token|..]))
    else
      None
  }

  /** Splits `x` into the rest, then `token`, then a non-empty trailing run of class `p`. */
  function CutRunBefore(x: string, token: string, p: char -> bool): (r: Option<(string, string)>)
    ensures r.Some? ==> |r.value.1| > 0 && AllIn(r.value.1, p)
    ensures r.Some? ==> x == r.value.0 + token + r.value.1
  {
    var n := TrailingRun(x, p);
    var front := x[..|x| - n];
    if n > 0 && EndsWith(front, token) then
      assert x == front + x[|x| - n..];
      assert front == front[..|front| - |token|] + token;
      Some((front[..|front| - |token|], x[|x| - n..]))
    else
      None
  }

  lemma CutRunAfterOf(run: string, token: string, back: string, p: char -> bool)
    requires |run| > 0 && AllIn(run, p) && |token| > 0 && !p(token[0])
    ensures CutRunAfter(run + token + back, token, p) == Some((run, back))
  {
    var x := run + token + back;
    LeadingRunOf(run, token + back, p);
    assert run + token + back == run + (token + back);
    assert x[|run|..] == token + back;
    assert x[..|run|] == run;
    assert x[|run| + |token|..] == back;
  }

  lemma CutRunBeforeOf(front: string, token: string, run: string, p: char -> bool)
    requires |run| > 0 && AllIn(run, p) && |token| > 0 && !p(token[|token| - 1])
    ensures CutRunBefore(front + token + run, token, p) == Some((front, run))
  {
    var x := front + token + run;
    TrailingRunOf(front + token, run, p);
    assert x[..|x| - |run|] == front + token;
    assert x[|x| - |run|..] == run;
    assert (front + token)[..|front|] == front;
  }

  /** `x` without `pre` at its front and `post` at its back, if it has both. */
  function Between(x: string, pre: string, post: string): (r: Option<string>)
    ensures r.Some? ==> x == pre + r.value + post
  {
    if |pre| + |post| <= |x| && pre <= x && EndsWith(x, post) then
      assert x == x[..|pre|] + x[|pre|..|x| - |post|] + x[|x| - |post|..];
      Some(x[|pre|..|x| - |post|])
    else
      None
  }

  lemma BetweenOf(pre: string, y: string, post: string)
    ensures Between(pre + y + post, pre, post) == Some(y)
  {
    var x := pre + y + post;
    assert x[..|pre|] == pre;
    assert x[|x| - |post|..] == post;
    assert x[|pre|..|x| - |post|] == y;
  }

  /** `s` split into the text the anchors enclose and whether a final line break
      follows it: PCRE's `$` matches at the very end and before such a break. */
  function SplitLineEnd(s: string): (string, bool) {
    if |s| > 0 && s[|s| - 1] == '\n' then (s[..|s| - 1], true) else (s, false)
  }

  lemma SplitLineEndOf(core: string, finalNewline: bool)
    requires |core| > 0 && core[|core| - 1] != '\n'
    ensures SplitLineEnd(core + LineEnd(finalNewline)) == (core, finalNewline)
  {
    if finalNewline {
      assert (core + "\n")[..|core|] == core;
    } else {
      assert core + LineEnd(finalNewline) == core;
    }
  }

  /** Reads the text between `Mozilla/` and ` (KHTML, like Gecko)`. */
  function ParseInner(inner: string, finalNewline: bool): Option<EmbeddedShape> {
    match CutRunAfter(inner, MacintoshToken, IsDotOrDigit)
    case None => None
    case Some((mozilla, afterMacintosh)) =>
      match CutRunBefore(afterMacintosh, WebKitToken, IsDotOrDigit)
      case None => None
      case Some((osPart, webKit)) =>
        match CutRunBefore(osPart, MacOsToken, IsUnderscoreOrDigit)
        case None => None
        case Some((platform, osVersion)) =>
          if '\n' in platform then None
          else Some(EmbeddedShape(mozilla, platform, osVersion, webKit, finalNewline))
  }

  lemma ParseInnerSound(inner: string, finalNewline: bool)
    ensures ParseInner(inner, finalNewline).Some? ==>
      var e := ParseInner(inner, finalNewline).value;
      WellFormed(e) && Inner(e) == inner && e.finalNewline == finalNewline
  {
  }

  lemma ParseInnerOf(e: EmbeddedShape)
    requires WellFormed(e)
    ensures ParseInner(Inner(e), e.finalNewline) == Some(e)
  {
    assert MacintoshToken[0] == ' ' && WebKitToken[|WebKitToken| - 1] == '/';
    assert MacOsToken[|MacOsToken| - 1] == ' ';
    CutRunAfterOf(e.mozilla, MacintoshToken, AfterMacintosh(e), IsDotOrDigit);
    CutRunBeforeOf(OsPart(e), WebKitToken, e.webKit, IsDotOrDigit);
    CutRunBeforeOf(e.platform, MacOsToken, e.osVersion, IsUnderscoreOrDigit);
  }

  /** Reads `s` as the embedded-browser shape, if it is one. */
  function ParseMacEmbedded(s: string): Option<EmbeddedShape> {
    var (core, finalNewline) := SplitLineEnd(s);
    match Between(core, MozillaToken, KhtmlToken)
    case None => None
    case Some(inner) => ParseInner(inner, finalNewline)
  }

  /** Whatever the parser accepts has the pattern's shape and reads back as the input. */
  lemma ParseSound(s: string)
    ensures ParseMacEmbedded(s).Some? ==>
      WellFormed(ParseMacEmbedded(s).value) && Render(ParseMacEmbedded(s).value) == s
  {
    var (core, finalNewline) := SplitLineEnd(s);
    assert s == core + LineEnd(finalNewline);
    if Between(core, MozillaToken, KhtmlToken).Some? {
      ParseInnerSound(Between(core, MozillaToken, KhtmlToken).value, finalNewline);
    }
  }

  /** Every string of the pattern's shape is read back as exactly that shape. */
  lemma ParseRender(e: EmbeddedShape)
    requires WellFormed(e)
    ensures ParseMacEmbedded(Render(e)) == Some(e)
  {
    var core := MozillaToken + Inner(e) + KhtmlToken;
    assert core[|core| - 1] == KhtmlToken[|KhtmlToken| - 1] == ')';
    SplitLineEndOf(core, e.finalNewline);
    BetweenOf(MozillaToken, Inner(e), KhtmlToken);
    ParseInnerOf(e);
  }

  /** `preg_match` of the anchored embedded-browser pattern returns 1. */
  function MatchesMacEmbedded(s: string): (r: bool)
    ensures r ==> MozillaToken <= s
    ensures r ==> EndsWith(s, KhtmlToken) || EndsWith(s, KhtmlToken + "\n")
  {
    ParseSound(s);
    if ParseMacEmbedded(s).Some? then
      var e := ParseMacEmbedded(s).value;
      var core := MozillaToken + Inner(e) + KhtmlToken;
      Framed(MozillaToken, Inner(e), KhtmlToken);
      assert MozillaToken <= core + LineEnd(e.finalNewline);
      EndsWithAppend(core, KhtmlToken, LineEnd(e.finalNewline));
      assert KhtmlToken + LineEnd(false) == KhtmlToken;
      true
    else
      false
  }

  // ---------------------------------------------------------------------------
  // `/Chrom(e|ium)/` and `/UCBrowser/`

  const ChromToken := "Chrom"

  /** `preg_match('/Chrom(e|ium)/', s) === 1`: the alternation as two literal searches. */
  function MatchesChromium(s: string): (r: bool)
    ensures r <==> exists i :: OccursAt(s, ChromToken, i) && (OccursAt(s, "e", i + 5) || OccursAt(s, "ium", i + 5))
  {
    forall i
      ensures OccursAt(s, "Chrome", i) <==> OccursAt(s, ChromToken, i) && OccursAt(s, "e", i + 5)
      ensures OccursAt(s, "Chromium", i) <==> OccursAt(s, ChromToken, i) && OccursAt(s, "ium", i + 5)
    {
      OccursAtConcat(s, ChromToken, "e", i);
      OccursAtConcat(s, ChromToken, "ium", i);
    }
    Contains(s, "Chrome") || Contains(s, "Chromium")
  }

  const UcBrowserToken := "UCBrowser"

  /** `preg_match('/UCBrowser/', s) === 1`. */
  function MatchesUcBrowser(s: string): (r: bool)
    ensures r <==> exists i :: OccursAt(s, UcBrowserToken, i)
  {
    Contains(s, UcBrowserToken)
  }

  // ---------------------------------------------------------------------------
  // The four version-capturing patterns

  /** The captures PCRE returns on a string, `None` when the pattern does not match:
      - `ios`: group 1 of `\(iP.+; CPU .*OS (\d+)[_\d]*.*\) AppleWebKit\/`
      - `macos`: groups 1 and 2 of `\(Macintosh;.*Mac OS X (\d+)_(\d+)[_\d]*.*\) AppleWebKit\/`
      - `chromium`: group 1 of `Chrom[^ \/]+\/(\d+)[\.\d]*`
      - `ucBrowser`: groups 1 to 3 of `UCBrowser\/(\d+)\.(\d+)\.(\d+)[\.\d]* `
      each converted with `intval`. */
  datatype VersionMatcher = VersionMatcher(
    ios: string -> Option<nat>,
    macos: string -> Option<(nat, nat)>,
    chromium: string -> Option<nat>,
    ucBrowser: string -> Option<(nat, nat, nat)>)

  /** What any regex engine guarantees: a pattern matches only strings that
      contain each of its literal pieces. */
  ghost predicate Sound(m: VersionMatcher) {
    && (forall s :: m.ios(s).Some? ==>
          Contains(s, "(iP") && Contains(s, "; CPU ") && Contains(s, "OS ") && Contains(s, WebKitToken))
    && (forall s :: m.macos(s).Some? ==>
          Contains(s, "(Macintosh;") && Contains(s, MacOsToken) && Contains(s, WebKitToken))
    && (forall s :: m.chromium(s).Some? ==> Contains(s, ChromToken))
    && (forall s :: m.ucBrowser(s).Some? ==> Contains(s, UcBrowserToken + "/"))
  }
}
