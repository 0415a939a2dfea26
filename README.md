# SameSiteNone classifier in Dafny

A model of the `Uvii\SameSiteNone` class. Given a browser's user-agent
string, it decides whether the `SameSite=None` cookie attribute is safe to
send. The answer is "no" for two families of clients:

- clients with the WebKit bug, which read `None` as `Strict`: iOS 12, and
  macOS 10.14 running Safari or an embedded web view;
- clients that drop cookies with an attribute value they do not know: UC
  Browser below 12.13.2, and otherwise Chromium 51 to 66.

The class holds one string. The constructor sets it and nothing changes it
afterwards. So the model is a value, `SameSite.SameSiteNone(uaStr)`, and every
method of the class is a function of that value:

- `wrappers.dfy`: `Option`.
- `text.dfy`: literal search (`Contains`), suffixes, the character classes
  `\d`, `[\.\d]` and `[_\d]`, and maximal runs of a class (how far a greedy
  `[...]+` reaches).
- `patterns.dfy`: the eight regular expressions of the class.
  - The four that are only tested for a match are modelled as the set of
    strings they match, assuming `preg_match` never fails (see "Left out"):
    - `Version\/.* Safari\/`: `MatchesSafari`, characterised by `SafariMatchAt`.
    - the anchored embedded-browser pattern: `MatchesMacEmbedded`, a
      deterministic parser into `EmbeddedShape` with a `Render` inverse.
    - `Chrom(e|ium)`: `MatchesChromium`.
    - `UCBrowser`: `MatchesUcBrowser`.
  - The four whose captured digits are read are abstract. A `VersionMatcher`
    holds one function per pattern from the string to its captures, or `None`
    when the pattern does not match. `Sound(m)` says what every regex engine
    guarantees: a pattern matches only strings that contain its literal
    pieces.
- `versions.dfy`: the lexicographic order on version sequences, with the
  proof that it is a total order.
- `samesite.dfy`: the class itself. The "start at 0, overwrite on a match"
  locals are `IosMajor`, `MacosVersion`, `ChromiumMajor` and `UcVersion`.
- `facts.dfy`: properties relating several members, and worked examples.

Two details of PCRE are modelled because the class's patterns depend on them:

- `.` does not match a line feed. So `Version/` and ` Safari/` must be on the
  same line.
- `$` without the `D` modifier also matches just before a line feed that ends
  the subject. So the embedded-browser pattern accepts its shape followed by
  one final `\n` (`EmbeddedShape.finalNewline`).

Three facts about the patterns shape the model:

- Only the embedded-browser pattern (`src/SameSiteNone.php:84`) is anchored
  to the whole string.
- The Chromium version pattern `Chrom[^ \/]+\/(\d+)` (line 96) also reads
  tokens such as `Chromeframe/`. Line 45 still requires `Chrom(e|ium)` before
  any Chromium version is consulted.
- The embedded-browser pattern's `$` also accepts one final line feed, as
  described above.

## Model

| member | source | states |
|---|---|---|
| `SameSite.IsSafe` | src/SameSiteNone.php:14-17 | the static entry point on a string equals `shouldSendSameSiteNone` of a fresh instance holding that string, i.e. neither rule applies |
| `SameSite.ShouldSendSameSiteNone` | src/SameSiteNone.php:19-22 | safe exactly when neither the WebKit rule nor the dropping rule holds |
| `SameSite.IsSameSiteNoneIncompatible` | src/SameSiteNone.php:24-28 | incompatibility requires a captured iOS 12, a captured macOS 10.14, a UC Browser token or a Chromium token |
| `SameSite.HasWebKitSameSiteBug` | src/SameSiteNone.php:30-38 | the bug holds iff the iOS pattern captured 12, or the macOS pattern captured 10.14 and the client is Safari or an embedded browser; the "no match is 0" default never triggers it |
| `SameSite.DropsUnrecognizedSameSiteCookies` | src/SameSiteNone.php:40-48 | with a UC Browser token: iff the UC version is lexicographically below 12.13.2; without one: iff Chromium-based and 51 <= Chromium major <= 66 |
| `SameSite.IsIosVersion` | src/SameSiteNone.php:50-59 | with a match, true iff the captured major version equals the target (0 included); with no match, true only for target 0; so a non-zero target needs a match with exactly that version, and a negative target never holds |
| `SameSite.IsMacosxVersion` | src/SameSiteNone.php:61-73 | with a match, true iff the captured major and minor both equal the target (0.0 included); with no match, true only for 0.0; so a target other than 0.0 needs a match with exactly that version |
| `SameSite.IsSafari` | src/SameSiteNone.php:75-80 | true iff `Version/` is followed on the same line by ` Safari/` and there is no Chromium token; both tokens then occur |
| `SameSite.IsMacEmbeddedBrowser` | src/SameSiteNone.php:82-86 | an embedded browser's string starts with `Mozilla/` and ends with ` (KHTML, like Gecko)`, optionally followed by one line feed |
| `SameSite.IsChromiumBased` | src/SameSiteNone.php:88-92 | true iff some `Chrom` is followed by `e` or by `ium`; `Chrom` then occurs |
| `SameSite.IsChromiumVersionAtLeast` | src/SameSiteNone.php:94-102 | with a captured version v, true iff v >= target; with no match, true only for targets <= 0 |
| `SameSite.IsUcBrowser` | src/SameSiteNone.php:104-108 | true iff `UCBrowser` occurs somewhere in the string |
| `SameSite.IsUcBrowserVersionAtLeast` | src/SameSiteNone.php:110-128 | the nested early returns equal the lexicographic order: captured (or 0.0.0) version >= (major, minor, build) |
| `Text.Contains` | src/SameSiteNone.php:106 | the leftmost-first literal search is true iff the literal occurs at some index |
| `Text.LeadingRun` | src/SameSiteNone.php:84 | the greedy `[\.\d]+` run: every character of the prefix is in the class and the next one is not |
| `Text.TrailingRun` | src/SameSiteNone.php:84 | the same maximal run read from the end of the string |
| `Text.LeadingRunOf` | src/SameSiteNone.php:84 | a class prefix followed by a character outside the class is exactly the maximal run |
| `Text.TrailingRunOf` | src/SameSiteNone.php:84 | the suffix counterpart: a class suffix preceded by a character outside the class is the maximal run |
| `Patterns.MatchesSafari` | src/SameSiteNone.php:77-78 | the pattern matches iff some `Version/` at i and ` Safari/` at j >= i + 8 have no line feed between them |
| `Patterns.MatchesSafariFrom` | src/SameSiteNone.php:77-78 | the search over start positions from `from` finds a match iff one starts at or after `from` |
| `Patterns.MatchesSafariAtIff` | src/SameSiteNone.php:77 | at a fixed start, "` Safari/` on the rest of the line" is the same as "some ` Safari/` with no line feed before it" |
| `Patterns.FirstLineOccurs` | src/SameSiteNone.php:77 | a literal without line feeds occurs on the first line iff it occurs with no line feed before it |
| `Patterns.CutRunAfter` | src/SameSiteNone.php:84 | a successful split gives a non-empty class run, the token, and the rest, which concatenate back to the input |
| `Patterns.CutRunBefore` | src/SameSiteNone.php:84 | a successful split gives the front, the token, and a non-empty class run, which concatenate back to the input |
| `Patterns.CutRunAfterOf` | src/SameSiteNone.php:84 | a run followed by a token that cannot extend it is split back into exactly those pieces |
| `Patterns.CutRunBeforeOf` | src/SameSiteNone.php:84 | a token followed by a run that cannot reach back into it is split back into exactly those pieces |
| `Patterns.Between` | src/SameSiteNone.php:84 | the `^Mozilla\/` and `\(KHTML, like Gecko\)$` anchors: the text between them concatenates back to the input |
| `Patterns.BetweenOf` | src/SameSiteNone.php:84 | the anchors are stripped from a framed text to give back exactly the framed part |
| `Patterns.SplitLineEndOf` | src/SameSiteNone.php:84 | PCRE's `$`: a final line feed is split off exactly when present |
| `Patterns.ParseInnerSound` | src/SameSiteNone.php:84 | whatever the inner parser accepts is well formed and renders back to its input |
| `Patterns.ParseInnerOf` | src/SameSiteNone.php:84 | every well-formed inner text is parsed back into its parts |
| `Patterns.ParseSound` | src/SameSiteNone.php:84 | every accepted string has the pattern's shape and renders back to itself |
| `Patterns.ParseRender` | src/SameSiteNone.php:84 | round trip: every string of the pattern's shape is parsed back into exactly its parts |
| `Patterns.MatchesMacEmbedded` | src/SameSiteNone.php:84-85 | a match starts with `Mozilla/` and ends with ` (KHTML, like Gecko)` or with that and a line feed |
| `Patterns.MatchesChromium` | src/SameSiteNone.php:90-91 | `Chrom(e\|ium)` as two literal searches: true iff some `Chrom` is followed by `e` or `ium` |
| `Patterns.MatchesUcBrowser` | src/SameSiteNone.php:106-107 | true iff `UCBrowser` occurs at some index |
| `Versions.LexReflexive` | src/SameSiteNone.php:121-127 | every version is at least itself |
| `Versions.LexTotal` | src/SameSiteNone.php:121-127 | of two versions, one is at least the other |
| `Versions.LexAntisymmetric` | src/SameSiteNone.php:121-127 | versions at least each other are equal |
| `Versions.LexTransitive` | src/SameSiteNone.php:121-127 | the order is transitive |
| `Versions.LexTriple` | src/SameSiteNone.php:121-127 | on triples the order is: major decides, then minor on a tie, then build with >= |
| `SameSiteFacts.IsSafeDecisionTable` | src/SameSiteNone.php:14-48 | the entry point is the negation of the whole decision table, read off the captures and the literal patterns |
| `SameSiteFacts.UnknownAgentIsSafe` | src/SameSiteNone.php:30-48 | a string with none of `(iP`, `Macintosh`, `Chrom`, `UCBrowser` is safe under any sound matcher |
| `SameSiteFacts.DefaultIsSafe` | src/SameSiteNone.php:10-12 | an instance built with the default empty string is safe |
| `SameSiteFacts.UcBrowserTakesPrecedence` | src/SameSiteNone.php:42-44 | with a UC Browser token the dropping rule depends only on the UC version, not on any Chromium capture |
| `SameSiteFacts.UcVersionAtLeastItself` | src/SameSiteNone.php:121-127 | the captured UC version meets itself as a threshold |
| `SameSiteFacts.UcThresholdMonotone` | src/SameSiteNone.php:121-127 | meeting a UC threshold means meeting every lexicographically lower one |
| `SameSiteFacts.UcThresholdsOrdered` | src/SameSiteNone.php:121-127 | failing a UC threshold means the version is strictly below it |
| `SameSiteFacts.UcWithoutVersionDrops` | src/SameSiteNone.php:113-127 | without a version match, 0.0.0 is below 12.13.2, so a UC Browser token alone drops the cookie |
| `SameSiteFacts.ChromiumThresholdMonotone` | src/SameSiteNone.php:94-102 | meeting a Chromium threshold means meeting every lower one |
| `SameSiteFacts.ChromiumWindow` | src/SameSiteNone.php:45-47 | without UC Browser, the rule holds iff Chromium-based and a captured major version lies in [51, 67) |
| `SameSiteFacts.SafariIsNotChromium` | src/SameSiteNone.php:78-79 | Safari and Chromium-based never both hold |
| `SameSiteFacts.WebKitBugOnMacNeeds1014` | src/SameSiteNone.php:33-35 | the macOS branch of the WebKit rule holds only with a captured 10.14 and Safari or an embedded browser |
| `SameSiteFacts.MacEmbeddedIffShape` | src/SameSiteNone.php:84-85 | the embedded-browser test is true exactly for the strings rendered from well-formed parts |
| `SameSiteFacts.IosExamples` | src/SameSiteNone.php:32 | a captured iOS 12 is unsafe; a captured iOS 13 with no macOS, UC Browser or Chromium signal is safe |
| `SameSiteFacts.MacSafariExamples` | src/SameSiteNone.php:33-35 | Safari with a captured macOS 10.14 is unsafe; with 10.15 (and no iOS or UC Browser signal) it is safe |
| `SameSiteFacts.ChromiumExamples` | src/SameSiteNone.php:45-47 | Chrome 50 and 70 are outside the window; Chrome 60 is inside it and unsafe |
| `SameSiteFacts.UcBrowserExamples` | src/SameSiteNone.php:42-44 | UC Browser 12.13.1 is unsafe; 12.13.2 and 12.14.0 do not drop the cookie |
| `SameSiteFacts.MojaveWebViewIsUnsafe` | src/SameSiteNone.php:33-35 | `Mozilla/5.0 (Macintosh; Intel Mac OS X 10_14_6) AppleWebKit/605.1.15 (KHTML, like Gecko)` is an embedded browser, and unsafe when 10.14 is captured |
| `SameSiteFacts.WebViewWithBrowserTokenIsNotEmbedded` | src/SameSiteNone.php:84 | the same string followed by ` Version/13.0.3 Safari/605.1.15` is not an embedded browser |

## Left out

- Which digits PCRE captures for the four version patterns (lines 53, 64, 96, 112) is not modelled. That depends on leftmost-first matching and greedy backtracking `.*`/`.+`. `VersionMatcher` is a parameter of every classifier function, and `Sound` constrains it only by the literal pieces each pattern needs. So the lemmas hold for every such engine, and the worked examples for iOS, macOS, Chrome and UC Browser take the captured version as a hypothesis.
- `preg_match` returns `false` when PCRE fails, for example when it reaches `pcre.backtrack_limit` or the JIT stack limit. The unanchored `Version\/.* Safari\/` rescans the rest of the line from every `Version/`, so a long line of repeated `Version/` tokens can cause this. Lines 78 and 85 then give false for `isSafari` and `isMacEmbeddedBrowser` even where the pattern matches. The model assumes `preg_match` never fails and decides the language exactly. For the four version patterns a failure looks like no match, which `None` already covers.
- `intval` saturates at `PHP_INT_MAX` for very long digit runs. The captures are unbounded naturals.
- `declare(strict_types = 1)` and the `String` parameter types only reject non-string input at the boundary. Every input here is a string.
- `$uaStr` is a public field, so callers could reassign it. The class never does, and the model treats the instance as an immutable value.
- PCRE without the `u` modifier reads bytes, while the model reads characters. No pattern here has a multi-byte literal. A line feed is the only line terminator, as in PCRE's default build.
- How callers use the boolean, for example emitting the `Set-Cookie` header, is not part of this code.
- Purity is not stated as a lemma. Every member is a Dafny function, so equal inputs give equal results by construction.
