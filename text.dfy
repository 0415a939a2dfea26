/** Literal text search and the character classes used by the user-agent patterns. */
module Text {

  /** `t` occurs in `s` starting at index `i`. */
  predicate OccursAt(s: string, t: string, i: int) {
    0 <= i && i + |t| <= |s| && s[i..i + |t|] == t
  }

  /** Searching `s` for the literal `t` at every start position, leftmost first,
      which is what an unanchored literal pattern such as `/UCBrowser/` does. */
  function Contains(s: string, t: string): (r: bool)
    ensures r <==> exists i :: OccursAt(s, t, i)
    decreases |s|
  {
    if t <= s then
      assert OccursAt(s, t, 0);
      true
    else if |s| == 0 then
      false
    else
      var rest := Contains(s[1..], t);
      OccursAtTail(s, t);
      rest
  }

  /** Occurrences in `s[1..]` are the occurrences in `s` that do not start at 0. */
  lemma OccursAtTail(s: string, t: string)
    requires |s| > 0
    ensures !(t <= s) ==> !OccursAt(s, t, 0)
    ensures forall i :: OccursAt(s[1..], t, i) ==> OccursAt(s, t, i + 1)
    ensures forall i :: OccursAt(s, t, i) && i > 0 ==> OccursAt(s[1..], t, i - 1)
  {
    forall i | OccursAt(s[1..], t, i) ensures OccursAt(s, t, i + 1) {
      assert s[i + 1..i + 1 + |t|] == s[1..][i..i + |t|];
    }
    forall i | OccursAt(s, t, i) && i > 0 ensures OccursAt(s[1..], t, i - 1) {
      assert s[1..][i - 1..i - 1 + |t|] == s[i..i + |t|];
    }
    if OccursAt(s, t, 0) {
      assert s[..|t|] == t;
    }
  }

  /** A piece of an occurring text occurs too: if `t` occurs in `s` and `u`
      is `t[k..k + |u|]`, then `u` occurs in `s`. */
  lemma ContainsPart(s: string, t: string, u: string, k: nat)
    requires Contains(s, t) && OccursAt(t, u, k)
    ensures Contains(s, u)
  {
    var i :| OccursAt(s, t, i);
    forall j | 0 <= j < |u| ensures s[i + k + j] == u[j] {
      assert s[i..i + |t|][k + j] == t[k..k + |u|][j];
    }
    assert OccursAt(s, u, i + k);
  }

  /** `t + u` occurs at `i` exactly when `t` occurs at `i` and `u` right after it. */
  lemma OccursAtConcat(s: string, t: string, u: string, i: int)
    ensures OccursAt(s, t + u, i) <==> OccursAt(s, t, i) && OccursAt(s, u, i + |t|)
  {
    if OccursAt(s, t, i) && OccursAt(s, u, i + |t|) {
      assert s[i..i + |t + u|] == s[i..i + |t|] + s[i + |t|..i + |t| + |u|];
    }
    if OccursAt(s, t + u, i) {
      assert s[i..i + |t|] == (t + u)[..|t|];
      assert s[i + |t|..i + |t| + |u|] == (t + u)[|t|..];
    }
  }

  /** `t` is a suffix of `s`. */
  predicate EndsWith(s: string, t: string) {
    |t| <= |s| && s[|s| - |t|..] == t
  }

  /** A concatenation starts with its first piece and ends with its last. */
  lemma Framed(pre: string, y: string, post: string)
    ensures pre <= pre + y + post && EndsWith(pre + y + post, post)
  {
    assert (pre + y + post)[..|pre|] == pre;
  }

  lemma EndsWithAppend(x: string, t: string, z: string)
    requires EndsWith(x, t)
    ensures EndsWith(x + z, t + z)
  {
    assert (x + z)[|x + z| - |t + z|..] == x[|x| - |t|..] + z;
  }

  /** `\d` without the Unicode modifier: an ASCII digit. */
  predicate IsDigit(c: char) {
    '0' <= c <= '9'
  }

  /** The character class `[\.\d]`. */
  predicate IsDotOrDigit(c: char) {
    c == '.' || IsDigit(c)
  }

  /** The character class `[_\d]`. */
  predicate IsUnderscoreOrDigit(c: char) {
    c == '_' || IsDigit(c)
  }

  /** Every character of `s` is in the class `p`. */
  predicate AllIn(s: string, p: char -> bool) {
    forall i :: 0 <= i < |s| ==> p(s[i])
  }

  /** The length of the longest prefix of `s` drawn from the class `p`: how far a
      greedy `[...]+` or `[...]*` reaches when the next pattern item cannot start
      with a character of that class. */
  function LeadingRun(s: string, p: char -> bool): (n: nat)
    ensures n <= |s| && AllIn(s[..n], p)
    ensures n < |s| ==> !p(s[n])
  {
    if |s| > 0 && p(s[0]) then
      var n := 1 + LeadingRun(s[1..], p);
      assert s[..n] == [s[0]] + s[1..][..n - 1];
      n
    else
      0
  }

  /** The length of the longest suffix of `s` drawn from the class `p`. */
  function TrailingRun(s: string, p: char -> bool): (n: nat)
    ensures n <= |s| && AllIn(s[|s| - n..], p)
    ensures n < |s| ==> !p(s[|s| - n - 1])
  {
    if |s| > 0 && p(s[|s| - 1]) then
      var init := s[..|s| - 1];
      var n := 1 + TrailingRun(init, p);
      assert s[|s| - n..] == init[|init| - (n - 1)..] + [s[|s| - 1]];
      n
    else
      0
  }

  /** The maximal run is unique: a class-`p` prefix followed by a character
      outside `p` (or by nothing) is exactly the leading run. */
  lemma LeadingRunOf(x: string, y: string, p: char -> bool)
    requires AllIn(x, p) && (|y| > 0 ==> !p(y[0]))
    ensures LeadingRun(x + y, p) == |x|
  {
    var s := x + y;
    assert forall j :: 0 <= j < |x| ==> s[j] == x[j];
    assert |y| > 0 ==> s[|x|] == y[0];
    var n := LeadingRun(s, p);
  }

  /** The suffix counterpart of `LeadingRunOf`. */
  lemma TrailingRunOf(x: string, y: string, p: char -> bool)
    requires AllIn(y, p) && (|x| > 0 ==> !p(x[|x| - 1]))
    ensures TrailingRun(x + y, p) == |y|
  {
    var s := x + y;
    assert forall j :: 0 <= j < |y| ==> s[|x| + j] == y[j];
    assert |x| > 0 ==> s[|x| - 1] == x[|x| - 1];
    var n := TrailingRun(s, p);
  }
}
