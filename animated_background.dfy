/**
 * The animated background component. It fetches `/static/images/backgrounds/<type>.svg`,
 * rewrites the SVG text with a fixed chain of regular-expression and literal replacements,
 * keeps the result as component state and, when rendering, injects a positioning style into
 * the first `<svg` tag.
 *
 * Each regular expression of the chain is a `Pattern`. `MatchAt` is what a JavaScript engine
 * finds when it tries the pattern at the start of a text (greedy quantifiers, with
 * backtracking where it matters). `ReplaceMatches` is `String.prototype.replace` with the `g`
 * flag: the leftmost match is replaced and the search resumes just after it.
 */
module AnimatedBackground {
  import opened Wrappers
  import opened Text

  /** `\s` in a JavaScript regular expression: the WhiteSpace and LineTerminator code points. */
  predicate IsRegexSpace(c: char) {
    c == '\t' || c == '\n' || c == '\U{000B}' || c == '\U{000C}' || c == '\r' || c == ' '
    || c == '\U{00A0}' || c == '\U{1680}' || ('\U{2000}' <= c <= '\U{200A}')
    || c == '\U{2028}' || c == '\U{2029}' || c == '\U{202F}' || c == '\U{205F}'
    || c == '\U{3000}' || c == '\U{FEFF}'
  }

  /** The double quote that delimits attribute values. */
  const DoubleQuote: char := 0x22 as char

  /** The single quote, the other attribute-value delimiter. */
  const SingleQuote: char := 0x27 as char

  /** The characters the value class `[^;\s"']` of an inline declaration refuses. */
  predicate EndsDeclaration(c: char) {
    c == ';' || c == DoubleQuote || c == SingleQuote || IsRegexSpace(c)
  }

  /** Greedy `\s*`: the length of the whitespace run at the start of `s`. */
  function SpaceRun(s: string): (n: nat)
    ensures n <= |s|
    ensures forall i :: 0 <= i < n ==> IsRegexSpace(s[i])
    ensures n < |s| ==> !IsRegexSpace(s[n])
  {
    if s != [] && IsRegexSpace(s[0]) then 1 + SpaceRun(s[1..]) else 0
  }

  /** Greedy `[^;\s"']*`: the length of the declaration value at the start of `s`. */
  function DeclarationRun(s: string): (n: nat)
    ensures n <= |s|
    ensures forall i :: 0 <= i < n ==> !EndsDeclaration(s[i])
    ensures n < |s| ==> EndsDeclaration(s[n])
  {
    if s != [] && !EndsDeclaration(s[0]) then 1 + DeclarationRun(s[1..]) else 0
  }

  /** The first position of `c` in `s`, if any. */
  function FirstIndexOf(s: string, c: char): (r: Option<nat>)
    ensures r.Some? ==> r.value < |s| && s[r.value] == c && c !in s[..r.value]
    ensures r.None? <==> c !in s
  {
    if s == [] then None
    else if s[0] == c then Some(0)
    else match FirstIndexOf(s[1..], c)
      case None => None
      case Some(i) =>
        assert s[..i + 1] == [s[0]] + s[1..][..i];
        Some(i + 1)
  }

  /** `s` begins with `key` when ASCII letters are compared without case (the `i` flag). */
  predicate StartsWithIgnoringCase(s: string, key: string) {
    |key| <= |s| && Lower(s[..|key|]) == Lower(key)
  }

  /** The regular expressions the component applies, each with the `g` flag. */
  datatype Pattern =
    | StyleInSvgTag               // <svg([^>]+)style="[^"]*"([^>]*)>, replaced by <svg$1$2>
    | Declaration(property: string)  // <property>:[^;\s"']* with the i flag, removed
    | SizeAttribute(name: string)    // \s+<name>="[^"]*", removed
    | AspectRatioAttribute           // preserveAspectRatio="[^"]*", given the slice value

  /** A match at the start of a text: how many characters it spans and what replaces them. */
  datatype Match = Match(length: nat, replacement: string)

  const StyleOpen := "style=" + [DoubleQuote]
  const AspectRatioName := "preserveAspectRatio"
  const AspectRatioOpen := AspectRatioName + "=" + [DoubleQuote]
  const SliceValue := "xMidYMid slice"
  const SliceAttribute := AspectRatioOpen + SliceValue + [DoubleQuote]

  /**
   * The text after `<svg` is `g1 style="v" g2>`, with the groups and the value as the
   * regular expression's classes allow them.
   */
  predicate StyledTag(rest: string, g1: string, v: string, g2: string) {
    |g1| >= 1 && '>' !in g1 && DoubleQuote !in v && '>' !in g2
    && rest == g1 + StyleOpen + v + [DoubleQuote] + g2 + ">"
  }

  /** The match an attempt reports once it has found the closing quote and the closing `>`. */
  function StyleFound(t: string, q: nat, e: nat, f: nat): (r: Match)
    requires 1 <= q <= |t| && '>' !in t[..q] && StartsWith(t[q..], StyleOpen)
    requires FirstIndexOf(t[q + |StyleOpen|..], DoubleQuote) == Some(e)
    requires FirstIndexOf(t[q + |StyleOpen| + e + 1..], '>') == Some(f)
    ensures 1 <= r.length <= |t|
    ensures exists g1, v, g2 :: StyledTag(t[..r.length], g1, v, g2) && r.replacement == "<svg" + g1 + g2 + ">"
  {
    var close := q + |StyleOpen| + e + 1;
    var g1, v, g2 := t[..q], t[q + |StyleOpen|..close - 1], t[close..close + f];
    assert v == t[q + |StyleOpen|..][..e] && t[close - 1] == DoubleQuote;
    assert g2 == t[close..][..f] && t[close + f] == '>';
    SplitTag(t, q, close, f);
    assert StyledTag(t[..close + f + 1], g1, v, g2);
    Match(close + f + 1, "<svg" + g1 + g2 + ">")
  }

  /** The cut points of a style match split the tag text into its parts. */
  lemma SplitTag(t: string, q: nat, close: nat, f: nat)
    requires q + |StyleOpen| < close && close + f < |t| && StartsWith(t[q..], StyleOpen)
    ensures t[..close + f + 1]
      == t[..q] + StyleOpen + t[q + |StyleOpen|..close - 1] + [t[close - 1]] + t[close..close + f] + [t[close + f]]
  {
    assert t[q..q + |StyleOpen|] == StyleOpen;
    assert t[..close + f + 1] == t[..q] + t[q..q + |StyleOpen|] + t[q + |StyleOpen|..close - 1] + t[close - 1..close + f + 1];
    assert t[close - 1..close + f + 1] == [t[close - 1]] + t[close..close + f] + [t[close + f]];
  }

  /**
   * One attempt of `([^>]+)style="[^"]*"([^>]*)>` on the text `t` that follows `<svg`, with
   * the first group holding `t[..q]`. `[^"]*` and `[^>]*` can only end at the first quote and
   * the first `>` after them.
   */
  function StyleAttempt(t: string, q: nat): (r: Option<Match>)
    requires 1 <= q <= |t| && '>' !in t[..q]
    ensures r.Some? ==> 1 <= r.value.length <= |t|
    ensures r.Some? ==>
      exists g1, v, g2 :: StyledTag(t[..r.value.length], g1, v, g2) && r.value.replacement == "<svg" + g1 + g2 + ">"
  {
    if !StartsWith(t[q..], StyleOpen) then None
    else
      match FirstIndexOf(t[q + |StyleOpen|..], DoubleQuote)
      case None => None
      case Some(e) =>
        match FirstIndexOf(t[q + |StyleOpen| + e + 1..], '>')
        case None => None
        case Some(f) => Some(StyleFound(t, q, e, f))
  }

  /**
   * The attempts with first groups `t[..q]`, `t[..q - 1]`, …, `t[..1]` in that order, as
   * backtracking tries them: the first that succeeds is the match.
   */
  function StyleAttributeFrom(t: string, q: nat): (r: Option<Match>)
    requires q <= |t| && '>' !in t[..q]
    ensures r.Some? ==> 1 <= r.value.length <= |t|
    ensures r.Some? ==>
      exists g1, v, g2 :: StyledTag(t[..r.value.length], g1, v, g2) && r.value.replacement == "<svg" + g1 + g2 + ">"
    decreases q
  {
    if q == 0 then None
    else match StyleAttempt(t, q)
      case Some(m) => Some(m)
      case None =>
        assert t[..q - 1] == t[..q][..q - 1];
        StyleAttributeFrom(t, q - 1)
  }

  /** The regular expression after `<svg`: `[^>]+` first takes everything up to the first `>`. */
  function StyleAfterOpen(t: string): (r: Option<Match>)
    ensures r.Some? ==> 1 <= r.value.length <= |t|
    ensures r.Some? ==>
      exists g1, v, g2 :: StyledTag(t[..r.value.length], g1, v, g2) && r.value.replacement == "<svg" + g1 + g2 + ">"
  {
    match FirstIndexOf(t, '>')
    case Some(g) => StyleAttributeFrom(t, g)
    case None =>
      assert t[..|t|] == t;
      StyleAttributeFrom(t, |t|)
  }

  /** `<svg([^>]+)style="[^"]*"([^>]*)>` at the start of `s`. */
  function StyleMatch(s: string): (r: Option<Match>)
    ensures r.Some? ==> StartsWith(s, "<svg") && 4 < r.value.length <= |s|
    ensures r.Some? ==>
      exists g1, v, g2 :: StyledTag(s[4..r.value.length], g1, v, g2) && r.value.replacement == "<svg" + g1 + g2 + ">"
  {
    if !StartsWith(s, "<svg") then None
    else match StyleAfterOpen(s[4..])
      case None => None
      case Some(m) =>
        StyledAfterOpen(s, m, m.length + 4);
        Some(Match(m.length + 4, m.replacement))
  }

  /** A styled tag found in the text after `<svg` is the same tag at offset 4 of the whole text. */
  lemma StyledAfterOpen(s: string, m: Match, end: nat)
    requires end == m.length + 4 && end <= |s|
    requires exists g1, v, g2 :: StyledTag(s[4..][..m.length], g1, v, g2) && m.replacement == "<svg" + g1 + g2 + ">"
    ensures exists g1, v, g2 :: StyledTag(s[4..end], g1, v, g2) && m.replacement == "<svg" + g1 + g2 + ">"
  {
    var g1, v, g2 :| StyledTag(s[4..][..m.length], g1, v, g2) && m.replacement == "<svg" + g1 + g2 + ">";
    assert s[4..][..m.length] == s[4..end];
    assert StyledTag(s[4..end], g1, v, g2);
  }

  /** `<property>:[^;\s"']*` with the `i` flag at the start of `s`, removed. */
  function DeclarationMatch(property: string, s: string): (r: Option<Match>)
    ensures r.Some? <==> StartsWithIgnoringCase(s, property + ":")
    ensures r.Some? ==> |property| + 1 <= r.value.length <= |s| && r.value.replacement == []
    ensures r.Some? ==>
      (forall i :: |property| + 1 <= i < r.value.length ==> !EndsDeclaration(s[i]))
      && (r.value.length < |s| ==> EndsDeclaration(s[r.value.length]))
  {
    var key := property + ":";
    if StartsWithIgnoringCase(s, key) then
      var n := DeclarationRun(s[|key|..]);
      assert forall i :: |key| <= i <= |key| + n && i < |s| ==> s[i] == s[|key|..][i - |key|];
      Some(Match(|key| + n, []))
    else None
  }

  /** `\s+<name>="[^"]*"` at the start of `s`, removed. */
  function SizeMatch(name: string, s: string): (r: Option<Match>)
    ensures r.Some? ==> 1 <= r.value.length <= |s| && r.value.replacement == []
    ensures r.Some? ==> IsRegexSpace(s[0]) && s[r.value.length - 1] == DoubleQuote
  {
    if s != [] && IsRegexSpace(s[0]) then
      var w := SpaceRun(s);
      var open := name + "=" + [DoubleQuote];
      if StartsWith(s[w..], open) then
        match FirstIndexOf(s[w + |open|..], DoubleQuote)
        case None => None
        case Some(j) => Some(Match(w + |open| + j + 1, []))
      else None
    else None
  }

  /** `preserveAspectRatio="[^"]*"` at the start of `s`, given the slice value. */
  function AspectMatch(s: string): (r: Option<Match>)
    ensures r.Some? ==> StartsWith(s, AspectRatioOpen) && r.value.replacement == SliceAttribute
    ensures r.Some? ==> |AspectRatioOpen| < r.value.length <= |s| && s[r.value.length - 1] == DoubleQuote
    ensures r.Some? ==> forall i :: |AspectRatioOpen| <= i < r.value.length - 1 ==> s[i] != DoubleQuote
    ensures r.None? ==> !StartsWith(s, AspectRatioOpen) || forall i :: |AspectRatioOpen| <= i < |s| ==> s[i] != DoubleQuote
  {
    if StartsWith(s, AspectRatioOpen) then
      match FirstIndexOf(s[|AspectRatioOpen|..], DoubleQuote)
      case None => None
      case Some(j) =>
        assert s[|AspectRatioOpen|..|AspectRatioOpen| + j] == s[|AspectRatioOpen|..][..j];
        Some(Match(|AspectRatioOpen| + j + 1, SliceAttribute))
    else None
  }

  /** What the pattern matches at the very start of `s`, if anything. */
  function MatchAt(pat: Pattern, s: string): (r: Option<Match>)
    ensures r.Some? ==> 1 <= r.value.length <= |s|
    ensures r.Some? && (pat.Declaration? || pat.SizeAttribute?) ==> r.value.replacement == []
  {
    match pat
    case StyleInSvgTag => StyleMatch(s)
    case Declaration(property) => DeclarationMatch(property, s)
    case SizeAttribute(name) => SizeMatch(name, s)
    case AspectRatioAttribute => AspectMatch(s)
  }

  /** `s.replace(pattern, replacement)` with the `g` flag. */
  function ReplaceMatches(s: string, pat: Pattern): string
    decreases |s|
  {
    if s == [] then []
    else match MatchAt(pat, s)
      case Some(m) => m.replacement + ReplaceMatches(s[m.length..], pat)
      case None => [s[0]] + ReplaceMatches(s[1..], pat)
  }

  /** The pattern matches somewhere in `s`. */
  predicate HasMatch(s: string, pat: Pattern) {
    exists i :: 0 <= i < |s| && MatchAt(pat, s[i..]).Some?
  }

  /** A text the pattern does not match anywhere comes back unchanged. */
  lemma {:induction false} NoMatchUnchanged(s: string, pat: Pattern)
    requires !HasMatch(s, pat)
    ensures ReplaceMatches(s, pat) == s
  {
    if s != [] {
      assert s[0..] == s;
      forall i | 0 <= i < |s| - 1
        ensures MatchAt(pat, s[1..][i..]).None?
      {
        assert s[1..][i..] == s[i + 1..];
      }
      NoMatchUnchanged(s[1..], pat);
    }
  }

  /** The removing patterns only delete characters: the result is a subsequence of the text. */
  lemma {:induction false} RemovalKeepsOrder(s: string, pat: Pattern)
    requires pat.Declaration? || pat.SizeAttribute?
    ensures Subsequence(ReplaceMatches(s, pat), s)
    decreases |s|
  {
    if s != [] {
      match MatchAt(pat, s)
      case Some(m) =>
        RemovalKeepsOrder(s[m.length..], pat);
        assert ReplaceMatches(s, pat) == ReplaceMatches(s[m.length..], pat);
        SubsequenceOfSuffix(ReplaceMatches(s[m.length..], pat), s, m.length);
      case None =>
        RemovalKeepsOrder(s[1..], pat);
        var out := ReplaceMatches(s, pat);
        assert out[0] == s[0] && out[1..] == ReplaceMatches(s[1..], pat);
    }
  }

  /** A match at position `i` of `s` is a match at position `i - 1` of `s[1..]`. */
  lemma MatchInTail(s: string, pat: Pattern)
    requires s != []
    ensures HasMatch(s, pat) <==> MatchAt(pat, s).Some? || HasMatch(s[1..], pat)
  {
    assert s[0..] == s;
    if HasMatch(s, pat) {
      var i :| 0 <= i < |s| && MatchAt(pat, s[i..]).Some?;
      if i > 0 { assert s[1..][i - 1..] == s[i..]; }
    }
    if HasMatch(s[1..], pat) {
      var i :| 0 <= i < |s| - 1 && MatchAt(pat, s[1..][i..]).Some?;
      assert s[1..][i..] == s[i + 1..];
    }
  }

  /**
   * A removing pattern never lengthens the text, and shortens it exactly when it matches
   * somewhere: the text comes back unchanged if and only if the pattern is absent.
   */
  lemma {:induction false} RemovalShrinks(s: string, pat: Pattern)
    requires pat.Declaration? || pat.SizeAttribute?
    ensures |ReplaceMatches(s, pat)| <= |s|
    ensures HasMatch(s, pat) <==> |ReplaceMatches(s, pat)| < |s|
    decreases |s|
  {
    if s != [] {
      MatchInTail(s, pat);
      match MatchAt(pat, s)
      case Some(m) =>
        RemovalShrinks(s[m.length..], pat);
      case None =>
        RemovalShrinks(s[1..], pat);
    }
  }

  lemma {:induction false} SubsequenceOfSuffix<T>(xs: seq<T>, ys: seq<T>, k: nat)
    requires k <= |ys| && Subsequence(xs, ys[k..])
    ensures Subsequence(xs, ys)
    decreases k
  {
    if k > 0 {
      assert ys[1..][k - 1..] == ys[k..];
      SubsequenceOfSuffix(xs, ys[1..], k - 1);
      SubsequenceSkip(xs, ys);
    }
  }

  /** Every `preserveAspectRatio="…"` attribute of `s` that is closed has the slice value. */
  predicate AspectValuesSliced(s: string) {
    forall i :: 0 <= i < |s| && StartsWith(s[i..], AspectRatioOpen) && DoubleQuote in s[i + |AspectRatioOpen|..]
      ==> StartsWith(s[i + |AspectRatioOpen|..], SliceValue + "\"")
  }

  /** `preserveAspectRatio="` begins only at the first character of the slice attribute. */
  lemma AspectOpenOnlyAtStart(t: string, i: nat)
    requires 0 < i < |SliceAttribute|
    ensures !StartsWith((SliceAttribute + t)[i..], AspectRatioOpen)
  {
    var x := SliceAttribute + t;
    assert forall k :: 0 < k < |SliceAttribute| && SliceAttribute[k] == 'p' ==> k == 10;
    assert SliceAttribute[11] == 'e';
    assert x[i] != 'p' || x[i + 1] != 'r';
    assert AspectRatioOpen[0] == 'p' && AspectRatioOpen[1] == 'r';
    if |AspectRatioOpen| <= |x[i..]| {
      assert x[i..][..|AspectRatioOpen|][0] == x[i] && x[i..][..|AspectRatioOpen|][1] == x[i + 1];
    }
  }

  /**
   * A replaced text begins with the tail `AspectRatioOpen[m..]` only when the original text
   * does: no slice attribute can complete a partial `preserveAspectRatio="`.
   */
  lemma {:induction false} AspectTailKept(u: string, m: nat)
    requires 1 <= m <= |AspectRatioOpen|
    requires StartsWith(ReplaceMatches(u, AspectRatioAttribute), AspectRatioOpen[m..])
    ensures StartsWith(u, AspectRatioOpen[m..])
    decreases |u|
  {
    if m < |AspectRatioOpen| && u != [] {
      var out := ReplaceMatches(u, AspectRatioAttribute);
      if MatchAt(AspectRatioAttribute, u).Some? {
        var mt := MatchAt(AspectRatioAttribute, u).value;
        assert out == SliceAttribute + ReplaceMatches(u[mt.length..], AspectRatioAttribute);
        SliceNeverContinuesOpen(ReplaceMatches(u[mt.length..], AspectRatioAttribute), m);
        assert false;
      }
      assert out[0] == u[0] && out[1..] == ReplaceMatches(u[1..], AspectRatioAttribute);
      assert AspectRatioOpen[m..][1..] == AspectRatioOpen[m + 1..];
      AspectTailKept(u[1..], m + 1);
    }
  }

  /** A slice attribute at the start never continues a partial `preserveAspectRatio="`. */
  lemma SliceNeverContinuesOpen(x: string, m: nat)
    requires 1 <= m < |AspectRatioOpen|
    ensures !StartsWith(SliceAttribute + x, AspectRatioOpen[m..])
  {
    var y := SliceAttribute + x;
    var tail := AspectRatioOpen[m..];
    assert forall k :: 0 < k < |AspectRatioOpen| && AspectRatioOpen[k] == 'p' ==> k == 10;
    assert AspectRatioOpen[11] == 'e' && AspectRatioOpen[|AspectRatioOpen| - 1] == DoubleQuote;
    assert y[0] == 'p' && y[1] == 'r';
    assert tail[0] != 'p' || (|tail| >= 2 && tail[1] != 'r');
    if |tail| <= |y| {
      assert y[..|tail|][0] == y[0];
      if |tail| >= 2 { assert y[..|tail|][1] == y[1]; }
    }
  }

  /** Putting the slice attribute in front keeps every closed attribute sliced. */
  lemma SlicedAfterAttribute(t: string)
    requires AspectValuesSliced(t)
    ensures AspectValuesSliced(SliceAttribute + t)
  {
    var out := SliceAttribute + t;
    forall i | 0 <= i < |out| && StartsWith(out[i..], AspectRatioOpen) && DoubleQuote in out[i + |AspectRatioOpen|..]
      ensures StartsWith(out[i + |AspectRatioOpen|..], SliceValue + "\"")
    {
      if i == 0 {
        assert out[|AspectRatioOpen|..][..|SliceValue| + 1] == SliceValue + "\"";
      } else if i < |SliceAttribute| {
        AspectOpenOnlyAtStart(t, i);
      } else {
        assert out[i..] == t[i - |SliceAttribute|..];
        assert out[i + |AspectRatioOpen|..] == t[i - |SliceAttribute| + |AspectRatioOpen|..];
      }
    }
  }

  /** Putting a character in front keeps every closed attribute sliced unless it opens one. */
  lemma SlicedAfterChar(c: char, t: string)
    requires AspectValuesSliced(t)
    requires StartsWith([c] + t, AspectRatioOpen) ==> DoubleQuote !in ([c] + t)[|AspectRatioOpen|..]
    ensures AspectValuesSliced([c] + t)
  {
    var out := [c] + t;
    forall i | 0 < i < |out| && StartsWith(out[i..], AspectRatioOpen) && DoubleQuote in out[i + |AspectRatioOpen|..]
      ensures StartsWith(out[i + |AspectRatioOpen|..], SliceValue + "\"")
    {
      assert out[i..] == t[i - 1..];
      assert out[i + |AspectRatioOpen|..] == t[i - 1 + |AspectRatioOpen|..];
    }
    assert out[0..] == out;
  }

  /**
   * When the text opens `preserveAspectRatio="` at its start but never closes a value after it,
   * no match starts anywhere, so the rewrite leaves the text alone.
   */
  lemma UnclosedUnchanged(s: string)
    requires StartsWith(s, AspectRatioOpen) && DoubleQuote !in s[|AspectRatioOpen|..]
    ensures ReplaceMatches(s, AspectRatioAttribute) == s
  {
    forall k | 0 <= k < |s|
      ensures MatchAt(AspectRatioAttribute, s[k..]).None?
    {
      if k > 0 && StartsWith(s[k..], AspectRatioOpen) {
        assert s[k..][|AspectRatioOpen|..] == s[|AspectRatioOpen|..][k..];
      }
    }
    NoMatchUnchanged(s, AspectRatioAttribute);
  }

  /**
   * The rewrite of `preserveAspectRatio` values: afterwards every closed attribute has the
   * value `xMidYMid slice`.
   */
  lemma {:induction false} AspectValuesAllSliced(s: string)
    ensures AspectValuesSliced(ReplaceMatches(s, AspectRatioAttribute))
    decreases |s|
  {
    if s != [] {
      match MatchAt(AspectRatioAttribute, s)
      case Some(m) =>
        AspectValuesAllSliced(s[m.length..]);
        SlicedAfterAttribute(ReplaceMatches(s[m.length..], AspectRatioAttribute));
      case None =>
        var t := ReplaceMatches(s[1..], AspectRatioAttribute);
        AspectValuesAllSliced(s[1..]);
        var out := [s[0]] + t;
        if StartsWith(out, AspectRatioOpen) {
          assert StartsWith(t, AspectRatioOpen[1..]) by {
            assert t[..|AspectRatioOpen| - 1] == out[1..|AspectRatioOpen|];
          }
          AspectTailKept(s[1..], 1);
          assert s[..|AspectRatioOpen|] == [s[0]] + s[1..][..|AspectRatioOpen| - 1];
          UnclosedUnchanged(s);
        }
        SlicedAfterChar(s[0], t);
    }
  }

  // ----- the literal replacements -----

  /** `p` occurs first at `i` in `s`. */
  predicate FirstAt(s: string, p: string, i: nat) {
    i + |p| <= |s| && s[i..i + |p|] == p && forall j :: 0 <= j < i ==> !StartsWith(s[j..], p)
  }

  /**
   * `s.replace(p, p + extra)` with a string pattern: `extra` goes in just after the first
   * occurrence of `p`, and nothing else changes; without an occurrence the text is unchanged.
   */
  lemma InsertAfterFirst(s: string, p: string, extra: string)
    ensures Contains(s, p) ==>
      exists i: nat :: FirstAt(s, p, i) && ReplaceFirst(s, p, p + extra) == s[..i + |p|] + extra + s[i + |p|..]
    ensures !Contains(s, p) ==> ReplaceFirst(s, p, p + extra) == s
  {
    if Contains(s, p) { InsertedAfterFound(s, p, extra); }
  }

  lemma InsertedAfterFound(s: string, p: string, extra: string)
    requires Contains(s, p)
    ensures exists i: nat :: FirstAt(s, p, i) && ReplaceFirst(s, p, p + extra) == s[..i + |p|] + extra + s[i + |p|..]
  {
    var i := IndexOf(s, p).value;
    ReplacedAtIndex(s, p, p + extra);
    InsertedAt(s, p, extra, i);
    assert FirstAt(s, p, i);
  }

  lemma ReplacedAtIndex(s: string, p: string, r: string)
    requires Contains(s, p)
    ensures ReplaceFirst(s, p, r) == s[..IndexOf(s, p).value] + r + s[IndexOf(s, p).value + |p|..]
  {
  }

  lemma InsertedAt(s: string, p: string, extra: string, i: nat)
    requires i + |p| <= |s| && s[i..i + |p|] == p
    ensures s[..i] + (p + extra) + s[i + |p|..] == s[..i + |p|] + extra + s[i + |p|..]
  {
    assert s[..i + |p|] == s[..i] + s[i..i + |p|];
  }

  /**
   * `q` can neither start inside an inserted `r` nor run from the text into one: `r` lacks
   * `q`'s first character, `q` lacks `r`'s second, and `q` does not end with `r`'s first.
   */
  predicate Separated(q: string, r: string) {
    |q| > 0 && |r| >= 2 && q[0] !in r && r[1] !in q && q[|q| - 1] != r[0]
  }

  /** A prefix of a replaced text either is a prefix of the original or runs into an `r`. */
  lemma {:induction false} ReplacedPrefix(u: string, p: string, r: string, w: string)
    requires |p| > 0 && StartsWith(ReplaceAll(u, p, r), w)
    ensures StartsWith(u, w) || exists j :: 0 <= j < |w| && (StartsWith(w[j..], r) || StartsWith(r, w[j..]))
    decreases |u|
  {
    if u != [] && w != [] {
      var out := ReplaceAll(u, p, r);
      if StartsWith(u, p) {
        assert out == r + ReplaceAll(u[|p|..], p, r);
        assert w[0..] == w;
        if |w| <= |r| {
          assert r[..|w|] == out[..|w|];
        } else {
          assert w[..|r|] == out[..|r|];
        }
      } else {
        assert out == [u[0]] + ReplaceAll(u[1..], p, r);
        assert StartsWith(ReplaceAll(u[1..], p, r), w[1..]) by {
          assert out[1..][..|w| - 1] == w[1..];
        }
        ReplacedPrefix(u[1..], p, r, w[1..]);
        if StartsWith(u[1..], w[1..]) {
          assert u[..|w|] == [u[0]] + u[1..][..|w| - 1];
        } else {
          var j :| 0 <= j < |w| - 1 && (StartsWith(w[1..][j..], r) || StartsWith(r, w[1..][j..]));
          assert w[1..][j..] == w[j + 1..];
        }
      }
    }
  }

  /** A text that `q` cannot start in holds `q` only if what follows does. */
  lemma {:induction false} ContainsAfter(a: string, b: string, q: string)
    requires |q| > 0 && q[0] !in a && Contains(a + b, q)
    ensures Contains(b, q)
    decreases |a|
  {
    if a != [] {
      assert !StartsWith(a + b, q) by {
        if |q| <= |a + b| { assert (a + b)[..|q|][0] == a[0]; }
      }
      assert (a + b)[1..] == a[1..] + b;
      ContainsAfter(a[1..], b, q);
    } else {
      assert a + b == b;
    }
  }

  /** No tail of `q` after its first character starts an `r`, nor does `r` start with one. */
  lemma NoStraddle(q: string, r: string)
    requires Separated(q, r)
    ensures forall j :: 0 <= j < |q| - 1 ==> !StartsWith(q[1..][j..], r) && !StartsWith(r, q[1..][j..])
  {
    forall j | 0 <= j < |q| - 1
      ensures !StartsWith(q[1..][j..], r) && !StartsWith(r, q[1..][j..])
    {
      var w := q[1..][j..];
      assert w[|w| - 1] == q[|q| - 1];
      if |w| >= 2 {
        assert w[1] in q;
      }
    }
  }

  /** A text whose first character and rest match those of `q` starts with `q`. */
  lemma HeadThenTail(s: string, q: string)
    requires s != [] && q != []
    ensures s[0] == q[0] && StartsWith(s[1..], q[1..]) ==> StartsWith(s, q)
  {
    if s[0] == q[0] && StartsWith(s[1..], q[1..]) {
      assert s[..|q|] == [s[0]] + s[1..][..|q| - 1];
      assert q == [q[0]] + q[1..];
    }
  }

  /**
   * Replacing every `p` by `r` leaves no `q` behind when `q` cannot straddle an `r`: either
   * `q` is `p` itself, whose occurrences the scan replaces, or `q` was absent to begin with.
   */
  lemma {:induction false} ReplaceAllLeavesNone(s: string, p: string, r: string, q: string)
    requires |p| > 0 && Separated(q, r)
    requires q == p || !Contains(s, q)
    ensures !Contains(ReplaceAll(s, p, r), q)
    decreases |s|
  {
    if s != [] {
      if StartsWith(s, p) {
        if q != p && Contains(s[|p|..], q) { ContainsSuffix(s, q, |p|); }
        ReplaceAllLeavesNone(s[|p|..], p, r, q);
        var t := ReplaceAll(s[|p|..], p, r);
        if Contains(r + t, q) { ContainsAfter(r, t, q); }
      } else {
        ReplaceAllLeavesNone(s[1..], p, r, q);
        var t := ReplaceAll(s[1..], p, r);
        var out := [s[0]] + t;
        assert out[1..] == t;
        if StartsWith(out, q) {
          assert StartsWith(t, q[1..]) by { assert t[..|q| - 1] == out[1..|q|]; }
          ReplacedPrefix(s[1..], p, r, q[1..]);
          NoStraddle(q, r);
          HeadThenTail(s, q);
          assert false;
        }
      }
    }
  }

  const PrimaryVariable := "var(--primary)"
  const PrimaryColor := "rgba(100, 150, 255, 0.8)"
  const SecondaryVariable := "var(--secondary)"
  const SecondaryColor := "rgba(150, 200, 255, 0.6)"

  /**
   * The two `split(…).join(…)` calls: the theme variables become fixed colours, and neither
   * variable is left anywhere in the result.
   */
  function Recolor(content: string): (r: string)
    ensures !Contains(r, PrimaryVariable) && !Contains(r, SecondaryVariable)
  {
    var primaryDone := ReplaceAll(content, PrimaryVariable, PrimaryColor);
    assert Separated(PrimaryVariable, PrimaryColor) && Separated(PrimaryVariable, SecondaryColor);
    assert Separated(SecondaryVariable, SecondaryColor);
    ReplaceAllLeavesNone(content, PrimaryVariable, PrimaryColor, PrimaryVariable);
    ReplaceAllLeavesNone(primaryDone, SecondaryVariable, SecondaryColor, PrimaryVariable);
    ReplaceAllLeavesNone(primaryDone, SecondaryVariable, SecondaryColor, SecondaryVariable);
    ReplaceAll(primaryDone, SecondaryVariable, SecondaryColor)
  }

  /** The attribute inserted into the first `<svg` when the document has none. */
  const SliceInsertion := " " + SliceAttribute

  /**
   * The cover-like fit: when the text mentions `preserveAspectRatio`, every closed value of the
   * attribute becomes `xMidYMid slice`; otherwise the attribute is inserted into the first
   * `<svg` tag only.
   */
  function FitToCover(content: string): (r: string)
    ensures Contains(content, AspectRatioName) ==> AspectValuesSliced(r)
    ensures !Contains(content, AspectRatioName) && Contains(content, "<svg") ==>
      exists i :: FirstAt(content, "<svg", i) && r == content[..i + 4] + SliceInsertion + content[i + 4..]
    ensures !Contains(content, AspectRatioName) && !Contains(content, "<svg") ==> r == content
  {
    if Contains(content, AspectRatioName) then
      AspectValuesAllSliced(content);
      ReplaceMatches(content, AspectRatioAttribute)
    else
      InsertAfterFirst(content, "<svg", SliceInsertion);
      ReplaceFirst(content, "<svg", "<svg" + SliceInsertion)
  }

  /** The whole rewrite `loadSvgContent` applies to the fetched text, in the source's order. */
  function RewriteSvg(content: string): (r: string)
    ensures !Contains(r, PrimaryVariable) && !Contains(r, SecondaryVariable)
  {
    var unstyled := ReplaceMatches(content, StyleInSvgTag);
    var withoutBackground := ReplaceMatches(unstyled, Declaration("background"));
    var withoutBackgroundColor := ReplaceMatches(withoutBackground, Declaration("background-color"));
    var withoutWidth := ReplaceMatches(withoutBackgroundColor, SizeAttribute("width"));
    var withoutHeight := ReplaceMatches(withoutWidth, SizeAttribute("height"));
    Recolor(FitToCover(withoutHeight))
  }

  // ----- the component -----

  /** The style and class the rendered markup gives the first `<svg` tag. */
  const InjectedAttributes :=
    " style=\"position: absolute; top: 50%; left: 50%; transform: translate(-50%, -50%); "
    + "min-width: 100%; min-height: 100%; width: auto; height: auto; display: block !important; "
    + "visibility: visible !important; background-color: transparent !important; "
    + "overflow: visible !important;\" class=\"w-full h-full\""

  function BackgroundUrl(backgroundType: string): string {
    "/static/images/backgrounds/" + backgroundType + ".svg"
  }

  /**
   * What `fetch` produced: a rejected request, or a response with its `ok` flag and its text
   * (`None` when reading the text failed). Both failures are caught and only logged.
   */
  datatype FetchOutcome = RequestFailed | Answered(ok: bool, text: Option<string>)

  /** The fetch delivered usable text for a non-empty type. */
  predicate Delivered(backgroundType: string, fetched: FetchOutcome) {
    backgroundType != [] && fetched.Answered? && fetched.ok && fetched.text.Some?
  }

  /** The component's state: the rewritten SVG text, empty until one loads. */
  class Background {
    var svgContent: string

    constructor ()
      ensures svgContent == []
    {
      svgContent := [];
    }

    /**
     * `loadSvgContent` for the current `type`: an empty type requests nothing; otherwise the
     * SVG is requested and the content replaced by its rewrite only when the response is ok
     * and its text could be read.
     */
    method LoadSvgContent(backgroundType: string, fetched: FetchOutcome) returns (requested: Option<string>)
      modifies this
      ensures requested == (if backgroundType == [] then None else Some(BackgroundUrl(backgroundType)))
      ensures Delivered(backgroundType, fetched) ==> svgContent == RewriteSvg(fetched.text.value)
      ensures !Delivered(backgroundType, fetched) ==> svgContent == old(svgContent)
    {
      if backgroundType == [] {
        return None;
      }
      requested := Some(BackgroundUrl(backgroundType));
      match fetched
      case RequestFailed =>
      case Answered(ok, text) =>
        if ok {
          match text
          case None =>
          case Some(content) =>
            svgContent := RewriteSvg(content);
        }
    }

    /**
     * The inner markup the component renders: nothing while the content is empty, otherwise
     * the content with the injected style and class placed in the first `<svg` tag only.
     */
    function Rendered(): (r: Option<string>)
      reads this
      ensures r.None? <==> svgContent == []
      ensures svgContent != [] && Contains(svgContent, "<svg") ==>
        exists i :: FirstAt(svgContent, "<svg", i)
          && r == Some(svgContent[..i + 4] + InjectedAttributes + svgContent[i + 4..])
      ensures svgContent != [] && !Contains(svgContent, "<svg") ==> r == Some(svgContent)
    {
      if svgContent == [] then None
      else
        InsertAfterFirst(svgContent, "<svg", InjectedAttributes);
        Some(ReplaceFirst(svgContent, "<svg", "<svg" + InjectedAttributes))
    }
  }
}
