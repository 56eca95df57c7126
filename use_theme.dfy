/**
 * The browser-side theme controller (the useTheme hook): it loads a theme from the bundled
 * catalogue or from the backend, substitutes a constant fallback theme when loading fails,
 * writes the theme into the document (root custom properties for the `theme` group, one
 * `:root { ... }` rule for the light group and one `.dark { ... }` rule for the dark group)
 * and offers refresh and switch operations.
 *
 * The network, the dynamic import of the bundled JSON and font loading are not modelled:
 * their results are parameters of the methods. Font preloading requests are recorded in
 * `preloads` so that the order "preload, then apply" is visible in the state.
 */
module UseTheme {
  import opened Wrappers
  import opened Text

  /** The entries of a token group, in `Object.entries` order. */
  type TokenGroup = seq<(string, string)>

  datatype CssVars = CssVars(theme: TokenGroup, light: TokenGroup, dark: TokenGroup)

  datatype ThemeData = ThemeData(name: string, displayName: string, cssVars: CssVars)

  const ErrLocalFallback := "Failed to load frontend theme, using fallback"
  const ErrBackendFallback := "Failed to load theme from backend, using fallback"
  const ErrRefresh := "Failed to refresh theme"
  const ErrSwitch := "Failed to switch theme"

  /** The bundled theme used when VITE_FRONTEND_THEME is unset or empty. */
  const DefaultFrontendTheme := "vercel"

  const FallbackThemeGroup: TokenGroup := [
    ("font-sans", "system-ui, sans-serif"),
    ("font-serif", "Georgia, serif"),
    ("font-mono", "monospace"),
    ("radius", "0.375rem")
  ]

  const FallbackLightGroup: TokenGroup := [
    ("background", "oklch(1.0000 0 0)"),
    ("foreground", "oklch(0.15 0 0)"),
    ("primary", "oklch(0.6231 0.1880 259.8145)"),
    ("secondary", "oklch(0.9670 0.0029 264.5419)"),
    ("accent", "oklch(0.9514 0.0250 236.8242)"),
    ("muted", "oklch(0.9608 0.0155 264.5380)"),
    ("card", "oklch(1.0000 0 0)"),
    ("border", "oklch(0.9216 0.0266 264.5312)")
  ]

  const FallbackDarkGroup: TokenGroup := [
    ("background", "oklch(0.0902 0 0)"),
    ("foreground", "oklch(0.9216 0.0266 264.5312)"),
    ("primary", "oklch(0.6231 0.1880 259.8145)"),
    ("secondary", "oklch(0.1725 0.0118 264.5419)"),
    ("accent", "oklch(0.1686 0.0157 236.8242)"),
    ("muted", "oklch(0.1412 0.0166 264.5380)"),
    ("card", "oklch(0.0902 0 0)"),
    ("border", "oklch(0.1725 0.0118 264.5419)")
  ]

  /** getFallbackTheme: the constant theme used whenever loading fails. */
  function FallbackTheme(): (t: ThemeData)
    ensures t.name == "fallback" && t.displayName == "Fallback Theme"
    ensures |t.cssVars.theme| == 4 && |t.cssVars.light| == 8 && |t.cssVars.dark| == 8
  {
    ThemeData("fallback", "Fallback Theme",
      CssVars(FallbackThemeGroup, FallbackLightGroup, FallbackDarkGroup))
  }

  /** The fallback theme written out a second time in the backend branch of the loader. */
  function BackendFallbackLiteral(): ThemeData {
    ThemeData("fallback", "Fallback Theme", CssVars(
      [("font-sans", "system-ui, sans-serif"), ("font-serif", "Georgia, serif"),
       ("font-mono", "monospace"), ("radius", "0.375rem")],
      [("background", "oklch(1.0000 0 0)"), ("foreground", "oklch(0.15 0 0)"),
       ("primary", "oklch(0.6231 0.1880 259.8145)"), ("secondary", "oklch(0.9670 0.0029 264.5419)"),
       ("accent", "oklch(0.9514 0.0250 236.8242)"), ("muted", "oklch(0.9608 0.0155 264.5380)"),
       ("card", "oklch(1.0000 0 0)"), ("border", "oklch(0.9216 0.0266 264.5312)")],
      [("background", "oklch(0.0902 0 0)"), ("foreground", "oklch(0.9216 0.0266 264.5312)"),
       ("primary", "oklch(0.6231 0.1880 259.8145)"), ("secondary", "oklch(0.1725 0.0118 264.5419)"),
       ("accent", "oklch(0.1686 0.0157 236.8242)"), ("muted", "oklch(0.1412 0.0166 264.5380)"),
       ("card", "oklch(0.0902 0 0)"), ("border", "oklch(0.1725 0.0118 264.5419)")]))
  }

  /** Both copies of the fallback theme are the same value. */
  lemma BackendFallbackIsFallback()
    ensures BackendFallbackLiteral() == FallbackTheme()
  {
  }

  /** `VITE_FRONTEND_THEME || 'vercel'`: an unset or empty setting selects the default. */
  function FrontendThemeName(env: Option<string>): (r: string)
    ensures r != []
    ensures r == DefaultFrontendTheme <==> env.None? || env.value == [] || env.value == DefaultFrontendTheme
    ensures env.Some? && env.value != [] ==> r == env.value
  {
    if env.Some? && env.value != [] then env.value else DefaultFrontendTheme
  }

  // ----- the CSS text written into the style element -----

  function Declaration(property: string, value: string): string {
    "--" + property + ": " + value + ";"
  }

  function Declarations(g: TokenGroup): seq<string> {
    seq(|g|, i requires 0 <= i < |g| => Declaration(g[i].0, g[i].1))
  }

  /** The declarations of a group, one per entry, joined as the template literal joins them. */
  function JoinedDeclarations(g: TokenGroup): string {
    Join(Declarations(g), "\n  ")
  }

  const LightOpen := ":root {\n      "
  const DarkOpen := ".dark {\n      "
  const BlockClose := "\n    }"
  const BlockSeparator := "\n\n"

  /** The full text of the theme style element: the light rule, a blank line, the dark rule. */
  function ThemeCss(t: ThemeData): string {
    LightOpen + JoinedDeclarations(t.cssVars.light) + BlockClose
      + BlockSeparator + DarkOpen + JoinedDeclarations(t.cssVars.dark) + BlockClose
  }

  /** Tokens that the CSS text represents unambiguously: no ':' or '}' in names, no ';' or '}' in values. */
  predicate Readable(g: TokenGroup) {
    forall i :: 0 <= i < |g| ==>
      ':' !in g[i].0 && '}' !in g[i].0 && ';' !in g[i].1 && '}' !in g[i].1
  }

  /** The first `c` in `s` splits it into the text before and the text after. */
  function SplitAt(s: string, c: char): (r: Option<(string, string)>)
    ensures r.Some? ==> c !in r.value.0 && s == r.value.0 + [c] + r.value.1
    ensures r.None? ==> c !in s
  {
    if s == [] then None
    else if s[0] == c then Some(([], s[1..]))
    else match SplitAt(s[1..], c)
      case None => None
      case Some((a, b)) => Some(([s[0]] + a, b))
  }

  lemma {:induction false} SplitAtFirst(a: string, c: char, b: string)
    requires c !in a
    ensures SplitAt(a + [c] + b, c) == Some((a, b))
  {
    if a != [] {
      assert (a + [c] + b)[0] == a[0] && a[0] != c;
      assert (a + [c] + b)[1..] == a[1..] + [c] + b;
      SplitAtFirst(a[1..], c, b);
      assert a == [a[0]] + a[1..];
    } else {
      assert a + [c] + b == [c] + b;
    }
  }

  /** Reads a sequence of `--name: value;` declarations separated as the serialiser separates them. */
  function ReadDeclarations(s: string): Option<TokenGroup>
    decreases |s|
  {
    if s == [] then Some([])
    else if !StartsWith(s, "--") then None
    else match SplitAt(s[2..], ':')
      case None => None
      case Some((name, afterColon)) =>
        if !StartsWith(afterColon, " ") then None
        else match SplitAt(afterColon[1..], ';')
          case None => None
          case Some((value, rest)) =>
            if rest == [] then Some([(name, value)])
            else if !StartsWith(rest, "\n  ") then None
            else match ReadDeclarations(rest[3..])
              case None => None
              case Some(more) => Some([(name, value)] + more)
  }

  lemma DeclarationsTail(g: TokenGroup)
    requires g != []
    ensures Declarations(g)[1..] == Declarations(g[1..])
  {
  }

  /** Reading a declaration followed by more text gives its name and value and continues after it. */
  lemma ReadDeclarationThen(k: string, v: string, rest: string)
    requires ':' !in k && ';' !in v
    requires rest == [] || StartsWith(rest, "\n  ")
    ensures ReadDeclarations(Declaration(k, v) + rest) ==
      if rest == [] then Some([(k, v)])
      else match ReadDeclarations(rest[3..])
        case None => None
        case Some(more) => Some([(k, v)] + more)
  {
    var s := Declaration(k, v) + rest;
    var afterColon := " " + v + ";" + rest;
    assert StartsWith(s, "--");
    assert s[2..] == k + [':'] + afterColon;
    SplitAtFirst(k, ':', afterColon);
    assert StartsWith(afterColon, " ");
    assert afterColon[1..] == v + [';'] + rest;
    SplitAtFirst(v, ';', rest);
  }

  lemma ReadableTail(g: TokenGroup)
    requires g != [] && Readable(g)
    ensures Readable(g[1..])
  {
    forall i | 0 <= i < |g[1..]|
      ensures ':' !in g[1..][i].0 && '}' !in g[1..][i].0 && ';' !in g[1..][i].1 && '}' !in g[1..][i].1
    {
      assert g[1..][i] == g[i + 1];
    }
  }

  /** The joined declarations of two or more entries: the first, the separator, then the rest. */
  lemma JoinedUnfold(g: TokenGroup)
    requires |g| >= 2
    ensures JoinedDeclarations(g) == Declaration(g[0].0, g[0].1) + "\n  " + JoinedDeclarations(g[1..])
  {
    DeclarationsTail(g);
  }

  /** Serialising a group and reading the text back yields the group, entry by entry, in order. */
  lemma {:induction false} DeclarationsRoundTrip(g: TokenGroup)
    requires Readable(g)
    ensures ReadDeclarations(JoinedDeclarations(g)) == Some(g)
  {
    if g != [] {
      var k, v := g[0].0, g[0].1;
      if |g| == 1 {
        assert g == [(k, v)];
        assert JoinedDeclarations(g) == Declaration(k, v) + [];
        ReadDeclarationThen(k, v, []);
      } else {
        ReadableTail(g);
        DeclarationsRoundTrip(g[1..]);
        var rest := "\n  " + JoinedDeclarations(g[1..]);
        JoinedUnfold(g);
        assert JoinedDeclarations(g) == Declaration(k, v) + rest;
        assert rest[3..] == JoinedDeclarations(g[1..]);
        ReadDeclarationThen(k, v, rest);
        assert g == [(k, v)] + g[1..];
      }
    }
  }

  lemma NotInJoin(parts: seq<string>, sep: string, c: char)
    requires c !in sep && forall i :: 0 <= i < |parts| ==> c !in parts[i]
    ensures c !in Join(parts, sep)
  {
    if |parts| > 1 { NotInJoin(parts[1..], sep, c); }
  }

  lemma NoBraceInDeclarations(g: TokenGroup)
    requires Readable(g)
    ensures '}' !in JoinedDeclarations(g)
  {
    var ds := Declarations(g);
    forall i | 0 <= i < |ds| ensures '}' !in ds[i] {
      assert ds[i] == "--" + g[i].0 + ": " + g[i].1 + ";";
    }
    NotInJoin(ds, "\n  ", '}');
  }

  /** The indentation before a rule's closing brace. */
  const CloseIndent := "\n    "

  /**
   * Reads one rule `open` + declarations + `\n    }` from the front of `s`: the declared
   * group and the text after the closing brace.
   */
  function ReadRule(open: string, s: string): Option<(TokenGroup, string)> {
    if !StartsWith(s, open) then None
    else match SplitAt(s[|open|..], '}')
      case None => None
      case Some((body, rest)) =>
        if |body| < |CloseIndent| || body[|body| - |CloseIndent|..] != CloseIndent then None
        else match ReadDeclarations(body[..|body| - |CloseIndent|])
          case None => None
          case Some(g) => Some((g, rest))
  }

  lemma ReadRuleOf(open: string, g: TokenGroup, rest: string)
    requires Readable(g)
    ensures ReadRule(open, open + JoinedDeclarations(g) + BlockClose + rest) == Some((g, rest))
  {
    var L := JoinedDeclarations(g);
    var s := open + L + BlockClose + rest;
    NoBraceInDeclarations(g);
    assert s[|open|..] == (L + CloseIndent) + ['}'] + rest;
    SplitAtFirst(L + CloseIndent, '}', rest);
    assert (L + CloseIndent)[..|L + CloseIndent| - |CloseIndent|] == L;
    DeclarationsRoundTrip(g);
  }

  /** Reads the style element's text back into its light and dark groups. */
  function ReadThemeCss(css: string): Option<(TokenGroup, TokenGroup)> {
    match ReadRule(LightOpen, css)
    case None => None
    case Some((light, rest)) =>
      if !StartsWith(rest, BlockSeparator) then None
      else match ReadRule(DarkOpen, rest[|BlockSeparator|..])
        case Some((dark, after)) => if after == [] then Some((light, dark)) else None
        case None => None
  }

  /**
   * The light rule of the style text holds exactly the light group and the dark rule exactly
   * the dark group: reading the text back recovers both, with nothing carried across.
   */
  lemma ThemeCssRoundTrip(t: ThemeData)
    requires Readable(t.cssVars.light) && Readable(t.cssVars.dark)
    ensures ReadThemeCss(ThemeCss(t)) == Some((t.cssVars.light, t.cssVars.dark))
  {
    var L := JoinedDeclarations(t.cssVars.light);
    var D := JoinedDeclarations(t.cssVars.dark);
    var darkRule := DarkOpen + D + BlockClose + [];
    var rest := BlockSeparator + darkRule;
    assert ThemeCss(t) == LightOpen + L + BlockClose + rest;
    ReadRuleOf(LightOpen, t.cssVars.light, rest);
    assert rest[|BlockSeparator|..] == darkRule;
    ReadRuleOf(DarkOpen, t.cssVars.dark, []);
  }

  // ----- inline properties on the document root -----

  /** Setting `--name` to `value` on the root for each entry, in order; nothing is removed. */
  function WithInlineProps(props: map<string, string>, g: TokenGroup): map<string, string>
    decreases |g|
  {
    if g == [] then props else WithInlineProps(props["--" + g[0].0 := g[0].1], g[1..])
  }

  /** The root font size after the loop: the last `font-size` entry wins, otherwise unchanged. */
  function FontSizeAfter(fontSize: Option<string>, g: TokenGroup): Option<string>
    decreases |g|
  {
    if g == [] then fontSize
    else FontSizeAfter(if g[0].0 == "font-size" then Some(g[0].1) else fontSize, g[1..])
  }

  /** The properties a group assigns, each to its last value in the group. */
  function Assigned(g: TokenGroup): map<string, string> {
    WithInlineProps(map[], g)
  }

  /** Applying a group overrides the existing properties with the group's assignments. */
  lemma {:induction false} WithInlinePropsIsOverride(props: map<string, string>, g: TokenGroup)
    ensures WithInlineProps(props, g) == props + Assigned(g)
    decreases |g|
  {
    if g != [] {
      var k, v := "--" + g[0].0, g[0].1;
      WithInlinePropsIsOverride(props[k := v], g[1..]);
      WithInlinePropsIsOverride(map[k := v], g[1..]);
      assert map[][k := v] == map[k := v];
      assert props[k := v] == props + map[k := v];
    }
  }

  /** Every entry of the group is set on the root, and every earlier property is still there. */
  lemma {:induction false} InlinePropsSetAndKept(props: map<string, string>, g: TokenGroup)
    ensures props.Keys <= WithInlineProps(props, g).Keys
    ensures forall i :: 0 <= i < |g| ==> "--" + g[i].0 in WithInlineProps(props, g)
    ensures forall p :: p in WithInlineProps(props, g) ==>
      p in props || exists i :: 0 <= i < |g| && p == "--" + g[i].0
    decreases |g|
  {
    if g != [] {
      var k := "--" + g[0].0;
      InlinePropsSetAndKept(props[k := g[0].1], g[1..]);
      forall p | p in WithInlineProps(props, g)
        ensures p in props || exists i :: 0 <= i < |g| && p == "--" + g[i].0
      {
        if p !in props && p != k {
          var i :| 0 <= i < |g[1..]| && p == "--" + g[1..][i].0;
          assert p == "--" + g[i + 1].0;
        }
      }
      forall i | 0 <= i < |g| ensures "--" + g[i].0 in WithInlineProps(props, g) {
        if i > 0 { assert g[i] == g[1..][i - 1]; }
      }
    }
  }

  /** A property the group does not mention keeps its earlier value. */
  lemma {:induction false} InlinePropUntouched(props: map<string, string>, g: TokenGroup, p: string)
    requires p in props && forall i :: 0 <= i < |g| ==> p != "--" + g[i].0
    ensures p in WithInlineProps(props, g) && WithInlineProps(props, g)[p] == props[p]
    decreases |g|
  {
    if g != [] {
      assert forall i :: 0 <= i < |g[1..]| ==> p != "--" + g[1..][i].0 by {
        forall i | 0 <= i < |g[1..]| ensures p != "--" + g[1..][i].0 { assert g[1..][i] == g[i + 1]; }
      }
      InlinePropUntouched(props["--" + g[0].0 := g[0].1], g[1..], p);
    }
  }

  /** Applying the same group twice leaves the same properties as applying it once. */
  lemma InlinePropsIdempotent(props: map<string, string>, g: TokenGroup)
    ensures WithInlineProps(WithInlineProps(props, g), g) == WithInlineProps(props, g)
  {
    WithInlinePropsIsOverride(props, g);
    WithInlinePropsIsOverride(props + Assigned(g), g);
    assert props + Assigned(g) + Assigned(g) == props + Assigned(g);
  }

  /** The root font size follows the group's `font-size` entry and is otherwise kept. */
  lemma {:induction false} FontSizeFollowsGroup(fontSize: Option<string>, g: TokenGroup)
    ensures (forall i :: 0 <= i < |g| ==> g[i].0 != "font-size") ==> FontSizeAfter(fontSize, g) == fontSize
    ensures (exists i :: 0 <= i < |g| && g[i].0 == "font-size") ==>
      exists i :: 0 <= i < |g| && g[i].0 == "font-size" && FontSizeAfter(fontSize, g) == Some(g[i].1)
    decreases |g|
  {
    if g != [] {
      var next := if g[0].0 == "font-size" then Some(g[0].1) else fontSize;
      FontSizeFollowsGroup(next, g[1..]);
      if forall i :: 0 <= i < |g| ==> g[i].0 != "font-size" {
        assert forall i :: 0 <= i < |g[1..]| ==> g[1..][i].0 != "font-size" by {
          forall i | 0 <= i < |g[1..]| ensures g[1..][i].0 != "font-size" { assert g[1..][i] == g[i + 1]; }
        }
      }
      if exists i :: 0 <= i < |g[1..]| && g[1..][i].0 == "font-size" {
        var i :| 0 <= i < |g[1..]| && g[1..][i].0 == "font-size" && FontSizeAfter(next, g[1..]) == Some(g[1..][i].1);
        assert g[i + 1] == g[1..][i];
      } else if g[0].0 == "font-size" {
        assert FontSizeAfter(fontSize, g) == Some(g[0].1) by {
          assert forall i :: 0 <= i < |g[1..]| ==> g[1..][i].0 != "font-size";
        }
      }
    }
  }

  /**
   * The hook's state together with the part of the document it writes. `styleElementsCreated`
   * counts style elements appended to the document head.
   */
  class ThemeController {
    var themeSettings: Option<ThemeData>
    var isLoading: bool
    var error: Option<string>
    var inlineProps: map<string, string>
    var fontSize: Option<string>
    var styleText: Option<string>
    var styleElementsCreated: nat
    var preloads: seq<TokenGroup>

    /** At most one theme style element ever exists, and it exists exactly once created. */
    ghost predicate Valid()
      reads this
    {
      styleElementsCreated == (if styleText.Some? then 1 else 0)
    }

    /** The hook on mount: no theme, loading, no error, an unstyled document. */
    constructor ()
      ensures Valid()
      ensures themeSettings.None? && isLoading && error.None?
      ensures inlineProps == map[] && fontSize.None? && styleText.None? && preloads == []
    {
      themeSettings := None;
      isLoading := true;
      error := None;
      inlineProps := map[];
      fontSize := None;
      styleText := None;
      styleElementsCreated := 0;
      preloads := [];
    }

    /** What consumers see as loading: the hook's flag, or fonts not yet ready. */
    function ReportedIsLoading(fontsReady: bool): (r: bool)
      reads this
      ensures !fontsReady ==> r
      ensures fontsReady ==> r == isLoading
    {
      isLoading || !fontsReady
    }

    /**
     * applyThemeToDOM: sets `--name` on the root for each theme-group entry (and the root
     * font size for `font-size`), creates the style element if it is absent and replaces its
     * whole text with the light and dark rules.
     */
    method ApplyThemeToDom(t: ThemeData)
      requires Valid()
      modifies this
      ensures Valid()
      ensures inlineProps == WithInlineProps(old(inlineProps), t.cssVars.theme)
      ensures fontSize == FontSizeAfter(old(fontSize), t.cssVars.theme)
      ensures styleText == Some(ThemeCss(t))
      ensures styleElementsCreated == if old(styleText).None? then 1 else old(styleElementsCreated)
      ensures themeSettings == old(themeSettings) && isLoading == old(isLoading)
      ensures error == old(error) && preloads == old(preloads)
    {
      var g := t.cssVars.theme;
      var i := 0;
      while i < |g|
        invariant 0 <= i <= |g|
        invariant WithInlineProps(inlineProps, g[i..]) == WithInlineProps(old(inlineProps), g)
        invariant FontSizeAfter(fontSize, g[i..]) == FontSizeAfter(old(fontSize), g)
        invariant styleText == old(styleText) && styleElementsCreated == old(styleElementsCreated)
        invariant themeSettings == old(themeSettings) && isLoading == old(isLoading)
        invariant error == old(error) && preloads == old(preloads)
      {
        assert g[i..] == [g[i]] + g[i + 1..];
        inlineProps := inlineProps["--" + g[i].0 := g[i].1];
        if g[i].0 == "font-size" {
          fontSize := Some(g[i].1);
        }
        i := i + 1;
      }
      if styleText.None? {
        styleText := Some("");
        styleElementsCreated := styleElementsCreated + 1;
      }
      styleText := Some(ThemeCss(t));
    }

    /** initializeFontPreloading for a theme group; only the request is recorded. */
    method PreloadFonts(g: TokenGroup)
      modifies this`preloads
      ensures preloads == old(preloads) + [g]
    {
      preloads := preloads + [g];
    }

    /** The hook holds `t` and the document shows it, applied over `props0` and `font0`. */
    ghost predicate Displays(t: ThemeData, props0: map<string, string>, font0: Option<string>)
      reads this
    {
      && themeSettings == Some(t)
      && inlineProps == WithInlineProps(props0, t.cssVars.theme)
      && fontSize == FontSizeAfter(font0, t.cssVars.theme)
      && styleText == Some(ThemeCss(t))
    }

    /** setThemeSettings(t), then (when `preload`) font preloading, then applyThemeToDOM(t). */
    method Adopt(t: ThemeData, preload: bool)
      requires Valid()
      modifies this
      ensures Valid()
      ensures Displays(t, old(inlineProps), old(fontSize))
      ensures preloads == old(preloads) + (if preload then [t.cssVars.theme] else [])
      ensures isLoading == old(isLoading) && error == old(error)
    {
      themeSettings := Some(t);
      if preload {
        PreloadFonts(t.cssVars.theme);
      }
      ApplyThemeToDom(t);
    }

    /**
     * loadAndApplyTheme, run once on mount. `useBackend` is VITE_USE_BACKEND_THEMES == 'true',
     * `frontendThemeEnv` is VITE_FRONTEND_THEME, `bundle` the bundled theme catalogue (a missing
     * name is a failed import) and `backendTheme` the result of fetching the current theme
     * (None when the request fails).
     */
    method LoadAndApplyTheme(useBackend: bool, frontendThemeEnv: Option<string>, bundle: map<string, ThemeData>, backendTheme: Option<ThemeData>)
      requires Valid()
      modifies this
      ensures Valid()
      ensures !isLoading
      ensures !useBackend ==>
        var name := FrontendThemeName(frontendThemeEnv);
        var t := if name in bundle then bundle[name] else FallbackTheme();
        && Displays(t, old(inlineProps), old(fontSize))
        && error == (if name in bundle then None else Some(ErrLocalFallback))
        && preloads == old(preloads) + [t.cssVars.theme]
      ensures useBackend ==>
        var t := if backendTheme.Some? then backendTheme.value else FallbackTheme();
        && Displays(t, old(inlineProps), old(fontSize))
        && error == (if backendTheme.Some? then None else Some(ErrBackendFallback))
        && preloads == old(preloads) + (if backendTheme.Some? then [t.cssVars.theme] else [])
    {
      if useBackend {
        LoadBackendTheme(backendTheme);
      } else {
        LoadFrontendTheme(FrontendThemeName(frontendThemeEnv), bundle);
      }
    }

    /** The bundled-catalogue branch: a theme that fails to load is replaced by the fallback. */
    method LoadFrontendTheme(name: string, bundle: map<string, ThemeData>)
      requires Valid()
      modifies this
      ensures Valid()
      ensures !isLoading
      ensures var t := if name in bundle then bundle[name] else FallbackTheme();
        && Displays(t, old(inlineProps), old(fontSize))
        && error == (if name in bundle then None else Some(ErrLocalFallback))
        && preloads == old(preloads) + [t.cssVars.theme]
    {
      isLoading := true;
      error := None;
      if name in bundle {
        Adopt(bundle[name], true);
        error := None;
      } else {
        Adopt(FallbackTheme(), true);
        error := Some(ErrLocalFallback);
      }
      isLoading := false;
    }

    /**
     * The backend branch: a failed fetch applies the fallback literal, without font preloading.
     */
    method LoadBackendTheme(backendTheme: Option<ThemeData>)
      requires Valid()
      modifies this
      ensures Valid()
      ensures !isLoading
      ensures var t := if backendTheme.Some? then backendTheme.value else FallbackTheme();
        && Displays(t, old(inlineProps), old(fontSize))
        && error == (if backendTheme.Some? then None else Some(ErrBackendFallback))
        && preloads == old(preloads) + (if backendTheme.Some? then [t.cssVars.theme] else [])
    {
      isLoading := true;
      error := None;
      if backendTheme.Some? {
        Adopt(backendTheme.value, true);
        error := None;
      } else {
        BackendFallbackIsFallback();
        Adopt(BackendFallbackLiteral(), false);
        error := Some(ErrBackendFallback);
      }
      isLoading := false;
    }

    /**
     * refreshTheme: re-fetches the current theme (`fetched`, None when the request fails).
     * A failure changes neither the theme nor the document; it only sets the error.
     */
    method RefreshTheme(fetched: Option<ThemeData>)
      requires Valid()
      modifies this
      ensures Valid()
      ensures !isLoading
      ensures fetched.Some? ==>
        && Displays(fetched.value, old(inlineProps), old(fontSize))
        && error.None?
        && preloads == old(preloads) + [fetched.value.cssVars.theme]
      ensures fetched.None? ==>
        && themeSettings == old(themeSettings)
        && error == Some(ErrRefresh)
        && preloads == old(preloads)
        && inlineProps == old(inlineProps) && fontSize == old(fontSize)
        && styleText == old(styleText) && styleElementsCreated == old(styleElementsCreated)
    {
      isLoading := true;
      if fetched.Some? {
        Adopt(fetched.value, true);
        error := None;
      } else {
        error := Some(ErrRefresh);
      }
      isLoading := false;
    }

    /**
     * switchTheme: asks the backend to make `themeName` current (`setCurrentOk` is whether that
     * request succeeded) and then refreshes. When the request fails the theme and the document
     * are left as they were and the error says the switch failed.
     */
    method SwitchTheme(themeName: string, setCurrentOk: bool, fetched: Option<ThemeData>)
      requires Valid()
      modifies this
      ensures Valid()
      ensures !isLoading
      ensures !setCurrentOk ==>
        && themeSettings == old(themeSettings)
        && error == Some(ErrSwitch)
        && preloads == old(preloads)
        && inlineProps == old(inlineProps) && fontSize == old(fontSize)
        && styleText == old(styleText) && styleElementsCreated == old(styleElementsCreated)
      ensures setCurrentOk && fetched.Some? ==>
        && Displays(fetched.value, old(inlineProps), old(fontSize))
        && error.None?
        && preloads == old(preloads) + [fetched.value.cssVars.theme]
      ensures setCurrentOk && fetched.None? ==>
        && themeSettings == old(themeSettings)
        && error == Some(ErrRefresh)
        && preloads == old(preloads)
        && inlineProps == old(inlineProps) && fontSize == old(fontSize)
        && styleText == old(styleText) && styleElementsCreated == old(styleElementsCreated)
    {
      isLoading := true;
      if setCurrentOk {
        RefreshTheme(fetched);
      } else {
        error := Some(ErrSwitch);
        isLoading := false;
      }
    }
  }

  /** Applying the same theme twice leaves the document as applying it once. */
  method ApplyTwiceSameAsOnce(c: ThemeController, t: ThemeData)
    requires c.Valid()
    modifies c
    ensures c.inlineProps == WithInlineProps(old(c.inlineProps), t.cssVars.theme)
    ensures c.styleText == Some(ThemeCss(t))
    ensures c.styleElementsCreated == 1
  {
    c.ApplyThemeToDom(t);
    c.ApplyThemeToDom(t);
    InlinePropsIdempotent(old(c.inlineProps), t.cssVars.theme);
  }
}
