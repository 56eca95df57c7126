/**
 * The theme catalogue's records and the rules attached to them: the Theme.name validator,
 * the css_vars structure check, the css variable and font lookups, the ThemeSetting
 * constraints, and the store holding the theme table and the singleton setting.
 */
module ThemeModels {
  import opened Wrappers
  import opened Text
  import opened PyJson

  const NameMaxLength: nat := 100
  const DisplayNameMaxLength: nat := 200
  const VersionMaxLength: nat := 20
  const DefaultVersion := "1.0.0"

  /** A row of the theme table. `createdBy` is the creating user's id, if any. */
  datatype Theme = Theme(
    id: nat,
    name: string,
    displayName: string,
    description: string,
    cssVars: Json,
    isSystemTheme: bool,
    isActive: bool,
    version: string,
    createdBy: Option<nat>)

  /** The fields of a theme about to be inserted; the table assigns the id. */
  datatype NewTheme = NewTheme(
    name: string,
    displayName: string,
    description: string,
    cssVars: Json,
    isSystemTheme: bool,
    isActive: bool,
    version: string,
    createdBy: Option<nat>)
  {
    function WithId(id: nat): Theme {
      Theme(id, name, displayName, description, cssVars, isSystemTheme, isActive, version, createdBy)
    }
  }

  /** The singleton ThemeSetting row: theme ids for the current and the fallback theme. */
  datatype Setting = Setting(currentId: nat, fallbackId: nat, updatedBy: Option<nat>)

  // ----- the name validator -----

  predicate IsNameChar(c: char) { IsLower(c) || IsDigit(c) || c == '-' }

  predicate AllNameChars(s: string) { forall i :: 0 <= i < |s| ==> IsNameChar(s[i]) }

  /**
   * `re.search(r'^[a-z0-9-]+$', s)`: one or more name characters; Python's `$` also
   * matches just before a final newline, so one trailing "\n" is accepted.
   */
  predicate NamePatternMatches(s: string) {
    (s != [] && AllNameChars(s))
    || (|s| > 1 && s[|s| - 1] == '\n' && AllNameChars(s[..|s| - 1]))
  }

  datatype NameError = Blank | PatternMismatch | TooLong

  /**
   * The field validation of Theme.name: a blank value is reported alone; otherwise the
   * pattern validator and then the length validator each report their failure.
   */
  function NameErrors(name: string): (r: seq<NameError>)
    ensures r == [] <==> name != [] && |name| <= NameMaxLength && NamePatternMatches(name)
    ensures Blank in r <==> name == []
    ensures TooLong in r <==> |name| > NameMaxLength
    ensures PatternMismatch in r <==> name != [] && !NamePatternMatches(name)
  {
    if name == [] then [Blank]
    else
      (if NamePatternMatches(name) then [] else [PatternMismatch])
      + (if |name| > NameMaxLength then [TooLong] else [])
  }

  // ----- the css_vars structure -----

  const RequiredSections: seq<string> := ["theme", "light", "dark"]
  const ColorModes: seq<string> := ["light", "dark"]
  const RequiredColors: seq<string> := ["background", "foreground", "primary", "secondary"]

  /** Why a css_vars value is refused; `Raised` is a Python exception escaping the check. */
  datatype CssVarsProblem =
    | NotAnObject
    | MissingSection(section: string)
    | MissingColors(mode: string, missing: seq<string>)
    | Raised(error: PyError)

  /** `[c for c in colors if c not in modeVars]`, raising what `in` raises on a non-container. */
  function MissingAmong(colors: seq<string>, modeVars: Json): (r: Result<seq<string>, PyError>)
    ensures r.Ok? <==> colors == [] || In(colors[0], modeVars).Ok?
    ensures r.Ok? ==> Subsequence(r.value, colors)
    ensures r.Ok? ==> forall c :: c in r.value ==> c in colors
    ensures r.Ok? ==> forall c :: c in colors ==> (c in r.value <==> In(c, modeVars) == Ok(false))
  {
    if colors == [] then Ok([])
    else match In(colors[0], modeVars)
      case Err(e) => Err(e)
      case Ok(here) =>
        InTypeOnly(colors[0], colors[1..], modeVars);
        var rest := MissingAmong(colors[1..], modeVars);
        assert rest.Ok?;
        if here then
          SubsequenceSkip(rest.value, colors);
          Ok(rest.value)
        else
          assert ([colors[0]] + rest.value)[1..] == rest.value;
          Ok([colors[0]] + rest.value)
  }

  /** Whether `in` raises depends only on the container, not on the key. */
  lemma InTypeOnly(k: string, ks: seq<string>, j: Json)
    ensures ks != [] ==> In(ks[0], j).Ok? == In(k, j).Ok?
  {
  }

  /** Every required colour is found in the mode section by Python's `in`. */
  predicate CoversColors(modeVars: Json) {
    forall c :: c in RequiredColors ==> In(c, modeVars) == Ok(true)
  }

  /** The structure css_vars must have: a dict with the three sections and the four colours per mode. */
  predicate WellStructured(cssVars: Json) {
    && cssVars.Obj?
    && (forall s :: s in RequiredSections ==> s in cssVars.fields)
    && CoversColors(cssVars.fields["light"])
    && CoversColors(cssVars.fields["dark"])
  }

  /** The colour check of one mode section. */
  function CheckMode(mode: string, modeVars: Json): (r: Result<(), CssVarsProblem>)
    ensures r.Ok? <==> CoversColors(modeVars)
    ensures r.Err? ==> r.error.Raised? || (r.error.MissingColors? && r.error.mode == mode)
    ensures r.Err? && r.error.MissingColors? ==>
      && r.error.missing != []
      && Subsequence(r.error.missing, RequiredColors)
      && forall c :: c in RequiredColors ==> (c in r.error.missing <==> In(c, modeVars) == Ok(false))
  {
    match MissingAmong(RequiredColors, modeVars)
    case Err(e) => Err(Raised(e))
    case Ok(missing) =>
      if missing != [] then
        assert missing[0] in RequiredColors;
        Err(MissingColors(mode, missing))
      else
        assert forall c :: c in RequiredColors ==> In(c, modeVars).Ok? by {
          forall c | c in RequiredColors ensures In(c, modeVars).Ok? {
            InTypeOnly(c, RequiredColors, modeVars);
          }
        }
        Ok(())
  }

  /**
   * Theme.clean and the serializer's validate_css_vars: not a dict, then the first missing
   * section (theme, light, dark), then the missing colours of the light mode, then those of
   * the dark mode.
   */
  function CheckCssVars(cssVars: Json): (r: Result<(), CssVarsProblem>)
    ensures r.Ok? <==> WellStructured(cssVars)
    ensures r == Err(NotAnObject) <==> !cssVars.Obj?
    ensures r.Err? && r.error.MissingSection? ==>
      && cssVars.Obj? && r.error.section in RequiredSections && r.error.section !in cssVars.fields
      && (r.error.section != "theme" ==> "theme" in cssVars.fields)
      && (r.error.section == "dark" ==> "light" in cssVars.fields)
    ensures r.Err? && r.error.MissingColors? ==>
      && cssVars.Obj? && (forall s :: s in RequiredSections ==> s in cssVars.fields)
      && r.error.mode in ColorModes
      && (r.error.mode == "dark" ==> CoversColors(cssVars.fields["light"]))
      && r.error.missing != [] && Subsequence(r.error.missing, RequiredColors)
  {
    if !cssVars.Obj? then Err(NotAnObject)
    else if "theme" !in cssVars.fields then Err(MissingSection("theme"))
    else if "light" !in cssVars.fields then Err(MissingSection("light"))
    else if "dark" !in cssVars.fields then Err(MissingSection("dark"))
    else
      var _ :- CheckMode("light", cssVars.fields["light"]);
      CheckMode("dark", cssVars.fields["dark"])
  }

  // ----- lookups -----

  const DefaultMode := "light"

  /** get_css_var: `css_vars.get(mode, {}).get(name)`. */
  function GetCssVar(cssVars: Json, variable: string, mode: string): (r: Result<Option<Json>, PyError>)
    ensures r.Ok? <==> cssVars.Obj? && (mode in cssVars.fields ==> cssVars.fields[mode].Obj?)
    ensures r.Ok? && r.value.Some? <==>
      cssVars.Obj? && mode in cssVars.fields && cssVars.fields[mode].Obj?
      && variable in cssVars.fields[mode].fields
    ensures r.Ok? && r.value.Some? ==> r.value.value == cssVars.fields[mode].fields[variable]
  {
    var section :- GetOr(cssVars, mode, EmptyObj);
    Get(section, variable)
  }

  /** get_font_family: the theme section's `font-<type>` when truthy, else the light section's. */
  function GetFontFamily(cssVars: Json, fontType: string): (r: Result<Option<Json>, PyError>)
    ensures var key := "font-" + fontType;
      match GetCssVar(cssVars, key, "theme")
      case Err(e) => r == Err(e)
      case Ok(themeFont) =>
        if themeFont.Some? && Truthy(themeFont.value) then r == Ok(themeFont)
        else r == GetCssVar(cssVars, key, "light")
  {
    var key := "font-" + fontType;
    var themeSection :- GetOr(cssVars, "theme", EmptyObj);
    var themeFont :- Get(themeSection, key);
    if themeFont.Some? && Truthy(themeFont.value) then Ok(themeFont)
    else
      var light :- GetOr(cssVars, "light", EmptyObj);
      Get(light, key)
  }

  /** A theme font that is set and non-empty wins; otherwise the light section decides. */
  lemma FontFamilyPrecedence(themeFonts: map<string, Json>, lightFonts: map<string, Json>, fontType: string)
    ensures var cv := Obj(map["theme" := Obj(themeFonts), "light" := Obj(lightFonts)]);
      var key := "font-" + fontType;
      && (key in themeFonts && Truthy(themeFonts[key]) ==> GetFontFamily(cv, fontType) == Ok(Some(themeFonts[key])))
      && (!(key in themeFonts && Truthy(themeFonts[key])) ==>
            GetFontFamily(cv, fontType) == Ok(if key in lightFonts then Some(lightFonts[key]) else None))
  {
    var cv := Obj(map["theme" := Obj(themeFonts), "light" := Obj(lightFonts)]);
    assert cv.fields["theme"] == Obj(themeFonts) && cv.fields["light"] == Obj(lightFonts);
  }

  // ----- ThemeSetting -----

  datatype SettingProblem = CurrentInactive | FallbackInactive | SameTheme

  /** ThemeSetting.clean: both themes active, then distinct. */
  function CleanSetting(current: Theme, fallback: Theme): (r: Result<(), SettingProblem>)
    ensures r.Ok? <==> current.isActive && fallback.isActive && current.id != fallback.id
    ensures !current.isActive ==> r == Err(CurrentInactive)
    ensures current.isActive && !fallback.isActive ==> r == Err(FallbackInactive)
    ensures current.isActive && fallback.isActive && current.id == fallback.id ==> r == Err(SameTheme)
  {
    if !current.isActive then Err(CurrentInactive)
    else if !fallback.isActive then Err(FallbackInactive)
    else if current.id == fallback.id then Err(SameTheme)
    else Ok(())
  }

  // ----- queries over the theme table -----

  predicate HasId(ts: seq<Theme>, id: nat) {
    exists i :: 0 <= i < |ts| && ts[i].id == id
  }

  predicate NameTaken(ts: seq<Theme>, name: string) {
    exists i :: 0 <= i < |ts| && ts[i].name == name
  }

  predicate ActiveNameTaken(ts: seq<Theme>, name: string) {
    exists i :: 0 <= i < |ts| && ts[i].name == name && ts[i].isActive
  }

  predicate UniqueIds(ts: seq<Theme>) {
    forall i, j :: 0 <= i < j < |ts| ==> ts[i].id != ts[j].id
  }

  predicate UniqueNames(ts: seq<Theme>) {
    forall i, j :: 0 <= i < j < |ts| ==> ts[i].name != ts[j].name
  }

  /** The first row with the given id. */
  function ThemeWithId(ts: seq<Theme>, id: nat): (r: Option<Theme>)
    ensures r.Some? <==> HasId(ts, id)
    ensures r.Some? ==> r.value in ts && r.value.id == id
  {
    if ts == [] then None
    else if ts[0].id == id then Some(ts[0])
    else
      var r := ThemeWithId(ts[1..], id);
      assert HasId(ts, id) ==> HasId(ts[1..], id) by {
        if HasId(ts, id) {
          var i :| 0 <= i < |ts| && ts[i].id == id;
          assert ts[1..][i - 1] == ts[i];
        }
      }
      assert HasId(ts[1..], id) ==> HasId(ts, id) by {
        if HasId(ts[1..], id) {
          var i :| 0 <= i < |ts[1..]| && ts[1..][i].id == id;
          assert ts[i + 1] == ts[1..][i];
        }
      }
      r
  }

  /** `Theme.objects.get(name=name, is_active=True)`, None for DoesNotExist. */
  function ActiveThemeNamed(ts: seq<Theme>, name: string): (r: Option<Theme>)
    ensures r.Some? <==> ActiveNameTaken(ts, name)
    ensures r.Some? ==> r.value in ts && r.value.name == name && r.value.isActive
  {
    if ts == [] then None
    else if ts[0].name == name && ts[0].isActive then Some(ts[0])
    else
      var r := ActiveThemeNamed(ts[1..], name);
      assert ActiveNameTaken(ts, name) <==> ActiveNameTaken(ts[1..], name) by {
        if ActiveNameTaken(ts, name) {
          var i :| 0 <= i < |ts| && ts[i].name == name && ts[i].isActive;
          assert ts[1..][i - 1] == ts[i];
        }
        if ActiveNameTaken(ts[1..], name) {
          var i :| 0 <= i < |ts[1..]| && ts[1..][i].name == name && ts[1..][i].isActive;
          assert ts[i + 1] == ts[1..][i];
        }
      }
      r
  }

  /** The position of the row named `name`, if any. */
  function PositionOfName(ts: seq<Theme>, name: string): (r: Option<nat>)
    ensures r.Some? ==> r.value < |ts| && ts[r.value].name == name
    ensures r.None? <==> !NameTaken(ts, name)
  {
    if ts == [] then None
    else if ts[0].name == name then Some(0)
    else match PositionOfName(ts[1..], name)
      case None =>
        assert forall i :: 0 <= i < |ts| ==> ts[i].name != name by {
          forall i | 0 <= i < |ts| ensures ts[i].name != name {
            if i > 0 { assert ts[i] == ts[1..][i - 1]; }
          }
        }
        None
      case Some(i) => Some(i + 1)
  }

  /**
   * `Theme.objects.filter(is_active=True).first()` under the default ordering by
   * display_name: an active theme whose display name is least (code-point order);
   * among equal display names, the earliest row.
   */
  function FirstActive(ts: seq<Theme>): (r: Option<Theme>)
    ensures r.None? <==> forall i :: 0 <= i < |ts| ==> !ts[i].isActive
    ensures r.Some? ==> r.value in ts && r.value.isActive
    ensures r.Some? ==> forall i :: 0 <= i < |ts| && ts[i].isActive ==> LexLeq(r.value.displayName, ts[i].displayName)
  {
    if ts == [] then None
    else
      var rest := FirstActive(ts[1..]);
      assert forall i :: 1 <= i < |ts| ==> ts[i] == ts[1..][i - 1];
      match rest
      case None => if ts[0].isActive then Some(ts[0]) else None
      case Some(b) =>
        if ts[0].isActive && LexLeq(ts[0].displayName, b.displayName) then
          assert forall i :: 1 <= i < |ts| && ts[i].isActive ==> LexLeq(ts[0].displayName, ts[i].displayName) by {
            forall i | 1 <= i < |ts| && ts[i].isActive ensures LexLeq(ts[0].displayName, ts[i].displayName) {
              LexLeqTransitive(ts[0].displayName, b.displayName, ts[i].displayName);
            }
          }
          Some(ts[0])
        else
          assert ts[0].isActive ==> LexLeq(b.displayName, ts[0].displayName) by {
            LexLessTotal(ts[0].displayName, b.displayName);
          }
          Some(b)
  }

  /** get_current_theme: the setting's current theme, or with no setting the first active theme. */
  function GetCurrentTheme(ts: seq<Theme>, setting: Option<Setting>): (r: Option<Theme>)
    ensures setting.None? ==> r == FirstActive(ts)
    ensures setting.Some? ==> (r.Some? <==> HasId(ts, setting.value.currentId))
    ensures setting.Some? && r.Some? ==> r.value in ts && r.value.id == setting.value.currentId
  {
    if setting.Some? then ThemeWithId(ts, setting.value.currentId) else FirstActive(ts)
  }

  /** get_fallback_theme: the setting's fallback theme, or with no setting the first active theme. */
  function GetFallbackTheme(ts: seq<Theme>, setting: Option<Setting>): (r: Option<Theme>)
    ensures setting.None? ==> r == FirstActive(ts)
    ensures setting.Some? ==> (r.Some? <==> HasId(ts, setting.value.fallbackId))
    ensures setting.Some? && r.Some? ==> r.value in ts && r.value.id == setting.value.fallbackId
  {
    if setting.Some? then ThemeWithId(ts, setting.value.fallbackId) else FirstActive(ts)
  }

  /**
   * Without a setting both lookups answer the same first active theme; with a setting
   * whose current and fallback coincide they answer the same row.
   */
  lemma CurrentAndFallbackAgree(ts: seq<Theme>, setting: Option<Setting>)
    requires setting.None? || setting.value.currentId == setting.value.fallbackId
    ensures GetCurrentTheme(ts, setting) == GetFallbackTheme(ts, setting)
  {
  }

  /** A table whose rows keep their ids (possibly with rows added after them) keeps every id. */
  lemma HasIdKept(ts: seq<Theme>, us: seq<Theme>, id: nat)
    requires |ts| <= |us| && forall i :: 0 <= i < |ts| ==> us[i].id == ts[i].id
    requires HasId(ts, id)
    ensures HasId(us, id)
  {
    var i :| 0 <= i < |ts| && ts[i].id == id;
    assert us[i].id == id;
  }

  /** Database failures: a unique or foreign-key constraint, or the singleton rule of ThemeSetting.save. */
  datatype DbError = IntegrityError | SettingAlreadyExists

  /** The theme table (in primary-key order) and the ThemeSetting table, which holds at most one row. */
  class ThemeStore {
    var themes: seq<Theme>
    var setting: Option<Setting>
    var nextId: nat

    ghost predicate Valid()
      reads this
    {
      && UniqueIds(themes)
      && UniqueNames(themes)
      && (forall i :: 0 <= i < |themes| ==> themes[i].id < nextId)
      && (setting.Some? ==> HasId(themes, setting.value.currentId) && HasId(themes, setting.value.fallbackId))
    }

    constructor ()
      ensures Valid() && themes == [] && setting.None?
    {
      themes := [];
      setting := None;
      nextId := 1;
    }

    /** `Theme.objects.create(...)`: the unique name constraint refuses a taken name. */
    method CreateTheme(t: NewTheme) returns (r: Result<Theme, DbError>)
      requires Valid()
      modifies this
      ensures Valid()
      ensures NameTaken(old(themes), t.name) ==> r == Err(IntegrityError) && unchanged(this)
      ensures !NameTaken(old(themes), t.name) ==>
        && r == Ok(t.WithId(old(nextId)))
        && themes == old(themes) + [r.value]
        && setting == old(setting)
        && nextId == old(nextId) + 1
    {
      if PositionOfName(themes, t.name).Some? {
        return Err(IntegrityError);
      }
      var row := t.WithId(nextId);
      if setting.Some? {
        HasIdKept(themes, themes + [row], setting.value.currentId);
        HasIdKept(themes, themes + [row], setting.value.fallbackId);
      }
      themes := themes + [row];
      nextId := nextId + 1;
      r := Ok(row);
    }

    /** `theme.save()` on an existing row: every field may change except the id. */
    method SaveTheme(i: nat, t: Theme) returns (r: Result<(), DbError>)
      requires Valid() && i < |themes| && t.id == themes[i].id
      modifies this
      ensures Valid()
      ensures setting == old(setting) && nextId == old(nextId)
      ensures r.Ok? <==> forall j :: 0 <= j < |old(themes)| && j != i ==> old(themes)[j].name != t.name
      ensures r.Ok? ==> themes == old(themes)[i := t]
      ensures r.Err? ==> r.error == IntegrityError && themes == old(themes)
    {
      var j := 0;
      while j < |themes|
        invariant 0 <= j <= |themes|
        invariant forall k :: 0 <= k < j && k != i ==> themes[k].name != t.name
      {
        if j != i && themes[j].name == t.name {
          return Err(IntegrityError);
        }
        j := j + 1;
      }
      if setting.Some? {
        HasIdKept(themes, themes[i := t], setting.value.currentId);
        HasIdKept(themes, themes[i := t], setting.value.fallbackId);
      }
      themes := themes[i := t];
      r := Ok(());
    }

    /**
     * ThemeSetting.save: inserting a new row when one exists is refused; saving the existing
     * row replaces it. A reference to a missing theme is a foreign-key failure.
     */
    method SaveSetting(s: Setting, adding: bool) returns (r: Result<(), DbError>)
      requires Valid()
      modifies this`setting
      ensures Valid()
      ensures adding && old(setting).Some? ==> r == Err(SettingAlreadyExists) && setting == old(setting)
      ensures !(adding && old(setting).Some?) && !(HasId(themes, s.currentId) && HasId(themes, s.fallbackId)) ==>
        r == Err(IntegrityError) && setting == old(setting)
      ensures !(adding && old(setting).Some?) && HasId(themes, s.currentId) && HasId(themes, s.fallbackId) ==>
        r == Ok(()) && setting == Some(s)
    {
      if adding && setting.Some? {
        return Err(SettingAlreadyExists);
      }
      if ThemeWithId(themes, s.currentId).None? || ThemeWithId(themes, s.fallbackId).None? {
        return Err(IntegrityError);
      }
      setting := Some(s);
      r := Ok(());
    }
  }
}
