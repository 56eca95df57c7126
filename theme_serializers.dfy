/**
 * The request-side validators of the theme API: the css_vars check of the full theme
 * serializer, the fields the list serializer exposes, the id checks of the setting
 * serializer and the name check and forced flags of the create serializer.
 */
module ThemeSerializers {
  import opened Wrappers
  import opened Text
  import opened PyJson
  import opened ThemeModels

  /** validate_css_vars: the value itself when well structured, else the first problem. */
  function ValidateCssVars(value: Json): (r: Result<Json, CssVarsProblem>)
    ensures r.Ok? <==> WellStructured(value)
    ensures r.Ok? ==> r.value == value
    ensures r.Err? ==> CheckCssVars(value) == Err(r.error)
  {
    match CheckCssVars(value)
    case Ok(_) => Ok(value)
    case Err(p) => Err(p)
  }

  /** The fields of a theme in list responses; css_vars and is_active are not among them. */
  datatype ThemeSummary = ThemeSummary(
    id: nat,
    name: string,
    displayName: string,
    description: string,
    isSystemTheme: bool,
    version: string)

  /** ThemeListSerializer. */
  function Summary(t: Theme): (r: ThemeSummary)
    ensures r.id == t.id && r.name == t.name && r.displayName == t.displayName
    ensures r.description == t.description && r.isSystemTheme == t.isSystemTheme && r.version == t.version
  {
    ThemeSummary(t.id, t.name, t.displayName, t.description, t.isSystemTheme, t.version)
  }

  /** A list item does not depend on css_vars: themes differing only there list identically. */
  lemma SummaryIgnoresCssVars(t: Theme, other: Json)
    ensures Summary(t.(cssVars := other)) == Summary(t)
  {
  }

  /** A list item determines the theme apart from css_vars, is_active and created_by. */
  lemma SummaryDeterminesListedFields(s: Theme, t: Theme)
    requires Summary(s) == Summary(t)
    ensures s.(cssVars := t.cssVars, isActive := t.isActive, createdBy := t.createdBy) == t
  {
  }

  const CurrentThemeIdMessage := "Current theme must exist and be active"
  const FallbackThemeIdMessage := "Fallback theme must exist and be active"
  const SameThemesMessage := "Current and fallback themes must be different"

  predicate HasActiveId(ts: seq<Theme>, id: int) {
    exists i :: 0 <= i < |ts| && ts[i].id == id && ts[i].isActive
  }

  /**
   * validate_current_theme_id and validate_fallback_theme_id: a non-zero id must belong
   * to an active theme; an absent id and 0 are not checked. The value is returned as given.
   */
  function ValidateThemeId(ts: seq<Theme>, value: Option<int>, message: string): (r: Result<Option<int>, string>)
    ensures r.Ok? <==> value.None? || value.value == 0 || HasActiveId(ts, value.value)
    ensures r.Ok? ==> r.value == value
    ensures r.Err? ==> r.error == message
  {
    if value.Some? && value.value != 0 && !HasActiveId(ts, value.value) then Err(message)
    else Ok(value)
  }

  /** `validate`: equal ids are refused only when both are given and non-zero. */
  function ValidateSettingIds(current: Option<int>, fallback: Option<int>): (r: Result<(Option<int>, Option<int>), string>)
    ensures r.Err? <==> current.Some? && fallback.Some? && current.value != 0 && current.value == fallback.value
    ensures r.Ok? ==> r.value == (current, fallback)
    ensures r.Err? ==> r.error == SameThemesMessage
  {
    if current.Some? && fallback.Some? && current.value != 0 && fallback.value != 0
      && current.value == fallback.value
    then Err(SameThemesMessage)
    else Ok((current, fallback))
  }

  /**
   * The setting serializer's validation of its two write-only ids: the field validators,
   * whose messages are collected, then `validate` when both fields passed.
   */
  function ValidateSettingInput(ts: seq<Theme>, current: Option<int>, fallback: Option<int>): (r: Result<(Option<int>, Option<int>), seq<string>>)
    ensures r.Ok? <==>
      && (current.None? || current.value == 0 || HasActiveId(ts, current.value))
      && (fallback.None? || fallback.value == 0 || HasActiveId(ts, fallback.value))
      && !(current.Some? && fallback.Some? && current.value != 0 && current.value == fallback.value)
    ensures r.Ok? ==> r.value == (current, fallback)
    ensures r.Err? ==> r.error != []
  {
    var c := ValidateThemeId(ts, current, CurrentThemeIdMessage);
    var f := ValidateThemeId(ts, fallback, FallbackThemeIdMessage);
    var fieldErrors := (if c.Err? then [c.error] else []) + (if f.Err? then [f.error] else []);
    if fieldErrors != [] then Err(fieldErrors)
    else match ValidateSettingIds(current, fallback)
      case Ok(v) => Ok(v)
      case Err(m) => Err([m])
  }

  const NameExistsMessage := "Theme with this name already exists"

  /** ThemeCreateSerializer.validate_name: a name held by any theme, active or not, is refused. */
  function ValidateName(ts: seq<Theme>, name: string): (r: Result<string, string>)
    ensures r.Ok? <==> !NameTaken(ts, name)
    ensures r.Ok? ==> r.value == name
    ensures r.Err? ==> r.error == NameExistsMessage
  {
    if PositionOfName(ts, name).Some? then Err(NameExistsMessage) else Ok(name)
  }

  /** The validated fields of ThemeCreateSerializer; an omitted description or version takes the model default. */
  datatype CreateData = CreateData(
    name: string,
    displayName: string,
    description: Option<string>,
    cssVars: Json,
    version: Option<string>)

  /** The row ThemeCreateSerializer.create inserts: a user theme, active, owned by the requesting user. */
  function CreatedRow(data: CreateData, requestUser: Option<nat>): (r: NewTheme)
    ensures !r.isSystemTheme && r.isActive && r.createdBy == requestUser
    ensures r.name == data.name && r.displayName == data.displayName && r.cssVars == data.cssVars
    ensures r.description == data.description.GetOr("")
    ensures r.version == data.version.GetOr(DefaultVersion)
  {
    NewTheme(data.name, data.displayName, data.description.GetOr(""), data.cssVars,
      false, true, data.version.GetOr(DefaultVersion), requestUser)
  }

  /**
   * ThemeCreateSerializer.create: inserts the row with is_system_theme false, is_active true
   * and created_by the requesting user when authenticated (`requestUser`).
   */
  method Create(store: ThemeStore, data: CreateData, requestUser: Option<nat>) returns (r: Result<Theme, DbError>)
    requires store.Valid()
    modifies store
    ensures store.Valid()
    ensures NameTaken(old(store.themes), data.name) ==> r == Err(IntegrityError) && store.themes == old(store.themes)
    ensures !NameTaken(old(store.themes), data.name) ==>
      && r == Ok(CreatedRow(data, requestUser).WithId(old(store.nextId)))
      && store.themes == old(store.themes) + [r.value]
    ensures store.setting == old(store.setting)
  {
    r := store.CreateTheme(CreatedRow(data, requestUser));
  }
}
