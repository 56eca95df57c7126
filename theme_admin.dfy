/**
 * The Django admin for themes: the colour-preview and css_vars-summary columns, the
 * "duplicate" action, the import view that upserts one theme per JSON file, and the
 * singleton rules of the ThemeSetting admin. HTML markup and the admin site's own
 * machinery are not modelled; only which branch is taken and which items are emitted.
 */
module ThemeAdmin {
  import opened Wrappers
  import opened Text
  import opened PyJson
  import opened ThemeModels

  // ----- preview_colors -----

  /** The colour column: no preview, no colours, or one swatch per (variable, value). */
  datatype ColorPreview = NoPreview | NoColors | Swatches(colors: seq<(string, Json)>)

  /** The light-mode variables shown as swatches, in display order. */
  const PreviewVars: seq<string> := ["background", "primary", "secondary", "accent"]

  function Names(swatches: seq<(string, Json)>): (r: seq<string>)
    ensures |r| == |swatches| && forall i :: 0 <= i < |r| ==> r[i] == swatches[i].0
  {
    seq(|swatches|, i requires 0 <= i < |swatches| => swatches[i].0)
  }

  /**
   * One swatch per variable of `vars` that `lightVars` holds, in the order of `vars`;
   * `in` and the subscript raise on a value that is not a dict.
   */
  function SwatchesFor(vars: seq<string>, lightVars: Json): (r: Result<seq<(string, Json)>, PyError>)
    ensures lightVars.Obj? ==> r.Ok?
    ensures r.Ok? ==> Subsequence(Names(r.value), vars)
    ensures r.Ok? && lightVars.Obj? ==>
      forall i :: 0 <= i < |r.value| ==>
        r.value[i].0 in lightVars.fields && r.value[i].1 == lightVars.fields[r.value[i].0]
    ensures r.Ok? && lightVars.Obj? ==>
      forall v :: v in vars && v in lightVars.fields ==> v in Names(r.value)
    ensures vars != [] && In(vars[0], lightVars).Err? ==> r.Err?
  {
    if vars == [] then Ok([])
    else
      var present :- In(vars[0], lightVars);
      if present then
        var value :- Subscript(lightVars, KStr(vars[0]));
        match SwatchesFor(vars[1..], lightVars)
        case Err(e) => Err(e)
        case Ok(rest) =>
          SwatchKept(vars, lightVars, value, rest);
          Ok([(vars[0], value)] + rest)
      else
        var rest :- SwatchesFor(vars[1..], lightVars);
        SwatchSkipped(vars, lightVars, rest);
        Ok(rest)
  }

  /** A first variable that is present becomes the first swatch in front of the others. */
  lemma SwatchKept(vars: seq<string>, lightVars: Json, value: Json, rest: seq<(string, Json)>)
    requires vars != [] && lightVars.Obj? && vars[0] in lightVars.fields && value == lightVars.fields[vars[0]]
    requires Subsequence(Names(rest), vars[1..])
    requires forall i :: 0 <= i < |rest| ==> rest[i].0 in lightVars.fields && rest[i].1 == lightVars.fields[rest[i].0]
    requires forall v :: v in vars[1..] && v in lightVars.fields ==> v in Names(rest)
    ensures Subsequence(Names([(vars[0], value)] + rest), vars)
    ensures forall i :: 0 <= i < |rest| + 1 ==>
      ([(vars[0], value)] + rest)[i].0 in lightVars.fields
      && ([(vars[0], value)] + rest)[i].1 == lightVars.fields[([(vars[0], value)] + rest)[i].0]
    ensures forall v :: v in vars && v in lightVars.fields ==> v in Names([(vars[0], value)] + rest)
  {
    var sw := [(vars[0], value)] + rest;
    assert Names(sw) == [vars[0]] + Names(rest);
    forall i | 0 <= i < |sw| ensures sw[i].0 in lightVars.fields && sw[i].1 == lightVars.fields[sw[i].0] {
      if i > 0 { assert sw[i] == rest[i - 1]; }
    }
    forall v | v in vars && v in lightVars.fields ensures v in Names(sw) {
      if v != vars[0] {
        var k :| 0 <= k < |vars| && vars[k] == v;
        assert vars[1..][k - 1] == v;
        var m :| 0 <= m < |Names(rest)| && Names(rest)[m] == v;
        assert Names(sw)[m + 1] == v;
      } else {
        assert Names(sw)[0] == v;
      }
    }
  }

  /** A first variable that is absent adds no swatch. */
  lemma SwatchSkipped(vars: seq<string>, lightVars: Json, rest: seq<(string, Json)>)
    requires vars != [] && (lightVars.Obj? ==> vars[0] !in lightVars.fields)
    requires Subsequence(Names(rest), vars[1..])
    requires lightVars.Obj? ==> forall v :: v in vars[1..] && v in lightVars.fields ==> v in Names(rest)
    ensures Subsequence(Names(rest), vars)
    ensures lightVars.Obj? ==> forall v :: v in vars && v in lightVars.fields ==> v in Names(rest)
  {
    SubsequenceSkip(Names(rest), vars);
    assert forall v :: v in vars ==> v == vars[0] || v in vars[1..];
  }

  /** The colour column of a theme, as the admin computes it from css_vars. */
  function ColorPreviewOf(cssVars: Json): (r: Result<ColorPreview, PyError>)
    ensures !Truthy(cssVars) ==> r == Ok(NoPreview)
    ensures In("light", cssVars) == Ok(false) ==> r == Ok(NoPreview)
    ensures cssVars.Obj? && "light" in cssVars.fields && cssVars.fields["light"].Obj? ==>
      var light := cssVars.fields["light"].fields;
      && r.Ok?
      && (r.value == NoColors <==> forall v :: v in PreviewVars ==> v !in light)
      && (r.value.Swatches? ==>
            && Subsequence(Names(r.value.colors), PreviewVars)
            && (forall v :: v in Names(r.value.colors) <==> v in PreviewVars && v in light)
            && forall i :: 0 <= i < |r.value.colors| ==> r.value.colors[i].1 == light[r.value.colors[i].0])
  {
    if !Truthy(cssVars) then Ok(NoPreview)
    else
      var hasLight :- In("light", cssVars);
      if !hasLight then Ok(NoPreview)
      else
        var lightVars :- Subscript(cssVars, KStr("light"));
        var colors :- SwatchesFor(PreviewVars, lightVars);
        SubsequenceMembers(Names(colors), PreviewVars);
        if colors == [] then Ok(NoColors) else Ok(Swatches(colors))
  }

  /** A subsequence draws its elements from the sequence it is taken from. */
  lemma {:induction false} SubsequenceMembers<T>(xs: seq<T>, ys: seq<T>)
    requires Subsequence(xs, ys)
    ensures forall x :: x in xs ==> x in ys
  {
    if xs != [] && ys != [] {
      if xs[0] == ys[0] {
        SubsequenceMembers(xs[1..], ys[1..]);
        assert forall x :: x in xs ==> x == xs[0] || x in xs[1..];
      } else {
        SubsequenceMembers(xs, ys[1..]);
      }
    }
  }

  function PrependOk(colors: seq<(string, Json)>, rest: Result<seq<(string, Json)>, PyError>): Result<seq<(string, Json)>, PyError> {
    match rest
    case Ok(more) => Ok(colors + more)
    case Err(e) => Err(e)
  }

  /** One step of SwatchesFor: the head variable, then the rest. */
  lemma SwatchesStep(vars: seq<string>, lightVars: Json)
    requires vars != []
    ensures In(vars[0], lightVars).Err? ==> SwatchesFor(vars, lightVars) == Err(In(vars[0], lightVars).error)
    ensures In(vars[0], lightVars) == Ok(false) ==> SwatchesFor(vars, lightVars) == SwatchesFor(vars[1..], lightVars)
    ensures In(vars[0], lightVars) == Ok(true) && Subscript(lightVars, KStr(vars[0])).Err? ==>
      SwatchesFor(vars, lightVars) == Err(Subscript(lightVars, KStr(vars[0])).error)
    ensures In(vars[0], lightVars) == Ok(true) && Subscript(lightVars, KStr(vars[0])).Ok? ==>
      SwatchesFor(vars, lightVars) ==
        PrependOk([(vars[0], Subscript(lightVars, KStr(vars[0])).value)], SwatchesFor(vars[1..], lightVars))
  {
  }

  lemma PrependTwice(a: seq<(string, Json)>, b: seq<(string, Json)>, rest: Result<seq<(string, Json)>, PyError>)
    ensures PrependOk(a, PrependOk(b, rest)) == PrependOk(a + b, rest)
  {
    if rest.Ok? { assert a + (b + rest.value) == (a + b) + rest.value; }
  }

  lemma PrependNothing(rest: Result<seq<(string, Json)>, PyError>)
    ensures PrependOk([], rest) == rest
  {
    if rest.Ok? { assert [] + rest.value == rest.value; }
  }

  /** The loop of preview_colors over `vars`, collecting a swatch for each variable present. */
  method CollectSwatches(vars: seq<string>, lightVars: Json) returns (r: Result<seq<(string, Json)>, PyError>)
    ensures r == SwatchesFor(vars, lightVars)
  {
    var colors: seq<(string, Json)> := [];
    var i := 0;
    assert vars[0..] == vars;
    PrependNothing(SwatchesFor(vars, lightVars));
    while i < |vars|
      invariant 0 <= i <= |vars|
      invariant SwatchesFor(vars, lightVars) == PrependOk(colors, SwatchesFor(vars[i..], lightVars))
    {
      var name := vars[i];
      assert vars[i..][1..] == vars[i + 1..];
      SwatchesStep(vars[i..], lightVars);
      var present := In(name, lightVars);
      if present.Err? {
        return Err(present.error);
      }
      if present.value {
        var value := Subscript(lightVars, KStr(name));
        if value.Err? {
          return Err(value.error);
        }
        PrependTwice(colors, [(name, value.value)], SwatchesFor(vars[i + 1..], lightVars));
        colors := colors + [(name, value.value)];
      }
      i := i + 1;
    }
    assert vars[i..] == [] && colors + [] == colors;
    r := Ok(colors);
  }

  /** preview_colors. */
  method PreviewColors(cssVars: Json) returns (r: Result<ColorPreview, PyError>)
    ensures r == ColorPreviewOf(cssVars)
  {
    if !Truthy(cssVars) {
      return Ok(NoPreview);
    }
    var hasLight :- In("light", cssVars);
    if !hasLight {
      return Ok(NoPreview);
    }
    var lightVars :- Subscript(cssVars, KStr("light"));
    var colors :- CollectSwatches(PreviewVars, lightVars);
    r := if colors == [] then Ok(NoColors) else Ok(Swatches(colors));
  }

  // ----- css_vars_preview -----

  /** The summary column: the section names and the entry counts of light, dark and theme. */
  datatype VarsSummary =
    | NoVariables
    | Summary(sections: set<string>, lightCount: nat, darkCount: nat, themeCount: nat)

  /** `len(css_vars.get(section, {}))`: a missing section counts as empty. */
  function SectionSize(cssVars: Json, section: string): (r: Result<nat, PyError>)
    requires cssVars.Obj?
    ensures section !in cssVars.fields ==> r == Ok(0)
    ensures section in cssVars.fields ==> r == Len(cssVars.fields[section])
    ensures section in cssVars.fields && cssVars.fields[section].Obj? ==>
      r == Ok(|cssVars.fields[section].fields.Keys|)
  {
    Len(if section in cssVars.fields then cssVars.fields[section] else EmptyObj)
  }

  /** css_vars_preview. */
  function CssVarsSummary(cssVars: Json): (r: Result<VarsSummary, PyError>)
    ensures r == Ok(NoVariables) <==> !Truthy(cssVars)
    ensures Truthy(cssVars) && !cssVars.Obj? ==> r == Err(AttributeError)
    ensures r.Ok? && r.value.Summary? ==>
      && cssVars.Obj?
      && r.value.sections == cssVars.fields.Keys
      && Ok(r.value.lightCount) == SectionSize(cssVars, "light")
      && Ok(r.value.darkCount) == SectionSize(cssVars, "dark")
      && Ok(r.value.themeCount) == SectionSize(cssVars, "theme")
    ensures Truthy(cssVars) && cssVars.Obj? ==>
      (r.Ok? <==> SectionSize(cssVars, "light").Ok? && SectionSize(cssVars, "dark").Ok?
                  && SectionSize(cssVars, "theme").Ok?)
  {
    if !Truthy(cssVars) then Ok(NoVariables)
    else if !cssVars.Obj? then Err(AttributeError)
    else
      var light :- SectionSize(cssVars, "light");
      var dark :- SectionSize(cssVars, "dark");
      var theme :- SectionSize(cssVars, "theme");
      Ok(Summary(cssVars.fields.Keys, light, dark, theme))
  }

  /**
   * For a css_vars that passes the theme check the summary fails only on a theme section
   * without a length (a number, a boolean or null), and otherwise lists the three sections.
   */
  lemma WellStructuredSummarised(cssVars: Json)
    requires WellStructured(cssVars)
    ensures CssVarsSummary(cssVars).Ok? <==> Len(cssVars.fields["theme"]).Ok?
    ensures CssVarsSummary(cssVars).Ok? ==>
      && CssVarsSummary(cssVars).value.Summary?
      && forall s :: s in RequiredSections ==> s in CssVarsSummary(cssVars).value.sections
  {
    assert "theme" in RequiredSections && "background" in RequiredColors;
  }

  // ----- duplicate_theme -----

  /** The fields of a stored row, without its id. */
  function Fields(t: Theme): (r: NewTheme)
    ensures r.WithId(t.id) == t
  {
    NewTheme(t.name, t.displayName, t.description, t.cssVars, t.isSystemTheme, t.isActive, t.version, t.createdBy)
  }

  /** The copy the duplicate action saves: renamed, a user theme, owned by the acting user. */
  function CopyOf(t: Theme, user: nat): (r: NewTheme)
    ensures r.name == t.name + "-copy" && r.displayName == t.displayName + " (Copy)"
    ensures !r.isSystemTheme && r.createdBy == Some(user)
    ensures r.description == t.description && r.cssVars == t.cssVars
    ensures r.isActive == t.isActive && r.version == t.version
  {
    Fields(t).(name := t.name + "-copy", displayName := t.displayName + " (Copy)",
               isSystemTheme := false, createdBy := Some(user))
  }

  /** `after` is `before` followed by one copy of each theme of `selected`, in order. */
  ghost predicate CopiesAppended(before: seq<Theme>, after: seq<Theme>, selected: seq<Theme>, user: nat) {
    && |after| == |before| + |selected|
    && after[..|before|] == before
    && forall k :: 0 <= k < |selected| ==> Fields(after[|before| + k]) == CopyOf(selected[k], user)
  }

  /**
   * duplicate_theme: saves a copy of each selected theme in turn and reports how many it
   * saved. A copy whose name is taken makes the save raise; the action is not atomic, so
   * the copies saved before stay.
   */
  method DuplicateThemes(store: ThemeStore, selected: seq<Theme>, user: nat) returns (r: Result<nat, DbError>)
    requires store.Valid()
    modifies store
    ensures store.Valid() && store.setting == old(store.setting)
    ensures r.Ok? ==> r.value == |selected| && CopiesAppended(old(store.themes), store.themes, selected, user)
    ensures r.Ok? ==> forall k :: 0 <= k < |selected| ==> !NameTaken(old(store.themes), CopyOf(selected[k], user).name)
    ensures r.Err? ==>
      && r.error == IntegrityError
      && exists k :: 0 <= k < |selected|
           && CopiesAppended(old(store.themes), store.themes, selected[..k], user)
           && NameTaken(store.themes, CopyOf(selected[k], user).name)
  {
    ghost var before := store.themes;
    var duplicated := 0;
    while duplicated < |selected|
      invariant 0 <= duplicated <= |selected|
      invariant store.Valid() && store.setting == old(store.setting)
      invariant CopiesAppended(before, store.themes, selected[..duplicated], user)
      invariant forall k :: 0 <= k < duplicated ==> !NameTaken(before, CopyOf(selected[k], user).name)
    {
      var copy := CopyOf(selected[duplicated], user);
      ghost var current := store.themes;
      var saved := store.CreateTheme(copy);
      if saved.Err? {
        return Err(saved.error);
      }
      assert !NameTaken(before, copy.name) by {
        assert current[..|before|] == before;
        forall i | 0 <= i < |before| ensures before[i].name != copy.name {
          assert current[i] == before[i];
        }
      }
      assert store.themes[|before| + duplicated] == copy.WithId(saved.value.id);
      assert store.themes[..|before|] == current[..|before|];
      duplicated := duplicated + 1;
    }
    assert selected[..duplicated] == selected;
    r := Ok(duplicated);
  }

  /** A copy never keeps its original's name, so duplicating cannot collide with the original itself. */
  lemma CopyRenamed(t: Theme, user: nat)
    ensures CopyOf(t, user).name != t.name && |CopyOf(t, user).name| == |t.name| + 5
    ensures StartsWith(CopyOf(t, user).name, t.name)
  {
    assert CopyOf(t, user).name[..|t.name|] == t.name;
  }

  // ----- import_themes_view -----

  /** How the view treats one file: it creates a theme or updates the one of that name. */
  datatype Upsert = Created | Refreshed

  /**
   * What `open` and `json.load` make of a theme file: a decoded value, text that is not
   * JSON (JSONDecodeError), or a file that cannot be opened or is not UTF-8 text (OSError,
   * UnicodeDecodeError).
   */
  datatype FileContent = Decoded(value: Json) | NotJson | Unreadable

  /**
   * Why a file was not stored: it was not JSON (warned about and skipped), it could not be
   * read, a lookup raised, or a field holds a value other than text. Only the first is
   * caught per file; the others reach the view's outer handler.
   */
  datatype FileProblem = Undecodable | ReadFailed | LookupFailed(error: PyError) | Unstorable

  /** The fields the view reads from a theme file; a missing description stays None. */
  datatype AdminData = AdminData(cssVars: Json, displayName: string, description: Option<string>, version: string)

  /** `stem.replace('-', ' ').title()`: the display name when the file names none. */
  function DefaultDisplayName(stem: string): (r: string)
    ensures |r| == |stem|
    ensures forall i :: 0 <= i < |r| ==> r[i] != '-'
    ensures forall i :: 0 <= i < |stem| && stem[i] == '-' ==> r[i] == ' '
    ensures forall i :: 0 <= i < |stem| && stem[i] != '-' ==> LowerChar(r[i]) == LowerChar(stem[i])
  {
    var spaced := ReplaceAll(stem, "-", " ");
    ReplaceAllChar(stem, '-', ' ');
    TitleCaseOnly(spaced);
    Title(spaced)
  }

  /** The first of `keys` that `m` holds, else `default`: nested `dict.get` calls. */
  function FirstPresent(m: map<string, Json>, keys: seq<string>, default: Json): (r: Json)
    ensures forall j :: 0 <= j < |keys| && keys[j] in m && (forall k :: 0 <= k < j ==> keys[k] !in m) ==> r == m[keys[j]]
    ensures (forall k :: 0 <= k < |keys| ==> keys[k] !in m) ==> r == default
  {
    if keys == [] then default
    else if keys[0] in m then m[keys[0]]
    else FirstPresent(m, keys[1..], default)
  }

  /**
   * The values the view takes from a decoded file: css_vars from cssVars, else css_vars,
   * else {}; the display name from display_name, else name, else the stem title-cased;
   * version defaulting to 1.0.0. A file that is not a dict has no `get`.
   */
  function ReadAdminData(stem: string, d: Json): (r: Result<AdminData, FileProblem>)
    ensures !d.Obj? ==> r == Err(LookupFailed(AttributeError))
    ensures r.Ok? ==> d.Obj?
    ensures r.Ok? ==> r.value.cssVars == FirstPresent(d.fields, ["cssVars", "css_vars"], EmptyObj)
    ensures r.Ok? ==> Str(r.value.displayName) == FirstPresent(d.fields, ["display_name", "name"], Str(DefaultDisplayName(stem)))
    ensures r.Ok? ==> (r.value.description.Some? <==> "description" in d.fields)
    ensures r.Ok? && r.value.description.Some? ==> d.fields["description"] == Str(r.value.description.value)
    ensures r.Ok? ==> Str(r.value.version) == FirstPresent(d.fields, ["version"], Str(DefaultVersion))
    ensures d.Obj? && r.Err? ==> r == Err(Unstorable)
  {
    match d
    case Obj(m) =>
      var cssVars := FirstPresent(m, ["cssVars", "css_vars"], EmptyObj);
      var display := FirstPresent(m, ["display_name", "name"], Str(DefaultDisplayName(stem)));
      var description := if "description" in m then Some(m["description"]) else None;
      var version := FirstPresent(m, ["version"], Str(DefaultVersion));
      if !display.Str? || !version.Str? || (description.Some? && !description.value.Str?) then Err(Unstorable)
      else Ok(AdminData(cssVars, display.s, if description.Some? then Some(description.value.s) else None, version.s))
    case _ => Err(LookupFailed(AttributeError))
  }

  /** The row get_or_create inserts for a new name: a system theme, active, owned by the admin. */
  function AdminRow(stem: string, data: AdminData, user: nat): (r: NewTheme)
    ensures r.name == stem && r.isSystemTheme && r.isActive && r.createdBy == Some(user)
    ensures r.description == data.description.GetOr("Imported theme: " + stem)
    ensures r.cssVars == data.cssVars && r.displayName == data.displayName && r.version == data.version
  {
    NewTheme(stem, data.displayName, data.description.GetOr("Imported theme: " + stem), data.cssVars,
      true, true, data.version, Some(user))
  }

  /** The existing row after an update: four fields replaced, flags and ownership kept. */
  function Refresh(t: Theme, stem: string, data: AdminData): (r: Theme)
    ensures r.id == t.id && r.name == t.name && r.isSystemTheme == t.isSystemTheme
    ensures r.isActive == t.isActive && r.createdBy == t.createdBy
    ensures r.cssVars == data.cssVars && r.displayName == data.displayName && r.version == data.version
    ensures r.description == data.description.GetOr("Updated theme: " + stem)
  {
    t.(cssVars := data.cssVars, displayName := data.displayName,
       description := data.description.GetOr("Updated theme: " + stem), version := data.version)
  }

  /**
   * One file of the view on a table: its outcome, and the table and next id afterwards. A new
   * stem inserts AdminRow; an existing one refreshes that row in place.
   */
  function AdminStep(ts: seq<Theme>, nextId: nat, stem: string, content: FileContent, user: nat): (Result<Upsert, FileProblem>, seq<Theme>, nat) {
    if content.NotJson? then (Err(Undecodable), ts, nextId)
    else if content.Unreadable? then (Err(ReadFailed), ts, nextId)
    else match ReadAdminData(stem, content.value)
      case Err(p) => (Err(p), ts, nextId)
      case Ok(data) =>
        match PositionOfName(ts, stem)
        case None => (Ok(Created), ts + [AdminRow(stem, data, user).WithId(nextId)], nextId + 1)
        case Some(i) => (Ok(Refreshed), ts[i := Refresh(ts[i], stem, data)], nextId)
  }

  /** The body of the per-file try block: decode, read the fields, then get_or_create or update. */
  method ImportFile(store: ThemeStore, stem: string, content: FileContent, user: nat) returns (r: Result<Upsert, FileProblem>)
    requires store.Valid()
    modifies store
    ensures store.Valid() && store.setting == old(store.setting)
    ensures (r, store.themes, store.nextId) == AdminStep(old(store.themes), old(store.nextId), stem, content, user)
    ensures r == Err(Undecodable) <==> content.NotJson?
    ensures r == Err(ReadFailed) <==> content.Unreadable?
    ensures content.Decoded? && ReadAdminData(stem, content.value).Err? ==> r == Err(ReadAdminData(stem, content.value).error)
    ensures r.Err? ==> store.themes == old(store.themes)
    ensures r == Ok(Created) <==> content.Decoded? && ReadAdminData(stem, content.value).Ok? && !NameTaken(old(store.themes), stem)
    ensures r == Ok(Created) ==>
      store.themes == old(store.themes) + [AdminRow(stem, ReadAdminData(stem, content.value).value, user).WithId(old(store.nextId))]
    ensures r == Ok(Refreshed) ==>
      exists i :: 0 <= i < |old(store.themes)| && old(store.themes)[i].name == stem
        && store.themes == old(store.themes)[i := Refresh(old(store.themes)[i], stem, ReadAdminData(stem, content.value).value)]
  {
    if content.NotJson? {
      return Err(Undecodable);
    }
    if content.Unreadable? {
      return Err(ReadFailed);
    }
    var data :- ReadAdminData(stem, content.value);
    var existing := PositionOfName(store.themes, stem);
    match existing {
      case None =>
        var created := store.CreateTheme(AdminRow(stem, data, user));
        r := Ok(Created);
      case Some(i) =>
        var saved := store.SaveTheme(i, Refresh(store.themes[i], stem, data));
        assert saved.Ok?;
        r := Ok(Refreshed);
    }
  }

  /** What the view tells the admin. */
  datatype AdminMessage =
    | DirectoryMissing
    | FileWarning(stem: string)
    | ImportedMessage(count: nat)
    | UpdatedMessage(count: nat)
    | NothingImported
    | ImportFailed(problem: FileProblem)

  /** The outcome of a run: counts, the stems warned about, and the problem that stopped it, if any. */
  datatype ViewReport = ViewReport(imported: nat, updated: nat, warned: seq<string>, stoppedBy: Option<FileProblem>)

  /**
   * The messages of a run in the order the view adds them: per-file warnings, then either
   * the error of the outer handler or the success and info messages.
   */
  function ViewMessages(rep: ViewReport): (r: seq<AdminMessage>)
    ensures NothingImported in r <==> rep.stoppedBy.None? && rep.imported == 0 && rep.updated == 0
    ensures ImportedMessage(rep.imported) in r <==> rep.stoppedBy.None? && rep.imported > 0
    ensures UpdatedMessage(rep.updated) in r <==> rep.stoppedBy.None? && rep.updated > 0
    ensures rep.stoppedBy.Some? ==> r != [] && r[|r| - 1] == ImportFailed(rep.stoppedBy.value)
    ensures forall s :: FileWarning(s) in r <==> s in rep.warned
  {
    var warnings := seq(|rep.warned|, i requires 0 <= i < |rep.warned| => FileWarning(rep.warned[i]));
    assert forall s :: FileWarning(s) in warnings <==> s in rep.warned by {
      forall s ensures FileWarning(s) in warnings <==> s in rep.warned {
        if s in rep.warned {
          var i :| 0 <= i < |rep.warned| && rep.warned[i] == s;
          assert warnings[i] == FileWarning(s);
        }
      }
    }
    match rep.stoppedBy
    case Some(p) => warnings + [ImportFailed(p)]
    case None =>
      warnings
      + (if rep.imported > 0 then [ImportedMessage(rep.imported)] else [])
      + (if rep.updated > 0 then [UpdatedMessage(rep.updated)] else [])
      + (if rep.imported == 0 && rep.updated == 0 then [NothingImported] else [])
  }

  /** The report after one more file: its outcome counted, or the problem that stops the run. */
  function Tally(acc: ViewReport, stem: string, outcome: Result<Upsert, FileProblem>): ViewReport {
    match outcome
    case Ok(Created) => acc.(imported := acc.imported + 1)
    case Ok(Refreshed) => acc.(updated := acc.updated + 1)
    case Err(Undecodable) => acc.(warned := acc.warned + [stem])
    case Err(p) => acc.(stoppedBy := Some(p))
  }

  /**
   * The table, next id and report after the view's loop goes on over `files` from the
   * report `acc`: an undecodable file is warned about and skipped; any other problem stops
   * the loop, and AdminStep leaves the table as it was before that file.
   */
  function AdminRunFrom(ts: seq<Theme>, nextId: nat, files: seq<(string, FileContent)>, user: nat, acc: ViewReport): (seq<Theme>, nat, ViewReport)
    decreases |files|
  {
    if files == [] || acc.stoppedBy.Some? then (ts, nextId, acc)
    else
      var step := AdminStep(ts, nextId, files[0].0, files[0].1, user);
      AdminRunFrom(step.1, step.2, files[1..], user, Tally(acc, files[0].0, step.0))
  }

  /** The whole loop of import_themes_view over `files`, from an empty report. */
  function AdminRun(ts: seq<Theme>, nextId: nat, files: seq<(string, FileContent)>, user: nat): (seq<Theme>, nat, ViewReport) {
    AdminRunFrom(ts, nextId, files, user, ViewReport(0, 0, [], None))
  }

  /** A step that fails leaves the table and the next id as they were. */
  lemma AdminStepFailureKeeps(ts: seq<Theme>, nextId: nat, stem: string, content: FileContent, user: nat)
    ensures var step := AdminStep(ts, nextId, stem, content, user);
      step.0.Err? ==> step.1 == ts && step.2 == nextId
    ensures var step := AdminStep(ts, nextId, stem, content, user);
      |step.1| == |ts| + (if step.0 == Ok(Created) then 1 else 0)
  {
  }

  /**
   * A run accounts for its files: each one before the stop is imported, updated or warned
   * about, and the stopping file is not counted; the table grows by exactly the number of
   * imported themes, and only undecodable files are warned about.
   */
  lemma {:induction false} AdminRunFromAccounts(ts: seq<Theme>, nextId: nat, files: seq<(string, FileContent)>, user: nat, acc: ViewReport)
    requires acc.stoppedBy.None?
    ensures var rep := AdminRunFrom(ts, nextId, files, user, acc).2;
      && acc.imported <= rep.imported
      && (rep.stoppedBy.None? ==> rep.imported + rep.updated + |rep.warned| == acc.imported + acc.updated + |acc.warned| + |files|)
      && (rep.stoppedBy.Some? ==>
           rep.imported + rep.updated + |rep.warned| < acc.imported + acc.updated + |acc.warned| + |files|
           && rep.stoppedBy.value != Undecodable)
    ensures |AdminRunFrom(ts, nextId, files, user, acc).0| + acc.imported == |ts| + AdminRunFrom(ts, nextId, files, user, acc).2.imported
    ensures forall s :: s in AdminRunFrom(ts, nextId, files, user, acc).2.warned ==>
      s in acc.warned || exists j :: 0 <= j < |files| && files[j] == (s, NotJson)
    decreases |files|
  {
    if files != [] {
      var step := AdminStep(ts, nextId, files[0].0, files[0].1, user);
      AdminStepFailureKeeps(ts, nextId, files[0].0, files[0].1, user);
      var acc' := Tally(acc, files[0].0, step.0);
      if acc'.stoppedBy.None? {
        AdminRunFromAccounts(step.1, step.2, files[1..], user, acc');
        forall s | s in AdminRunFrom(step.1, step.2, files[1..], user, acc').2.warned
          ensures s in acc.warned || exists j :: 0 <= j < |files| && files[j] == (s, NotJson)
        {
          if s !in acc'.warned {
            var j :| 0 <= j < |files[1..]| && files[1..][j] == (s, NotJson);
            assert files[j + 1] == (s, NotJson);
          } else if s !in acc.warned {
            assert step.0 == Err(Undecodable) && s == files[0].0;
            assert files[0] == (s, NotJson);
          }
        }
      }
    }
  }

  /** The whole run accounts for its files, as AdminRunFromAccounts states from an empty report. */
  lemma AdminRunAccounts(ts: seq<Theme>, nextId: nat, files: seq<(string, FileContent)>, user: nat)
    ensures var rep := AdminRun(ts, nextId, files, user).2;
      && (rep.stoppedBy.None? ==> rep.imported + rep.updated + |rep.warned| == |files|)
      && (rep.stoppedBy.Some? ==> rep.imported + rep.updated + |rep.warned| < |files| && rep.stoppedBy.value != Undecodable)
    ensures |AdminRun(ts, nextId, files, user).0| == |ts| + AdminRun(ts, nextId, files, user).2.imported
    ensures forall s :: s in AdminRun(ts, nextId, files, user).2.warned ==> exists j :: 0 <= j < |files| && files[j] == (s, NotJson)
  {
    AdminRunFromAccounts(ts, nextId, files, user, ViewReport(0, 0, [], None));
  }

  /**
   * import_themes_view: each file in turn, a warning for an undecodable one; any other
   * problem ends the loop in the outer handler, keeping what was stored before it.
   */
  method ImportThemesView(store: ThemeStore, directoryExists: bool, files: seq<(string, FileContent)>, user: nat)
    returns (messages: seq<AdminMessage>, report: ViewReport)
    requires store.Valid()
    modifies store
    ensures store.Valid() && store.setting == old(store.setting)
    ensures !directoryExists ==> messages == [DirectoryMissing] && store.themes == old(store.themes)
    ensures directoryExists ==> messages == ViewMessages(report)
    ensures directoryExists ==>
      var run := AdminRun(old(store.themes), old(store.nextId), files, user);
      store.themes == run.0 && report == run.2
    ensures |store.themes| == |old(store.themes)| + report.imported
    ensures directoryExists && report.stoppedBy.None? ==> report.imported + report.updated + |report.warned| == |files|
    ensures report.stoppedBy.Some? ==>
      report.imported + report.updated + |report.warned| < |files| && report.stoppedBy.value != Undecodable
    ensures forall s :: s in report.warned ==> exists j :: 0 <= j < |files| && files[j] == (s, NotJson)
  {
    report := ViewReport(0, 0, [], None);
    if !directoryExists {
      return [DirectoryMissing], report;
    }
    var acc := ViewReport(0, 0, [], None);
    ghost var whole := AdminRun(old(store.themes), old(store.nextId), files, user);
    assert files[0..] == files;
    for i := 0 to |files|
      invariant store.Valid() && store.setting == old(store.setting)
      invariant acc.stoppedBy.None?
      invariant whole == AdminRunFrom(store.themes, store.nextId, files[i..], user, acc)
    {
      assert files[i..][1..] == files[i + 1..] && files[i..][0] == files[i];
      var (stem, content) := files[i];
      var outcome := ImportFile(store, stem, content, user);
      acc := Tally(acc, stem, outcome);
      if acc.stoppedBy.Some? {
        assert whole == AdminRunFrom(store.themes, store.nextId, files[i + 1..], user, acc);
        assert store.themes == whole.0 && acc == whole.2;
        AdminRunAccounts(old(store.themes), old(store.nextId), files, user);
        return ViewMessages(acc), acc;
      }
    }
    assert store.themes == whole.0 && acc == whole.2;
    AdminRunAccounts(old(store.themes), old(store.nextId), files, user);
    report := acc;
    messages := ViewMessages(report);
  }

  // ----- ThemeSettingAdmin -----

  /** has_add_permission: the add form is offered only while no setting exists. */
  function HasAddPermission(setting: Option<Setting>): (r: bool)
    ensures r <==> setting.None?
  {
    setting.None?
  }

  /** has_delete_permission: the setting can never be deleted from the admin. */
  function HasDeletePermission(setting: Option<Setting>): (r: bool)
    ensures !r
  {
    false
  }
}
