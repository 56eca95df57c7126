/**
 * The import_themes management command: reading theme files into the catalogue (insert,
 * overwrite or skip), counting the outcomes, rolling a dry run back, and creating a
 * default ThemeSetting after a run that changed something.
 */
module ImportThemes {
  import opened Wrappers
  import opened PyJson
  import opened ThemeModels

  datatype Outcome = Imported | Updated | Skipped

  /** Why one file failed; every one of these is caught by the loop of `handle` and counted. */
  datatype ImportError =
    | InvalidJson
    | MissingName
    | MissingDisplayName
    | MissingCssVars
    | Uncaught(error: PyError)
    | UnusableValue
    | ValidationFailed

  datatype Options = Options(overwrite: bool, dryRun: bool)

  function InOrRaise(k: string, d: Json): Result<bool, ImportError> {
    match In(k, d)
    case Ok(b) => Ok(b)
    case Err(e) => Err(Uncaught(e))
  }

  /**
   * The required-field checks of import_theme_file: a name or theme_name, then display_name,
   * then cssVars; `in` on a list or a string looks for an element or a substring.
   */
  function CheckFields(d: Json): (r: Result<(), ImportError>)
    ensures d.Obj? ==> (r.Ok? <==> ("name" in d.fields || "theme_name" in d.fields)
                                   && "display_name" in d.fields && "cssVars" in d.fields)
    ensures d.Obj? && r.Err? ==>
      r.error == (if "name" !in d.fields && "theme_name" !in d.fields then MissingName
                  else if "display_name" !in d.fields then MissingDisplayName
                  else MissingCssVars)
  {
    var hasName :- InOrRaise("name", d);
    var hasThemeName :- InOrRaise("theme_name", d);
    if !hasName && !hasThemeName then Err(MissingName)
    else
      var hasDisplayName :- InOrRaise("display_name", d);
      if !hasDisplayName then Err(MissingDisplayName)
      else
        var hasCssVars :- InOrRaise("cssVars", d);
        if !hasCssVars then Err(MissingCssVars) else Ok(())
  }

  /**
   * `theme_data.get('name') or theme_data.get('theme_name')`: the name when truthy, else
   * theme_name; None stands for Python's None. A value that is not text or None is not
   * modelled and reported as unusable.
   */
  function ImportName(d: Json): (r: Result<Option<string>, ImportError>)
    ensures !d.Obj? ==> r == Err(Uncaught(AttributeError))
    ensures d.Obj? && "name" in d.fields && d.fields["name"].Str? && d.fields["name"].s != [] ==>
      r == Ok(Some(d.fields["name"].s))
    ensures d.Obj? && r.Ok? && r.value.Some? && ("name" !in d.fields || !Truthy(d.fields["name"])) ==>
      "theme_name" in d.fields && d.fields["theme_name"] == Str(r.value.value)
  {
    match d
    case Obj(m) =>
      var name := if "name" in m then m["name"] else Null;
      var themeName := if "theme_name" in m then m["theme_name"] else Null;
      var chosen := if Truthy(name) then name else themeName;
      (match chosen
       case Str(s) => Ok(Some(s))
       case Null => Ok(None)
       case _ => Err(UnusableValue))
    case _ => Err(Uncaught(AttributeError))
  }

  /** The values import_theme_file copies from a file into a row. */
  datatype ImportFields = ImportFields(displayName: string, description: string, cssVars: Json)

  /** display_name, description (default '') and cssVars of a checked file. */
  function ReadFields(d: Json): (r: Result<ImportFields, ImportError>)
    requires d.Obj? && "display_name" in d.fields && "cssVars" in d.fields
    ensures r.Ok? ==> Str(r.value.displayName) == d.fields["display_name"] && r.value.cssVars == d.fields["cssVars"]
    ensures r.Ok? ==> ("description" in d.fields ==> d.fields["description"] == Str(r.value.description))
    ensures r.Ok? ==> ("description" !in d.fields ==> r.value.description == "")
    ensures r.Ok? <==> d.fields["display_name"].Str? && ("description" in d.fields ==> d.fields["description"].Str?)
  {
    var displayName := d.fields["display_name"];
    var description := if "description" in d.fields then d.fields["description"] else Str("");
    if !displayName.Str? || !description.Str? then Err(UnusableValue)
    else Ok(ImportFields(displayName.s, description.s, d.fields["cssVars"]))
  }

  /** The row an overwrite saves: the file's values, a system theme, active; name and version kept. */
  function Overwritten(t: Theme, f: ImportFields): (r: Theme)
    ensures r.id == t.id && r.name == t.name && r.version == t.version && r.createdBy == t.createdBy
    ensures r.displayName == f.displayName && r.description == f.description && r.cssVars == f.cssVars
    ensures r.isSystemTheme && r.isActive
  {
    t.(displayName := f.displayName, description := f.description, cssVars := f.cssVars,
       isSystemTheme := true, isActive := true)
  }

  /** The row a new import inserts: a system theme, active, version '1.0.0'. */
  function ImportedRow(name: string, f: ImportFields): (r: NewTheme)
    ensures r.name == name && r.displayName == f.displayName && r.description == f.description
    ensures r.cssVars == f.cssVars && r.isSystemTheme && r.isActive && r.version == DefaultVersion && r.createdBy.None?
  {
    NewTheme(name, f.displayName, f.description, f.cssVars, true, true, DefaultVersion, None)
  }

  /**
   * Theme.full_clean on a new row: the name validators, a non-blank display name within
   * 200 characters, the version within 20, and Theme.clean's css_vars check.
   */
  predicate PassesFullClean(t: NewTheme) {
    && NameErrors(t.name) == []
    && t.displayName != [] && |t.displayName| <= DisplayNameMaxLength
    && |t.version| <= 20
    && CheckCssVars(t.cssVars).Ok?
  }

  /** The outcome of import_theme_file for one file's content (None: not valid JSON). */
  function Decide(ts: seq<Theme>, content: Option<Json>, opts: Options): (r: Result<Outcome, ImportError>)
  {
    if content.None? then Err(InvalidJson)
    else
      var d := content.value;
      var _ :- CheckFields(d);
      var name :- ImportName(d);
      if name.Some? && NameTaken(ts, name.value) then
        if !opts.overwrite then Ok(Skipped)
        else if opts.dryRun then Ok(Updated)
        else
          var _ :- ReadFields(d);
          Ok(Updated)
      else if opts.dryRun then Ok(Imported)
      else
        var f :- ReadFields(d);
        if name.Some? && PassesFullClean(ImportedRow(name.value, f)) then Ok(Imported)
        else Err(ValidationFailed)
  }

  /** The name a checked file imports under, when it is text. */
  predicate NamedAs(content: Option<Json>, name: string) {
    && content.Some?
    && CheckFields(content.value).Ok?
    && ImportName(content.value) == Ok(Some(name))
  }

  /** An existing theme is skipped without --overwrite, updated with it. */
  lemma ExistingThemeOutcome(ts: seq<Theme>, content: Option<Json>, name: string, opts: Options)
    requires NamedAs(content, name) && NameTaken(ts, name)
    ensures !opts.overwrite ==> Decide(ts, content, opts) == Ok(Skipped)
    ensures opts.overwrite ==> Decide(ts, content, opts).Ok? ==> Decide(ts, content, opts) == Ok(Updated)
    ensures Decide(ts, content, opts) != Ok(Imported)
  {
  }

  /** A dry run reports the label a real run would report whenever the real run succeeds. */
  lemma DryRunSameLabel(ts: seq<Theme>, content: Option<Json>, overwrite: bool)
    requires Decide(ts, content, Options(overwrite, false)).Ok?
    ensures Decide(ts, content, Options(overwrite, true)) == Decide(ts, content, Options(overwrite, false))
  {
  }

  /** After a file has been imported, importing it again without --overwrite skips it. */
  lemma ReimportSkipped(ts: seq<Theme>, content: Option<Json>, opts: Options, row: Theme)
    requires Decide(ts, content, opts) == Ok(Imported) && !opts.dryRun
    requires ImportName(content.value).Ok? && ImportName(content.value).value.Some?
    requires row.name == ImportName(content.value).value.value
    ensures Decide(ts + [row], content, opts.(overwrite := false)) == Ok(Skipped)
  {
    assert (ts + [row])[|ts|] == row;
  }

  /**
   * The table and the next id after import_theme_file on one file: a real run inserts the
   * new row or overwrites the existing one; everything else leaves both alone.
   */
  function AfterFile(ts: seq<Theme>, nextId: nat, content: Option<Json>, opts: Options): (seq<Theme>, nat) {
    if opts.dryRun || content.None? || CheckFields(content.value).Err? then (ts, nextId)
    else match ImportName(content.value)
      case Err(_) => (ts, nextId)
      case Ok(name) =>
        match ReadFields(content.value)
        case Err(_) => (ts, nextId)
        case Ok(f) =>
          if name.Some? && NameTaken(ts, name.value) then
            if !opts.overwrite then (ts, nextId)
            else
              var i := PositionOfName(ts, name.value).value;
              (ts[i := Overwritten(ts[i], f)], nextId)
          else if name.Some? && PassesFullClean(ImportedRow(name.value, f)) then
            (ts + [ImportedRow(name.value, f).WithId(nextId)], nextId + 1)
          else (ts, nextId)
  }

  /**
   * One file changes the table only in a real run: an import appends exactly one row, an
   * update keeps the number of rows, and any other outcome changes nothing.
   */
  lemma AfterFileGrowth(ts: seq<Theme>, nextId: nat, content: Option<Json>, opts: Options)
    ensures opts.dryRun || Decide(ts, content, opts).Err? || Decide(ts, content, opts) == Ok(Skipped) ==>
      AfterFile(ts, nextId, content, opts) == (ts, nextId)
    ensures |AfterFile(ts, nextId, content, opts).0|
      == |ts| + (if !opts.dryRun && Decide(ts, content, opts) == Ok(Imported) then 1 else 0)
  {
  }

  /**
   * import_theme_file against the store: the outcome is Decide's; only a real run that
   * imports or updates changes the table.
   */
  method ImportThemeFile(store: ThemeStore, content: Option<Json>, opts: Options) returns (r: Result<Outcome, ImportError>)
    requires store.Valid()
    modifies store
    ensures store.Valid() && store.setting == old(store.setting)
    ensures r == Decide(old(store.themes), content, opts)
    ensures (store.themes, store.nextId) == AfterFile(old(store.themes), old(store.nextId), content, opts)
    ensures r.Err? || opts.dryRun || r == Ok(Skipped) ==>
      store.themes == old(store.themes) && store.nextId == old(store.nextId)
    ensures r == Ok(Updated) && !opts.dryRun ==>
      exists i, f :: 0 <= i < |old(store.themes)| && ReadFields(content.value) == Ok(f)
        && store.themes == old(store.themes)[i := Overwritten(old(store.themes)[i], f)]
    ensures r == Ok(Imported) && !opts.dryRun ==>
      && ImportName(content.value).Ok? && ImportName(content.value).value.Some? && ReadFields(content.value).Ok?
      && store.themes == old(store.themes)
           + [ImportedRow(ImportName(content.value).value.value, ReadFields(content.value).value).WithId(old(store.nextId))]
  {
    if content.None? {
      return Err(InvalidJson);
    }
    var d := content.value;
    var checked := CheckFields(d);
    if checked.Err? {
      return Err(checked.error);
    }
    var name := ImportName(d);
    if name.Err? {
      return Err(name.error);
    }
    var position := if name.value.Some? then PositionOfName(store.themes, name.value.value) else None;
    if position.Some? {
      if !opts.overwrite {
        return Ok(Skipped);
      }
      if opts.dryRun {
        return Ok(Updated);
      }
      var fields := ReadFields(d);
      if fields.Err? {
        return Err(fields.error);
      }
      var i := position.value;
      var saved := store.SaveTheme(i, Overwritten(store.themes[i], fields.value));
      return Ok(Updated);
    }
    if opts.dryRun {
      return Ok(Imported);
    }
    var fields := ReadFields(d);
    if fields.Err? {
      return Err(fields.error);
    }
    if name.value.None? || !PassesFullClean(ImportedRow(name.value.value, fields.value)) {
      return Err(ValidationFailed);
    }
    var created := store.CreateTheme(ImportedRow(name.value.value, fields.value));
    r := Ok(Imported);
  }

  // ----- handle -----

  datatype CommandError = DirectoryMissing | ThemeFileMissing | NoFiles

  datatype ImportCounts = ImportCounts(imported: nat, updated: nat, skipped: nat, errors: nat)

  function Total(c: ImportCounts): nat { c.imported + c.updated + c.skipped + c.errors }

  /** The counters after one more file. */
  function Count(c: ImportCounts, r: Result<Outcome, ImportError>): (s: ImportCounts)
    ensures Total(s) == Total(c) + 1
    ensures s.imported == c.imported + (if r == Ok(Imported) then 1 else 0)
    ensures s.updated == c.updated + (if r == Ok(Updated) then 1 else 0)
    ensures s.skipped == c.skipped + (if r == Ok(Skipped) then 1 else 0)
    ensures s.errors == c.errors + (if r.Err? then 1 else 0)
  {
    match r
    case Ok(Imported) => c.(imported := c.imported + 1)
    case Ok(Updated) => c.(updated := c.updated + 1)
    case Ok(Skipped) => c.(skipped := c.skipped + 1)
    case Err(_) => c.(errors := c.errors + 1)
  }

  /** A theme file of the directory: its stem and its content (None when it is not valid JSON). */
  type ThemeFile = (string, Option<Json>)

  /** The file `--theme` names, if it is among the directory's files. */
  function FileWithStem(files: seq<ThemeFile>, stem: string): (r: Option<ThemeFile>)
    ensures r.Some? ==> r.value in files && r.value.0 == stem
    ensures r.None? ==> forall i :: 0 <= i < |files| ==> files[i].0 != stem
  {
    if files == [] then None
    else if files[0].0 == stem then Some(files[0])
    else
      var r := FileWithStem(files[1..], stem);
      assert forall i :: 1 <= i < |files| ==> files[i] == files[1..][i - 1];
      r
  }

  /** `if options['theme']:`: a theme option that is given and not empty. */
  predicate NamesTheme(theme: Option<string>) {
    theme.Some? && theme.value != []
  }

  /** The files a run processes: the named one with a non-empty --theme, else all of them. */
  function Selected(files: seq<ThemeFile>, theme: Option<string>): (r: Result<seq<ThemeFile>, CommandError>)
    ensures !NamesTheme(theme) ==> (r.Ok? <==> files != [])
    ensures !NamesTheme(theme) && r.Ok? ==> r.value == files
    ensures NamesTheme(theme) ==> (r.Ok? <==> FileWithStem(files, theme.value).Some?)
    ensures NamesTheme(theme) && r.Ok? ==> |r.value| == 1 && r.value[0].0 == theme.value
    ensures r.Err? ==> r.error == (if NamesTheme(theme) then ThemeFileMissing else NoFiles)
  {
    if NamesTheme(theme) then
      match FileWithStem(files, theme.value)
      case Some(f) => Ok([f])
      case None => Err(ThemeFileMissing)
    else if files == [] then Err(NoFiles)
    else Ok(files)
  }

  /** The theme create_default_theme_setting picks: active 'modern-minimal', else the first active theme. */
  function DefaultTheme(ts: seq<Theme>): (r: Option<Theme>)
    ensures r.Some? <==> exists i :: 0 <= i < |ts| && ts[i].isActive
    ensures ActiveNameTaken(ts, "modern-minimal") ==> r.Some? && r.value.name == "modern-minimal" && r.value.isActive
    ensures !ActiveNameTaken(ts, "modern-minimal") ==> r == FirstActive(ts)
    ensures r.Some? ==> r.value in ts && r.value.isActive
  {
    match ActiveThemeNamed(ts, "modern-minimal")
    case Some(t) => Some(t)
    case None => FirstActive(ts)
  }

  /**
   * create_default_theme_setting: with no setting row and some active theme, a row whose
   * current and fallback theme are both the default theme.
   */
  method CreateDefaultThemeSetting(store: ThemeStore)
    requires store.Valid()
    modifies store`setting
    ensures store.Valid()
    ensures old(store.setting).Some? || DefaultTheme(store.themes).None? ==> store.setting == old(store.setting)
    ensures old(store.setting).None? && DefaultTheme(store.themes).Some? ==>
      var t := DefaultTheme(store.themes).value;
      store.setting == Some(Setting(t.id, t.id, None))
  {
    if store.setting.Some? {
      return;
    }
    var defaultTheme := DefaultTheme(store.themes);
    if defaultTheme.Some? {
      var t := defaultTheme.value;
      assert HasId(store.themes, t.id) by {
        var i :| 0 <= i < |store.themes| && store.themes[i] == t;
      }
      var saved := store.SaveSetting(Setting(t.id, t.id, None), true);
    }
  }

  /** The table, next id and counters after import_theme_file has run on each file in turn. */
  function RunFiles(ts: seq<Theme>, nextId: nat, files: seq<ThemeFile>, opts: Options): (seq<Theme>, nat, ImportCounts)
    decreases |files|
  {
    if files == [] then (ts, nextId, ImportCounts(0, 0, 0, 0))
    else
      var before := RunFiles(ts, nextId, files[..|files| - 1], opts);
      var content := files[|files| - 1].1;
      var after := AfterFile(before.0, before.1, content, opts);
      (after.0, after.1, Count(before.2, Decide(before.0, content, opts)))
  }

  /**
   * Every file adds one to exactly one counter; a dry run leaves the table alone, and a real
   * run grows it by exactly the number of imported themes (updates overwrite in place).
   */
  lemma {:induction false} RunGrowsByImported(ts: seq<Theme>, nextId: nat, files: seq<ThemeFile>, opts: Options)
    ensures Total(RunFiles(ts, nextId, files, opts).2) == |files|
    ensures opts.dryRun ==> RunFiles(ts, nextId, files, opts).0 == ts && RunFiles(ts, nextId, files, opts).1 == nextId
    ensures |RunFiles(ts, nextId, files, opts).0|
      == |ts| + (if opts.dryRun then 0 else RunFiles(ts, nextId, files, opts).2.imported)
    decreases |files|
  {
    if files != [] {
      var before := RunFiles(ts, nextId, files[..|files| - 1], opts);
      RunGrowsByImported(ts, nextId, files[..|files| - 1], opts);
      AfterFileGrowth(before.0, before.1, files[|files| - 1].1, opts);
    }
  }

  /**
   * handle: the files are processed in order, each adding one to exactly one counter; a
   * dry run is rolled back; a real run that imported or updated something then creates the
   * default setting.
   */
  method Handle(store: ThemeStore, directoryExists: bool, files: seq<ThemeFile>, theme: Option<string>, opts: Options)
    returns (r: Result<ImportCounts, CommandError>)
    requires store.Valid()
    modifies store
    ensures store.Valid()
    ensures !directoryExists ==> r == Err(DirectoryMissing)
    ensures directoryExists && Selected(files, theme).Err? ==> r == Err(Selected(files, theme).error)
    ensures r.Err? ==> store.themes == old(store.themes) && store.setting == old(store.setting)
    ensures r.Ok? <==> directoryExists && Selected(files, theme).Ok?
    ensures r.Ok? ==> Total(r.value) == |Selected(files, theme).value|
    ensures r.Ok? ==>
      var run := RunFiles(old(store.themes), old(store.nextId), Selected(files, theme).value, opts);
      r.value == run.2 && store.themes == run.0
    ensures opts.dryRun ==> store.themes == old(store.themes) && store.setting == old(store.setting)
    ensures r.Ok? && !opts.dryRun ==> |store.themes| == |old(store.themes)| + r.value.imported
    ensures (r.Ok? && !opts.dryRun && (r.value.imported > 0 || r.value.updated > 0) && old(store.setting).None?
             && DefaultTheme(store.themes).Some?) ==>
      var t := DefaultTheme(store.themes).value;
      store.setting == Some(Setting(t.id, t.id, None))
    ensures r.Ok? && !opts.dryRun && r.value.imported == 0 && r.value.updated == 0 ==> store.setting == old(store.setting)
  {
    if !directoryExists {
      return Err(DirectoryMissing);
    }
    var selected := Selected(files, theme);
    if selected.Err? {
      return Err(selected.error);
    }
    var jsonFiles := selected.value;
    var before := store.themes;
    var beforeNextId := store.nextId;
    var counts := ImportCounts(0, 0, 0, 0);
    for i := 0 to |jsonFiles|
      invariant store.Valid()
      invariant (store.themes, store.nextId, counts) == RunFiles(before, beforeNextId, jsonFiles[..i], opts)
      invariant store.setting == old(store.setting)
    {
      assert jsonFiles[..i + 1][..i] == jsonFiles[..i];
      var result := ImportThemeFile(store, jsonFiles[i].1, opts);
      counts := Count(counts, result);
    }
    assert jsonFiles[..|jsonFiles|] == jsonFiles;
    RunGrowsByImported(before, beforeNextId, jsonFiles, opts);
    if opts.dryRun {
      store.themes := before;
      store.nextId := beforeNextId;
    }
    if !opts.dryRun && (counts.imported > 0 || counts.updated > 0) {
      CreateDefaultThemeSetting(store);
    }
    r := Ok(counts);
  }
}
