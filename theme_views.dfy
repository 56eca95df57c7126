/**
 * The theme API's views: the permission and serializer choice per action, listing and
 * lookups, setting the current theme, duplicating a theme, generating one from a prompt
 * (resolving @-mentions and choosing a unique name), and the ThemeSetting endpoints.
 */
module ThemeViews {
  import opened Wrappers
  import opened Text
  import opened PyJson
  import opened Sorting
  import opened ThemeModels
  import opened ThemeSerializers
  import opened ThemeServices

  /** A response: a status with a body, or a status with error messages. */
  datatype Reply<T> = Success(status: nat, body: T) | Failure(status: nat, errors: seq<string>)

  const NotFoundMessage := "Not found."
  const NoCurrentThemeMessage := "No current theme configured"
  const NoSettingMessage := "No theme setting configured"
  const ThemeNameRequiredMessage := "theme_name is required"
  const ThemeNotFoundMessage := "Theme not found or inactive"
  const NewNameRequiredMessage := "new_name is required"
  const PromptRequiredMessage := "prompt is required"
  const GenerationFailedMessage := "Theme generation failed: "
  const SettingExistsMessage := "Theme setting already exists. Use PUT to update."
  const NoSettingFoundMessage := "No theme setting found"

  // ----- permissions and serializers -----

  datatype Action =
    | ListAction | RetrieveAction | CreateAction | UpdateAction | PartialUpdateAction | DestroyAction
    | CurrentAction | CurrentSettingAction | SetCurrentAction | DuplicateAction | GenerateAction

  datatype Permission = AllowAny | IsAuthenticated

  /** The actions whose handlers only read the catalogue. */
  predicate ReadsOnly(a: Action) {
    a == ListAction || a == RetrieveAction || a == CurrentAction || a == CurrentSettingAction
  }

  /** get_permissions: the four reading actions are open, every other one needs a login. */
  function PermissionFor(a: Action): (r: Permission)
    ensures r == AllowAny <==> ReadsOnly(a)
  {
    match a
    case ListAction => AllowAny
    case RetrieveAction => AllowAny
    case CurrentAction => AllowAny
    case CurrentSettingAction => AllowAny
    case _ => IsAuthenticated
  }

  predicate MayPerform(a: Action, authenticated: bool) {
    PermissionFor(a) == AllowAny || authenticated
  }

  /** An anonymous request may perform exactly the reading actions. */
  lemma AnonymousOnlyReads(a: Action)
    ensures MayPerform(a, false) <==> ReadsOnly(a)
    ensures MayPerform(a, true)
  {
  }

  datatype SerializerKind = ListSerializer | CreateSerializer | FullSerializer

  /** get_serializer_class: the list and create actions have their own serializers. */
  function SerializerFor(a: Action): (r: SerializerKind)
    ensures r == ListSerializer <==> a == ListAction
    ensures r == CreateSerializer <==> a == CreateAction
  {
    if a == ListAction then ListSerializer else if a == CreateAction then CreateSerializer else FullSerializer
  }

  // ----- list and lookups -----

  /** `Theme.objects.filter(is_active=True)`, in table order. */
  function ActiveThemes(ts: seq<Theme>): (r: seq<Theme>)
    ensures forall t :: t in r <==> t in ts && t.isActive
    ensures |r| <= |ts|
  {
    if ts == [] then []
    else
      assert forall t :: t in ts <==> t == ts[0] || t in ts[1..];
      (if ts[0].isActive then [ts[0]] else []) + ActiveThemes(ts[1..])
  }

  datatype ThemeList = ThemeList(count: nat, results: seq<ThemeSummary>)

  function DisplayNameOf(t: Theme): string { t.displayName }

  /** The list item of some active theme. */
  predicate SummaryOfActive(ts: seq<Theme>, s: ThemeSummary) {
    exists t :: t in ts && t.isActive && s == Summary(t)
  }

  /**
   * ThemeViewSet.list: the active themes ordered by display name, as list items, with
   * their count.
   */
  function ListThemes(ts: seq<Theme>): (r: ThemeList)
    ensures r.count == |r.results| == |ActiveThemes(ts)|
    ensures forall i :: 0 <= i < |r.results| ==> SummaryOfActive(ts, r.results[i])
    ensures forall t :: t in ts && t.isActive ==> Summary(t) in r.results
    ensures forall i, j :: 0 <= i < j < |r.results| ==> LexLeq(r.results[i].displayName, r.results[j].displayName)
  {
    var active := ActiveThemes(ts);
    var sorted := SortBy(active, DisplayNameOf);
    assert forall t :: t in sorted <==> t in ts && t.isActive by {
      forall t ensures t in sorted <==> t in active {
        if t in sorted { var i :| 0 <= i < |sorted| && sorted[i] == t; }
        if t in active { var i :| 0 <= i < |active| && active[i] == t; }
      }
    }
    var results := Summaries(sorted);
    SummariesListed(ts, sorted, results);
    ThemeList(|results|, results)
  }

  /** The summaries of a display-name ordering of the active themes list exactly those, in that order. */
  lemma SummariesListed(ts: seq<Theme>, sorted: seq<Theme>, results: seq<ThemeSummary>)
    requires forall t :: t in sorted <==> t in ts && t.isActive
    requires SortedBy(sorted, DisplayNameOf)
    requires |results| == |sorted| && forall i :: 0 <= i < |sorted| ==> results[i] == Summary(sorted[i])
    ensures forall i :: 0 <= i < |results| ==> SummaryOfActive(ts, results[i])
    ensures forall t :: t in ts && t.isActive ==> Summary(t) in results
    ensures forall i, j :: 0 <= i < j < |results| ==> LexLeq(results[i].displayName, results[j].displayName)
  {
    forall i | 0 <= i < |results| ensures SummaryOfActive(ts, results[i]) {
      var t := sorted[i];
      assert t in sorted;
      assert t in ts && t.isActive && results[i] == Summary(t);
    }
    forall t | t in ts && t.isActive ensures Summary(t) in results {
      var i :| 0 <= i < |sorted| && sorted[i] == t;
      assert results[i] == Summary(t);
    }
    forall i, j | 0 <= i < j < |results| ensures LexLeq(results[i].displayName, results[j].displayName) {
      assert LexLeq(DisplayNameOf(sorted[i]), DisplayNameOf(sorted[j]));
      assert results[i] == Summary(sorted[i]) && results[j] == Summary(sorted[j]);
    }
  }

  function Summaries(ts: seq<Theme>): (r: seq<ThemeSummary>)
    ensures |r| == |ts| && forall i :: 0 <= i < |ts| ==> r[i] == Summary(ts[i])
  {
    seq(|ts|, i requires 0 <= i < |ts| => Summary(ts[i]))
  }

  /** ThemeViewSet.retrieve: the active theme with that name, else 404. */
  function Retrieve(ts: seq<Theme>, name: string): (r: Reply<Theme>)
    ensures r.Success? <==> ActiveNameTaken(ts, name)
    ensures r.Success? ==> r.status == 200 && r.body in ts && r.body.name == name && r.body.isActive
    ensures r.Failure? ==> r == Failure(404, [NotFoundMessage])
  {
    match ActiveThemeNamed(ts, name)
    case Some(t) => Success(200, t)
    case None => Failure(404, [NotFoundMessage])
  }

  /** ThemeViewSet.current: what get_current_theme answers, else 404. */
  function CurrentTheme(ts: seq<Theme>, setting: Option<Setting>): (r: Reply<Theme>)
    ensures r.Success? <==> GetCurrentTheme(ts, setting).Some?
    ensures r.Success? ==> r == Success(200, GetCurrentTheme(ts, setting).value)
    ensures r.Failure? ==> r == Failure(404, [NoCurrentThemeMessage])
    ensures setting.Some? ==> (r.Success? <==> HasId(ts, setting.value.currentId))
  {
    match GetCurrentTheme(ts, setting)
    case Some(t) => Success(200, t)
    case None => Failure(404, [NoCurrentThemeMessage])
  }

  /** ThemeViewSet.current_setting and ThemeSettingViewSet.list: the setting row, else 404. */
  function CurrentSetting(setting: Option<Setting>): (r: Reply<Setting>)
    ensures r.Success? <==> setting.Some?
    ensures r.Success? ==> r == Success(200, setting.value)
    ensures r.Failure? ==> r == Failure(404, [NoSettingMessage])
  {
    match setting
    case Some(s) => Success(200, s)
    case None => Failure(404, [NoSettingMessage])
  }

  // ----- creating a theme -----

  /**
   * Whether ThemeCreateSerializer accepts the data: the name passes the model's name
   * validators and is not taken; the display name is not blank and fits its column; a
   * given version is not blank and fits its column; css_vars is not null. These are the
   * field rules the serializer takes from the model's columns (none of them has blank=True
   * or null=True, except the description).
   */
  predicate CreateDataValid(ts: seq<Theme>, data: CreateData) {
    && NameErrors(data.name) == []
    && ValidateName(ts, data.name).Ok?
    && data.displayName != [] && |data.displayName| <= DisplayNameMaxLength
    && (data.version.Some? ==> data.version.value != [] && |data.version.value| <= VersionMaxLength)
    && data.cssVars != Null
  }

  /** ThemeViewSet.create: 201 with the inserted theme, or 400 when the data is refused. */
  method CreateTheme(store: ThemeStore, data: CreateData, user: Option<nat>) returns (r: Reply<Theme>)
    requires store.Valid()
    modifies store
    ensures store.Valid() && store.setting == old(store.setting)
    ensures r.Success? <==> CreateDataValid(old(store.themes), data)
    ensures r.Success? ==>
      && r == Success(201, CreatedRow(data, user).WithId(old(store.nextId)))
      && store.themes == old(store.themes) + [r.body]
    ensures r.Failure? ==> r.status == 400 && store.themes == old(store.themes)
  {
    if !CreateDataValid(store.themes, data) {
      var errors := if ValidateName(store.themes, data.name).Err? then [NameExistsMessage] else [];
      return Failure(400, errors);
    }
    var created := Create(store, data, user);
    r := Success(201, created.value);
  }

  // ----- set_current -----

  /** A request's `theme_name`, `new_name` or `prompt` is missing or falsy. */
  predicate Blank(v: Option<string>) { v.None? || v.value == [] }

  /**
   * set_current: the named active theme becomes the current theme. With no setting row
   * one is created with that theme as both current and fallback (and no updated_by);
   * otherwise only current_theme and updated_by change.
   */
  method SetCurrent(store: ThemeStore, themeName: Option<string>, user: Option<nat>) returns (r: Reply<Setting>)
    requires store.Valid()
    modifies store`setting
    ensures store.Valid()
    ensures Blank(themeName) ==> r == Failure(400, [ThemeNameRequiredMessage]) && store.setting == old(store.setting)
    ensures !Blank(themeName) && !ActiveNameTaken(store.themes, themeName.value) ==>
      r == Failure(404, [ThemeNotFoundMessage]) && store.setting == old(store.setting)
    ensures !Blank(themeName) && ActiveNameTaken(store.themes, themeName.value) ==>
      var t := ActiveThemeNamed(store.themes, themeName.value).value;
      && store.setting == Some(if old(store.setting).None? then Setting(t.id, t.id, None)
                               else old(store.setting).value.(currentId := t.id, updatedBy := user))
      && r == Success(200, store.setting.value)
    ensures store.setting.Some? && r.Success? ==> GetCurrentTheme(store.themes, store.setting) == ActiveThemeNamed(store.themes, themeName.value)
  {
    if Blank(themeName) {
      return Failure(400, [ThemeNameRequiredMessage]);
    }
    var theme := ActiveThemeNamed(store.themes, themeName.value);
    if theme.None? {
      return Failure(404, [ThemeNotFoundMessage]);
    }
    var t := theme.value;
    assert HasId(store.themes, t.id) by {
      var i :| 0 <= i < |store.themes| && store.themes[i] == t;
    }
    var s: Setting;
    if store.setting.None? {
      s := Setting(t.id, t.id, None);
    } else {
      s := store.setting.value.(currentId := t.id, updatedBy := user);
    }
    var saved := store.SaveSetting(s, false);
    assert ThemeWithId(store.themes, t.id) == Some(t) by {
      var u := ThemeWithId(store.themes, t.id).value;
      var i :| 0 <= i < |store.themes| && store.themes[i] == t;
      var j :| 0 <= j < |store.themes| && store.themes[j] == u;
      assert i == j;
    }
    r := Success(200, s);
  }

  // ----- duplicate -----

  /** The copy duplicate inserts: the original's css_vars under the new name, owned by the requester. */
  function DuplicateRow(original: Theme, newName: string, newDisplayName: Option<string>, user: Option<nat>): (r: NewTheme)
    ensures r.name == newName && r.cssVars == original.cssVars
    ensures !Blank(newDisplayName) ==> r.displayName == newDisplayName.value
    ensures Blank(newDisplayName) ==> r.displayName == original.displayName + " (Copy)"
    ensures r.description == "Copy of " + original.displayName
    ensures !r.isSystemTheme && r.isActive && r.version == DefaultVersion && r.createdBy == user
  {
    NewTheme(newName,
      if Blank(newDisplayName) then original.displayName + " (Copy)" else newDisplayName.value,
      "Copy of " + original.displayName, original.cssVars, false, true, DefaultVersion, user)
  }

  /**
   * duplicate: 404 for a missing or inactive original, then 400 for a blank new name or
   * one already held by any theme, else 201 with the copy.
   */
  method Duplicate(store: ThemeStore, name: string, newName: Option<string>, newDisplayName: Option<string>, user: Option<nat>) returns (r: Reply<Theme>)
    requires store.Valid()
    modifies store
    ensures store.Valid() && store.setting == old(store.setting)
    ensures !ActiveNameTaken(old(store.themes), name) ==> r == Failure(404, [NotFoundMessage])
    ensures ActiveNameTaken(old(store.themes), name) && Blank(newName) ==> r == Failure(400, [NewNameRequiredMessage])
    ensures ActiveNameTaken(old(store.themes), name) && !Blank(newName) && NameTaken(old(store.themes), newName.value) ==>
      r == Failure(400, [NameExistsMessage])
    ensures r.Failure? ==> store.themes == old(store.themes)
    ensures r.Success? <==> ActiveNameTaken(old(store.themes), name) && !Blank(newName) && !NameTaken(old(store.themes), newName.value)
    ensures r.Success? ==>
      var original := ActiveThemeNamed(old(store.themes), name).value;
      && r == Success(201, DuplicateRow(original, newName.value, newDisplayName, user).WithId(old(store.nextId)))
      && store.themes == old(store.themes) + [r.body]
  {
    var original := ActiveThemeNamed(store.themes, name);
    if original.None? {
      return Failure(404, [NotFoundMessage]);
    }
    if Blank(newName) {
      return Failure(400, [NewNameRequiredMessage]);
    }
    if PositionOfName(store.themes, newName.value).Some? {
      return Failure(400, [NameExistsMessage]);
    }
    var created := store.CreateTheme(DuplicateRow(original.value, newName.value, newDisplayName, user));
    r := Success(201, created.value);
  }

  // ----- resolving @-mentions -----

  function RefOf(t: Theme): RefTheme { RefTheme(t.name, t.displayName, t.cssVars) }

  /**
   * One mention: 'current' names the setting's current theme (active or not; nothing
   * without a setting), any other mention the active theme of that name.
   */
  function ResolveMention(ts: seq<Theme>, setting: Option<Setting>, mention: string): (r: Option<RefTheme>)
    ensures mention == "current" ==> (r.Some? <==> setting.Some? && HasId(ts, setting.value.currentId))
    ensures mention == "current" && r.Some? ==> r.value == RefOf(GetCurrentTheme(ts, setting).value)
    ensures mention != "current" ==> (r.Some? <==> ActiveNameTaken(ts, mention))
    ensures mention != "current" && r.Some? ==> r.value.name == mention
  {
    if mention == "current" then
      if setting.None? then None
      else match ThemeWithId(ts, setting.value.currentId)
        case Some(t) => Some(RefOf(t))
        case None => None
    else match ActiveThemeNamed(ts, mention)
      case Some(t) => Some(RefOf(t))
      case None => None
  }

  predicate HasKey(d: ReferencedThemes, k: string) {
    exists i :: 0 <= i < |d| && d[i].0 == k
  }

  predicate UniqueKeys(d: ReferencedThemes) {
    forall i, j :: 0 <= i < j < |d| ==> d[i].0 != d[j].0
  }

  /** `d[k] = v` on an insertion-ordered dict: an existing key keeps its place, a new key goes last. */
  function DictSet(d: ReferencedThemes, k: string, v: RefTheme): (r: ReferencedThemes)
    requires UniqueKeys(d)
    ensures HasKey(d, k) ==> |r| == |d|
    ensures !HasKey(d, k) ==> |r| == |d| + 1
    ensures UniqueKeys(r)
    ensures HasKey(r, k) && forall i :: 0 <= i < |r| && r[i].0 == k ==> r[i].1 == v
    ensures forall i :: 0 <= i < |d| && d[i].0 != k ==> r[i] == d[i]
    ensures forall i :: 0 <= i < |d| && d[i].0 == k ==> r[i] == (k, v)
    ensures forall x :: HasKey(r, x) <==> HasKey(d, x) || x == k
  {
    if HasKey(d, k) then
      var r := seq(|d|, i requires 0 <= i < |d| => if d[i].0 == k then (k, v) else d[i]);
      assert HasKey(r, k) by {
        var i :| 0 <= i < |d| && d[i].0 == k;
        assert r[i].0 == k;
      }
      r
    else
      var r := d + [(k, v)];
      assert r[|d|].0 == k;
      r
  }

  /** Every entry of `d` is what its key resolves to. */
  predicate Consistent(ts: seq<Theme>, setting: Option<Setting>, d: ReferencedThemes) {
    forall i :: 0 <= i < |d| ==> ResolveMention(ts, setting, d[i].0) == Some(d[i].1)
  }

  /** One pass of the mention loop: a mention that resolves is assigned into the dict. */
  function ResolveStep(ts: seq<Theme>, setting: Option<Setting>, d: ReferencedThemes, m: string): (r: ReferencedThemes)
    requires UniqueKeys(d)
    ensures UniqueKeys(r)
  {
    match ResolveMention(ts, setting, m)
    case None => d
    case Some(v) => DictSet(d, m, v)
  }

  /** The dict the mention loop builds from `ms`. */
  function Resolved(ts: seq<Theme>, setting: Option<Setting>, ms: seq<string>): (r: ReferencedThemes)
    ensures UniqueKeys(r)
  {
    if ms == [] then [] else ResolveStep(ts, setting, Resolved(ts, setting, ms[..|ms| - 1]), ms[|ms| - 1])
  }

  /** The loop of `generate` that resolves the request's theme mentions. */
  method ResolveMentions(ts: seq<Theme>, setting: Option<Setting>, mentions: seq<string>) returns (refs: ReferencedThemes)
    ensures refs == Resolved(ts, setting, mentions)
  {
    refs := [];
    for i := 0 to |mentions|
      invariant refs == Resolved(ts, setting, mentions[..i])
    {
      assert mentions[..i + 1][..i] == mentions[..i];
      var mention := mentions[i];
      var resolved := ResolveMention(ts, setting, mention);
      if resolved.Some? {
        refs := DictSet(refs, mention, resolved.value);
      }
    }
    assert mentions[..|mentions|] == mentions;
  }

  /** Assigning a key the value it already holds leaves a consistent dict as it is. */
  lemma ResolveStepKnown(ts: seq<Theme>, setting: Option<Setting>, d: ReferencedThemes, m: string)
    requires UniqueKeys(d) && Consistent(ts, setting, d) && HasKey(d, m)
    ensures ResolveStep(ts, setting, d, m) == d
  {
    var r := ResolveStep(ts, setting, d, m);
    assert |r| == |d|;
    assert forall j :: 0 <= j < |d| ==> r[j] == d[j];
  }

  /**
   * The resolved dict: each entry is what its key resolves to, and its keys are exactly
   * the mentions that resolve; unresolved mentions are dropped.
   */
  lemma {:induction false} ResolvedEntries(ts: seq<Theme>, setting: Option<Setting>, ms: seq<string>)
    ensures Consistent(ts, setting, Resolved(ts, setting, ms))
    ensures forall m :: HasKey(Resolved(ts, setting, ms), m) <==> m in ms && ResolveMention(ts, setting, m).Some?
  {
    if ms != [] {
      var init := ms[..|ms| - 1];
      var last := ms[|ms| - 1];
      ResolvedEntries(ts, setting, init);
      var d := Resolved(ts, setting, init);
      assert ms == init + [last];
      match ResolveMention(ts, setting, last)
      case None =>
      case Some(v) =>
        var r := DictSet(d, last, v);
        forall i | 0 <= i < |r| ensures ResolveMention(ts, setting, r[i].0) == Some(r[i].1) {
          if r[i].0 != last {
            assert r[i] == d[i];
          }
        }
    }
  }

  /** No mention resolves, so nothing is resolved. */
  lemma {:induction false} ResolvedEmpty(ts: seq<Theme>, setting: Option<Setting>, ms: seq<string>)
    requires forall k :: 0 <= k < |ms| ==> ResolveMention(ts, setting, ms[k]).None?
    ensures Resolved(ts, setting, ms) == []
  {
    if ms != [] {
      var init := ms[..|ms| - 1];
      assert forall k :: 0 <= k < |init| ==> init[k] == ms[k];
      ResolvedEmpty(ts, setting, init);
      assert ResolveMention(ts, setting, ms[|ms| - 1]).None?;
    }
  }

  /** The dict's first entry is the first mention that resolves, with its theme. */
  lemma {:induction false} ResolvedFirst(ts: seq<Theme>, setting: Option<Setting>, ms: seq<string>, j: nat)
    requires j < |ms| && ResolveMention(ts, setting, ms[j]).Some?
    requires forall k :: 0 <= k < j ==> ResolveMention(ts, setting, ms[k]).None?
    ensures Resolved(ts, setting, ms) != []
    ensures Resolved(ts, setting, ms)[0] == (ms[j], ResolveMention(ts, setting, ms[j]).value)
  {
    var init := ms[..|ms| - 1];
    var last := ms[|ms| - 1];
    var d := Resolved(ts, setting, init);
    if j == |ms| - 1 {
      ResolvedEmpty(ts, setting, init);
    } else {
      ResolvedFirst(ts, setting, init, j);
      ResolvedEntries(ts, setting, init);
      if ResolveMention(ts, setting, last).Some? && HasKey(d, last) {
        ResolveStepKnown(ts, setting, d, last);
      }
    }
  }

  // ----- choosing a unique name -----

  /** The names of the active themes. */
  function ActiveNames(ts: seq<Theme>): (r: set<string>)
    ensures forall n :: n in r <==> ActiveNameTaken(ts, n)
  {
    set i | 0 <= i < |ts| && ts[i].isActive :: ts[i].name
  }

  lemma SubsetCard(a: set<string>, b: set<string>)
    requires a <= b
    ensures |a| <= |b|
  {
    if a != {} {
      var x :| x in a;
      SubsetCard(a - {x}, b - {x});
    }
  }

  function VersionPrefix(baseThemeName: string): (r: string)
    ensures |r| > 0 && r[|r| - 1] == 'v'
  {
    baseThemeName + "-v"
  }

  /**
   * `name.split(prefix)[1]` for a name starting with `prefix`: the text after the prefix up
   * to the next occurrence of the prefix, if any.
   */
  function VersionPart(name: string, prefix: string): (r: string)
    requires |prefix| > 0 && StartsWith(name, prefix)
    ensures StartsWith(name[|prefix|..], r)
    ensures !Contains(name[|prefix|..], prefix) ==> r == name[|prefix|..]
    ensures Contains(name[|prefix|..], prefix) ==>
      && StartsWith(name[|prefix|..][|r|..], prefix)
      && forall j :: 0 <= j < |r| ==> !StartsWith(name[|prefix|..][j..], prefix)
  {
    var rest := name[|prefix|..];
    match IndexOf(rest, prefix)
    case None => rest
    case Some(i) =>
      assert rest[i..][..|prefix|] == rest[i..i + |prefix|];
      rest[..i]
  }

  /** The version a theme contributes: one when it is active, prefixed, and its part parses. */
  function VersionOf(t: Theme, prefix: string): (r: seq<int>)
    requires |prefix| > 0
    ensures |r| <= 1
    ensures |r| == 1 <==> t.isActive && StartsWith(t.name, prefix) && ParseInt(VersionPart(t.name, prefix)).Some?
    ensures |r| == 1 ==> r[0] == ParseInt(VersionPart(t.name, prefix)).value
  {
    if t.isActive && StartsWith(t.name, prefix) then
      match ParseInt(VersionPart(t.name, prefix))
      case Some(v) => [v]
      case None => []
    else []
  }

  /** The version numbers the loop of _generate_unique_theme_name collects from `ts`. */
  function ParsedVersions(ts: seq<Theme>, prefix: string): (r: seq<int>)
    requires |prefix| > 0
  {
    if ts == [] then [] else ParsedVersions(ts[..|ts| - 1], prefix) + VersionOf(ts[|ts| - 1], prefix)
  }

  lemma {:induction false} ParsedVersionsHas(ts: seq<Theme>, prefix: string, i: nat)
    requires |prefix| > 0 && i < |ts|
    ensures forall v :: v in VersionOf(ts[i], prefix) ==> v in ParsedVersions(ts, prefix)
  {
    if i < |ts| - 1 {
      assert ts[..|ts| - 1][i] == ts[i];
      ParsedVersionsHas(ts[..|ts| - 1], prefix, i);
    }
  }

  /** `max(xs, default=d)`: the default only for an empty list. */
  function MaxOr(xs: seq<int>, d: int): (r: int)
    ensures forall x :: x in xs ==> x <= r
    ensures xs == [] ==> r == d
    ensures xs != [] ==> r in xs
  {
    if xs == [] then d
    else
      var m := MaxOr(xs[1..], xs[0]);
      assert forall x :: x in xs ==> x == xs[0] || x in xs[1..];
      if xs[0] <= m then m else xs[0]
  }

  /** The next version number for a theme: one more than the largest parsed, or 2. */
  function NextVersion(ts: seq<Theme>, baseThemeName: string): int {
    MaxOr(ParsedVersions(ts, VersionPrefix(baseThemeName)), 1) + 1
  }

  /** A name made of the prefix and a number yields that number back as its version. */
  lemma VersionedNameParses(t: Theme, prefix: string, n: int)
    requires |prefix| > 0 && prefix[|prefix| - 1] == 'v'
    ensures t.isActive && t.name == prefix + IntToString(n) ==> VersionOf(t, prefix) == [n]
  {
    if t.isActive && t.name == prefix + IntToString(n) {
      assert t.name[..|prefix|] == prefix;
      assert t.name[|prefix|..] == IntToString(n);
      IntToStringChars(n);
      NotContainsWithoutChar(IntToString(n), prefix, |prefix| - 1);
      IntToStringRoundTrip(n);
    }
  }

  /** The versioned name exceeds every version in use, so no active theme holds it. */
  lemma VersionedNameFree(ts: seq<Theme>, baseThemeName: string)
    ensures forall v :: v in ParsedVersions(ts, VersionPrefix(baseThemeName)) ==> v < NextVersion(ts, baseThemeName)
    ensures !ActiveNameTaken(ts, VersionPrefix(baseThemeName) + IntToString(NextVersion(ts, baseThemeName)))
  {
    var p := VersionPrefix(baseThemeName);
    var vs := ParsedVersions(ts, p);
    var n := MaxOr(vs, 1) + 1;
    assert n == NextVersion(ts, baseThemeName);
    forall i | 0 <= i < |ts| ensures !(ts[i].isActive && ts[i].name == p + IntToString(n)) {
      VersionNotInUse(ts, p, n, i);
    }
  }

  /** A row holding the versioned name for `n` contributes `n` to the parsed versions. */
  lemma VersionNotInUse(ts: seq<Theme>, p: string, n: int, i: nat)
    requires |p| > 0 && p[|p| - 1] == 'v' && i < |ts|
    ensures ts[i].isActive && ts[i].name == p + IntToString(n) ==> n in ParsedVersions(ts, p)
  {
    VersionedNameParses(ts[i], p, n);
    ParsedVersionsHas(ts, p, i);
    if ts[i].isActive && ts[i].name == p + IntToString(n) {
      assert n in VersionOf(ts[i], p);
    }
  }

  /** With no version in use, or only versions of at least 1, the next version is at least 2. */
  lemma NextVersionAtLeastTwo(ts: seq<Theme>, baseThemeName: string)
    requires forall v :: v in ParsedVersions(ts, VersionPrefix(baseThemeName)) ==> v >= 1
    ensures NextVersion(ts, baseThemeName) >= 2
  {
  }

  /** The versioned branch of _generate_unique_theme_name. */
  method VersionedName(ts: seq<Theme>, baseThemeName: string) returns (name: string)
    ensures name == VersionPrefix(baseThemeName) + IntToString(NextVersion(ts, baseThemeName))
    ensures !ActiveNameTaken(ts, name)
  {
    var prefix := baseThemeName + "-v";
    var versionNumbers: seq<int> := [];
    for i := 0 to |ts|
      invariant versionNumbers == ParsedVersions(ts[..i], prefix)
    {
      assert ts[..i + 1][..i] == ts[..i];
      var t := ts[i];
      if t.isActive && StartsWith(t.name, prefix) {
        var parsed := ParseInt(VersionPart(t.name, prefix));
        if parsed.Some? {
          versionNumbers := versionNumbers + [parsed.value];
        }
      }
    }
    assert ts[..|ts|] == ts;
    var nextVersion := MaxOr(versionNumbers, 1) + 1;
    name := prefix + IntToString(nextVersion);
    VersionedNameFree(ts, baseThemeName);
  }

  function Numbered(baseName: string, k: int): string {
    baseName + "-" + IntToString(k)
  }

  lemma NumberedInjective(baseName: string, j: int, k: int)
    requires Numbered(baseName, j) == Numbered(baseName, k)
    ensures j == k
  {
    assert Numbered(baseName, j)[|baseName| + 1..] == IntToString(j);
    assert Numbered(baseName, k)[|baseName| + 1..] == IntToString(k);
    IntToStringInjective(j, k);
  }

  lemma NumberedFresh(baseName: string, counter: int, tried: set<string>)
    requires forall s :: s in tried ==> exists j :: 2 <= j < counter && s == Numbered(baseName, j)
    ensures Numbered(baseName, counter) !in tried
  {
    forall j | 2 <= j < counter ensures Numbered(baseName, j) != Numbered(baseName, counter) {
      if Numbered(baseName, j) == Numbered(baseName, counter) {
        NumberedInjective(baseName, j, counter);
      }
    }
  }

  /** The suffixed names tried before `c`: Numbered(baseName, j) for 2 <= j < c. */
  function Suffixed(baseName: string, c: int): set<string>
    decreases c
  {
    if c <= 2 then {} else Suffixed(baseName, c - 1) + {Numbered(baseName, c - 1)}
  }

  lemma {:induction false} SuffixedShape(baseName: string, c: int)
    ensures forall s :: s in Suffixed(baseName, c) ==> exists j :: 2 <= j < c && s == Numbered(baseName, j)
    ensures |Suffixed(baseName, c)| == if c <= 2 then 0 else c - 2
    decreases c
  {
    if c > 2 {
      SuffixedShape(baseName, c - 1);
      NumberedFresh(baseName, c - 1, Suffixed(baseName, c - 1));
    }
  }

  /** Distinct taken suffixes are distinct active names, so there are no more of them than active names. */
  lemma SuffixesBound(ts: seq<Theme>, baseName: string, c: int)
    requires c >= 2 && forall j :: 2 <= j < c ==> ActiveNameTaken(ts, Numbered(baseName, j))
    ensures c - 2 <= |ActiveNames(ts)|
  {
    SuffixedShape(baseName, c);
    SubsetCard(Suffixed(baseName, c), ActiveNames(ts));
  }

  /**
   * The unversioned branch of _generate_unique_theme_name: the base name when no active
   * theme holds it, else the base name with the least suffix from 2 that is free.
   */
  method NumberedName(ts: seq<Theme>, baseName: string) returns (name: string)
    ensures !ActiveNameTaken(ts, name)
    ensures !ActiveNameTaken(ts, baseName) ==> name == baseName
    ensures ActiveNameTaken(ts, baseName) ==>
      exists k :: k >= 2 && name == Numbered(baseName, k) && forall j :: 2 <= j < k ==> ActiveNameTaken(ts, Numbered(baseName, j))
  {
    if ActiveThemeNamed(ts, baseName).None? {
      return baseName;
    }
    var counter := 2;
    while ActiveThemeNamed(ts, Numbered(baseName, counter)).Some?
      invariant counter >= 2
      invariant forall j :: 2 <= j < counter ==> ActiveNameTaken(ts, Numbered(baseName, j))
      invariant counter - 2 <= |ActiveNames(ts)|
      decreases |ActiveNames(ts)| - (counter - 2)
    {
      counter := counter + 1;
      SuffixesBound(ts, baseName, counter);
    }
    name := baseName + "-" + IntToString(counter);
    assert name == Numbered(baseName, counter);
  }

  /** _generate_unique_theme_name: versioned after the first referenced theme when there is one. */
  method UniqueThemeName(ts: seq<Theme>, baseName: string, refs: ReferencedThemes) returns (name: string)
    ensures !ActiveNameTaken(ts, name)
    ensures refs != [] ==> name == VersionPrefix(refs[0].1.name) + IntToString(NextVersion(ts, refs[0].1.name))
    ensures refs == [] && !ActiveNameTaken(ts, baseName) ==> name == baseName
    ensures refs == [] && ActiveNameTaken(ts, baseName) ==>
      exists k :: k >= 2 && name == Numbered(baseName, k) && forall j :: 2 <= j < k ==> ActiveNameTaken(ts, Numbered(baseName, j))
  {
    if refs != [] {
      name := VersionedName(ts, refs[0].1.name);
    } else {
      name := NumberedName(ts, baseName);
    }
  }

  // ----- generate -----

  /** The css_vars of a generated theme: all sections, and oklch colours in both modes. */
  predicate GeneratedCssVars(cv: Json) {
    && cv.Obj?
    && (forall s :: s in RequiredSections ==> s in cv.fields)
    && OklchColors(cv.fields["light"])
    && OklchColors(cv.fields["dark"])
  }

  /** The row `t` carries the generated theme's display name, description, css_vars and version. */
  predicate StoredFrom(d: Json, t: Theme) {
    && d.Obj?
    && "display_name" in d.fields && Str(t.displayName) == d.fields["display_name"]
    && "description" in d.fields && Str(t.description) == d.fields["description"]
    && "css_vars" in d.fields && t.cssVars == d.fields["css_vars"]
    && "version" in d.fields && Str(t.version) == d.fields["version"]
  }

  /** The generated display name, description and version are strings, as the text columns need. */
  predicate TextFieldsAreStrings(d: Json) {
    && d.Obj?
    && "display_name" in d.fields && d.fields["display_name"].Str?
    && "description" in d.fields && d.fields["description"].Str?
    && "version" in d.fields && d.fields["version"].Str?
  }

  /** A name built on a prefix starts with it. */
  lemma PrefixStarts(p: string, rest: string)
    ensures StartsWith(p + rest, p)
  {
    assert (p + rest)[..|p|] == p;
  }

  /**
   * Theme.objects.create for a generated theme under the chosen name: it fails (the 500
   * reply) when a text field is not a string or any row, active or not, holds the name.
   */
  method InsertGenerated(store: ThemeStore, name: string, data: Json, user: Option<nat>) returns (r: Reply<Theme>)
    requires store.Valid()
    requires data.Obj? && "css_vars" in data.fields
    modifies store
    ensures store.Valid() && store.setting == old(store.setting)
    ensures r.Success? <==> TextFieldsAreStrings(data) && !NameTaken(old(store.themes), name)
    ensures r.Failure? ==> r == Failure(500, [GenerationFailedMessage]) && store.themes == old(store.themes)
    ensures r.Success? ==>
      && r.status == 201
      && store.themes == old(store.themes) + [r.body]
      && r.body.name == name && !r.body.isSystemTheme && r.body.isActive && r.body.createdBy == user
      && StoredFrom(data, r.body)
  {
    if !TextFieldsAreStrings(data) {
      return Failure(500, [GenerationFailedMessage]);
    }
    var row := NewTheme(name, data.fields["display_name"].s, data.fields["description"].s, data.fields["css_vars"],
      false, true, data.fields["version"].s, user);
    var created := store.CreateTheme(row);
    if created.Err? {
      return Failure(500, [GenerationFailedMessage]);
    }
    r := Success(201, created.value);
  }

  /**
   * The part of generate after the service call: choosing the name and inserting the theme.
   * `name` is the name _generate_unique_theme_name chose; the insert succeeds iff the text
   * fields are strings and no row, active or not, holds that name.
   */
  method StoreGenerated(store: ThemeStore, data: Json, refs: ReferencedThemes, user: Option<nat>) returns (r: Reply<Theme>, name: string)
    requires store.Valid()
    requires data.Obj? && "name" in data.fields && "display_name" in data.fields && "description" in data.fields
    requires "css_vars" in data.fields && "version" in data.fields
    requires data.fields["name"].Str?
    modifies store
    ensures store.Valid() && store.setting == old(store.setting)
    ensures !ActiveNameTaken(old(store.themes), name)
    ensures refs != [] ==> name == VersionPrefix(refs[0].1.name) + IntToString(NextVersion(old(store.themes), refs[0].1.name))
    ensures refs == [] && !ActiveNameTaken(old(store.themes), data.fields["name"].s) ==> name == data.fields["name"].s
    ensures r.Success? <==> TextFieldsAreStrings(data) && !NameTaken(old(store.themes), name)
    ensures r.Success? ==> r.body.name == name
    ensures r.Failure? ==> r == Failure(500, [GenerationFailedMessage]) && store.themes == old(store.themes)
    ensures r.Success? ==>
      && r.status == 201
      && store.themes == old(store.themes) + [r.body]
      && !r.body.isSystemTheme && r.body.isActive && r.body.createdBy == user
      && !ActiveNameTaken(old(store.themes), r.body.name)
      && StoredFrom(data, r.body)
    ensures !data.fields["display_name"].Str? || !data.fields["description"].Str? || !data.fields["version"].Str? ==>
      r == Failure(500, [GenerationFailedMessage])
    ensures r.Success? && refs != [] ==> StartsWith(r.body.name, VersionPrefix(refs[0].1.name))
    ensures r.Success? && refs == [] && !ActiveNameTaken(old(store.themes), data.fields["name"].s) ==>
      r.body.name == data.fields["name"].s
  {
    name := UniqueThemeName(store.themes, data.fields["name"].s, refs);
    if refs != [] {
      PrefixStarts(VersionPrefix(refs[0].1.name), IntToString(NextVersion(store.themes, refs[0].1.name)));
    }
    r := InsertGenerated(store, name, data, user);
  }

  /**
   * generate: 400 without a prompt; otherwise resolve the mentions, generate and validate
   * the theme, choose a unique name and insert it (not as the current theme). Any failure
   * on the way is a 500.
   */
  method Generate(store: ThemeStore, prompt: Option<string>, mentions: seq<string>, response: Option<Json>, loads: string -> Option<Json>, user: Option<nat>) returns (r: Reply<Theme>)
    requires store.Valid()
    modifies store
    ensures store.Valid() && store.setting == old(store.setting)
    ensures Blank(prompt) ==> r == Failure(400, [PromptRequiredMessage])
    ensures !Blank(prompt) && response.None? ==> r == Failure(500, [GenerationFailedMessage])
    ensures !Blank(prompt) && response.Some? ==>
      var parsed := ParsedTheme(response.value, loads);
      && (parsed.Err? || ValidateThemeData(parsed.value).Err? ==> r == Failure(500, [GenerationFailedMessage]))
      && (r.Success? ==> parsed.Ok? && ValidGeneratedTheme(parsed.value) && StoredFrom(parsed.value, r.body))
    ensures !Blank(prompt) && response.Some? && ParsedTheme(response.value, loads).Ok? ==>
      var d := ParsedTheme(response.value, loads).value;
      ValidateThemeData(d).Ok? && TextFieldsAreStrings(d) && (forall t :: t in old(store.themes) ==> t.isActive) ==>
      r.Success?
    ensures r.Failure? ==> store.themes == old(store.themes)
    ensures r.Success? ==>
      && r.status == 201
      && store.themes == old(store.themes) + [r.body]
      && !r.body.isSystemTheme && r.body.isActive && r.body.createdBy == user
      && !ActiveNameTaken(old(store.themes), r.body.name)
      && GeneratedCssVars(r.body.cssVars)
    ensures r.Success? && Resolved(old(store.themes), old(store.setting), mentions) != [] ==>
      StartsWith(r.body.name, VersionPrefix(Resolved(old(store.themes), old(store.setting), mentions)[0].1.name))
  {
    if Blank(prompt) {
      return Failure(400, [PromptRequiredMessage]);
    }
    var refs := ResolveMentions(store.themes, store.setting, mentions);
    var generated := GenerateTheme(prompt, refs, response, loads);
    if generated.Err? {
      return Failure(500, [GenerationFailedMessage]);
    }
    assert "name" in RequiredFields && "display_name" in RequiredFields;
    assert "description" in RequiredFields && "css_vars" in RequiredFields;
    var chosen;
    r, chosen := StoreGenerated(store, generated.value, refs, user);
  }

  // ----- the ThemeSetting endpoints -----

  /** The ids a setting request carries; a key absent from the request is None. */
  datatype SettingInput = SettingInput(currentId: Option<int>, fallbackId: Option<int>)

  /** The row a request would store, or None when an id cannot name a row. */
  function SettingFrom(base: Option<Setting>, input: SettingInput, user: Option<nat>): (r: Option<Setting>)
    ensures base.None? ==>
      (r.Some? <==> (input.currentId.Some? && input.currentId.value >= 0 && input.fallbackId.Some? && input.fallbackId.value >= 0))
    ensures r.Some? ==> r.value.updatedBy == user
    ensures r.Some? && input.currentId.Some? ==> r.value.currentId == input.currentId.value
    ensures r.Some? && input.fallbackId.Some? ==> r.value.fallbackId == input.fallbackId.value
    ensures r.Some? && input.currentId.None? ==> base.Some? && r.value.currentId == base.value.currentId
    ensures r.Some? && input.fallbackId.None? ==> base.Some? && r.value.fallbackId == base.value.fallbackId
  {
    var current := if input.currentId.Some? then input.currentId.value else if base.Some? then base.value.currentId else -1;
    var fallback := if input.fallbackId.Some? then input.fallbackId.value else if base.Some? then base.value.fallbackId else -1;
    if current < 0 || fallback < 0 then None else Some(Setting(current, fallback, user))
  }

  /**
   * ThemeSettingViewSet.create: refused while a setting exists; otherwise the serializer's
   * checks, then the insert, which fails (a server error) when an id names no theme.
   */
  method CreateSetting(store: ThemeStore, input: SettingInput, user: Option<nat>) returns (r: Reply<Setting>)
    requires store.Valid()
    modifies store`setting
    ensures store.Valid()
    ensures old(store.setting).Some? ==> r == Failure(400, [SettingExistsMessage]) && store.setting == old(store.setting)
    ensures old(store.setting).None? && ValidateSettingInput(store.themes, input.currentId, input.fallbackId).Err? ==>
      r == Failure(400, ValidateSettingInput(store.themes, input.currentId, input.fallbackId).error)
    ensures r.Failure? ==> store.setting == old(store.setting)
    ensures r.Success? <==>
      && old(store.setting).None?
      && ValidateSettingInput(store.themes, input.currentId, input.fallbackId).Ok?
      && SettingFrom(None, input, user).Some?
      && HasId(store.themes, SettingFrom(None, input, user).value.currentId)
      && HasId(store.themes, SettingFrom(None, input, user).value.fallbackId)
    ensures r.Success? ==> r.status == 201 && store.setting == Some(r.body) && r.body == SettingFrom(None, input, user).value
  {
    if store.setting.Some? {
      return Failure(400, [SettingExistsMessage]);
    }
    var valid := ValidateSettingInput(store.themes, input.currentId, input.fallbackId);
    if valid.Err? {
      return Failure(400, valid.error);
    }
    var s := SettingFrom(None, input, user);
    if s.None? {
      return Failure(500, []);
    }
    var saved := store.SaveSetting(s.value, true);
    if saved.Err? {
      return Failure(500, []);
    }
    r := Success(201, s.value);
  }

  /**
   * ThemeSettingViewSet.update: 404 without a setting; otherwise the serializer's checks,
   * then the given ids replace the stored ones, updated_by becomes the requester and the row
   * is saved, failing (a server error) when an id names no theme.
   */
  method UpdateSetting(store: ThemeStore, input: SettingInput, user: Option<nat>) returns (r: Reply<Setting>)
    requires store.Valid()
    modifies store`setting
    ensures store.Valid()
    ensures old(store.setting).None? ==> r == Failure(404, [NoSettingFoundMessage]) && store.setting == old(store.setting)
    ensures old(store.setting).Some? && ValidateSettingInput(store.themes, input.currentId, input.fallbackId).Err? ==>
      r == Failure(400, ValidateSettingInput(store.themes, input.currentId, input.fallbackId).error)
    ensures r.Failure? ==> store.setting == old(store.setting)
    ensures r.Success? <==>
      && old(store.setting).Some?
      && ValidateSettingInput(store.themes, input.currentId, input.fallbackId).Ok?
      && SettingFrom(old(store.setting), input, user).Some?
      && HasId(store.themes, SettingFrom(old(store.setting), input, user).value.currentId)
      && HasId(store.themes, SettingFrom(old(store.setting), input, user).value.fallbackId)
    ensures r.Success? ==> r.status == 200 && store.setting == Some(r.body) && r.body == SettingFrom(old(store.setting), input, user).value
  {
    if store.setting.None? {
      return Failure(404, [NoSettingFoundMessage]);
    }
    var valid := ValidateSettingInput(store.themes, input.currentId, input.fallbackId);
    if valid.Err? {
      return Failure(400, valid.error);
    }
    var s := SettingFrom(store.setting, input, user);
    if s.None? {
      return Failure(500, []);
    }
    var saved := store.SaveSetting(s.value, false);
    if saved.Err? {
      return Failure(500, []);
    }
    r := Success(200, s.value);
  }
}
