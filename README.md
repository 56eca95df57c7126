# Theme system: a verified model

This project models the theme system of a Django + React site in Dafny. The system has two halves.

**Browser side.**
- The `useTheme` hook is a small controller. It loads a theme and turns it into CSS:
  - The theme comes from a bundled catalogue, or from the backend when `VITE_USE_BACKEND_THEMES` is `'true'`.
  - The theme group becomes inline custom properties on the document root.
  - The light and dark groups become the text of one `<style>` element.
  - It falls back to a constant theme when loading fails, and it offers refresh and switch operations.
- The `AnimatedBackground` component fetches an SVG and rewrites its text with a fixed pipeline of regular-expression and literal replacements. At render it injects a style attribute into the first `<svg` tag.

**Server side.**
- A theme catalogue is stored in the database: themes, plus a singleton `ThemeSetting` naming the current and fallback themes.
- Model validation (`Theme.clean`, the name pattern, `ThemeSetting.clean`) and the singleton rule of `ThemeSetting.save`.
- DRF serializers and view-set actions: list, retrieve, current, set-current, duplicate, generate, and setting create/update.
- An AI theme generator. It builds a prompt, parses the completion, sanitises the name and validates the result.
- The `import_themes` management command and the admin, which has previews, a duplicate action, a file import view and permission hooks.
- The login, signup and auth-status JSON views.
- The background list, image upload and index page views.

**How the pieces are modelled.**
- The database is a `ThemeStore` class: a sequence of theme rows in primary-key order, plus an optional setting row. View and command methods modify it.
- JSON values are a `Json` datatype with Python's `in`, `get`, subscript, `len` and truthiness, including the exceptions these raise on the wrong type.
- The following become method parameters: network answers, file contents, directory listings, the authentication oracle, the AI completion, the UUID and the `fontsReady` flag.

Modules:
- `Wrappers`, `Text`, `Sorting` and `PyJson` are shared helpers:
  - `Option`/`Result`;
  - ASCII case mapping, Python `strip`, `str.title`, search, replace, join, decimal printing and parsing;
  - insertion sort by a string key;
  - the JSON value.
- `ThemeModels` covers `backend/themes/models.py`.
- `ThemeSerializers` covers `backend/themes/serializers.py`.
- `ThemeServices` covers `backend/themes/services.py`.
- `ThemeViews` covers `backend/themes/views.py`.
- `ImportThemes` covers `backend/themes/management/commands/import_themes.py`.
- `ThemeAdmin` covers `backend/themes/admin.py`.
- `AuthViews` covers `backend/config/api_auth_views.py`.
- `ConfigViews` covers `backend/config/views.py`.
- `UseTheme` covers `frontend/src/hooks/useTheme.ts`.
- `AnimatedBackground` covers `frontend/src/components/backgrounds/AnimatedBackground.tsx`.

## Model

| member | source | states |
|---|---|---|
| UseTheme.FallbackTheme | frontend/src/hooks/useTheme.ts:7-38 | The fallback theme is named 'fallback' ("Fallback Theme"). Its theme group has 4 entries and its light and dark groups have 8 each. |
| UseTheme.BackendFallbackIsFallback | frontend/src/hooks/useTheme.ts:120-151 | The literal applied when the backend fetch fails is exactly `getFallbackTheme()`. |
| UseTheme.FrontendThemeName | frontend/src/hooks/useTheme.ts:57 | `VITE_FRONTEND_THEME \|\| 'vercel'`: the result is never empty. It is 'vercel' exactly when the variable is unset, empty or 'vercel'; otherwise it is the variable's value. |
| UseTheme.SplitAt | frontend/src/hooks/useTheme.ts:189-199 | The parser's splitter: it cuts at the first occurrence of the character, and the pieces reassemble the input. |
| UseTheme.SplitAtFirst | frontend/src/hooks/useTheme.ts:189-199 | Splitting `a + [c] + b` where `c` is not in `a` gives back exactly `(a, b)`. |
| UseTheme.DeclarationsRoundTrip | frontend/src/hooks/useTheme.ts:189-199 | The `--k: v;` lines written for a group (names without ':' or '}', values without ';' or '}') parse back to exactly that group, in entry order. |
| UseTheme.ReadRuleOf | frontend/src/hooks/useTheme.ts:189-199 | A rule block `open + declarations + "}"` reads back as its group and leaves the text after the block. |
| UseTheme.ThemeCssRoundTrip | frontend/src/hooks/useTheme.ts:189-203 | The style text is a `:root {…}` block with the light group, a blank line, then a `.dark {…}` block with the dark group. Reading it back gives exactly `(light, dark)`. |
| UseTheme.WithInlinePropsIsOverride | frontend/src/hooks/useTheme.ts:169-171 | Setting `--k` for each theme-group entry is a map override: old properties plus the group's assignments, where a later entry wins. |
| UseTheme.InlinePropsSetAndKept | frontend/src/hooks/useTheme.ts:169-171 | Every earlier property survives (nothing is removed), every `--k` of the group is set, and nothing else is added. |
| UseTheme.InlinePropUntouched | frontend/src/hooks/useTheme.ts:169-171 | A property that the group does not name keeps its old value. |
| UseTheme.InlinePropsIdempotent | frontend/src/hooks/useTheme.ts:169-171 | Applying the same group's properties twice equals applying them once. |
| UseTheme.FontSizeFollowsGroup | frontend/src/hooks/useTheme.ts:173-175 | The root font size changes only when the group has a `font-size` entry, and then it takes the last such entry's value. |
| UseTheme.ThemeController.constructor | frontend/src/hooks/useTheme.ts:41-43 | Initial hook state: no theme, loading, no error, and an untouched document. |
| UseTheme.ThemeController.ReportedIsLoading | frontend/src/hooks/useTheme.ts:248 | The reported flag is `isLoading \|\| !fontsReady`: always true while fonts are not ready. |
| UseTheme.ThemeController.ApplyThemeToDom | frontend/src/hooks/useTheme.ts:165-204 | After applying a theme: the inline properties are the override above, the font size follows the group, the style text is exactly the serialised light/dark CSS, and the style element is created only when absent. The hook state is untouched. |
| UseTheme.ThemeController.PreloadFonts | frontend/src/hooks/useTheme.ts:78 | Records one font preload request for the theme group. |
| UseTheme.ThemeController.Adopt | frontend/src/hooks/useTheme.ts:75-81 | Store the theme, optionally preload its fonts, then apply it. Afterwards the hook holds the theme and the document displays it. |
| UseTheme.ThemeController.LoadAndApplyTheme | frontend/src/hooks/useTheme.ts:49-162 | The mount effect. In local mode it loads the named bundled theme, or the fallback with 'Failed to load frontend theme, using fallback', preloading fonts either way. In backend mode it applies the fetched theme, or the fallback without preloading and with 'Failed to load theme from backend, using fallback'. Loading always ends false. |
| UseTheme.ThemeController.LoadFrontendTheme | frontend/src/hooks/useTheme.ts:54-96 | Local branch: the bundle's theme (error cleared) or the fallback (error set). It is stored, preloaded and applied, and loading ends false. |
| UseTheme.ThemeController.LoadBackendTheme | frontend/src/hooks/useTheme.ts:99-158 | Backend branch: the fetched theme (preloaded, error cleared) or the fallback literal (applied without preloading, error set). Loading ends false. |
| UseTheme.ThemeController.RefreshTheme | frontend/src/hooks/useTheme.ts:206-228 | A successful refresh stores and displays the fetched theme with the error cleared. A failure changes neither the theme nor the document and sets 'Failed to refresh theme'. Loading ends false. |
| UseTheme.ThemeController.SwitchTheme | frontend/src/hooks/useTheme.ts:231-244 | If set-current fails, the theme and the document are unchanged, the error is 'Failed to switch theme' and loading is false. Otherwise it behaves as a refresh. |
| UseTheme.ApplyTwiceSameAsOnce | frontend/src/hooks/useTheme.ts:179-186 | Applying the same theme twice to a fresh document leaves the same properties and style text as once, with exactly one style element created. |
| ThemeModels.NameErrors | backend/themes/models.py:14-24 | A name is accepted iff it is non-empty, at most 100 characters and matches `^[a-z0-9-]+$`. Each of the three errors is reported iff its own condition fails. |
| ThemeModels.MissingAmong | backend/themes/models.py:101 | `[c for c in colors if c not in section]`: the missing colours in their required order. It raises exactly when `in` raises on the section. |
| ThemeModels.InTypeOnly | backend/themes/models.py:101 | Whether `in` raises depends only on the container's type, never on the key. |
| ThemeModels.CheckMode | backend/themes/models.py:98-105 | A mode section passes iff every required colour is `in` it. Otherwise it reports the mode and the missing colours, in order. |
| ThemeModels.CheckCssVars | backend/themes/models.py:84-105 | css_vars passes iff it is a dict with theme, light and dark sections whose light and dark sections hold all four colours. A non-dict is refused first, then the first missing section, then light before dark. |
| ThemeModels.GetCssVar | backend/themes/models.py:107-109 | Returns the variable from the given mode, or None when the mode or the variable is absent. It raises when a present mode is not a dict. |
| ThemeModels.GetFontFamily | backend/themes/models.py:111-121 | The theme section's `font-<type>` when truthy, else the light section's. |
| ThemeModels.FontFamilyPrecedence | backend/themes/models.py:111-121 | A non-empty theme font always wins. Otherwise the light section's font (or None) is returned. |
| ThemeModels.CleanSetting | backend/themes/models.py:159-173 | A setting is clean iff both themes are active and distinct. An inactive current theme is reported first, then an inactive fallback, then sameness. |
| ThemeModels.ThemeWithId | backend/themes/models.py:129-140 | A foreign-key lookup: it finds a row iff a row with that id exists, and returns that row. |
| ThemeModels.ActiveThemeNamed | backend/themes/views.py:108-113 | `Theme.objects.get(name=…, is_active=True)`: found iff an active row has that name. |
| ThemeModels.PositionOfName | backend/themes/management/commands/import_themes.py:119 | The position of a row with the name, or None iff no row has it. |
| ThemeModels.FirstActive | backend/themes/models.py:79 | `filter(is_active=True).first()` under `ordering = ['display_name']`: None iff no theme is active. Otherwise it is an active theme whose display name is least among active themes. |
| ThemeModels.GetCurrentTheme | backend/themes/models.py:181-192 | The setting's current theme when a setting exists (None if its row is gone). Otherwise the first active theme. |
| ThemeModels.GetFallbackTheme | backend/themes/models.py:194-205 | The setting's fallback theme when a setting exists. Otherwise the first active theme. |
| ThemeModels.CurrentAndFallbackAgree | backend/themes/models.py:181-205 | With no setting, or one whose current and fallback ids are equal, both getters return the same theme. |
| ThemeModels.HasIdKept | backend/themes/models.py:129-140 | Appending rows or editing rows in place keeps every id that foreign keys point to. |
| ThemeModels.ThemeStore.constructor | backend/themes/models.py:8-205 | An empty database satisfies the store invariant: unique ids and names, and setting ids that reference rows. |
| ThemeModels.ThemeStore.CreateTheme | backend/themes/models.py:14-17 | The unique name constraint: a taken name is an IntegrityError and leaves the table unchanged. Otherwise one row with a fresh id is appended. |
| ThemeModels.ThemeStore.SaveTheme | backend/themes/models.py:14-17 | Saving a row succeeds iff no other row has its name, and then it changes only that row. |
| ThemeModels.ThemeStore.SaveSetting | backend/themes/models.py:175-179 | Adding a setting when one exists raises. Updating the existing one is allowed, provided its theme references exist. |
| ThemeSerializers.ValidateCssVars | backend/themes/serializers.py:24-45 | Accepts iff css_vars is well structured, and then returns the value unchanged. A refusal is the same problem `Theme.clean` reports. |
| ThemeSerializers.Summary | backend/themes/serializers.py:48-60 | The list item carries id, name, display_name, description, is_system_theme and version, copied from the theme. |
| ThemeSerializers.SummaryIgnoresCssVars | backend/themes/serializers.py:53-60 | The list item never depends on css_vars. |
| ThemeSerializers.SummaryDeterminesListedFields | backend/themes/serializers.py:53-60 | Two themes with the same list item agree on every field except css_vars, is_active and created_by. |
| ThemeSerializers.ValidateThemeId | backend/themes/serializers.py:83-99 | A truthy id is accepted iff an active theme has it. An absent id or 0 is accepted unchecked. The value is returned unchanged. |
| ThemeSerializers.ValidateSettingIds | backend/themes/serializers.py:101-111 | Refused iff both ids are present, truthy and equal; otherwise the data is returned unchanged. |
| ThemeSerializers.ValidateSettingInput | backend/themes/serializers.py:83-111 | The field validators followed by `validate`: accepted iff each id check passes and the ids are not the same truthy value. |
| ThemeSerializers.ValidateName | backend/themes/serializers.py:127-131 | A name is accepted iff no theme, active or not, has it. |
| ThemeSerializers.CreatedRow | backend/themes/serializers.py:133-143 | The created row is forced to non-system and active, is credited to the requesting user, and copies the submitted fields. Description defaults to '' and version to '1.0.0'. |
| ThemeSerializers.Create | backend/themes/serializers.py:133-143 | Saving that row: the row is appended unless the name is taken, and the setting is untouched. |
| ThemeServices.ReadApiKey | backend/themes/services.py:18-24 | A cached key is returned. Otherwise the configured value is cached and returned only when it is truthy, else ValueError is raised. |
| ThemeServices.ApiKeyCachedAfterSuccess | backend/themes/services.py:20-24 | After a successful read, later reads return the same key whatever the configuration says. |
| ThemeServices.ApiKeyEmptyHandedOut | backend/themes/services.py:20-24 | With the key configured as "", the first read raises but the second returns "" (see Findings). |
| ThemeServices.ReadApiKeyChecked | backend/themes/services.py:18-24 | Corrected property: caches only a non-empty key. |
| ThemeServices.ReadApiKeyCheckedNeverEmpty | backend/themes/services.py:18-24 | The cache never holds "", no read returns "", and an unconfigured key raises on every read. |
| ThemeServices.OpenRouterService.constructor | backend/themes/services.py:14-16 | A new service has no cached key. |
| ThemeServices.OpenRouterService.ApiKey | backend/themes/services.py:18-24 | The property with corrected caching: the result and new cache are those of `ReadApiKeyChecked`, so an empty key is never cached or returned. |
| ThemeServices.References | backend/themes/services.py:64-70 | One reference part per referenced theme, in dictionary order, each carrying the mention, display name and css_vars. |
| ThemeServices.PromptPartsShape | backend/themes/services.py:59-97 | The prompt opens with the user request. Then come the references followed by the modification rules, or the "None provided" text when there are none. The requirements always come last. |
| ThemeServices.BuildThemePrompt | backend/themes/services.py:50-227 | A None prompt is a ValueError. Otherwise the prompt is grown piece by piece into exactly the shape above. |
| ThemeServices.SanitizeName | backend/themes/services.py:284 | `re.sub('[^a-z0-9-]', '', name.lower())` contains only a-z, 0-9 and '-', and is no longer than the input. |
| ThemeServices.SanitizeKeepsNames | backend/themes/services.py:284 | A name that is already valid is left unchanged. |
| ThemeServices.SanitizeIdempotent | backend/themes/services.py:284 | Sanitising twice equals sanitising once. |
| ThemeServices.SanitizeLowersLetters | backend/themes/services.py:284 | Upper-case letters are kept as lower case. A name of letters, digits and '-' loses no character. |
| ThemeServices.ParseAiResponse | backend/themes/services.py:273-293 | A missing choices/0/message/content path or undecodable JSON becomes one parse failure, and a non-string content raises TypeError. When the content decodes to an object, parsing succeeds iff its name, if any, is a string. On success the name is sanitised, and version is '1.0.0' only if it was absent. |
| ThemeServices.Normalise | backend/themes/services.py:282-288 | An object with no name or a string name is normalised; a non-string name raises AttributeError. A list or string passes unchanged only when `in` finds no name and finds a version; anything else raises TypeError. |
| ThemeServices.WithVersion | backend/themes/services.py:286-287 | An object gets version '1.0.0' iff it has none and is otherwise unchanged. Any other value passes unchanged iff `in` finds a version and otherwise raises TypeError. |
| ThemeServices.FirstAbsent | backend/themes/services.py:297-300 | None iff all keys are present. Otherwise the reported key is at an index before which every key is present, and that index, when it exists, always gives the result. |
| ThemeServices.FirstAbsentShift | backend/themes/services.py:298-300 | When the first key is present, the first absent key of the list is the first absent key of its tail, one index later. |
| ThemeServices.CheckModeColors | backend/themes/services.py:310-319 | A mode passes iff each required colour is present and is a string starting with "oklch(". The first bad colour decides the error: invalid format when present, missing otherwise. |
| ThemeServices.ValidateThemeData | backend/themes/services.py:295-319 | Passes iff the four fields, the three sections and the oklch colours are all present. A missing field is reported iff one is absent, and it is the first absent in the order name, display_name, description, css_vars. With all fields, the first absent section of theme, light, dark is reported. With all sections, the first bad light colour is reported, and only when light passes the first bad dark colour. |
| ThemeServices.GenerateTheme | backend/themes/services.py:26-48 | Prompt, then request, then parse, then validate. A failed parse is returned as it is. A parsed value that fails validation gives exactly that validation error, and one that passes is returned unchanged. A generated theme always has a valid-charset name and a validated structure. A missing prompt or failed request is reported as such. |
| ThemeViews.PermissionFor | backend/themes/views.py:30-36 | AllowAny iff the action is list, retrieve, current or current_setting. |
| ThemeViews.AnonymousOnlyReads | backend/themes/views.py:30-36 | An anonymous client may perform exactly the four reading actions; an authenticated one may perform all. |
| ThemeViews.SerializerFor | backend/themes/views.py:38-44 | The list serializer only for list, the create serializer only for create. |
| ThemeViews.ActiveThemes | backend/themes/views.py:26 | The queryset holds exactly the active themes. |
| ThemeViews.ListThemes | backend/themes/views.py:46-53 | count equals the number of results. The results are the summaries of exactly the active themes, ordered by display name. |
| ThemeViews.SummariesListed | backend/themes/views.py:46-53 | The list items of the active themes in display-name order name only active themes, omit none of them, and keep the order. |
| ThemeViews.Summaries | backend/themes/views.py:49 | One summary per theme, in order. |
| ThemeViews.Retrieve | backend/themes/views.py:55-59 | 200 with the theme iff an active theme has the name, else 404. |
| ThemeViews.CurrentTheme | backend/themes/views.py:71-82 | 200 with `get_current_theme()` when there is one, else 404 'No current theme configured'. |
| ThemeViews.CurrentSetting | backend/themes/views.py:84-95 | 200 with the setting iff one exists, else 404. |
| ThemeViews.CreateTheme | backend/themes/views.py:61-69 | 201 with a new row iff the data validates: the name is free and valid, display_name is non-empty and at most 200 characters, a given version is non-empty and at most 20 characters, and css_vars is not null. Otherwise 400 with nothing created. |
| ThemeViews.SetCurrent | backend/themes/views.py:97-126 | No theme_name: 400. Unknown or inactive theme: 404. Otherwise a new setting gets current = fallback = the theme, and an existing one changes only current and updated_by. |
| ThemeViews.DuplicateRow | backend/themes/views.py:149-158 | The copy keeps css_vars. Its display name defaults to "<original> (Copy)" and its description is "Copy of <original>". It is non-system, active and version '1.0.0'. |
| ThemeViews.Duplicate | backend/themes/views.py:128-161 | Unknown original: 404. No new_name: 400. A name used by any theme: 400. Otherwise 201 with that row appended. |
| ThemeViews.ResolveMention | backend/themes/views.py:187-214 | 'current' resolves iff a setting exists with its row. Any other mention resolves iff an active theme has that name, and then to that theme. |
| ThemeViews.DictSet | backend/themes/views.py:194-212 | Python dict assignment: an existing key keeps its position and takes the new value, a new key is appended, and keys stay unique. |
| ThemeViews.ResolveStep | backend/themes/views.py:186-214 | One loop iteration keeps the keys unique. |
| ThemeViews.Resolved | backend/themes/views.py:184-214 | The resolved dictionary has unique keys. |
| ThemeViews.ResolveMentions | backend/themes/views.py:184-214 | The loop builds exactly the resolved dictionary. |
| ThemeViews.ResolveStepKnown | backend/themes/views.py:186-214 | Re-resolving an already resolved mention changes nothing. |
| ThemeViews.ResolvedEntries | backend/themes/views.py:184-214 | A mention is a key iff it is mentioned and resolves, and every entry is what its mention resolves to. Unresolved mentions are dropped. |
| ThemeViews.ResolvedEmpty | backend/themes/views.py:184-214 | If no mention resolves, the dictionary is empty. |
| ThemeViews.ResolvedFirst | backend/themes/views.py:184-214 | The first entry is the first mention that resolves. |
| ThemeViews.ActiveNames | backend/themes/views.py:297-301 | The set of names held by active themes. |
| ThemeViews.SubsetCard | backend/themes/views.py:300-302 | A subset is no larger than its superset (the bound behind the counter loop's termination). |
| ThemeViews.VersionPrefix | backend/themes/views.py:279 | The prefix "<base>-v" is non-empty and ends in 'v'. |
| ThemeViews.VersionPart | backend/themes/views.py:287 | `name.split(prefix)[1]`: the text after the prefix, up to the next occurrence of the prefix. |
| ThemeViews.VersionOf | backend/themes/views.py:278-290 | An active name with the prefix contributes its parsed version. An unparseable suffix contributes nothing. |
| ThemeViews.ParsedVersionsHas | backend/themes/views.py:284-290 | Every row's parsed version is among the collected versions. |
| ThemeViews.MaxOr | backend/themes/views.py:293 | `max(xs, default=d)` is an upper bound that is in xs, or d when xs is empty. |
| ThemeViews.VersionedNameParses | backend/themes/views.py:287-288 | "<base>-v<n>" parses back to n. |
| ThemeViews.VersionedNameFree | backend/themes/views.py:293-294 | The next version exceeds every parsed version, so the versioned name is held by no active theme. |
| ThemeViews.VersionNotInUse | backend/themes/views.py:278-290 | An active theme named "<base>-v<n>" puts n among the parsed versions. |
| ThemeViews.NextVersionAtLeastTwo | backend/themes/views.py:293 | The next version is at least 2 when every parsed version is at least 1. It is not when a version is 0 or negative (see Left out). |
| ThemeViews.VersionedName | backend/themes/views.py:272-294 | The collecting loop yields "<base>-v<max+1>", which no active theme holds. |
| ThemeViews.NumberedInjective | backend/themes/views.py:301 | Different counters give different "<base>-<k>" names. |
| ThemeViews.NumberedFresh | backend/themes/views.py:300-302 | The name for the current counter is none of the names already tried. |
| ThemeViews.SuffixedShape | backend/themes/views.py:300-302 | The names tried before counter c are exactly c - 2 distinct "<base>-<k>" names. |
| ThemeViews.SuffixesBound | backend/themes/views.py:300-302 | The counter never exceeds the number of active names plus 2, so the loop ends. |
| ThemeViews.NumberedName | backend/themes/views.py:296-304 | The base name if no active theme has it. Otherwise "<base>-<k>" for the least k ≥ 2 free among active names. The result is never an active name. |
| ThemeViews.UniqueThemeName | backend/themes/views.py:269-304 | With references, the versioned name of the first reference. Without, the numbered name. Either way the result is not an active name. |
| ThemeViews.InsertGenerated | backend/themes/views.py:240-249 | The insert succeeds iff display_name, description and version are strings and no row, active or inactive, holds the chosen name. It then appends exactly one non-system, active row with that name and the generated display_name, description, css_vars and version. A failure is the 500 reply with nothing stored. |
| ThemeViews.StoreGenerated | backend/themes/views.py:237-260 | The chosen name is the one the unique-name rules give: never an active theme's name, the generated name when it is free and there are no references, and "<first ref>-v<next>" with references. The insert succeeds (201) iff display_name, description and version are strings and no row, active or inactive, holds the chosen name. The stored row is then non-system and active, with the generated display_name, description, css_vars and version. Otherwise it is the 500 reply with nothing stored. |
| ThemeViews.Generate | backend/themes/views.py:163-267 | No prompt: 400. A failed parse or validation of the completion: 500 with nothing stored. A parsed, validated completion with string text fields is stored with 201 whenever every existing row is active. Success: 201 with a theme whose display_name, description, css_vars and version are those of the parsed, validated completion, versioned after the first resolved reference when there is one. |
| ThemeViews.SettingFrom | backend/themes/views.py:337-358 | The ids present in the request replace the setting's and absent ones keep it. updated_by is the user. A new setting needs both ids. |
| ThemeViews.CreateSetting | backend/themes/views.py:327-339 | 400 when a setting exists or the input does not validate. Otherwise 201 and the setting becomes the one built from the input. |
| ThemeViews.UpdateSetting | backend/themes/views.py:341-365 | 404 when no setting exists. 400 when the input does not validate. Otherwise only the provided ids change and updated_by is set. |
| ImportThemes.CheckFields | backend/themes/management/commands/import_themes.py:108-115 | A file is refused when it lacks both name and theme_name, then when it lacks display_name, then cssVars, in that order. |
| ImportThemes.ImportName | backend/themes/management/commands/import_themes.py:118 | The name is `name` when truthy, else `theme_name`. |
| ImportThemes.ReadFields | backend/themes/management/commands/import_themes.py:135-158 | display_name, description (default '') and cssVars are read as given. |
| ImportThemes.Overwritten | backend/themes/management/commands/import_themes.py:134-140 | An overwrite sets display_name, description, css_vars, system and active. It keeps id, name, version and creator. |
| ImportThemes.ImportedRow | backend/themes/management/commands/import_themes.py:154-162 | A new row is a system, active, version '1.0.0' theme with the file's fields. |
| ImportThemes.ExistingThemeOutcome | backend/themes/management/commands/import_themes.py:121-145 | An existing name gives 'skipped' without overwrite and 'updated' with it, never 'imported'. |
| ImportThemes.DryRunSameLabel | backend/themes/management/commands/import_themes.py:128-151 | A dry run reports the same label as the real run. |
| ImportThemes.ReimportSkipped | backend/themes/management/commands/import_themes.py:119-126 | After a file is imported, importing it again without overwrite is skipped. |
| ImportThemes.ImportThemeFile | backend/themes/management/commands/import_themes.py:96-171 | The outcome follows the decision table. A dry run, a skip or an error changes nothing. An update changes exactly that row. An import appends exactly the new row. The new table and next id are AfterFile's. |
| ImportThemes.AfterFileGrowth | backend/themes/management/commands/import_themes.py:96-171 | A dry run, an error or a skip leaves the table and next id alone; only a real import adds a row. |
| ImportThemes.Count | backend/themes/management/commands/import_themes.py:56-70 | Each file adds exactly one to imported, updated, skipped or errors. |
| ImportThemes.FileWithStem | backend/themes/management/commands/import_themes.py:39-41 | `--theme` finds the file with that stem, or none. |
| ImportThemes.Selected | backend/themes/management/commands/import_themes.py:38-46 | A non-empty `--theme` selects exactly the one file and fails if it is absent. Without it, or with an empty one (falsy in Python), all files are selected, and an empty list fails. |
| ImportThemes.DefaultTheme | backend/themes/management/commands/import_themes.py:179-182 | The active 'modern-minimal' if present, else the first active theme. None iff no theme is active. |
| ImportThemes.CreateDefaultThemeSetting | backend/themes/management/commands/import_themes.py:173-193 | Creates a setting with current = fallback = the default theme only when no setting exists and a default exists. |
| ImportThemes.Handle | backend/themes/management/commands/import_themes.py:29-94 | It succeeds iff the directory exists and the selection succeeds. A missing directory or failed selection is an error that changes nothing. Otherwise the counts and the new table are those of RunFiles over the selected files, and a real run grows the table by the imported count. A dry run changes nothing. After a real run that imported or updated something with no setting yet, the setting is the default theme as both current and fallback. |
| ImportThemes.RunGrowsByImported | backend/themes/management/commands/import_themes.py:55-70 | The counts add up to the number of files. A dry run leaves the table and next id alone. A real run grows the table by exactly the imported count. |
| ThemeAdmin.Names | backend/themes/admin.py:70-75 | The swatch names, in order. |
| ThemeAdmin.SwatchesFor | backend/themes/admin.py:70-75 | Swatches for the present colours among those requested, in request order, with their values. It raises when `in` raises. |
| ThemeAdmin.ColorPreviewOf | backend/themes/admin.py:61-77 | "No preview available" when css_vars is falsy or has no light section. Otherwise the swatches of background, primary, secondary and accent that are present, or "No colors found". |
| ThemeAdmin.SubsequenceMembers | backend/themes/admin.py:70-75 | Every swatch name is a requested colour. |
| ThemeAdmin.SwatchesStep | backend/themes/admin.py:71-75 | One loop iteration: a raised `in`, a skipped colour or an appended swatch. |
| ThemeAdmin.PrependTwice | backend/themes/admin.py:67-75 | Appending swatches in two steps equals appending them at once. |
| ThemeAdmin.PrependNothing | backend/themes/admin.py:67-75 | Appending no swatch changes nothing. |
| ThemeAdmin.CollectSwatches | backend/themes/admin.py:67-75 | The append loop computes exactly the swatches. |
| ThemeAdmin.PreviewColors | backend/themes/admin.py:61-77 | The method computes exactly the colour preview. |
| ThemeAdmin.SectionSize | backend/themes/admin.py:88-90 | `len(css_vars.get(section, {}))`: 0 for a missing section, else its length. |
| ThemeAdmin.CssVarsSummary | backend/themes/admin.py:81-100 | "No CSS variables" iff css_vars is falsy. Otherwise the section names and the light, dark and theme entry counts. |
| ThemeAdmin.WellStructuredSummarised | backend/themes/admin.py:81-100 | Valid css_vars are summarised, with the light and dark counts equal to the section sizes. |
| ThemeAdmin.Fields | backend/themes/admin.py:127 | Dropping a row's id and reinserting it with the same id gives back the row. |
| ThemeAdmin.CopyOf | backend/themes/admin.py:127-131 | The copy is named "<name>-copy" and shown as "<display> (Copy)". It is non-system and credited to the admin, and every other field is kept. |
| ThemeAdmin.DuplicateThemes | backend/themes/admin.py:122-136 | Each selected theme's copy is appended in order and the count equals the number selected. A name clash stops the action with the rows saved before it. |
| ThemeAdmin.CopyRenamed | backend/themes/admin.py:128 | A copy's name differs from the original's: it is the original followed by 5 characters. |
| ThemeAdmin.DefaultDisplayName | backend/themes/admin.py:181 | `stem.replace('-', ' ').title()` has the stem's length, has no '-', and has its letters case-mapped. |
| ThemeAdmin.FirstPresent | backend/themes/admin.py:175-181 | Nested `get` with defaults takes the first present key's value, else the default. |
| ThemeAdmin.ReadAdminData | backend/themes/admin.py:172-198 | css_vars is cssVars, else css_vars, else {}. The display name is display_name, else name, else the title-cased stem. Version defaults to '1.0.0'. |
| ThemeAdmin.AdminRow | backend/themes/admin.py:178-189 | A created row is named after the stem and is system, active and credited to the admin. Its description defaults to "Imported theme: <stem>". |
| ThemeAdmin.Refresh | backend/themes/admin.py:195-199 | An update replaces css_vars, display name, version and description (default "Updated theme: <stem>") and keeps everything else. |
| ThemeAdmin.ImportFile | backend/themes/admin.py:167-204 | A file that is not JSON is a warning and changes nothing. A file that cannot be opened or is not UTF-8 text is a read failure that changes nothing. A new stem creates one row and an existing stem updates that row. The outcome, table and next id are AdminStep's. |
| ThemeAdmin.ViewMessages | backend/themes/admin.py:203-214 | Warnings for the skipped files. A success message for each non-zero count. The info message iff both counts are 0. A stop adds the error message last. |
| ThemeAdmin.ImportThemesView | backend/themes/admin.py:152-216 | A missing directory gives one error. Otherwise the new table and the report are AdminRun's over the files: imported and updated count AdminStep's Created and Refreshed outcomes, a file that is not JSON is warned about, and any other problem, an unreadable file included, stops the run. Each file before a stop counts once, the table grows by the imported count, and the messages are the ones above. |
| ThemeAdmin.AdminStepFailureKeeps | backend/themes/admin.py:167-204 | A file that fails leaves the table and next id alone; only a created theme adds a row. |
| ThemeAdmin.AdminRunFromAccounts | backend/themes/admin.py:162-206 | Continuing a run from a report: each file before a stop is counted once, a stop is never a file that is merely not JSON, the table grows by the newly imported count, and only non-JSON files are warned about. |
| ThemeAdmin.AdminRunAccounts | backend/themes/admin.py:162-206 | A whole run counts each file before a stop exactly once, grows the table by the imported count, and warns only about files that are not JSON. |
| ThemeAdmin.HasAddPermission | backend/themes/admin.py:259-261 | A setting may be added iff none exists. |
| ThemeAdmin.HasDeletePermission | backend/themes/admin.py:263-265 | A setting may never be deleted. |
| AuthViews.Refusal | backend/config/api_auth_views.py:29 | An error reply is exactly `{'success': False, 'error': message}` with its status. |
| AuthViews.Login | backend/config/api_auth_views.py:20-55 | Invalid JSON: 400. A username or password that is absent or None: 400. Authenticated: 200 with the user payload. Otherwise 401 'Invalid credentials'. |
| AuthViews.EmptyCredentialsAuthenticated | backend/config/api_auth_views.py:31-35 | Empty strings are not refused: they reach authentication. |
| AuthViews.StrippedField | backend/config/api_auth_views.py:69-70 | `data.get(key, '').strip()`. A non-string value raises. |
| AuthViews.ReadSignup | backend/config/api_auth_views.py:68-72 | The names are stripped and the email is stripped and lower-cased. The password is passed through untouched. |
| AuthViews.SignupProblem | backend/config/api_auth_views.py:80-97 | The first failing check decides: missing field, then email shape ('@' and '.'), then password length under 8, then an email already registered. |
| AuthViews.NewUserFrom | backend/config/api_auth_views.py:99-110 | The created username is the normalised email. |
| AuthViews.Signup | backend/config/api_auth_views.py:65-139 | Invalid JSON: 400. A failed check: its 400. An IntegrityError: 400 'Email already registered'. Another creation error: 500. Otherwise 200 with the new user. |
| AuthViews.LowerCharKeepsSpace | backend/config/api_auth_views.py:71 | Lower-casing neither creates nor removes whitespace, and is idempotent. |
| AuthViews.StripLeftIdle | backend/config/api_auth_views.py:71 | A string that starts with no whitespace is left-stripped to itself. |
| AuthViews.StripRightIdle | backend/config/api_auth_views.py:71 | A string that ends with no whitespace is right-stripped to itself. |
| AuthViews.NormalEmailIdempotent | backend/config/api_auth_views.py:71 | Normalising an email twice equals once. |
| AuthViews.SignupUsernameIsEmail | backend/config/api_auth_views.py:99-110 | A successful signup created the user with username = email = the normalised email. |
| AuthViews.AuthStatus | backend/config/api_auth_views.py:152-172 | Authenticated: the full user payload. Otherwise exactly `{'authenticated': False}`. |
| AuthViews.DispatchOther | backend/config/api_auth_views.py:17-59 | Django's dispatch for a verb other than POST is always 405. The handler's JSON body appears only for GET, and only when 'get' is an allowed method. |
| AuthViews.GetHandlerUnreachable | backend/config/api_auth_views.py:17-18 | With `http_method_names = ['post']`, GET gives a bare 405 and the JSON handlers never run (see Findings). |
| AuthViews.GetHandlerReachedWhenListed | backend/config/api_auth_views.py:58-59 | With 'get' allowed, GET returns the handler's 405 JSON body. Other verbs still get the bare 405. |
| ConfigViews.IndexContextFor | backend/config/views.py:21-40 | In DEBUG no asset names are set. Otherwise main_js is `manifest['index.html']['file']` (default 'index.js') and main_css is always 'index.css'. A missing manifest gives the defaults. |
| ConfigViews.Stem | backend/config/views.py:50-51 | The stem of a `.svg` file is its name without the extension. |
| ConfigViews.Spaced | backend/config/views.py:53 | '_' and '-' become spaces and nothing else changes. |
| Text.CaseMapping | backend/config/views.py:53 | ASCII case mapping leaves non-letters alone, and lower-casing after either mapping is the same. |
| Text.TitleCaseOnly | backend/config/views.py:53 | `str.title()` keeps the length, leaves every non-letter in place and changes letters only in case. |
| ConfigViews.Label | backend/config/views.py:53 | The label has the stem's length, no '_' or '-', a space where they were, and the stem's letters up to case. |
| ConfigViews.BackgroundOf | backend/config/views.py:50-58 | Value is the stem and label is its title-cased, spaced form. |
| ConfigViews.EntriesMembers | backend/config/views.py:48-58 | Every `.svg` file contributes its entry and nothing else is listed. |
| ConfigViews.BackgroundsListed | backend/config/views.py:45-60 | The list is sorted by label and is a permutation of the entries. A missing directory gives []. |
| ConfigViews.ListAvailableBackgrounds | backend/config/views.py:42-64 | The append loop and sort compute exactly that list. |
| ConfigViews.AfterLastDot | backend/config/views.py:88 | `split('.')[-1]` is the suffix after the last '.'. |
| ConfigViews.Extension | backend/config/views.py:88 | The lower-cased text after the last '.', or 'jpg' without a '.'. |
| ConfigViews.UploadImage | backend/config/views.py:72-123 | No image: 400. More than 5·1024·1024 bytes: 400 (exactly 5 MiB passes). A missing or non-"image/" type: 400. Otherwise "<hex>.<ext>" under "/static/uploads/", or 500 when saving fails. |
| ConfigViews.AfterLastDotOfJoin | backend/config/views.py:88-89 | The extension of "<a>.<b>" is b when b has no '.'. |
| ConfigViews.UploadKeepsExtension | backend/config/views.py:88-113 | An accepted upload's filename is the hex, '.', then the lower-cased original extension. |
| AnimatedBackground.SpaceRun | frontend/src/components/backgrounds/AnimatedBackground.tsx:38-39 | `\s+` consumes the longest run of JavaScript whitespace. |
| AnimatedBackground.DeclarationRun | frontend/src/components/backgrounds/AnimatedBackground.tsx:35-36 | `[^;"'\s]*` consumes up to the first ';', quote or whitespace. |
| AnimatedBackground.FirstIndexOf | frontend/src/components/backgrounds/AnimatedBackground.tsx:33 | The first occurrence of a character, or None iff it is absent. |
| AnimatedBackground.StyleFound | frontend/src/components/backgrounds/AnimatedBackground.tsx:33 | A found match is an `<svg…style="…"…>` tag, and its replacement is the tag without the style attribute. |
| AnimatedBackground.SplitTag | frontend/src/components/backgrounds/AnimatedBackground.tsx:33 | The matched text splits into its regex groups. |
| AnimatedBackground.StyleAttempt | frontend/src/components/backgrounds/AnimatedBackground.tsx:33 | One backtracking attempt of `[^>]+` at a fixed length. |
| AnimatedBackground.StyleAttributeFrom | frontend/src/components/backgrounds/AnimatedBackground.tsx:33 | Greedy backtracking from the longest `[^>]+` down. Any match is a styled tag. |
| AnimatedBackground.StyleMatch | frontend/src/components/backgrounds/AnimatedBackground.tsx:33 | A match starts with "<svg" and is replaced by the tag without its style attribute. |
| AnimatedBackground.DeclarationMatch | frontend/src/components/backgrounds/AnimatedBackground.tsx:35-36 | `/background:[^;\s"']*/gi` and `/background-color:[^;\s"']*/gi` match iff the text starts with the property and ':' ignoring ASCII case. The match removes them and the value up to, not including, the next ';', whitespace or quote. |
| AnimatedBackground.SizeMatch | frontend/src/components/backgrounds/AnimatedBackground.tsx:38-39 | `\s+width="[^"]*"` (resp. height) matches from whitespace to the closing quote and deletes it. |
| AnimatedBackground.AspectMatch | frontend/src/components/backgrounds/AnimatedBackground.tsx:43 | `preserveAspectRatio="[^"]*"` matches when a closing quote follows, and is replaced by `preserveAspectRatio="xMidYMid slice"`. |
| AnimatedBackground.MatchAt | frontend/src/components/backgrounds/AnimatedBackground.tsx:33-43 | A match is non-empty and within the text. The deletion patterns replace it with nothing. |
| AnimatedBackground.NoMatchUnchanged | frontend/src/components/backgrounds/AnimatedBackground.tsx:33-43 | A global replace over text with no match returns the text. |
| AnimatedBackground.RemovalKeepsOrder | frontend/src/components/backgrounds/AnimatedBackground.tsx:35-39 | A deleting global replace leaves a subsequence of the input: characters are only removed, never reordered. |
| AnimatedBackground.MatchInTail | frontend/src/components/backgrounds/AnimatedBackground.tsx:35-39 | The text has a match iff it matches at the start or its tail has a match. |
| AnimatedBackground.RemovalShrinks | frontend/src/components/backgrounds/AnimatedBackground.tsx:35-39 | A deleting global replace never grows the text, and shrinks it iff there is a match. |
| AnimatedBackground.SubsequenceOfSuffix | frontend/src/components/backgrounds/AnimatedBackground.tsx:35-39 | A subsequence of a suffix is a subsequence of the whole. |
| AnimatedBackground.AspectOpenOnlyAtStart | frontend/src/components/backgrounds/AnimatedBackground.tsx:43 | A replaced attribute contains no attribute opening other than its own. |
| AnimatedBackground.AspectTailKept | frontend/src/components/backgrounds/AnimatedBackground.tsx:43 | An attribute opening that spans a replacement boundary cannot occur. |
| AnimatedBackground.SliceNeverContinuesOpen | frontend/src/components/backgrounds/AnimatedBackground.tsx:43 | The replacement text never completes a partial attribute opening. |
| AnimatedBackground.SlicedAfterAttribute | frontend/src/components/backgrounds/AnimatedBackground.tsx:43 | Output that starts with the replacement keeps the "every value is slice" property. |
| AnimatedBackground.SlicedAfterChar | frontend/src/components/backgrounds/AnimatedBackground.tsx:43 | Output that starts with a copied character keeps that property. |
| AnimatedBackground.UnclosedUnchanged | frontend/src/components/backgrounds/AnimatedBackground.tsx:43 | Text with no closed attribute is left as is. |
| AnimatedBackground.AspectValuesAllSliced | frontend/src/components/backgrounds/AnimatedBackground.tsx:42-43 | After the replace, every closed `preserveAspectRatio="…"` value is "xMidYMid slice". |
| AnimatedBackground.InsertAfterFirst | frontend/src/components/backgrounds/AnimatedBackground.tsx:42-46 | String `replace` with a string pattern inserts the text right after the first occurrence only, and changes nothing when there is no occurrence. |
| AnimatedBackground.InsertedAfterFound | frontend/src/components/backgrounds/AnimatedBackground.tsx:45 | The insertion lands at the first occurrence. |
| AnimatedBackground.ReplacedAtIndex | frontend/src/components/backgrounds/AnimatedBackground.tsx:45 | `replace` rewrites exactly the first occurrence. |
| AnimatedBackground.InsertedAt | frontend/src/components/backgrounds/AnimatedBackground.tsx:45 | Replacing p by p + extra is inserting extra after p. |
| AnimatedBackground.ReplacedPrefix | frontend/src/components/backgrounds/AnimatedBackground.tsx:49-50 | An occurrence in replaced text either was in the input or overlaps the replacement. |
| AnimatedBackground.ContainsAfter | frontend/src/components/backgrounds/AnimatedBackground.tsx:49-50 | An occurrence in a concatenation that does not start in the first part lies in the second. |
| AnimatedBackground.ReplaceAllLeavesNone | frontend/src/components/backgrounds/AnimatedBackground.tsx:49-50 | `split(p).join(r)` leaves no occurrence of q when the replacement cannot combine with its surroundings into q. |
| AnimatedBackground.Recolor | frontend/src/components/backgrounds/AnimatedBackground.tsx:49-50 | After recolouring, neither "var(--primary)" nor "var(--secondary)" occurs. |
| AnimatedBackground.FitToCover | frontend/src/components/backgrounds/AnimatedBackground.tsx:42-46 | With "preserveAspectRatio" present, every closed value becomes "xMidYMid slice". Otherwise the attribute is inserted after the first "<svg", or the text is kept when there is none. |
| AnimatedBackground.RewriteSvg | frontend/src/components/backgrounds/AnimatedBackground.tsx:32-50 | The whole pipeline never leaves a colour variable behind. |
| AnimatedBackground.Background.constructor | frontend/src/components/backgrounds/AnimatedBackground.tsx:18 | The content starts empty. |
| AnimatedBackground.Background.LoadSvgContent | frontend/src/components/backgrounds/AnimatedBackground.tsx:20-60 | An empty type requests nothing. Otherwise "/static/images/backgrounds/<type>.svg" is requested. The content becomes the rewritten text only for an ok response, and stays as it was on a failure. |
| AnimatedBackground.Background.Rendered | frontend/src/components/backgrounds/AnimatedBackground.tsx:65-78 | Nothing is rendered iff the content is empty. Otherwise only the first "<svg" receives the injected style attribute. |
| Sorting.InsertBy | backend/config/views.py:60 | Insertion keeps the list sorted by key and adds exactly the new element. |
| Sorting.SortBy | backend/config/views.py:60 | `list.sort(key=…)` gives a sorted permutation. |
| Text.IndexOf | frontend/src/components/backgrounds/AnimatedBackground.tsx:45 | The first occurrence of a pattern, or None iff it is absent. |
| Text.StripLeft | backend/config/api_auth_views.py:69-71 | The left strip is a suffix of the input that starts with no whitespace. |
| Text.StripRight | backend/config/api_auth_views.py:69-71 | The right strip is a prefix of the input that ends with no whitespace. |
| Text.IntToStringRoundTrip | backend/themes/views.py:287-294 | `int(str(n)) == n` for every integer. |
| Text.IntToStringInjective | backend/themes/views.py:294 | Different integers print differently. |
| Text.NatToStringDigits | backend/themes/views.py:294 | A natural number prints as non-empty decimal digits with that value. |
| Text.ReplaceAllChar | backend/config/views.py:53 | Replacing one character by another maps each position independently. |

## Left out

- Network, file and database I/O are parameters of the methods that use them:
  - the theme API calls and the dynamic import of bundled theme JSON;
  - the OpenRouter HTTP request (backend/themes/services.py:229-271);
  - directory globbing and JSON file reads in the admin and the import command;
  - the manifest read;
  - the upload's chunk writes;
  - the fetch in the background component.
- Font loading is outside the model. `fontsReady` is an input, and `initializeFontPreloading` is recorded as a request log. The hooks that load fonts are not part of this model.
- Asynchronous interleaving is not modelled: overlapping refresh or switch calls, a stale SVG response arriving after a newer type was chosen, and the React effect scheduling. Every transition is sequential.
- Django internals are replaced by the `ThemeStore` class and oracle parameters:
  - ORM querysets and transactions (the dry-run rollback is modelled as "nothing changes");
  - sessions, `authenticate`/`login`, CSRF;
  - DRF machinery.
- Database name comparison is case-sensitive exact equality. Collation-dependent behaviour (for example SQLite's LIKE in `name__startswith`) is not modelled.
- Logging, `print`, the prompt prose and the admin HTML markup are not modelled. Only the branch taken and the items emitted are. Message texts are kept only where a contract distinguishes them.
- `str.lower`, `str.title`, `str.strip`, the `/i` flag and `\s` are modelled over ASCII case mapping. `\s` follows the JavaScript whitespace set. No Unicode case folding is claimed.
- ThemeViews.CreateTheme: a display_name or version made only of whitespace, which the serializer's trimming turns blank, is accepted, because whitespace trimming is not modelled; only an empty one is refused.
- Python's `int()` accepting surrounding whitespace and digit underscores is not modelled: `ParseInt` accepts an optional '+' or '-' sign followed by decimal digits.
- ThemeViews.NextVersionAtLeastTwo: proved only when every parsed version is at least 1, because the source does not guarantee more. An active theme named "x-v0" or "x-v-5" parses to a version below 1. The next version still exceeds every parsed version and the name is still free, but it can be below 2: "x-v-5" alone gives "x-v-4".
- Non-string JSON in text fields (description, display_name, names) is treated as an error. Django would coerce it with `str()` or store it as given.
- The name regex's `$`, which in Python also matches before a final newline, is modelled faithfully. Form and serializer whitespace stripping happens before it and is not modelled.
- Dictionary iteration order is insertion order, as in Python 3.7+. The order of JSON keys inside css_vars is not modelled beyond the ordered token groups of the browser side.
- AnimatedBackground.RemovalShrinks: proves only that a width, height or background removal pass deletes characters in order, and deletes something iff there was a match. It does not prove that no such attribute remains. A single global replace can assemble a new one from the remains: ` wid width="1"th="2"` becomes ` width="2"`.
- UseTheme.ThemeController.LoadFrontendTheme, UseTheme.ThemeController.LoadBackendTheme: a theme that loads but lacks a css_vars group cannot be represented, since the bundle and the fetched theme always carry all three groups. In the hook such a theme is stored and its fonts are preloaded; applyThemeToDOM then sets its root properties, may create the style element, and throws at the missing group. The fallback is applied on top, and the stray root properties and the preload request stay. That path is not modelled.
- Sorting.SortBy: stability among equal keys is not stated. Two stems differing only in '_' versus '-' may be listed in either order.
- The admin actions `make_active` and `make_inactive` (a queryset update plus a message) are not modelled. Nor are `save_model` (stamping created_by or updated_by), `get_form` (restricting choices to active themes), `get_urls` and `changelist_view`; these are Django admin wiring.
- `LogoutView` and `get_csrf_token` (backend/config/api_auth_views.py:145-199) are thin wrappers over session and CSRF calls, so they are not modelled.
- The `ThemeSetting` rule current ≠ fallback (`ThemeSetting.clean`) is not a store invariant. `set_current` and `create_default_theme_setting` create settings with current = fallback, and `save` does not call `clean`.

## Findings

| source | as written | input that shows it | evidently intended | confidence | as-written member | corrected member |
|---|---|---|---|---|---|---|
| backend/config/api_auth_views.py:17-18 | `http_method_names = ['post']` on both views (lines 18 and 63), so Django's dispatch refuses GET before the `get` handlers at lines 58-59 and 142-143 run. | GET /login: a bare 405 without the JSON body 'Please use POST to login'. | GET returns the handler's 405 JSON error. | high; derived from Django's `View.dispatch`, not executed | AuthViews.GetHandlerUnreachable | AuthViews.GetHandlerReachedWhenListed |
| backend/themes/services.py:20-24 | The property caches the configured value before checking that it is truthy. | OPENROUTER_API_KEY = "": the first read raises ValueError; the second read returns "" and a request is sent with an empty bearer token. | An unconfigured key raises on every read. | high; not executed | ThemeServices.ApiKeyEmptyHandedOut | ThemeServices.ReadApiKeyCheckedNeverEmpty |
