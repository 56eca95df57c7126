/**
 * The AI theme generator's local logic: reading the API key, the structure of the prompt,
 * extracting and normalising the generated theme from the completion response, and
 * validating it. The HTTP request itself is not modelled: its outcome is a parameter, and
 * `json.loads` is the parameter `loads` (None for invalid JSON).
 */
module ThemeServices {
  import opened Wrappers
  import opened Text
  import opened PyJson
  import opened ThemeModels

  // ----- the API key -----

  datatype ApiKeyError = NotConfigured

  /**
   * The api_key property as written: with nothing cached it caches the configured value
   * (`configured`, None when the setting is missing) and raises when that value is falsy;
   * a cached value is returned without checking it again.
   */
  function ReadApiKey(cache: Option<string>, configured: Option<string>): (r: (Result<string, ApiKeyError>, Option<string>))
    ensures cache.Some? ==> r == (Ok(cache.value), cache)
    ensures cache.None? ==> r.1 == configured
    ensures cache.None? ==> (r.0.Ok? <==> configured.Some? && configured.value != [])
    ensures r.0.Ok? ==> r.1 == Some(r.0.value)
  {
    if cache.Some? then (Ok(cache.value), cache)
    else if configured.None? || configured.value == [] then (Err(NotConfigured), configured)
    else (Ok(configured.value), configured)
  }

  /** Once a read succeeds, every later read answers the same key, whatever is configured then. */
  lemma ApiKeyCachedAfterSuccess(cache: Option<string>, configured: Option<string>, later: Option<string>)
    requires ReadApiKey(cache, configured).0.Ok?
    ensures ReadApiKey(ReadApiKey(cache, configured).1, later).0 == ReadApiKey(cache, configured).0
  {
  }

  /**
   * With the setting configured as the empty string, the first read raises but leaves ""
   * cached, and the second read hands out the empty key.
   */
  lemma ApiKeyEmptyHandedOut()
    ensures ReadApiKey(None, Some("")).0 == Err(NotConfigured)
    ensures ReadApiKey(ReadApiKey(None, Some("")).1, Some("")).0 == Ok("")
  {
  }

  /** The evidently intended reading: only a non-empty key is ever cached. */
  function ReadApiKeyChecked(cache: Option<string>, configured: Option<string>): (r: (Result<string, ApiKeyError>, Option<string>))
    ensures cache.Some? ==> r == (Ok(cache.value), cache)
    ensures cache.None? ==> (r.0.Ok? <==> configured.Some? && configured.value != [])
  {
    if cache.Some? then (Ok(cache.value), cache)
    else if configured.None? || configured.value == [] then (Err(NotConfigured), None)
    else (Ok(configured.value), configured)
  }

  predicate CachesOnlyKeys(cache: Option<string>) {
    cache.None? || cache.value != []
  }

  /**
   * The corrected read never answers an empty key and keeps the cache free of empty keys,
   * so an unconfigured key raises on every read.
   */
  lemma ReadApiKeyCheckedNeverEmpty(cache: Option<string>, configured: Option<string>)
    requires CachesOnlyKeys(cache)
    ensures CachesOnlyKeys(ReadApiKeyChecked(cache, configured).1)
    ensures ReadApiKeyChecked(cache, configured).0.Ok? ==> ReadApiKeyChecked(cache, configured).0.value != []
    ensures cache.None? && (configured.None? || configured.value == []) ==>
      ReadApiKeyChecked(cache, configured).1.None? && ReadApiKeyChecked(cache, configured).0.Err?
  {
  }

  /** The service object and its `_api_key` cache. */
  class OpenRouterService {
    var cachedKey: Option<string>

    constructor ()
      ensures cachedKey.None?
    {
      cachedKey := None;
    }

    /**
     * The api_key property with the corrected caching (`ReadApiKey` is the property as
     * written): the configured value is cached only once it has been checked.
     */
    method ApiKey(configured: Option<string>) returns (r: Result<string, ApiKeyError>)
      requires CachesOnlyKeys(cachedKey)
      modifies this
      ensures (r, cachedKey) == ReadApiKeyChecked(old(cachedKey), configured)
      ensures CachesOnlyKeys(cachedKey) && (r.Ok? ==> r.value != [])
    {
      if cachedKey.None? {
        if configured.None? || configured.value == [] {
          return Err(NotConfigured);
        }
        cachedKey := configured;
      }
      r := Ok(cachedKey.value);
    }
  }

  // ----- the prompt -----

  /** A theme named in the request: its name, display name and css_vars. */
  datatype RefTheme = RefTheme(name: string, displayName: string, cssVars: Json)

  /** The resolved mentions, as an insertion-ordered dict from mention to theme. */
  type ReferencedThemes = seq<(string, RefTheme)>

  /** The pieces of the prompt, in order; the fixed prose between them is not modelled. */
  datatype PromptPart =
    | Request(userPrompt: string)
    | Reference(mention: string, displayName: string, cssVars: Json)
    | ModificationRules
    | NoneProvided
    | Requirements

  /** One prompt reference per resolved mention, in order. */
  function References(refs: ReferencedThemes): (r: seq<PromptPart>)
    ensures |r| == |refs|
    ensures forall i :: 0 <= i < |refs| ==> r[i] == Reference(refs[i].0, refs[i].1.displayName, refs[i].1.cssVars)
  {
    seq(|refs|, i requires 0 <= i < |refs| => Reference(refs[i].0, refs[i].1.displayName, refs[i].1.cssVars))
  }

  /** The prompt's pieces for a request. */
  function PromptParts(userPrompt: string, refs: ReferencedThemes): seq<PromptPart> {
    [Request(userPrompt)]
    + (if refs == [] then [NoneProvided] else References(refs) + [ModificationRules])
    + [Requirements]
  }

  /**
   * With no referenced themes the prompt says none were provided and carries no modification
   * rules; otherwise each mention contributes one reference, in order, before the rules.
   */
  lemma PromptPartsShape(userPrompt: string, refs: ReferencedThemes)
    ensures var ps := PromptParts(userPrompt, refs);
      && ps[0] == Request(userPrompt) && ps[|ps| - 1] == Requirements
      && (NoneProvided in ps <==> refs == [])
      && (ModificationRules in ps <==> refs != [])
      && forall i :: 0 <= i < |refs| ==> ps[1 + i] == Reference(refs[i].0, refs[i].1.displayName, refs[i].1.cssVars)
  {
    var ps := PromptParts(userPrompt, refs);
    if refs != [] {
      assert NoneProvided !in ps by {
        forall i | 0 <= i < |ps| ensures ps[i] != NoneProvided {
        }
      }
      assert ps[1 + |refs|] == ModificationRules;
    } else {
      assert ps == [Request(userPrompt), NoneProvided, Requirements];
    }
  }

  datatype ServiceError =
    | PromptMissing
    | RequestFailed
    | ParseFailed
    | Escaped(error: PyError)
    | InvalidThemeData(problem: ThemeDataProblem)

  /** _build_theme_prompt: refuses a None prompt, then appends one piece per referenced theme. */
  method BuildThemePrompt(userPrompt: Option<string>, refs: ReferencedThemes) returns (r: Result<seq<PromptPart>, ServiceError>)
    ensures userPrompt.None? ==> r == Err(PromptMissing)
    ensures userPrompt.Some? ==> r == Ok(PromptParts(userPrompt.value, refs))
  {
    if userPrompt.None? {
      return Err(PromptMissing);
    }
    var prompt := [Request(userPrompt.value)];
    if refs != [] {
      var i := 0;
      while i < |refs|
        invariant 0 <= i <= |refs|
        invariant prompt == [Request(userPrompt.value)] + References(refs[..i])
      {
        assert References(refs[..i + 1]) == References(refs[..i]) + [Reference(refs[i].0, refs[i].1.displayName, refs[i].1.cssVars)];
        prompt := prompt + [Reference(refs[i].0, refs[i].1.displayName, refs[i].1.cssVars)];
        i := i + 1;
      }
      assert refs[..i] == refs;
      prompt := prompt + [ModificationRules];
      assert prompt == [Request(userPrompt.value)] + (References(refs) + [ModificationRules]);
    } else {
      prompt := prompt + [NoneProvided];
    }
    prompt := prompt + [Requirements];
    r := Ok(prompt);
  }

  // ----- parsing the completion -----

  /** `re.sub(r'[^a-z0-9-]', '', s.lower())`: lower-case, then keep name characters only. */
  function SanitizeName(s: string): (r: string)
    ensures AllNameChars(r)
    ensures |r| <= |s|
  {
    if s == [] then []
    else (if IsNameChar(LowerChar(s[0])) then [LowerChar(s[0])] else []) + SanitizeName(s[1..])
  }

  /** A string of name characters is left as it is. */
  lemma {:induction false} SanitizeKeepsNames(s: string)
    requires AllNameChars(s)
    ensures SanitizeName(s) == s
  {
    if s != [] {
      assert LowerChar(s[0]) == s[0];
      SanitizeKeepsNames(s[1..]);
    }
  }

  /** Sanitising twice is sanitising once. */
  lemma SanitizeIdempotent(s: string)
    ensures SanitizeName(SanitizeName(s)) == SanitizeName(s)
  {
    SanitizeKeepsNames(SanitizeName(s));
  }

  /** Upper-case letters are kept as their lower-case forms; every other non-name character is dropped. */
  lemma {:induction false} SanitizeLowersLetters(s: string)
    ensures SanitizeName(s) == SanitizeName(Lower(s))
    ensures (forall i :: 0 <= i < |s| ==> IsLetter(s[i]) || IsDigit(s[i]) || s[i] == '-') ==> |SanitizeName(s)| == |s|
  {
    if s != [] {
      assert Lower(s)[0] == LowerChar(s[0]) && Lower(s)[1..] == Lower(s[1..]);
      assert LowerChar(LowerChar(s[0])) == LowerChar(s[0]);
      SanitizeLowersLetters(s[1..]);
    }
  }

  /** `response['choices'][0]['message']['content']`. */
  function CompletionContent(response: Json): Result<Json, PyError> {
    var choices :- Subscript(response, KStr("choices"));
    var first :- Subscript(choices, KIdx(0));
    var message :- Subscript(first, KStr("message"));
    Subscript(message, KStr("content"))
  }

  /** Only KeyError and IndexError (and invalid JSON) are reported as a parse failure; others escape. */
  function ParseFailure(e: PyError): ServiceError {
    if e == KeyError || e == IndexError then ParseFailed else Escaped(e)
  }

  /** A parsed dict is normalised: a name, when present, is a sanitised string, and a version is present. */
  predicate Normalised(d: Json) {
    d.Obj? ==>
      && ("name" in d.fields ==> d.fields["name"].Str? && AllNameChars(d.fields["name"].s))
      && "version" in d.fields
  }

  /**
   * What _parse_ai_response does to the decoded value: a name that `in` finds is lower-cased
   * and sanitised in place (`.lower()` raising on a non-str), then a version of '1.0.0' is
   * added when `in` finds none (item assignment raising on anything but a dict).
   */
  function Normalise(d: Json): (r: Result<Json, ServiceError>)
    ensures d.Obj? && ("name" in d.fields ==> d.fields["name"].Str?) ==> r.Ok? && NormalisedFrom(d, r.value)
    ensures d.Obj? && "name" in d.fields && !d.fields["name"].Str? ==> r == Err(Escaped(AttributeError))
    ensures d.Arr? || d.Str? ==> (r.Ok? <==> In("name", d) == Ok(false) && In("version", d) == Ok(true))
    ensures (d.Arr? || d.Str?) && r.Ok? ==> r.value == d
    ensures (d.Arr? || d.Str?) && r.Err? ==> r == Err(Escaped(TypeError))
    ensures !(d.Obj? || d.Arr? || d.Str?) ==> r == Err(Escaped(TypeError))
    ensures r.Ok? ==> Normalised(r.value)
  {
    match In("name", d)
    case Err(e) => Err(Escaped(e))
    case Ok(false) => WithVersion(d)
    case Ok(true) =>
      match Subscript(d, KStr("name"))
      case Err(e) => Err(Escaped(e))
      case Ok(name) =>
        if !name.Str? then Err(Escaped(AttributeError))
        else WithVersion(d.(fields := d.fields["name" := Str(SanitizeName(name.s))]))
  }

  /** `if 'version' not in d: d['version'] = '1.0.0'`. */
  function WithVersion(d: Json): (r: Result<Json, ServiceError>)
    ensures d.Obj? ==> r == Ok(if "version" in d.fields then d else d.(fields := d.fields["version" := Str(DefaultVersion)]))
    ensures !d.Obj? ==> (r.Ok? <==> In("version", d) == Ok(true)) && (r.Ok? ==> r.value == d)
    ensures !d.Obj? && r.Err? ==> r == Err(Escaped(TypeError))
  {
    match In("version", d)
    case Err(e) => Err(Escaped(e))
    case Ok(true) => Ok(d)
    case Ok(false) => if d.Obj? then Ok(d.(fields := d.fields["version" := Str(DefaultVersion)])) else Err(Escaped(TypeError))
  }

  /** The outcome of _parse_ai_response on a completion, `loads` standing for json.loads. */
  function ParsedTheme(response: Json, loads: string -> Option<Json>): Result<Json, ServiceError> {
    match CompletionContent(response)
    case Err(e) => Err(ParseFailure(e))
    case Ok(content) =>
      if !content.Str? then Err(Escaped(TypeError))
      else match loads(content.s)
        case None => Err(ParseFailed)
        case Some(d) => Normalise(d)
  }

  /**
   * _parse_ai_response: the completion's content is decoded, its name (if any) sanitised in
   * place and a version of '1.0.0' added when there is none.
   */
  method ParseAiResponse(response: Json, loads: string -> Option<Json>) returns (r: Result<Json, ServiceError>)
    ensures r == ParsedTheme(response, loads)
    ensures CompletionContent(response).Err? ==> r == Err(ParseFailure(CompletionContent(response).error))
    ensures CompletionContent(response).Ok? && !CompletionContent(response).value.Str? ==> r == Err(Escaped(TypeError))
    ensures (CompletionContent(response).Ok? && CompletionContent(response).value.Str?
      && loads(CompletionContent(response).value.s).None?) ==> r == Err(ParseFailed)
    ensures r.Ok? ==> Normalised(r.value)
    ensures r.Ok? ==> exists content :: (CompletionContent(response) == Ok(Str(content)) && loads(content).Some?
      && NormalisedFrom(loads(content).value, r.value))
    ensures var content := CompletionContent(response);
      content.Ok? && content.value.Str? && loads(content.value.s).Some? && loads(content.value.s).value.Obj? ==>
        var d := loads(content.value.s).value;
        ("name" in d.fields ==> d.fields["name"].Str?) <==> r.Ok?
  {
    var content := CompletionContent(response);
    if content.Err? {
      return Err(ParseFailure(content.error));
    }
    if !content.value.Str? {
      return Err(Escaped(TypeError));   // json.loads of a non-str
    }
    var decoded := loads(content.value.s);
    if decoded.None? {
      return Err(ParseFailed);
    }
    var themeData := decoded.value;
    var hasName := In("name", themeData);
    if hasName.Err? {
      return Err(Escaped(hasName.error));
    }
    if hasName.value {
      var name := Subscript(themeData, KStr("name"));
      if name.Err? {
        return Err(Escaped(name.error));
      }
      if !name.value.Str? {
        return Err(Escaped(AttributeError));   // .lower() on a non-str
      }
      themeData := themeData.(fields := themeData.fields["name" := Str(SanitizeName(name.value.s))]);
    }
    var hasVersion := In("version", themeData);
    if hasVersion.Err? {
      return Err(Escaped(hasVersion.error));
    }
    if !hasVersion.value {
      if !themeData.Obj? {
        return Err(Escaped(TypeError));   // item assignment on a list or str
      }
      themeData := themeData.(fields := themeData.fields["version" := Str(DefaultVersion)]);
    }
    r := Ok(themeData);
  }

  /**
   * How the returned value relates to the decoded one: only `name` (sanitised) and `version`
   * (added as '1.0.0' when absent) change; an existing version is kept.
   */
  predicate NormalisedFrom(decoded: Json, result: Json) {
    if decoded.Obj? then
      && result.Obj?
      && result.fields.Keys == decoded.fields.Keys + {"version"}
      && (forall k :: k in decoded.fields && k != "name" && k != "version" ==> result.fields[k] == decoded.fields[k])
      && ("name" in decoded.fields ==> (decoded.fields["name"].Str?
            && result.fields["name"] == Str(SanitizeName(decoded.fields["name"].s))))
      && ("version" in decoded.fields ==> result.fields["version"] == decoded.fields["version"])
      && ("version" !in decoded.fields ==> result.fields["version"] == Str(DefaultVersion))
    else
      result == decoded
  }

  // ----- validating the generated theme -----

  const RequiredFields: seq<string> := ["name", "display_name", "description", "css_vars"]

  datatype ThemeDataProblem =
    | MissingField(field: string)
    | MissingCssSection(section: string)
    | MissingColor(color: string, mode: string)
    | InvalidColorFormat(color: string, mode: string)

  predicate IsOklch(v: Json) {
    v.Str? && StartsWith(v.s, "oklch(")
  }

  /** A mode section holding the four required colours, each an oklch() string. */
  predicate OklchColors(m: Json) {
    m.Obj? && forall c :: c in RequiredColors ==> c in m.fields && IsOklch(m.fields[c])
  }

  /** What _validate_theme_data accepts, stated on its own. */
  predicate ValidGeneratedTheme(d: Json) {
    && d.Obj?
    && (forall f :: f in RequiredFields ==> f in d.fields)
    && var cv := d.fields["css_vars"];
    && cv.Obj?
    && (forall s :: s in RequiredSections ==> s in cv.fields)
    && OklchColors(cv.fields["light"])
    && OklchColors(cv.fields["dark"])
  }

  /** `keys[i]` is the first of `keys` that `in` does not find in `j`. */
  predicate FirstAbsentAt(keys: seq<string>, j: Json, i: int) {
    && 0 <= i < |keys|
    && In(keys[i], j) == Ok(false)
    && forall k :: 0 <= k < i ==> In(keys[k], j) == Ok(true)
  }

  /** A dict holding the four required fields. */
  predicate HasRequiredFields(d: Json) {
    d.Obj? && forall f :: f in RequiredFields ==> f in d.fields
  }

  /** A dict holding the four required fields, whose css_vars is a dict holding the three sections. */
  predicate HasRequiredSections(d: Json) {
    && HasRequiredFields(d)
    && d.fields["css_vars"].Obj?
    && forall s :: s in RequiredSections ==> s in d.fields["css_vars"].fields
  }

  /** The first of `keys` that `in` does not find in `j`, raising what `in` raises. */
  function FirstAbsent(keys: seq<string>, j: Json): (r: Result<Option<string>, PyError>)
    ensures r == Ok(None) <==> forall k :: k in keys ==> In(k, j) == Ok(true)
    ensures r.Ok? && r.value.Some? ==> exists i :: FirstAbsentAt(keys, j, i) && keys[i] == r.value.value
    ensures forall i :: FirstAbsentAt(keys, j, i) ==> r == Ok(Some(keys[i]))
    ensures r.Err? ==> keys != [] && In(keys[0], j).Err?
  {
    if keys == [] then Ok(None)
    else
      var here :- In(keys[0], j);
      if !here then
        assert FirstAbsentAt(keys, j, 0);
        Ok(Some(keys[0]))
      else
        InTypeOnly(keys[0], keys[1..], j);
        var rest := FirstAbsent(keys[1..], j);
        FirstAbsentShift(keys, j);
        rest
  }

  /** Past a present first key, the first absent key of `keys` is that of `keys[1..]`, one place on. */
  lemma FirstAbsentShift(keys: seq<string>, j: Json)
    requires keys != [] && In(keys[0], j) == Ok(true)
    ensures forall i :: FirstAbsentAt(keys, j, i) <==> 0 < i && FirstAbsentAt(keys[1..], j, i - 1)
  {
    forall i | 0 < i < |keys|
      ensures FirstAbsentAt(keys, j, i) <==> FirstAbsentAt(keys[1..], j, i - 1)
    {
      if FirstAbsentAt(keys[1..], j, i - 1) {
        forall k | 0 <= k < i ensures In(keys[k], j) == Ok(true) {
          if k > 0 { assert keys[k] == keys[1..][k - 1]; }
        }
      }
    }
  }

  /** Colour `c` of a mode section is present and an oklch() string. */
  predicate GoodColor(c: string, modeVars: Json) {
    modeVars.Obj? && c in modeVars.fields && IsOklch(modeVars.fields[c])
  }

  /** `colors[i]` is the first colour that a mode dict lacks or holds in another format. */
  predicate FirstBadColorAt(colors: seq<string>, modeVars: Json, i: int) {
    && modeVars.Obj?
    && 0 <= i < |colors|
    && !GoodColor(colors[i], modeVars)
    && forall k :: 0 <= k < i ==> GoodColor(colors[k], modeVars)
  }

  /** The error a mode dict's bad colour gets: missing, or present in another format. */
  function ColorProblem(c: string, mode: string, modeVars: Json): ThemeDataProblem {
    if modeVars.Obj? && c in modeVars.fields then InvalidColorFormat(c, mode) else MissingColor(c, mode)
  }

  /** The colour checks of one mode: present, then an oklch() string, colour by colour. */
  function CheckModeColors(colors: seq<string>, mode: string, modeVars: Json): (r: Result<(), ServiceError>)
    ensures r.Ok? <==> colors == [] || (modeVars.Obj? && forall c :: c in colors ==> GoodColor(c, modeVars))
    ensures r.Err? && r.error.InvalidThemeData? ==>
      r.error.problem.MissingColor? || r.error.problem.InvalidColorFormat?
    ensures forall i :: FirstBadColorAt(colors, modeVars, i) ==>
      r == Err(InvalidThemeData(ColorProblem(colors[i], mode, modeVars)))
  {
    if colors == [] then Ok(())
    else match In(colors[0], modeVars)
      case Err(e) => Err(Escaped(e))
      case Ok(false) =>
        assert !GoodColor(colors[0], modeVars) && colors[0] in colors;
        Err(InvalidThemeData(MissingColor(colors[0], mode)))
      case Ok(true) =>
        match Subscript(modeVars, KStr(colors[0]))
        case Err(e) => Err(Escaped(e))
        case Ok(v) =>
          if !IsOklch(v) then Err(InvalidThemeData(InvalidColorFormat(colors[0], mode)))
          else
            var rest := CheckModeColors(colors[1..], mode, modeVars);
            assert modeVars.Obj?;
            FirstBadColorShift(colors, modeVars);
            rest
  }

  /** Past a good first colour, the first bad colour of `colors` is that of `colors[1..]`, one place on. */
  lemma FirstBadColorShift(colors: seq<string>, modeVars: Json)
    requires colors != [] && GoodColor(colors[0], modeVars)
    ensures forall i :: FirstBadColorAt(colors, modeVars, i) <==> 0 < i && FirstBadColorAt(colors[1..], modeVars, i - 1)
  {
    forall i | 0 < i < |colors|
      ensures FirstBadColorAt(colors, modeVars, i) <==> FirstBadColorAt(colors[1..], modeVars, i - 1)
    {
      if FirstBadColorAt(colors[1..], modeVars, i - 1) {
        forall k | 0 <= k < i ensures GoodColor(colors[k], modeVars) {
          if k > 0 { assert colors[k] == colors[1..][k - 1]; }
        }
      }
    }
  }

  /**
   * _validate_theme_data: the first missing field, then the first missing css section, then
   * for light and then dark each colour's presence and oklch() format.
   */
  function ValidateThemeData(d: Json): (r: Result<(), ServiceError>)
    ensures r.Ok? <==> ValidGeneratedTheme(d)
    ensures d.Obj? && (exists f :: f in RequiredFields && f !in d.fields) ==>
      r.Err? && r.error.InvalidThemeData? && r.error.problem.MissingField?
    ensures forall i :: FirstAbsentAt(RequiredFields, d, i) ==> r == Err(InvalidThemeData(MissingField(RequiredFields[i])))
    ensures r.Err? && r.error.InvalidThemeData? && r.error.problem.MissingField? ==>
      exists i :: FirstAbsentAt(RequiredFields, d, i) && RequiredFields[i] == r.error.problem.field
    ensures HasRequiredFields(d) ==> forall i :: FirstAbsentAt(RequiredSections, d.fields["css_vars"], i) ==>
      r == Err(InvalidThemeData(MissingCssSection(RequiredSections[i])))
    ensures HasRequiredSections(d) ==> forall i :: FirstBadColorAt(RequiredColors, d.fields["css_vars"].fields["light"], i) ==>
      r == Err(InvalidThemeData(ColorProblem(RequiredColors[i], "light", d.fields["css_vars"].fields["light"])))
    ensures HasRequiredSections(d) && OklchColors(d.fields["css_vars"].fields["light"]) ==>
      forall i :: FirstBadColorAt(RequiredColors, d.fields["css_vars"].fields["dark"], i) ==>
        r == Err(InvalidThemeData(ColorProblem(RequiredColors[i], "dark", d.fields["css_vars"].fields["dark"])))
  {
    match FirstAbsent(RequiredFields, d)
    case Err(e) => Err(Escaped(e))
    case Ok(Some(f)) => Err(InvalidThemeData(MissingField(f)))
    case Ok(None) =>
      match Subscript(d, KStr("css_vars"))
      case Err(e) => Err(Escaped(e))
      case Ok(cv) =>
        match FirstAbsent(RequiredSections, cv)
        case Err(e) => Err(Escaped(e))
        case Ok(Some(s)) => Err(InvalidThemeData(MissingCssSection(s)))
        case Ok(None) =>
          match GetOr(cv, "light", EmptyObj)
          case Err(e) => Err(Escaped(e))
          case Ok(light) =>
            var _ :- CheckModeColors(RequiredColors, "light", light);
            match GetOr(cv, "dark", EmptyObj)
            case Err(e) => Err(Escaped(e))
            case Ok(dark) => CheckModeColors(RequiredColors, "dark", dark)
  }

  /**
   * generate_theme: build the prompt, send it (the outcome is `response`, None for a failed
   * request), parse the completion, validate the theme; the first failure is raised.
   */
  method GenerateTheme(userPrompt: Option<string>, refs: ReferencedThemes, response: Option<Json>, loads: string -> Option<Json>) returns (r: Result<Json, ServiceError>)
    ensures userPrompt.None? ==> r == Err(PromptMissing)
    ensures userPrompt.Some? && response.None? ==> r == Err(RequestFailed)
    ensures userPrompt.Some? && response.Some? && ParsedTheme(response.value, loads).Err? ==>
      r == ParsedTheme(response.value, loads)
    ensures userPrompt.Some? && response.Some? && ParsedTheme(response.value, loads).Ok? ==>
      var d := ParsedTheme(response.value, loads).value;
      && (ValidateThemeData(d).Err? ==> r == Err(ValidateThemeData(d).error))
      && (ValidateThemeData(d).Ok? ==> r == Ok(d))
    ensures r.Ok? ==> ValidGeneratedTheme(r.value) && Normalised(r.value)
    ensures r.Ok? ==> r.value.fields["name"].Str? && AllNameChars(r.value.fields["name"].s)
  {
    var prompt := BuildThemePrompt(userPrompt, refs);
    if prompt.Err? {
      return Err(prompt.error);
    }
    if response.None? {
      return Err(RequestFailed);
    }
    var themeData := ParseAiResponse(response.value, loads);
    if themeData.Err? {
      return themeData;
    }
    var valid := ValidateThemeData(themeData.value);
    if valid.Err? {
      return Err(valid.error);
    }
    r := themeData;
  }
}
