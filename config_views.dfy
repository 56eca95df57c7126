/**
 * The site-level views: the page context of the single-page app, the list of animated
 * backgrounds derived from the SVG files on disk, and the checks and file naming of the
 * image upload. Directory listings, file contents, the random file name and the outcome
 * of writing the upload are parameters.
 */
module ConfigViews {
  import opened Wrappers
  import opened Text
  import opened PyJson
  import opened Sorting

  // ----- IndexView -----

  /** The manifest file of the built frontend: absent, not JSON, or its decoded content. */
  datatype ManifestFile = NoManifest | Undecodable | Manifest(content: Json)

  /** The template context: the asset names are None when the view does not set them. */
  datatype IndexContext = IndexContext(debug: bool, mainJs: Option<Json>, mainCss: Option<string>)

  /** Why rendering the page raises: the manifest is not JSON, or a lookup in it fails. */
  datatype PageError = ManifestUnreadable | LookupError(error: PyError)

  const DefaultMainJs := "index.js"
  const MainCss := "index.css"

  /**
   * IndexView.get_context_data: nothing is looked up in debug mode; otherwise the script is
   * the manifest's `index.html` entry's `file`, defaulting to index.js, and the stylesheet
   * is always index.css.
   */
  function IndexContextFor(debug: bool, manifest: ManifestFile): (r: Result<IndexContext, PageError>)
    ensures debug ==> r == Ok(IndexContext(true, None, None))
    ensures !debug && manifest.NoManifest? ==> r == Ok(IndexContext(false, Some(Str(DefaultMainJs)), Some(MainCss)))
    ensures !debug && manifest.Undecodable? ==> r == Err(ManifestUnreadable)
    ensures r.Ok? && !debug ==> r.value.mainCss == Some(MainCss) && r.value.mainJs.Some? && !r.value.debug
    ensures !debug && manifest.Manifest? && manifest.content.Obj? ==>
      var m := manifest.content.fields;
      && ("index.html" !in m ==> r == Ok(IndexContext(false, Some(Str(DefaultMainJs)), Some(MainCss))))
      && ("index.html" in m && m["index.html"].Obj? ==>
            r.Ok? && r.value.mainJs == Some(if "file" in m["index.html"].fields then m["index.html"].fields["file"]
                                            else Str(DefaultMainJs)))
    ensures !debug && manifest.Manifest? && !manifest.content.Obj? ==> r == Err(LookupError(AttributeError))
  {
    if debug then Ok(IndexContext(true, None, None))
    else match manifest
      case NoManifest => Ok(IndexContext(false, Some(Str(DefaultMainJs)), Some(MainCss)))
      case Undecodable => Err(ManifestUnreadable)
      case Manifest(content) =>
        match GetOr(content, "index.html", EmptyObj)
        case Err(e) => Err(LookupError(e))
        case Ok(entry) =>
          match GetOr(entry, "file", Str(DefaultMainJs))
          case Err(e) => Err(LookupError(e))
          case Ok(file) => Ok(IndexContext(false, Some(file), Some(MainCss)))
  }

  // ----- list_available_backgrounds -----

  /** One entry of the background list. */
  datatype Background = Background(value: string, labelText: string)

  /** What the `*.svg` glob matches: a name ending in ".svg" that does not start with a dot. */
  predicate IsSvgName(f: string) {
    |f| >= 4 && f[|f| - 4..] == ".svg" && f[0] != '.'
  }

  /** `os.path.splitext(name)[0]` for a matched name: the name without ".svg". */
  function Stem(f: string): (r: string)
    requires IsSvgName(f)
    ensures r + ".svg" == f
  {
    f[..|f| - 4]
  }

  /** `stem.replace('_', ' ').replace('-', ' ')`. */
  function Spaced(stem: string): (r: string)
    ensures |r| == |stem|
    ensures forall i :: 0 <= i < |stem| ==> r[i] == if stem[i] == '_' || stem[i] == '-' then ' ' else stem[i]
  {
    ReplaceAllChar(stem, '_', ' ');
    ReplaceAllChar(ReplaceAll(stem, "_", " "), '-', ' ');
    ReplaceAll(ReplaceAll(stem, "_", " "), "-", " ")
  }

  /** `stem.replace('_', ' ').replace('-', ' ').title()`. */
  function Label(stem: string): (r: string)
    ensures |r| == |stem|
    ensures forall i :: 0 <= i < |r| ==> r[i] != '_' && r[i] != '-'
    ensures forall i :: 0 <= i < |stem| && (stem[i] == '_' || stem[i] == '-') ==> r[i] == ' '
    ensures forall i :: 0 <= i < |stem| && stem[i] != '_' && stem[i] != '-' ==> LowerChar(r[i]) == LowerChar(stem[i])
  {
    var spaced := Spaced(stem);
    TitleCaseOnly(spaced);
    Title(spaced)
  }

  function BackgroundOf(f: string): (r: Background)
    requires IsSvgName(f)
    ensures r.value + ".svg" == f && r.labelText == Label(r.value)
  {
    Background(Stem(f), Label(Stem(f)))
  }

  function LabelOf(b: Background): string { b.labelText }

  /** The entries for the matched names of `names`, in listing order. */
  function Entries(names: seq<string>): seq<Background> {
    if names == [] then []
    else
      var last := names[|names| - 1];
      Entries(names[..|names| - 1]) + (if IsSvgName(last) then [BackgroundOf(last)] else [])
  }

  /** The entries are exactly the backgrounds of the matched names. */
  lemma {:induction false} EntriesMembers(names: seq<string>)
    ensures forall b :: b in Entries(names) ==> exists j :: 0 <= j < |names| && IsSvgName(names[j]) && b == BackgroundOf(names[j])
    ensures forall j :: 0 <= j < |names| && IsSvgName(names[j]) ==> BackgroundOf(names[j]) in Entries(names)
  {
    if names != [] {
      var init := names[..|names| - 1];
      EntriesMembers(init);
      forall b | b in Entries(names)
        ensures exists j :: 0 <= j < |names| && IsSvgName(names[j]) && b == BackgroundOf(names[j])
      {
        if b in Entries(init) {
          var j :| 0 <= j < |init| && IsSvgName(init[j]) && b == BackgroundOf(init[j]);
          assert names[j] == init[j];
        }
      }
      forall j | 0 <= j < |names| && IsSvgName(names[j]) ensures BackgroundOf(names[j]) in Entries(names) {
        if j < |init| { assert init[j] == names[j]; }
      }
    }
  }

  /** The response list: nothing without the directory, else the entries sorted by label. */
  function Backgrounds(directoryExists: bool, names: seq<string>): seq<Background> {
    if directoryExists then SortBy(Entries(names), LabelOf) else []
  }

  /**
   * The list is ordered by label, names each matched file once by its stem with the derived
   * label, and names nothing else.
   */
  lemma BackgroundsListed(directoryExists: bool, names: seq<string>)
    ensures var r := Backgrounds(directoryExists, names);
      && SortedBy(r, LabelOf)
      && (!directoryExists ==> r == [])
      && (forall b :: b in r ==> exists j :: 0 <= j < |names| && IsSvgName(names[j]) && b.value + ".svg" == names[j] && b.labelText == Label(b.value))
      && (directoryExists ==> forall j :: 0 <= j < |names| && IsSvgName(names[j]) ==> BackgroundOf(names[j]) in r)
      && (directoryExists ==> multiset(r) == multiset(Entries(names)))
  {
    EntriesMembers(names);
    var r := Backgrounds(directoryExists, names);
    forall b | b in r
      ensures exists j :: 0 <= j < |names| && IsSvgName(names[j]) && b.value + ".svg" == names[j] && b.labelText == Label(b.value)
    {
      assert b in Entries(names);
      var j :| 0 <= j < |names| && IsSvgName(names[j]) && b == BackgroundOf(names[j]);
    }
  }

  /** list_available_backgrounds: the directory walk, then the sort by label. */
  method ListAvailableBackgrounds(directoryExists: bool, names: seq<string>) returns (r: seq<Background>)
    ensures r == Backgrounds(directoryExists, names)
  {
    var found: seq<Background> := [];
    if directoryExists {
      for i := 0 to |names|
        invariant found == Entries(names[..i])
      {
        assert names[..i + 1][..i] == names[..i];
        if IsSvgName(names[i]) {
          found := found + [BackgroundOf(names[i])];
        }
      }
      assert names[..|names|] == names;
    }
    r := SortBy(found, LabelOf);
  }

  // ----- ImageUploadView -----

  /** An uploaded file as the request carries it. */
  datatype ImageFile = ImageFile(name: string, size: nat, contentType: Option<string>)

  /** The upload reply: a refusal with its status and message, or the stored file. */
  datatype UploadReply = Refused(status: nat, error: string) | Uploaded(url: string, filename: string, size: nat)

  const MaxUploadBytes: nat := 5 * 1024 * 1024
  const NoImageMessage := "No image file provided"
  const TooLargeMessage := "File size exceeds 5MB limit"
  const NotImageMessage := "File must be an image"
  const SaveFailedPrefix := "Failed to save file: "
  const UploadUrlPrefix := "/static/uploads/"
  const DefaultExtension := "jpg"

  /** The declared type is present, non-empty and an image type. */
  predicate IsImageType(contentType: Option<string>) {
    contentType.Some? && contentType.value != [] && StartsWith(contentType.value, "image/")
  }

  /** `s.split('.')[-1]`: the text after the last dot, or all of `s` when it has none. */
  function AfterLastDot(s: string): (r: string)
    ensures '.' !in r
    ensures |r| <= |s| && r == s[|s| - |r|..]
    ensures '.' in s ==> |r| < |s| && s[|s| - |r| - 1] == '.'
    ensures '.' !in s ==> r == s
  {
    if s == [] then []
    else if s[|s| - 1] == '.' then []
    else
      var r := AfterLastDot(s[..|s| - 1]);
      assert '.' in s ==> '.' in s[..|s| - 1] by {
        if '.' in s { var k :| 0 <= k < |s| && s[k] == '.'; assert s[..|s| - 1][k] == '.'; }
      }
      r + [s[|s| - 1]]
  }

  /** The stored extension: the lower-cased text after the last dot, or jpg for a name without one. */
  function Extension(name: string): (r: string)
    ensures '.' !in r
    ensures '.' !in name ==> r == DefaultExtension
    ensures '.' in name ==> r == Lower(AfterLastDot(name))
  {
    if '.' in name then
      var e := AfterLastDot(name);
      assert forall i :: 0 <= i < |e| ==> Lower(e)[i] != '.' by {
        forall i | 0 <= i < |e| ensures Lower(e)[i] != '.' { assert e[i] != '.'; }
      }
      Lower(e)
    else DefaultExtension
  }

  /**
   * ImageUploadView.post: the checks in order, then the file stored under `hex` (the random
   * hex name) with the extension. `saveError` is the text of the exception writing the
   * file raised, if it did.
   */
  function UploadImage(image: Option<ImageFile>, hex: string, saveError: Option<string>): (r: UploadReply)
    ensures image.None? ==> r == Refused(400, NoImageMessage)
    ensures image.Some? && image.value.size > MaxUploadBytes ==> r == Refused(400, TooLargeMessage)
    ensures image.Some? && image.value.size <= MaxUploadBytes && !IsImageType(image.value.contentType) ==>
      r == Refused(400, NotImageMessage)
    ensures r.Uploaded? <==>
      image.Some? && image.value.size <= MaxUploadBytes && IsImageType(image.value.contentType) && saveError.None?
    ensures r.Uploaded? ==>
      && r.filename == hex + "." + Extension(image.value.name)
      && r.url == UploadUrlPrefix + r.filename
      && r.size == image.value.size
    ensures image.Some? && image.value.size <= MaxUploadBytes && IsImageType(image.value.contentType) && saveError.Some? ==>
      r == Refused(500, SaveFailedPrefix + saveError.value)
  {
    match image
    case None => Refused(400, NoImageMessage)
    case Some(file) =>
      if file.size > MaxUploadBytes then Refused(400, TooLargeMessage)
      else if !IsImageType(file.contentType) then Refused(400, NotImageMessage)
      else
        var filename := hex + "." + Extension(file.name);
        match saveError
        case Some(e) => Refused(500, SaveFailedPrefix + e)
        case None => Uploaded(UploadUrlPrefix + filename, filename, file.size)
  }

  /** The text after the last dot of `a + "." + b` is `b` when `b` has no dot. */
  lemma {:induction false} AfterLastDotOfJoin(a: string, b: string)
    requires '.' !in b
    ensures AfterLastDot(a + "." + b) == b
  {
    if b != [] {
      var s := a + "." + b;
      var init, last := b[..|b| - 1], b[|b| - 1];
      assert last in b;
      assert s[|s| - 1] == last;
      assert s[..|s| - 1] == a + "." + init;
      assert forall x :: x in init ==> x in b;
      AfterLastDotOfJoin(a, init);
      assert AfterLastDot(s) == AfterLastDot(a + "." + init) + [last];
      assert init + [last] == b;
    } else {
      assert (a + "." + b)[|a + "." + b| - 1] == '.';
    }
  }

  /**
   * A stored upload keeps the extension it was stored under: the file name the view
   * returns has the same extension when a dot-free hex name is used, and exactly 5 MiB
   * is still accepted.
   */
  lemma UploadKeepsExtension(name: string, hex: string, contentType: string)
    requires '.' !in hex
    requires StartsWith(contentType, "image/")
    ensures var r := UploadImage(Some(ImageFile(name, MaxUploadBytes, Some(contentType))), hex, None);
      r.Uploaded? && Extension(r.filename) == Extension(name)
  {
    var e := Extension(name);
    AfterLastDotOfJoin(hex, e);
    var filename := hex + "." + e;
    assert filename[|hex|] == '.';
    assert Lower(e) == e by {
      forall i | 0 <= i < |e| ensures Lower(e)[i] == e[i] {
        if '.' in name { assert e[i] == LowerChar(AfterLastDot(name)[i]); }
      }
    }
  }
}
