/**
 Icon resolution rules of cola/icons.py: bundled icon names, theme lookup
 with a fallback, the classification of a file by its mime-type guess and
 its extension, the status icon of a file, and `mkicon`.
 */
module Icons {
  import opened Wrappers
  import opened PyText

  /** An icon handle: null, built from a resource or file name, or supplied by the desktop theme. */
  datatype IconHandle = NullIcon | FileIcon(name: string) | ThemeIcon(themeName: string)

  /** Mime substrings in the order they are tried, each with its icon. */
  const KnownFileMimeTypes: seq<(string, string)> := [
    ("text", "file-code.svg"),
    ("image", "file-media.svg"),
    ("octet", "file-binary.svg")
  ]

  /** Lower-case extensions (leading dot included) that have an icon of their own. */
  const KnownFileExtensions: map<string, string> := map[
    ".bash" := "file-code.svg",
    ".c" := "file-code.svg",
    ".cpp" := "file-code.svg",
    ".css" := "file-code.svg",
    ".cxx" := "file-code.svg",
    ".h" := "file-code.svg",
    ".hpp" := "file-code.svg",
    ".hs" := "file-code.svg",
    ".html" := "file-code.svg",
    ".java" := "file-code.svg",
    ".js" := "file-code.svg",
    ".ksh" := "file-code.svg",
    ".lisp" := "file-code.svg",
    ".perl" := "file-code.svg",
    ".pl" := "file-code.svg",
    ".py" := "file-code.svg",
    ".rb" := "file-code.svg",
    ".rs" := "file-code.svg",
    ".sh" := "file-code.svg",
    ".zsh" := "file-code.svg"
  ]

  /** The icon of a file that neither its mime type nor its extension classifies. */
  const DefaultFileIcon := "file-text.svg"

  /** Every value a filename classification can produce. */
  const FileIcons: set<string> := {"file-code.svg", "file-media.svg", "file-binary.svg", "file-text.svg"}

  const ResourcePrefix := "icons:"

  /** `name_from_basename`: the resource name of a bundled icon. */
  function NameFromBasename(basename: string): (name: string)
    ensures |name| == |ResourcePrefix| + |basename|
    ensures name[..|ResourcePrefix|] == ResourcePrefix && name[|ResourcePrefix|..] == basename
  {
    ResourcePrefix + basename
  }

  /** Different basenames never share a resource name. */
  lemma NameFromBasenameInjective(a: string, b: string)
    requires NameFromBasename(a) == NameFromBasename(b)
    ensures a == b
  {
    assert a == NameFromBasename(a)[|ResourcePrefix|..];
  }

  /** `from_name`: the icon loaded from a resource or file name (its memo cache is not modelled). */
  function FromName(name: string): (r: IconHandle)
    ensures r.FileIcon? && r.name == name
  {
    FileIcon(name)
  }

  /** Distinct names give distinct handles. */
  lemma FromNameInjective(a: string, b: string)
    requires FromName(a) == FromName(b)
    ensures a == b
  {
    assert FromName(a).name == a;
  }

  /** `icon`: the bundled icon with the given basename. */
  function Icon(basename: string): (r: IconHandle)
    ensures r != NullIcon
  {
    FromName(NameFromBasename(basename))
  }

  /** Different basenames give different bundled icons. */
  lemma IconInjective(a: string, b: string)
    requires Icon(a) == Icon(b)
    ensures a == b
  {
    FromNameInjective(NameFromBasename(a), NameFromBasename(b));
    NameFromBasenameInjective(a, b);
  }

  /** `icon(b)` is the icon loaded from `"icons:" + b`, and it is never null. */
  lemma IconResolvesPrefixedName(basename: string)
    ensures Icon(basename) == FromName("icons:" + basename)
    ensures Icon(basename) != NullIcon
  {
  }

  /** Python truthiness of an optional string: present and non-empty. */
  predicate Truthy(s: Option<string>)
  {
    s.Some? && s.value != ""
  }

  /** Python's `fallback or name` for an optional string. */
  function OrElse(fallback: Option<string>, name: string): string
  {
    if Truthy(fallback) then fallback.value else name
  }

  /**
   `from_theme(name, fallback)`. `hasFromTheme` says whether the toolkit
   offers theme lookup at all; `lookup` is the theme, which answers
   `NullIcon` for a name it does not have. Given a fallback icon, the
   toolkit's lookup answers that icon in place of a null one.
   */
  function FromTheme(hasFromTheme: bool, lookup: string -> IconHandle, name: string, fallback: Option<string>): (r: IconHandle)
    ensures r != NullIcon
    ensures hasFromTheme && lookup(Splitext(name).0) != NullIcon ==> r == lookup(Splitext(name).0)
    ensures !hasFromTheme || lookup(Splitext(name).0) == NullIcon ==>
      r == Icon(OrElse(fallback, name))
  {
    if hasFromTheme then
      var base := Splitext(name).0;
      var qicon :=
        if Truthy(fallback) then
          (var themed := lookup(base); if themed != NullIcon then themed else Icon(fallback.value))
        else lookup(base);
      if qicon != NullIcon then qicon
      else Icon(OrElse(fallback, name))
    else Icon(OrElse(fallback, name))
  }

  /** Entry `k` of `types` is the first whose substring occurs in `mime`. */
  ghost predicate FirstMatchAt(types: seq<(string, string)>, mime: string, k: int)
  {
    0 <= k < |types| && Contains(mime, types[k].0) &&
    forall j :: 0 <= j < k ==> !Contains(mime, types[j].0)
  }

  /** The icon of the first entry of `types` whose substring occurs in `mime` (the early-return loop). */
  function FirstMimeMatch(types: seq<(string, string)>, mime: string): (r: Option<string>)
    ensures r.None? <==> forall k :: 0 <= k < |types| ==> !Contains(mime, types[k].0)
    ensures r.Some? ==> exists k :: FirstMatchAt(types, mime, k) && r.value == types[k].1
  {
    if types == [] then None
    else if Contains(mime, types[0].0) then
      assert FirstMatchAt(types, mime, 0);
      Some(types[0].1)
    else
      var r := FirstMimeMatch(types[1..], mime);
      FirstMatchShift(types, mime, r);
      r
  }

  lemma FirstMatchShift(types: seq<(string, string)>, mime: string, r: Option<string>)
    requires types != [] && !Contains(mime, types[0].0)
    requires r.Some? ==> exists k :: FirstMatchAt(types[1..], mime, k) && r.value == types[1..][k].1
    ensures r.Some? ==> exists k :: FirstMatchAt(types, mime, k) && r.value == types[k].1
  {
    if r.Some? {
      var k :| FirstMatchAt(types[1..], mime, k) && r.value == types[1..][k].1;
      assert forall j :: 1 <= j < |types| ==> types[j] == types[1..][j - 1];
      assert FirstMatchAt(types, mime, k + 1);
    }
  }

  /** The icon the extension table gives, compared without regard to case. */
  function ExtensionIcon(extension: string): (r: string)
    ensures r in FileIcons
  {
    var key := Lower(extension);
    if key in KnownFileExtensions then KnownFileExtensions[key] else DefaultFileIcon
  }

  /** The icon the mime-type guess gives, if any of the known substrings occurs in its lower-case form. */
  function MimeIcon(mimetype: Option<string>): (r: Option<string>)
    ensures r.Some? ==> r.value in FileIcons
  {
    if mimetype.Some? then FirstMimeMatch(KnownFileMimeTypes, Lower(mimetype.value)) else None
  }

  /**
   `basename_from_filename`: `mimetype` is the mime-type guess for the file
   (the guess itself is not modelled). The mime guess decides when it
   matches; otherwise the extension does.
   */
  function BasenameFromFilename(filename: string, mimetype: Option<string>): (r: string)
    ensures r in FileIcons
  {
    var fromMime := MimeIcon(mimetype);
    if fromMime.Some? then fromMime.value
    else ExtensionIcon(Splitext(filename).1)
  }

  /** `from_filename`: the bundled icon of the file's kind. */
  function FromFilename(filename: string, mimetype: Option<string>): (r: IconHandle)
    ensures r.FileIcon? && |r.name| > |ResourcePrefix|
    ensures r.name[..|ResourcePrefix|] == ResourcePrefix && r.name[|ResourcePrefix|..] in FileIcons
  {
    FromName(NameFromBasename(BasenameFromFilename(filename, mimetype)))
  }

  /** A matching mime guess decides the icon whatever the filename. */
  lemma MimeOverridesExtension(f1: string, f2: string, mime: string)
    requires MimeIcon(Some(mime)).Some?
    ensures BasenameFromFilename(f1, Some(mime)) == BasenameFromFilename(f2, Some(mime))
  {
  }

  /** A mime guess naming an image, but not text, gives the media icon for any filename. */
  lemma ImageMimeGivesMediaIcon(filename: string, mime: string)
    requires Contains(Lower(mime), "image") && !Contains(Lower(mime), "text")
    ensures BasenameFromFilename(filename, Some(mime)) == "file-media.svg"
  {
    var types := KnownFileMimeTypes;
    var r := FirstMimeMatch(types, Lower(mime));
    assert types[0].0 == "text" && types[1].0 == "image";
    assert r.Some?;
    var k :| FirstMatchAt(types, Lower(mime), k) && r.value == types[k].1;
    assert k != 0 && !(k >= 2);
  }

  /** A mime guess naming text wins over every later entry, images included. */
  lemma TextMimeGivesCodeIcon(filename: string, mime: string)
    requires Contains(Lower(mime), "text")
    ensures BasenameFromFilename(filename, Some(mime)) == "file-code.svg"
  {
  }

  /** Without a matching mime guess the lower-cased extension is looked up, and unknown ones give the default. */
  lemma ExtensionFallback(filename: string, mimetype: Option<string>)
    requires MimeIcon(mimetype).None?
    ensures var key := Lower(Splitext(filename).1);
      BasenameFromFilename(filename, mimetype) ==
        if key in KnownFileExtensions then KnownFileExtensions[key] else DefaultFileIcon
  {
  }

  /** Filenames that differ only in letter case are classified alike. */
  lemma ClassificationIgnoresCase(f1: string, f2: string, mimetype: Option<string>)
    requires Lower(f1) == Lower(f2)
    ensures BasenameFromFilename(f1, mimetype) == BasenameFromFilename(f2, mimetype)
  {
    SplitextLower(f1);
    SplitextLower(f2);
    var e1, e2 := Splitext(f1).1, Splitext(f2).1;
    assert Lower(e1) == Splitext(Lower(f1)).1 == Lower(e2);
    ExtensionIconsAgree(e1, e2);
  }

  lemma ExtensionIconsAgree(e1: string, e2: string)
    requires Lower(e1) == Lower(e2)
    ensures ExtensionIcon(e1) == ExtensionIcon(e2)
  {
  }

  /** `.PY` and `.py` give the same icon; a name made of a leading dot and letters has no extension. */
  lemma ExtensionExamples()
    ensures BasenameFromFilename("main.PY", None) == BasenameFromFilename("main.py", None) == "file-code.svg"
    ensures BasenameFromFilename(".bash", None) == DefaultFileIcon
  {
    LowerPyIsCode();
    UpperPyIsCode();
    DotfileIsDefault();
  }

  lemma DotfileIsDefault()
    ensures BasenameFromFilename(".bash", None) == DefaultFileIcon
  {
    LeadingDotsAreNotExtension(".bash", 0, 1);
    NoExtensionIsDefault();
  }

  lemma NoExtensionIsDefault()
    ensures ExtensionIcon([]) == DefaultFileIcon
  {
    assert Lower([]) == [];
    assert [] !in KnownFileExtensions;
  }

  lemma LowerPyIsCode()
    ensures BasenameFromFilename("main.py", None) == "file-code.svg"
  {
    SplitextOfSimpleName("main", "py");
    assert "main" + "." + "py" == "main.py";
    PyExtensionIsCode();
  }

  lemma UpperPyIsCode()
    ensures BasenameFromFilename("main.PY", None) == "file-code.svg"
  {
    SplitextOfSimpleName("main", "PY");
    assert "main" + "." + "PY" == "main.PY";
    assert Lower(".PY") == ".py" == Lower(".py");
    ExtensionIconsAgree(".PY", ".py");
    PyExtensionIsCode();
  }

  lemma PyExtensionIsCode()
    ensures ExtensionIcon(".py") == "file-code.svg"
  {
    assert Lower(".py") == ".py";
    assert ".py" in KnownFileExtensions;
  }

  /** A name without dots or slashes followed by one extension splits at that dot. */
  lemma SplitextOfSimpleName(stem: string, ext: string)
    requires stem != [] && '.' !in stem && '/' !in stem
    requires '.' !in ext && '/' !in ext
    ensures Splitext(stem + "." + ext) == (stem, "." + ext)
  {
    var p := stem + "." + ext;
    assert p[|stem|] == '.';
    assert forall k :: 0 <= k < |stem| ==> p[k] == stem[k];
    assert forall k :: |stem| < k < |p| ==> p[k] == ext[k - |stem| - 1];
    assert RFind(p, '/') == -1;
    assert RFind(p, '.') == |stem|;
    assert p[0] != '.';
    assert HasNonDot(p, 0, |stem|);
    assert p[..|stem|] == stem;
    assert p[|stem|..] == "." + ext;
  }

  /** Bundled icons `status` can choose besides the filename classification. */
  const DeletedIcon := "circle-slash-red.svg"
  const StagedIcon := "staged.svg"
  const UntrackedIcon := "question-plain.svg"

  /** `status`: the status icon of a file, deleted before staged before untracked before the file's own kind. */
  function Status(filename: string, mimetype: Option<string>, deleted: bool, isStaged: bool, untracked: bool): (r: string)
    ensures r in FileIcons + {DeletedIcon, StagedIcon, UntrackedIcon}
  {
    if deleted then DeletedIcon
    else if isStaged then StagedIcon
    else if untracked then UntrackedIcon
    else BasenameFromFilename(filename, mimetype)
  }

  /** Each status icon is shown exactly when its flag holds and no earlier one does; otherwise the file's kind decides. */
  lemma StatusPrecedence(filename: string, mimetype: Option<string>, deleted: bool, isStaged: bool, untracked: bool)
    ensures var r := Status(filename, mimetype, deleted, isStaged, untracked);
      && (r == DeletedIcon <==> deleted)
      && (r == StagedIcon <==> !deleted && isStaged)
      && (r == UntrackedIcon <==> !deleted && !isStaged && untracked)
      && (r in FileIcons <==> !deleted && !isStaged && !untracked)
      && (r in FileIcons ==> r == BasenameFromFilename(filename, mimetype))
  {
    var b := BasenameFromFilename(filename, mimetype);
    assert b in FileIcons;
  }

  /** The Python values `mkicon` can be given. */
  datatype PyValue = PyNone | PyStr(s: string) | PyIcon(icon: IconHandle) | PyObject(id: int)

  /**
   `mkicon(value, default)`: `None` with a default becomes what the default
   callable returns, a non-empty string becomes the icon loaded from it, and
   anything else is returned as it is.
   */
  function MkIcon(value: PyValue, default: Option<() -> PyValue>): (r: PyValue)
    ensures value == PyNone && default.Some? ==> r == default.value()
    ensures value.PyStr? && value.s != "" ==> r == PyIcon(FileIcon(value.s))
    ensures !(value == PyNone && default.Some?) && !(value.PyStr? && value.s != "") ==> r == value
  {
    if value == PyNone && default.Some? then default.value()
    else if value.PyStr? && value.s != "" then PyIcon(FileIcon(value.s))
    else value
  }

  /** Without a default, `mkicon` is idempotent: it never returns a non-empty string. */
  lemma MkIconIdempotent(value: PyValue)
    ensures MkIcon(MkIcon(value, None), None) == MkIcon(value, None)
  {
  }
}
