/**
 * Classification of files by extension (`file_organizer.py`): the default
 * table `FILE_CATEGORIES`, the user's custom table, and the lookup that
 * decides a file's category from its lower-cased suffix.
 */
module Categories {
  import opened Wrappers
  import opened Paths

  /** A Python dict from category name to extension list, in insertion order. */
  type Table = seq<(string, seq<string>)>

  /** The category of every extension that no table lists. */
  const Miscellaneous := "Miscellaneous"

  /** `FILE_CATEGORIES`, in declaration order. */
  const FileCategories: Table := [
    ("Images", [".jpg", ".jpeg", ".png", ".gif", ".bmp", ".tiff", ".svg", ".webp", ".ico"]),
    ("Documents", [".pdf", ".doc", ".docx", ".txt", ".rtf", ".odt", ".pages"]),
    ("Spreadsheets", [".xls", ".xlsx", ".csv", ".ods"]),
    ("Presentations", [".ppt", ".pptx", ".odp", ".key"]),
    ("Videos", [".mp4", ".avi", ".mkv", ".mov", ".wmv", ".flv", ".webm", ".m4v"]),
    ("Audio", [".mp3", ".wav", ".flac", ".aac", ".ogg", ".wma", ".m4a"]),
    ("Archives", [".zip", ".rar", ".7z", ".tar", ".gz", ".bz2"]),
    ("Code", [".py", ".js", ".html", ".css", ".java", ".cpp", ".c", ".php", ".rb", ".go"]),
    ("Executables", [".exe", ".msi", ".dmg", ".pkg", ".deb", ".rpm"])
  ]

  predicate StartsWithDot(s: string) {
    |s| >= 1 && s[0] == '.'
  }

  /** The keys of a dict are pairwise distinct. */
  ghost predicate DistinctKeys(t: Table) {
    forall i, j :: 0 <= i < j < |t| ==> t[i].0 != t[j].0
  }

  /** The extensions as `add_custom_category` stores them: each one that
      lacks a leading dot gets one, the others are kept as given. */
  function NormalizeExtensions(exts: seq<string>): (r: seq<string>)
    ensures |r| == |exts|
    ensures forall i :: 0 <= i < |r| ==> StartsWithDot(r[i])
    ensures forall i :: 0 <= i < |r| ==> StartsWithDot(exts[i]) ==> r[i] == exts[i]
    ensures forall i :: 0 <= i < |r| ==> !StartsWithDot(exts[i]) ==> r[i] == "." + exts[i]
  {
    seq(|exts|, i requires 0 <= i < |exts| => if StartsWithDot(exts[i]) then exts[i] else "." + exts[i])
  }

  /** Normalizing twice is normalizing once. */
  lemma NormalizeIdempotent(exts: seq<string>)
    ensures NormalizeExtensions(NormalizeExtensions(exts)) == NormalizeExtensions(exts)
  {
  }

  /** Where key `k` sits in `t`, or -1. */
  function KeyIndex(t: Table, k: string): (i: int)
    ensures -1 <= i < |t|
    ensures i >= 0 ==> t[i].0 == k
    ensures i < 0 ==> forall j :: 0 <= j < |t| ==> t[j].0 != k
    decreases |t|
  {
    if t == [] then -1
    else if t[|t| - 1].0 == k then |t| - 1
    else KeyIndex(t[..|t| - 1], k)
  }

  /** `t[k]`, or None when `k` is not a key. */
  function Lookup(t: Table, k: string): (r: Option<seq<string>>)
    ensures r.None? <==> forall j :: 0 <= j < |t| ==> t[j].0 != k
  {
    var i := KeyIndex(t, k);
    if i < 0 then None else Some(t[i].1)
  }

  /** `t[k] = v`: an existing key keeps its place, a new one goes last. */
  function Assign(t: Table, k: string, v: seq<string>): (r: Table)
    ensures DistinctKeys(t) ==> DistinctKeys(r)
    ensures |t| <= |r| <= |t| + 1
    ensures forall j :: 0 <= j < |t| ==> r[j].0 == t[j].0
  {
    var i := KeyIndex(t, k);
    if i >= 0 then t[i := (k, v)] else t + [(k, v)]
  }

  /** Reading back an assignment: the assigned key yields the new value and
      every other key what it had before. */
  lemma {:induction false} AssignLookup(t: Table, k: string, v: seq<string>, other: string)
    requires DistinctKeys(t)
    ensures Lookup(Assign(t, k, v), k) == Some(v)
    ensures other != k ==> Lookup(Assign(t, k, v), other) == Lookup(t, other)
  {
    var r := Assign(t, k, v);
    KeyIndexDistinct(r, k, KeyIndex(r, k), if KeyIndex(t, k) >= 0 then KeyIndex(t, k) else |t|);
    if other != k {
      var i := KeyIndex(t, other);
      if i >= 0 {
        KeyIndexDistinct(r, other, KeyIndex(r, other), i);
      }
    }
  }

  /** With distinct keys, a key has only one place. */
  lemma KeyIndexDistinct(t: Table, k: string, i: int, j: int)
    requires DistinctKeys(t)
    requires 0 <= j < |t| && t[j].0 == k && i == KeyIndex(t, k)
    ensures i == j
  {
  }

  /** Some category of `t` lists `ext`. */
  ghost predicate Listed(t: Table, ext: string) {
    exists i :: 0 <= i < |t| && ext in t[i].1
  }

  /** `c` is the first category of `t`, in order, whose list holds `ext`. */
  ghost predicate FirstListing(t: Table, ext: string, c: string) {
    exists i :: 0 <= i < |t| && t[i].0 == c && ext in t[i].1
                && forall j :: 0 <= j < i ==> ext !in t[j].1
  }

  /** The first index from `k` on whose list holds `ext`, or -1. */
  function MatchFrom(t: Table, ext: string, k: nat): (i: int)
    requires k <= |t|
    ensures i == -1 || k <= i < |t|
    ensures i >= 0 ==> ext in t[i].1 && forall j :: k <= j < i ==> ext !in t[j].1
    ensures i < 0 ==> forall j :: k <= j < |t| ==> ext !in t[j].1
    decreases |t| - k
  {
    if k == |t| then -1
    else if ext in t[k].1 then k
    else MatchFrom(t, ext, k + 1)
  }

  /** The `for category, extensions in table.items()` search: the first
      category listing `ext`, if any. */
  function FirstMatch(t: Table, ext: string): Option<string> {
    var i := MatchFrom(t, ext, 0);
    if i < 0 then None else Some(t[i].0)
  }

  /** The search finds nothing exactly when no category lists `ext`, and
      otherwise the first category that does. */
  lemma FirstMatchSpec(t: Table, ext: string)
    ensures FirstMatch(t, ext).None? <==> !Listed(t, ext)
    ensures FirstMatch(t, ext).Some? ==> FirstListing(t, ext, FirstMatch(t, ext).value)
  {
    var i := MatchFrom(t, ext, 0);
    if i >= 0 {
      assert t[i].0 == FirstMatch(t, ext).value && ext in t[i].1;
    }
  }

  /** `file_path.suffix.lower()` */
  function Extension(p: Path): string {
    Lower(Suffix(NameOf(p)))
  }

  /** `get_file_category`, with the default table `defaults` (the class's
      `FILE_CATEGORIES`). */
  function GetFileCategory(custom: Table, defaults: Table, p: Path): string {
    match FirstMatch(custom, Extension(p))
    case Some(c) => c
    case None =>
      match FirstMatch(defaults, Extension(p))
      case Some(c) => c
      case None => Miscellaneous
  }

  /** The classification of a file organizer with custom table `custom`
      and default table `defaults`, as a function value. */
  function Classifier(custom: Table, defaults: Table): Path -> string {
    p => GetFileCategory(custom, defaults, p)
  }

  /**
   * The category of a file is the first custom category listing its
   * lower-cased suffix; failing that the first default one; failing that
   * Miscellaneous.
   */
  lemma GetFileCategorySpec(custom: Table, defaults: Table, p: Path)
    ensures Listed(custom, Extension(p)) ==>
              FirstListing(custom, Extension(p), GetFileCategory(custom, defaults, p))
    ensures !Listed(custom, Extension(p)) && Listed(defaults, Extension(p)) ==>
              FirstListing(defaults, Extension(p), GetFileCategory(custom, defaults, p))
    ensures !Listed(custom, Extension(p)) && !Listed(defaults, Extension(p)) ==>
              GetFileCategory(custom, defaults, p) == Miscellaneous
  {
    FirstMatchSpec(custom, Extension(p));
    FirstMatchSpec(defaults, Extension(p));
  }

  predicate IsUpper(c: char) {
    'A' <= c <= 'Z'
  }

  /** A custom extension is stored as given, so one that holds an upper-case
      letter is never matched: every looked-up extension is lower-cased. */
  lemma UpperCaseNeverMatches(ext: string, p: Path, i: nat)
    requires i < |ext| && IsUpper(ext[i])
    ensures Extension(p) != ext
  {
    LowerHasNoUpper(Suffix(NameOf(p)), ext, i);
  }

  /** No lower-cased string holds an upper-case letter. */
  lemma LowerHasNoUpper(x: string, ext: string, i: nat)
    requires i < |ext| && IsUpper(ext[i])
    ensures Lower(x) != ext
  {
    if i < |x| {
      assert !IsUpper(Lower(x)[i]);
    }
  }

  /** The suffix of `stem + ext` is `ext` when `ext` is a dot and at least
      one character with no further dot, and `stem` is not empty. */
  lemma SuffixOfConcat(stem: string, ext: string)
    requires |stem| >= 1 && |ext| >= 2 && ext[0] == '.' && '.' !in ext[1..]
    ensures Suffix(stem + ext) == ext
  {
    var tail := ext[1..];
    assert stem + ext == (stem + ['.']) + tail;
    NoDot(tail);
    RFindConcat(stem + ['.'], tail, '.');
  }

  /** `ext` is in no list of default category `k`; checked entry by entry on
      the length and the two characters after the dot. */
  lemma NotListedIn(ext: string, k: nat)
    requires k < |FileCategories|
    requires forall e :: e in FileCategories[k].1 ==>
               |e| != |ext| || e[1] != ext[1] || (|e| > 2 && e[2] != ext[2])
    ensures ext !in FileCategories[k].1
  {
  }

  /** Worked example: a default extension written in upper case is found
      in lower case. */
  lemma UpperCaseDefault()
    ensures GetFileCategory([], FileCategories, Child(Root, "photo1.JPG")) == "Images"
  {
    SuffixOfConcat("photo1", ".JPG");
    assert "photo1" + ".JPG" == "photo1.JPG";
    assert Lower(".JPG") == ".jpg";
    assert MatchFrom(FileCategories, ".jpg", 0) == 0;
  }

  /** Worked example: a custom category takes precedence over a default one. */
  lemma CustomOverridesDefault()
    ensures GetFileCategory([("Photos", [".jpg"])], FileCategories, Child(Root, "photo1.jpg")) == "Photos"
  {
    SuffixOfConcat("photo1", ".jpg");
    assert "photo1" + ".jpg" == "photo1.jpg";
    assert Lower(".jpg") == ".jpg";
  }

  /** Worked example: a custom extension written in lower case also matches
      a file whose suffix is in upper case. */
  lemma CustomMatchesUpperCaseFile()
    ensures GetFileCategory([("Photos", [".jpg"])], FileCategories, Child(Root, "PHOTO.JPG")) == "Photos"
  {
    SuffixOfConcat("PHOTO", ".JPG");
    assert "PHOTO" + ".JPG" == "PHOTO.JPG";
    assert Lower(".JPG") == ".jpg";
  }

  /** Worked example: `.gz` is first listed by the Archives category. */
  lemma GzIsArchive()
    ensures MatchFrom(FileCategories, ".gz", 0) == 6
  {
    GzAt(0); GzAt(1); GzAt(2); GzAt(3); GzAt(4); GzAt(5);
    assert ".gz" in FileCategories[6].1;
  }

  lemma GzAt(k: nat)
    requires k < 6
    ensures ".gz" !in FileCategories[k].1
  {
    NotListedIn(".gz", k);
  }

  /** Worked example: only the last dot counts, so a `.tar.gz` archive is
      classified by `.gz`. */
  lemma LastSuffixDecides()
    ensures GetFileCategory([], FileCategories, Child(Root, "archive.tar.gz")) == "Archives"
  {
    SuffixOfConcat("archive.tar", ".gz");
    assert "archive.tar" + ".gz" == "archive.tar.gz";
    assert Lower(".gz") == ".gz";
    GzIsArchive();
  }

  /** Worked example of the last case of `GetFileCategorySpec`: a file
      ending in `.xyz` is Miscellaneous under any custom table that does
      not list `.xyz`, since no default category lists it. */
  lemma UnknownIsMiscellaneous(custom: Table, dir: Path, stem: string)
    requires |stem| >= 1
    requires forall i :: 0 <= i < |custom| ==> ".xyz" !in custom[i].1
    ensures GetFileCategory(custom, FileCategories, Child(dir, stem + ".xyz")) == Miscellaneous
  {
    SuffixOfConcat(stem, ".xyz");
    assert Lower(".xyz") == ".xyz";
    XyzUnlisted();
  }

  /** Worked example: `.xyz` is listed by no default category. */
  lemma XyzUnlisted()
    ensures MatchFrom(FileCategories, ".xyz", 0) == -1
  {
    XyzAt(0); XyzAt(1); XyzAt(2); XyzAt(3); XyzAt(4); XyzAt(5); XyzAt(6); XyzAt(7); XyzAt(8);
  }

  lemma XyzAt(k: nat)
    requires k < |FileCategories|
    ensures ".xyz" !in FileCategories[k].1
  {
    NotListedIn(".xyz", k);
  }
}
