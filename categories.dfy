/**
 * The classification part of the organizer: the fixed extension sets, the
 * if/elif chain shared by the three sort strategies, the year text, the
 * target directory each strategy builds, and the per-file dispatch of
 * `process_directory`.
 */
module Categories {
  import opened Wrappers
  import opened Strings
  import opened Paths
  import opened Filters

  datatype Category = Photos | Videos | Audio | Text | Logs | Scripts | Executables | Other

  /** The directory name of each category. */
  function Name(c: Category): (n: string)
    ensures PlainComponent(n)
  {
    match c
    case Photos => "Photos"
    case Videos => "Videos"
    case Audio => "Audio"
    case Text => "Text"
    case Logs => "Logs"
    case Scripts => "Scripts"
    case Executables => "Executables"
    case Other => "Other"
  }

  const PhotoExtensions: set<string> := {".jpg", ".jpeg", ".png", ".gif", ".bmp", ".tiff", ".tif"}
  const VideoExtensions: set<string> := {".mp4", ".avi", ".mov", ".wmv", ".mkv", ".flv"}
  const AudioExtensions: set<string> := {".mp3", ".wav", ".flac", ".aac", ".ogg"}
  const TextExtensions: set<string> := {".txt", ".md", ".rtf", ".doc", ".docx"}
  const LogExtensions: set<string> := {".log"}
  const ScriptExtensions: set<string> := {".py", ".bat", ".sh", ".js", ".ps1"}
  const ExeExtensions: set<string> := {".exe"}
  const ZipExtensions: set<string> := {".zip"}

  /** The fixed extension set of a category; `Other` has none of its own. */
  function Extensions(c: Category): (exts: set<string>)
  {
    match c
    case Photos => PhotoExtensions
    case Videos => VideoExtensions
    case Audio => AudioExtensions
    case Text => TextExtensions
    case Logs => LogExtensions
    case Scripts => ScriptExtensions
    case Executables => ExeExtensions
    case Other => {}
  }

  /** The if/elif chain of the three sort strategies, on a lower-cased extension. */
  function Classify(ext: string): (c: Category)
    ensures c != Other ==> ext in Extensions(c)
    ensures c == Other <==> forall d: Category :: ext !in Extensions(d)
  {
    if ext in PhotoExtensions then Photos
    else if ext in VideoExtensions then Videos
    else if ext in AudioExtensions then Audio
    else if ext in TextExtensions then Text
    else if ext in LogExtensions then Logs
    else if ext in ScriptExtensions then Scripts
    else if ext in ExeExtensions then Executables
    else Other
  }

  /** No extension belongs to two fixed categories, nor is any of them the archive extension. */
  lemma ExtensionSetsDisjoint(c: Category, d: Category)
    requires c != d
    ensures Extensions(c) !! Extensions(d)
    ensures Extensions(c) !! ZipExtensions
  {
  }

  /**
   * Because the sets are disjoint, the order of the chain does not matter:
   * an extension lands in a fixed category exactly when it is in that
   * category's set.
   */
  lemma ClassifyExact(ext: string, c: Category)
    requires c != Other
    ensures Classify(ext) == c <==> ext in Extensions(c)
  {
    if ext in Extensions(c) && Classify(ext) != c {
      ExtensionSetsDisjoint(c, Classify(ext));
    }
  }

  // ---------------------------------------------------------------------
  // Years
  // ---------------------------------------------------------------------

  /**
   * `get_photo_year`: the text of the `EXIF DateTimeOriginal` tag up to its
   * first ':' when the tag is there (`None` stands for no tag as well as for
   * a file that could not be read), otherwise the modification year.
   */
  function PhotoYear(dateTag: Option<string>, mtimeYear: nat): (y: string)
    ensures dateTag.Some? ==> ':' !in y && IsPrefixOf(y, dateTag.value)
                              && (|y| == |dateTag.value| || dateTag.value[|y|] == ':')
    ensures dateTag.None? ==> y == FileYear(mtimeYear)
  {
    match dateTag
    case Some(text) => FirstField(text, ':')
    case None => FileYear(mtimeYear)
  }

  predicate IsPrefixOf(a: string, b: string)
  {
    |a| <= |b| && b[..|a|] == a
  }

  /** `get_file_year`: `str(tm_year)`, the modification year as decimal text. */
  function FileYear(mtimeYear: nat): (y: string)
    ensures AllDigits(y) && DecValue(y) == mtimeYear
    ensures |y| >= 1 && (|y| > 1 ==> y[0] != '0')
    ensures PlainComponent(y)
  {
    DecRoundTrip(mtimeYear);
    var y := Dec(mtimeYear);
    assert IsDigit(y[0]);
    assert forall i :: 0 <= i < |y| ==> y[i] != '/';
    y
  }

  /** The year text is the only digit string without a leading zero that reads as the year. */
  lemma FileYearUnique(y: string, mtimeYear: nat)
    requires |y| >= 1 && AllDigits(y) && (|y| > 1 ==> y[0] != '0')
    requires DecValue(y) == mtimeYear
    ensures y == FileYear(mtimeYear)
  {
    DecCanonical(y);
  }

  // ---------------------------------------------------------------------
  // The three strategies
  // ---------------------------------------------------------------------

  /** Every user category name stays inside the output base when joined to it. */
  predicate CategoriesConfined(filters: Filters)
  {
    forall i :: 0 <= i < |filters| ==> Confined(filters[i].category)
  }

  /** `process_file_by_type`: `os.path.join(base, <Category>)`. */
  function ByTypeTarget(base: Path, fileName: string): (dir: Path)
    ensures dir == base + [Name(Classify(ExtOf(fileName)))]
    ensures ExtOf(fileName) in PhotoExtensions ==> dir == base + ["Photos"]
    ensures (forall c: Category :: ExtOf(fileName) !in Extensions(c)) ==> dir == base + ["Other"]
  {
    var c := Classify(ExtOf(fileName));
    JoinPlain(base, Name(c));
    JoinText(base, Name(c))
  }

  /**
   * `process_file_by_year`: `os.path.join(base, <Category>, year)`, where only
   * a photo consults its capture date. The EXIF text is joined as it is, so
   * a '/' in it, a ".." piece or a leading '/' moves the target elsewhere.
   */
  function ByYearTarget(base: Path, fileName: string, dateTag: Option<string>, mtimeYear: nat): (dir: Path)
    ensures ExtOf(fileName) !in PhotoExtensions
            ==> dir == base + [Name(Classify(ExtOf(fileName))), FileYear(mtimeYear)]
    ensures ExtOf(fileName) in PhotoExtensions
            ==> dir == JoinText(base + ["Photos"], PhotoYear(dateTag, mtimeYear))
    ensures ExtOf(fileName) in PhotoExtensions && PlainComponent(PhotoYear(dateTag, mtimeYear))
            ==> dir == base + ["Photos", PhotoYear(dateTag, mtimeYear)]
    ensures Confined(PhotoYear(dateTag, mtimeYear)) ==> IsStrictAncestor(base, dir)
  {
    var c := Classify(ExtOf(fileName));
    var year := PhotoYear(dateTag, mtimeYear);
    JoinBelowChild(base, "Photos", year);
    if c == Photos then JoinText(base + ["Photos"], year)
    else
      JoinBelowChild(base, Name(c), FileYear(mtimeYear));
      base + [Name(c), FileYear(mtimeYear)]
  }

  /**
   * The category directory name of `process_file_by_custom`: a fixed
   * category always wins; otherwise the first user category (in the order
   * entered) whose set holds the extension; otherwise "Other".
   */
  function CustomCategory(ext: string, filters: Filters): (name: string)
    ensures Classify(ext) != Other ==> name == Name(Classify(ext))
    ensures Classify(ext) == Other && FirstMatch(filters, ext) < |filters|
            ==> name == filters[FirstMatch(filters, ext)].category
    ensures Classify(ext) == Other && (forall i :: 0 <= i < |filters| ==> ext !in filters[i].extensions)
            ==> name == "Other"
    ensures CategoriesConfined(filters) ==> Confined(name)
  {
    var c := Classify(ext);
    if c != Other then
      JoinPlain([], Name(c));
      Name(c)
    else
      var i := FirstMatch(filters, ext);
      if i < |filters| then filters[i].category
      else
        JoinPlain([], Name(Other));
        Name(Other)
  }

  /**
   * `process_file_by_custom`: `os.path.join(base, category, year)`, every
   * category (photos and "Other" included) taking the modification year.
   * A user category name is joined as it is.
   */
  function ByCustomTarget(base: Path, fileName: string, filters: Filters, mtimeYear: nat): (dir: Path)
    ensures dir == JoinText(base, CustomCategory(ExtOf(fileName), filters)) + [FileYear(mtimeYear)]
    ensures PlainComponent(CustomCategory(ExtOf(fileName), filters))
            ==> dir == base + [CustomCategory(ExtOf(fileName), filters), FileYear(mtimeYear)]
    ensures Confined(CustomCategory(ExtOf(fileName), filters)) ==> IsStrictAncestor(base, dir)
  {
    var category := CustomCategory(ExtOf(fileName), filters);
    JoinThenName(base, category, FileYear(mtimeYear));
    JoinText(base, category) + [FileYear(mtimeYear)]
  }

  /**
   * An extension of a fixed category goes to that category in custom mode
   * even when a user category lists it too.
   */
  lemma FixedCategoryPrecedence(base: Path, fileName: string, filters: Filters, mtimeYear: nat, c: Category)
    requires c != Other && ExtOf(fileName) in Extensions(c)
    ensures ByCustomTarget(base, fileName, filters, mtimeYear) == base + [Name(c), FileYear(mtimeYear)]
  {
    ClassifyExact(ExtOf(fileName), c);
  }

  // ---------------------------------------------------------------------
  // Dispatch
  // ---------------------------------------------------------------------

  /** What `process_directory` does with one file. */
  datatype Action = ExpandArchive | MoveTo(dir: Path) | Ignore

  /**
   * The `if ... elif` of `process_directory` for a file named `fileName`:
   * an archive is expanded whatever the method; otherwise method "1", "2"
   * or "3" (the last only with a non-empty table) gives the target
   * directory, and any other case leaves the file alone. The target lies
   * strictly below the output base when no user category name and, under
   * method "1", no EXIF year text can lead out of it.
   */
  function Dispatch(fileName: string, sortMethod: string, filters: Filters, base: Path,
                    dateTag: Option<string>, mtimeYear: nat): (a: Action)
    ensures a == ExpandArchive <==> ExtOf(fileName) in ZipExtensions
    ensures a == Ignore <==> (&& ExtOf(fileName) !in ZipExtensions
                              && sortMethod != "1" && sortMethod != "2"
                              && (sortMethod != "3" || filters == []))
    ensures ExtOf(fileName) !in ZipExtensions && sortMethod == "1"
            ==> a == MoveTo(ByYearTarget(base, fileName, dateTag, mtimeYear))
    ensures ExtOf(fileName) !in ZipExtensions && sortMethod == "2"
            ==> a == MoveTo(ByTypeTarget(base, fileName))
    ensures ExtOf(fileName) !in ZipExtensions && sortMethod == "3" && filters != []
            ==> a == MoveTo(ByCustomTarget(base, fileName, filters, mtimeYear))
    ensures a.MoveTo? && (sortMethod == "1" ==> Confined(PhotoYear(dateTag, mtimeYear))) && CategoriesConfined(filters)
            ==> IsStrictAncestor(base, a.dir)
  {
    var ext := ExtOf(fileName);
    if ext in ZipExtensions then ExpandArchive
    else if sortMethod == "1" then MoveTo(ByYearTarget(base, fileName, dateTag, mtimeYear))
    else if sortMethod == "2" then MoveTo(ByTypeTarget(base, fileName))
    else if sortMethod == "3" && filters != [] then MoveTo(ByCustomTarget(base, fileName, filters, mtimeYear))
    else Ignore
  }

  /**
   * The file name's extension, not the whole path's, decides: a file whose
   * lower-cased extension is ".zip" is never classified, under any method.
   */
  lemma ArchiveNeverClassified(fileName: string, sortMethod: string, filters: Filters, base: Path,
                               dateTag: Option<string>, mtimeYear: nat)
    requires Lower(SplitExt(fileName).1) == ".zip"
    ensures !Dispatch(fileName, sortMethod, filters, base, dateTag, mtimeYear).MoveTo?
  {
  }

  // ---------------------------------------------------------------------
  // Targets outside the output base
  // ---------------------------------------------------------------------

  /**
   * Method "1" with a photo whose `DateTimeOriginal` text is "/tmp/x": the
   * absolute text replaces everything before it, and the photo is moved to
   * `/tmp/x`, outside the output base `<root>/Organized`.
   */
  lemma ExifTagEscapesOutput(root: Path, fileName: string, mtimeYear: nat)
    requires ExtOf(fileName) in PhotoExtensions
    ensures var base := root + ["Organized"];
            var dir := ByYearTarget(base, fileName, Some("/tmp/x"), mtimeYear);
            dir == ["tmp", "x"] && !IsPrefix(base, dir)
  {
    var base := root + ["Organized"];
    AbsoluteTagYear(mtimeYear);
    AbsoluteTextExample(base + ["Photos"]);
    var dir := ByYearTarget(base, fileName, Some("/tmp/x"), mtimeYear);
    assert dir == ["tmp", "x"];
    assert base[|base| - 1] == "Organized";
    assert |base| > |dir| || dir[|base| - 1] != base[|base| - 1];
  }

  lemma AbsoluteTagYear(mtimeYear: nat)
    ensures PhotoYear(Some("/tmp/x"), mtimeYear) == "/tmp/x"
  {
    FirstFieldOfFree("/tmp/x", [], ':');
    assert "/tmp/x" + [] == "/tmp/x";
  }

  lemma AbsoluteTextExample(dir: Path)
    ensures JoinText(dir, "/tmp/x") == ["tmp", "x"]
  {
    SplitJoin(["", "tmp", "x"], '/');
    assert Join(["", "tmp", "x"], '/') == "/tmp/x";
    assert Descend([], ["", "tmp", "x"]) == Descend([], ["tmp", "x"]);
    assert Descend([], ["tmp", "x"]) == Descend(["tmp"], ["x"]);
  }

  /**
   * Method "3" with a user category named "../Out" that lists an extension
   * of no fixed category: such a file lands in `<root>/Out/<year>`, beside
   * the output base `<root>/Organized`, not inside it.
   */
  lemma UserCategoryEscapesOutput(root: Path, fileName: string, mtimeYear: nat)
    requires Classify(ExtOf(fileName)) == Other
    ensures var base := root + ["Organized"];
            var dir := ByCustomTarget(base, fileName, [Filter("../Out", {ExtOf(fileName)})], mtimeYear);
            dir == root + ["Out", FileYear(mtimeYear)] && !IsPrefix(base, dir)
  {
    var base := root + ["Organized"];
    var filters := [Filter("../Out", {ExtOf(fileName)})];
    EscapingCategoryChosen(ExtOf(fileName));
    ParentTextExample(root);
    CustomTargetThrough(base, fileName, filters, mtimeYear, "../Out", root + ["Out"]);
    SiblingOutside(root, "Organized", "Out", [FileYear(mtimeYear)]);
    assert ["Out"] + [FileYear(mtimeYear)] == ["Out", FileYear(mtimeYear)];
  }

  lemma CustomTargetThrough(base: Path, fileName: string, filters: Filters, mtimeYear: nat, category: string, to: Path)
    requires CustomCategory(ExtOf(fileName), filters) == category
    requires JoinText(base, category) == to
    ensures ByCustomTarget(base, fileName, filters, mtimeYear) == to + [FileYear(mtimeYear)]
  {
  }

  /** A path through a sibling of `root + [a]` is not below it. */
  lemma SiblingOutside(root: Path, a: string, b: string, rest: Path)
    requires a != b
    ensures (root + [b]) + rest == root + ([b] + rest)
    ensures !IsPrefix(root + [a], root + ([b] + rest))
  {
    var p := root + ([b] + rest);
    assert p[|root|] == b && (root + [a])[|root|] == a;
  }

  lemma EscapingCategoryChosen(ext: string)
    requires Classify(ext) == Other
    ensures CustomCategory(ext, [Filter("../Out", {ext})]) == "../Out"
  {
    assert FirstMatch([Filter("../Out", {ext})], ext) == 0;
  }

  lemma ParentTextExample(root: Path)
    ensures JoinText(root + ["Organized"], "../Out") == root + ["Out"]
  {
    SplitJoin(["..", "Out"], '/');
    assert Join(["..", "Out"], '/') == "../Out";
    assert (root + ["Organized"])[..|root|] == root;
    assert Descend(root + ["Organized"], ["..", "Out"]) == Descend(root, ["Out"]);
  }
}
