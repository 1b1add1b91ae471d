/**
 * The processing script itself: the folders it creates, the bundles it
 * walks in sorted order, the entries it extracts from each bundle and moves
 * under their new names, and the clean-up after each bundle.
 *
 * The file system is a value: the regular files (each holding the archive
 * entry it was extracted from) and the directories. Every operation of
 * `os`, `shutil` and `rarfile` that the script uses is a function from one
 * such value to the next. The exceptions modelled are an `Err`, and each
 * ends the run; extraction and moving are total and never raise.
 */
module Processing {
  import opened Wrappers
  import opened Text
  import opened Paths
  import opened Params
  import opened Naming

  /** The contents of an extracted file: which archive, and which entry of it. */
  datatype Member = Member(archive: string, name: string)

  datatype Tree = Tree(files: map<string, Member>, dirs: set<string>)

  // ---------------------------------------------------------------------------
  // File-system operations

  /** `os.path.exists`. */
  predicate Exists(t: Tree, p: string) {
    p in t.files || p in t.dirs
  }

  /** Something is stored below the directory `p`. */
  predicate HasChildren(t: Tree, p: string) {
    (exists q | q in t.files :: StartsWith(q, p + "/")) || (exists q | q in t.dirs :: StartsWith(q, p + "/"))
  }

  /** `os.makedirs(p, exist_ok=True)`: fails only over a regular file. */
  function MakeDirs(t: Tree, p: string): (r: Result<Tree>)
    ensures r.Err? <==> p in t.files
    ensures r.Err? ==> r.error == FileExists(p)
    ensures r.Ok? ==> r.value.files == t.files && r.value.dirs == t.dirs + {p}
  {
    if p in t.files then Err(FileExists(p)) else Ok(Tree(t.files, t.dirs + {p}))
  }

  /** `rf.extract(entry, folder)` once the destination path is known: the file appears there, inside its folder. */
  function Extract(t: Tree, path: string, m: Member): (r: Tree)
    ensures path in r.files && r.files[path] == m
    ensures forall q :: q != path ==> (q in r.files <==> q in t.files)
    ensures forall q | q in t.files && q != path :: r.files[q] == t.files[q]
  {
    Tree(t.files[path := m], t.dirs + {Dirname(path)})
  }

  /** `shutil.move(src, dst)` of a regular file, as a POSIX rename: `dst` is replaced. */
  function Move(t: Tree, src: string, dst: string): (r: Tree)
    requires src in t.files
    ensures dst in r.files && r.files[dst] == t.files[src]
    ensures src != dst ==> src !in r.files
    ensures forall q :: q != src && q != dst ==> (q in r.files <==> q in t.files)
    ensures forall q | q in t.files && q != src && q != dst :: r.files[q] == t.files[q]
    ensures r.dirs == t.dirs
  {
    Tree((t.files - {src})[dst := t.files[src]], t.dirs)
  }

  /** `os.remove(p)` on something that exists: a directory raises. */
  function Remove(t: Tree, p: string): (r: Result<Tree>)
    ensures r.Ok? <==> p in t.files
    ensures r.Ok? ==> r.value.files == t.files - {p} && r.value.dirs == t.dirs
    ensures r.Err? ==> r.error == IsADirectory(p)
  {
    if p in t.files then Ok(Tree(t.files - {p}, t.dirs)) else Err(IsADirectory(p))
  }

  /** `os.rmdir(p)` on something that exists: a regular file or a non-empty directory raises. */
  function Rmdir(t: Tree, p: string): (r: Result<Tree>)
    ensures r.Ok? <==> p !in t.files && !HasChildren(t, p)
    ensures r.Ok? ==> r.value.files == t.files && r.value.dirs == t.dirs - {p}
    ensures r.Err? ==> r.error == NotADirectory(p) || r.error == NotEmpty(p)
  {
    if p in t.files then Err(NotADirectory(p))
    else if HasChildren(t, p) then Err(NotEmpty(p))
    else Ok(Tree(t.files, t.dirs - {p}))
  }

  // ---------------------------------------------------------------------------
  // One entry of a bundle

  /**
   * What the script carries from one step to the next: the file system and
   * the last paths a `.csv` and a `.xlsx` entry were extracted to (the
   * variables `csv_file_path` and `xlsx_file_path`, which outlive the loop
   * and the bundle that assigned them).
   */
  datatype State = State(tree: Tree, lastCsv: Option<string>, lastXlsx: Option<string>)

  /** The year folders of a bundle. */
  function FilesYear(root: string, year: string): string { Join(RawFilesPath(root), year) }
  function DictionariesYear(root: string, year: string): string { Join(RawDictionariesPath(root), year) }

  /** Where an entry is extracted to: the data-file or the dictionary year folder, by extension. */
  function Source(fy: string, dy: string, e: string): string {
    if Classify(e) == XlsxEntry then Join(dy, e) else Join(fy, e)
  }

  /**
   * Where an entry ends up: nowhere for an entry that is neither `.csv` nor
   * `.xlsx`, its new name inside the same year folder otherwise, or the
   * error that renaming raises.
   */
  function Target(fy: string, dy: string, e: string): (r: Result<Option<string>>)
    ensures r == Ok(None) <==> Classify(e) == OtherEntry
    ensures r.Err? ==> Classify(e) != OtherEntry
  {
    match Classify(e)
    case OtherEntry => Ok(None)
    case CsvEntry =>
      (match CsvNewName(Join(fy, e))
       case Ok(n) => Ok(Some(Join(fy, n)))
       case Err(err) => Err(err))
    case XlsxEntry =>
      (match XlsxNewName(Join(dy, e))
       case Ok(n) => Ok(Some(Join(dy, n)))
       case Err(err) => Err(err))
  }

  /** The body of the loop over `rf.namelist()`, for entry `e` of archive `a`. */
  function Step(s: State, fy: string, dy: string, a: string, e: string): Result<State> {
    match Classify(e)
    case OtherEntry => Ok(s)
    case CsvEntry =>
      var p := Join(fy, e);
      var t := Extract(s.tree, p, Member(a, e));
      (match CsvNewName(p)
       case Ok(n) => Ok(State(Move(t, p, Join(fy, n)), Some(p), s.lastXlsx))
       case Err(err) => Err(err))
    case XlsxEntry =>
      var p := Join(dy, e);
      var t := Extract(s.tree, p, Member(a, e));
      (match XlsxNewName(p)
       case Ok(n) => Ok(State(Move(t, p, Join(dy, n)), s.lastCsv, Some(p)))
       case Err(err) => Err(err))
  }

  /** The entry loop, entry by entry; the first error ends it. */
  function Entries(s: State, fy: string, dy: string, a: string, names: seq<string>): Result<State>
    decreases |names|
  {
    if names == [] then Ok(s)
    else
      match Entries(s, fy, dy, a, names[..|names| - 1])
      case Err(err) => Err(err)
      case Ok(s') => Step(s', fy, dy, a, names[|names| - 1])
  }

  /** A failed prefix of the entry loop is the failure of the whole loop. */
  lemma {:induction false} EntriesFailureSticks(s: State, fy: string, dy: string, a: string, names: seq<string>, i: nat)
    requires i <= |names|
    requires Entries(s, fy, dy, a, names[..i]).Err?
    ensures Entries(s, fy, dy, a, names) == Entries(s, fy, dy, a, names[..i])
    decreases |names| - i
  {
    if i < |names| {
      var longer := names[..i + 1];
      assert longer[..i] == names[..i];
      EntriesFailureSticks(s, fy, dy, a, names, i + 1);
    } else {
      assert names[..i] == names;
    }
  }

  /** `for file in rf.namelist(): ...`, step by step. */
  method ProcessEntries(s: State, fy: string, dy: string, a: string, names: seq<string>) returns (r: Result<State>)
    ensures r == Entries(s, fy, dy, a, names)
  {
    var current := s;
    var i := 0;
    while i < |names|
      invariant 0 <= i <= |names|
      invariant Entries(s, fy, dy, a, names[..i]) == Ok(current)
    {
      var next := Step(current, fy, dy, a, names[i]);
      assert names[..i + 1][..i] == names[..i];
      if next.Err? {
        EntriesFailureSticks(s, fy, dy, a, names, i + 1);
        return next;
      }
      current := next.value;
      i := i + 1;
    }
    assert names[..i] == names;
    return Ok(current);
  }

  // ---------------------------------------------------------------------------
  // Clean-up and one bundle

  /**
   * The clean-up after a bundle for one of the two path variables: if the
   * folder of the last extracted path exists, the path itself is removed if
   * still present, and the folder is removed unless it is named like the
   * year. A variable that was never assigned raises `NameError`.
   */
  function Cleanup(t: Tree, year: string, last: Option<string>, variable: string): Result<Tree> {
    match last
    case None => Err(NameError(variable))
    case Some(p) =>
      var d := Dirname(p);
      if !Exists(t, d) then Ok(t)
      else
        match (if Exists(t, p) then Remove(t, p) else Ok(t))
        case Err(err) => Err(err)
        case Ok(t') => if year != Basename(d) then Rmdir(t', d) else Ok(t')
  }

  /**
   * One iteration of the loop over the archives: the year, the data-file
   * year folder, the archive opened from the archive folder (`archives`
   * gives the entry list of every readable archive, keyed by its path), the
   * entry loop, and the clean-up of the csv and then the xlsx path.
   */
  function Bundle(s: State, root: string, archives: map<string, seq<string>>, rar: string): Result<State> {
    match Year(rar)
    case Err(err) => Err(err)
    case Ok(year) =>
      var fy, dy := FilesYear(root, year), DictionariesYear(root, year);
      match MakeDirs(s.tree, fy)
      case Err(err) => Err(err)
      case Ok(t) =>
        var path := Join(RawRarPath(root), rar);
        if path !in archives then Err(CannotOpen(path))
        else
          match Entries(State(t, s.lastCsv, s.lastXlsx), fy, dy, rar, archives[path])
          case Err(err) => Err(err)
          case Ok(s') =>
            match Cleanup(s'.tree, year, s'.lastCsv, "csv_file_path")
            case Err(err) => Err(err)
            case Ok(t') =>
              match Cleanup(t', year, s'.lastXlsx, "xlsx_file_path")
              case Err(err) => Err(err)
              case Ok(t'') => Ok(State(t'', s'.lastCsv, s'.lastXlsx))
  }

  /** The loop over the archives, archive by archive; the first error ends it. */
  function Bundles(s: State, root: string, archives: map<string, seq<string>>, rars: seq<string>): Result<State>
    decreases |rars|
  {
    if rars == [] then Ok(s)
    else
      match Bundles(s, root, archives, rars[..|rars| - 1])
      case Err(err) => Err(err)
      case Ok(s') => Bundle(s', root, archives, rars[|rars| - 1])
  }

  /**
   * The whole script: create the two output roots, select the archives from
   * the listing of the archive folder, and process them in order.
   */
  function RunSpec(t: Tree, root: string, listing: seq<string>, archives: map<string, seq<string>>): Result<Tree> {
    match MakeDirs(t, RawFilesPath(root))
    case Err(err) => Err(err)
    case Ok(t1) =>
      match MakeDirs(t1, RawDictionariesPath(root))
      case Err(err) => Err(err)
      case Ok(t2) =>
        match Bundles(State(t2, None, None), root, archives, SelectArchives(listing))
        case Err(err) => Err(err)
        case Ok(s) => Ok(s.tree)
  }

  lemma {:induction false} BundlesFailureSticks(s: State, root: string, archives: map<string, seq<string>>, rars: seq<string>, i: nat)
    requires i <= |rars|
    requires Bundles(s, root, archives, rars[..i]).Err?
    ensures Bundles(s, root, archives, rars) == Bundles(s, root, archives, rars[..i])
    decreases |rars| - i
  {
    if i < |rars| {
      var longer := rars[..i + 1];
      assert longer[..i] == rars[..i];
      BundlesFailureSticks(s, root, archives, rars, i + 1);
    } else {
      assert rars[..i] == rars;
    }
  }

  /** One more archive: the loop state after `i + 1` archives follows from the state after `i`. */
  lemma BundlesNext(s: State, root: string, archives: map<string, seq<string>>, rars: seq<string>, i: nat, current: State)
    requires i < |rars|
    requires Bundles(s, root, archives, rars[..i]) == Ok(current)
    ensures Bundles(s, root, archives, rars[..i + 1]) == Bundle(current, root, archives, rars[i])
  {
    assert rars[..i + 1][..i] == rars[..i];
  }

  /** The loop over the selected archives, in order; the first error ends it. */
  method ProcessArchives(start: State, root: string, archives: map<string, seq<string>>, rars: seq<string>) returns (r: Result<State>)
    ensures r == Bundles(start, root, archives, rars)
  {
    var current := start;
    var i := 0;
    while i < |rars|
      invariant 0 <= i <= |rars|
      invariant Bundles(start, root, archives, rars[..i]) == Ok(current)
    {
      var next := Bundle(current, root, archives, rars[i]);
      BundlesNext(start, root, archives, rars, i, current);
      if next.Err? {
        BundlesFailureSticks(start, root, archives, rars, i + 1);
        return Err(next.error);
      }
      current := next.value;
      i := i + 1;
    }
    assert rars[..i] == rars;
    return Ok(current);
  }

  /** The script, statement by statement. */
  method Run(t: Tree, root: string, listing: seq<string>, archives: map<string, seq<string>>) returns (r: Result<Tree>)
    ensures r == RunSpec(t, root, listing, archives)
  {
    var made := MakeDirs(t, RawFilesPath(root));
    if made.Err? {
      return Err(made.error);
    }
    made := MakeDirs(made.value, RawDictionariesPath(root));
    if made.Err? {
      return Err(made.error);
    }
    var processed := ProcessArchives(State(made.value, None, None), root, archives, SelectArchives(listing));
    if processed.Err? {
      return Err(processed.error);
    }
    return Ok(processed.value.tree);
  }
}
