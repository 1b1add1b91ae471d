/**
 * What the processing script leaves alone: every file and directory it
 * creates, moves or removes lies inside the databases folder, so the rest of
 * the tree, and in particular the folder of archives it reads, is the same
 * after a successful run as before it.
 */
module Confinement {
  import opened Wrappers
  import opened Text
  import opened Paths
  import opened Params
  import opened Naming
  import opened Processing
  import opened Placement

  /** `t` and `t'` agree on everything that does not start with `base`. */
  ghost predicate SameOutside(t: Tree, t': Tree, base: string) {
    && (forall q | !StartsWith(q, base) :: (q in t.files <==> q in t'.files))
    && (forall q | q in t.files && !StartsWith(q, base) :: t'.files[q] == t.files[q])
    && (forall q | !StartsWith(q, base) :: (q in t.dirs <==> q in t'.dirs))
  }

  lemma SameOutsideTransitive(t1: Tree, t2: Tree, t3: Tree, base: string)
    requires SameOutside(t1, t2, base) && SameOutside(t2, t3, base)
    ensures SameOutside(t1, t3, base)
  {
  }

  /** An assigned path variable whose path and folder both start with `base`. */
  predicate PathInside(last: Option<string>, base: string) {
    last.Some? ==> StartsWith(last.value, base) && StartsWith(Dirname(last.value), base)
  }

  predicate LastsInside(s: State, base: string) {
    PathInside(s.lastCsv, base) && PathInside(s.lastXlsx, base)
  }

  /** The inside of the databases folder. */
  function Databases(root: string): (r: string)
    ensures r != [] && r[|r| - 1] == '/'
  {
    RawDatabasesPath(root) + "/"
  }

  // ---------------------------------------------------------------------------
  // The folders involved

  lemma InsideStarts(a: string, x: string)
    requires StartsWith(x, a + "/")
    ensures StartsWith(x, a)
  {
    assert x[..|a|] == x[..|a| + 1][..|a|];
  }

  /** The two output roots are proper paths inside the databases folder. */
  lemma OutputRootsInside(root: string)
    ensures Proper(RawFilesPath(root)) && Proper(RawDictionariesPath(root))
    ensures StartsWith(RawFilesPath(root), Databases(root))
    ensures StartsWith(RawDictionariesPath(root), Databases(root))
  {
    JoinProper(RawDemreOpenPath(root), DatabasesFolder);
    JoinProper(RawDatabasesPath(root), FilesFolder);
    JoinProper(RawDatabasesPath(root), DictionariesFolder);
    ChildInside(RawDatabasesPath(root), FilesFolder);
    ChildInside(RawDatabasesPath(root), DictionariesFolder);
  }

  /** The year folders lie strictly inside the output roots, hence inside the databases folder. */
  lemma YearFoldersInside(root: string, year: string)
    requires Relative(year)
    ensures StartsWith(FilesYear(root, year), RawFilesPath(root) + "/")
    ensures StartsWith(DictionariesYear(root, year), RawDictionariesPath(root) + "/")
    ensures StartsWith(FilesYear(root, year), Databases(root))
    ensures StartsWith(DictionariesYear(root, year), Databases(root))
  {
    OutputRootsInside(root);
    ChildInside(RawFilesPath(root), year);
    ChildInside(RawDictionariesPath(root), year);
    InsideStarts(RawFilesPath(root), FilesYear(root, year));
    InsideStarts(RawDictionariesPath(root), DictionariesYear(root, year));
    StartsWithTransitive(Databases(root), RawFilesPath(root), FilesYear(root, year));
    StartsWithTransitive(Databases(root), RawDictionariesPath(root), DictionariesYear(root, year));
  }

  /** A path joined below a year folder, and its folder, lie inside the databases folder. */
  lemma BelowYearFolder(root: string, year: string, x: string)
    requires Relative(year) && Relative(x)
    ensures var p := Join(FilesYear(root, year), x);
      StartsWith(p, Databases(root)) && StartsWith(Dirname(p), Databases(root))
    ensures var p := Join(DictionariesYear(root, year), x);
      StartsWith(p, Databases(root)) && StartsWith(Dirname(p), Databases(root))
  {
    OutputRootsInside(root);
    YearFoldersInside(root, year);
    BelowFolder(RawFilesPath(root), FilesYear(root, year), x, Databases(root));
    BelowFolder(RawDictionariesPath(root), DictionariesYear(root, year), x, Databases(root));
  }

  lemma BelowFolder(c: string, f: string, x: string, base: string)
    requires Proper(c) && StartsWith(c, base)
    requires StartsWith(f, c + "/") && Relative(x)
    ensures StartsWith(Join(f, x), base) && StartsWith(Dirname(Join(f, x)), base)
  {
    var p := Join(f, x);
    JoinExtends(f, x);
    StartsWithTransitive(c + "/", f, p);
    DirnameInside(c, p);
    InsideStarts(c, p);
    StartsWithTransitive(base, c, p);
    StartsWithTransitive(base, c, Dirname(p));
  }

  // ---------------------------------------------------------------------------
  // Each operation stays inside

  lemma ExtractMoveConfined(t: Tree, p: string, d: string, m: Member, base: string)
    requires StartsWith(p, base) && StartsWith(Dirname(p), base) && StartsWith(d, base)
    ensures SameOutside(t, Move(Extract(t, p, m), p, d), base)
  {
  }

  lemma MakeDirsConfined(t: Tree, p: string, base: string)
    requires StartsWith(p, base) && MakeDirs(t, p).Ok?
    ensures SameOutside(t, MakeDirs(t, p).value, base)
  {
  }

  lemma CleanupConfined(t: Tree, year: string, last: Option<string>, variable: string, base: string)
    requires PathInside(last, base) && Cleanup(t, year, last, variable).Ok?
    ensures SameOutside(t, Cleanup(t, year, last, variable).value, base)
  {
    CleanupEffect(t, year, last, variable);
    var t' := Cleanup(t, year, last, variable).value;
    ShrinkConfined(t, t', last.value, Dirname(last.value), base);
  }

  lemma ShrinkConfined(t: Tree, t': Tree, p: string, d: string, base: string)
    requires StartsWith(p, base) && StartsWith(d, base)
    requires t'.files == t.files || t'.files == t.files - {p}
    requires t'.dirs == t.dirs || t'.dirs == t.dirs - {d}
    ensures SameOutside(t, t', base)
  {
  }

  /** A step only writes below the year folders, and leaves the path variables there. */
  lemma StepConfined(s: State, root: string, year: string, a: string, e: string)
    requires Relative(year) && Relative(e)
    requires Step(s, FilesYear(root, year), DictionariesYear(root, year), a, e).Ok?
    ensures var s' := Step(s, FilesYear(root, year), DictionariesYear(root, year), a, e).value;
      && SameOutside(s.tree, s'.tree, Databases(root))
      && (LastsInside(s, Databases(root)) ==> LastsInside(s', Databases(root)))
  {
    var fy, dy := FilesYear(root, year), DictionariesYear(root, year);
    BelowYearFolder(root, year, e);
    if Classify(e) == CsvEntry {
      StepOfCsv(s, fy, dy, a, e);
      var n := CsvNewName(Join(fy, e)).value;
      CsvNameShape(n);
      assert n[0] in n;
      BelowYearFolder(root, year, n);
      ExtractMoveConfined(s.tree, Join(fy, e), Join(fy, n), Member(a, e), Databases(root));
    } else if Classify(e) == XlsxEntry {
      StepOfXlsx(s, fy, dy, a, e);
      var n := XlsxNewName(Join(dy, e)).value;
      DictionaryNameShape(n);
      assert n[0] in n;
      BelowYearFolder(root, year, n);
      ExtractMoveConfined(s.tree, Join(dy, e), Join(dy, n), Member(a, e), Databases(root));
    }
  }

  lemma {:induction false} EntriesConfined(s: State, root: string, year: string, a: string, names: seq<string>)
    requires Relative(year)
    requires forall e | e in names :: Relative(e)
    requires Entries(s, FilesYear(root, year), DictionariesYear(root, year), a, names).Ok?
    ensures var s' := Entries(s, FilesYear(root, year), DictionariesYear(root, year), a, names).value;
      && SameOutside(s.tree, s'.tree, Databases(root))
      && (LastsInside(s, Databases(root)) ==> LastsInside(s', Databases(root)))
    decreases |names|
  {
    var fy, dy := FilesYear(root, year), DictionariesYear(root, year);
    if names != [] {
      var init, e := names[..|names| - 1], names[|names| - 1];
      assert e in names;
      assert forall x | x in init :: x in names;
      EntriesConfined(s, root, year, a, init);
      var s1 := Entries(s, fy, dy, a, init).value;
      StepConfined(s1, root, year, a, e);
      SameOutsideTransitive(s.tree, s1.tree, Step(s1, fy, dy, a, e).value.tree, Databases(root));
    }
  }

  /** A bundle only writes inside the databases folder. */
  lemma BundleConfined(s: State, root: string, archives: map<string, seq<string>>, rar: string)
    requires '/' !in rar
    requires forall path | path in archives :: forall e | e in archives[path] :: Relative(e)
    requires LastsInside(s, Databases(root))
    requires Bundle(s, root, archives, rar).Ok?
    ensures var s' := Bundle(s, root, archives, rar).value;
      SameOutside(s.tree, s'.tree, Databases(root)) && LastsInside(s', Databases(root))
  {
    BundleStages(s, root, archives, rar);
    var year, names := Year(rar).value, archives[Join(RawRarPath(root), rar)];
    var fy, dy := FilesYear(root, year), DictionariesYear(root, year);
    var base := Databases(root);
    YearRelative(rar);
    YearFoldersInside(root, year);
    var t1 := MakeDirs(s.tree, fy).value;
    MakeDirsConfined(s.tree, fy, base);
    var s1 := State(t1, s.lastCsv, s.lastXlsx);
    var s2 := Entries(s1, fy, dy, rar, names).value;
    EntriesConfined(s1, root, year, rar, names);
    var t3 := Cleanup(s2.tree, year, s2.lastCsv, "csv_file_path").value;
    CleanupConfined(s2.tree, year, s2.lastCsv, "csv_file_path", base);
    var t4 := Cleanup(t3, year, s2.lastXlsx, "xlsx_file_path").value;
    CleanupConfined(t3, year, s2.lastXlsx, "xlsx_file_path", base);
    SameOutsideTransitive(s.tree, t1, s2.tree, base);
    SameOutsideTransitive(s.tree, s2.tree, t3, base);
    SameOutsideTransitive(s.tree, t3, t4, base);
  }

  lemma {:induction false} BundlesConfined(s: State, root: string, archives: map<string, seq<string>>, rars: seq<string>)
    requires forall rar | rar in rars :: '/' !in rar
    requires forall path | path in archives :: forall e | e in archives[path] :: Relative(e)
    requires LastsInside(s, Databases(root))
    requires Bundles(s, root, archives, rars).Ok?
    ensures var s' := Bundles(s, root, archives, rars).value;
      SameOutside(s.tree, s'.tree, Databases(root)) && LastsInside(s', Databases(root))
    decreases |rars|
  {
    if rars != [] {
      var init, rar := rars[..|rars| - 1], rars[|rars| - 1];
      assert rar in rars;
      assert forall x | x in init :: x in rars;
      BundlesConfined(s, root, archives, init);
      var s1 := Bundles(s, root, archives, init).value;
      BundleConfined(s1, root, archives, rar);
      SameOutsideTransitive(s.tree, s1.tree, Bundle(s1, root, archives, rar).value.tree, Databases(root));
    }
  }

  /**
   * A successful run changes nothing outside the databases folder, given a
   * listing of plain names and archives whose entries are relative paths.
   */
  lemma RunConfined(t: Tree, root: string, listing: seq<string>, archives: map<string, seq<string>>)
    requires forall n | n in listing :: '/' !in n
    requires forall path | path in archives :: forall e | e in archives[path] :: Relative(e)
    requires RunSpec(t, root, listing, archives).Ok?
    ensures SameOutside(t, RunSpec(t, root, listing, archives).value, Databases(root))
  {
    var base := Databases(root);
    OutputRootsInside(root);
    var t1 := MakeDirs(t, RawFilesPath(root)).value;
    var t2 := MakeDirs(t1, RawDictionariesPath(root)).value;
    MakeDirsConfined(t, RawFilesPath(root), base);
    MakeDirsConfined(t1, RawDictionariesPath(root), base);
    var rars := SelectArchives(listing);
    BundlesConfined(State(t2, None, None), root, archives, rars);
    SameOutsideTransitive(t, t1, t2, base);
    SameOutsideTransitive(t, t2, Bundles(State(t2, None, None), root, archives, rars).value.tree, base);
  }

  /** In particular, a successful run leaves the archive folder exactly as it found it. */
  lemma RunKeepsArchives(t: Tree, root: string, listing: seq<string>, archives: map<string, seq<string>>)
    requires forall n | n in listing :: '/' !in n
    requires forall path | path in archives :: forall e | e in archives[path] :: Relative(e)
    requires RunSpec(t, root, listing, archives).Ok?
    ensures var t' := RunSpec(t, root, listing, archives).value;
      && (forall q | Under(RawRarPath(root), q) :: (q in t.files <==> q in t'.files) && (q in t.dirs <==> q in t'.dirs))
      && (forall q | Under(RawRarPath(root), q) && q in t.files :: t'.files[q] == t.files[q])
  {
    RunConfined(t, root, listing, archives);
    ArchivesAndDatabasesApart(root);
    forall q | Under(RawRarPath(root), q)
      ensures !StartsWith(q, Databases(root))
    {
      assert !Under(RawDatabasesPath(root), q);
    }
  }
}
