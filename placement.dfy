/**
 * Where the processing script puts things: every `.csv` entry of a bundle
 * ends up under its new name in the data-file year folder, every `.xlsx`
 * entry under its new name in the dictionary year folder, nothing else is
 * written, and nothing outside the databases folder is ever touched.
 */
module Placement {
  import opened Wrappers
  import opened Text
  import opened Paths
  import opened Params
  import opened Naming
  import opened Processing

  // ---------------------------------------------------------------------------
  // Paths below a folder

  /** `Join(a, b)` with a relative `b` extends `a`. */
  lemma JoinExtends(a: string, b: string)
    requires Relative(b)
    ensures StartsWith(Join(a, b), a)
  {
    assert Join(a, b)[..|a|] == Dir(a)[..|a|] == a;
  }

  lemma StartsWithTransitive(a: string, b: string, c: string)
    requires StartsWith(b, a) && StartsWith(c, b)
    ensures StartsWith(c, a)
  {
    assert c[..|a|] == b[..|a|];
  }

  /** A year folder is a proper path when the year is a non-empty folder name. */
  lemma YearFolderProper(folder: string, year: string)
    requires year != [] && '/' !in year
    ensures Proper(Join(folder, year))
  {
    assert year[0] in year && year[|year| - 1] in year;
    JoinProper(folder, year);
  }

  /** A path below the data-file year folder is never a path below the dictionary year folder. */
  lemma DifferentBranches(root: string, year: string, e: string, n: string)
    requires Relative(year) && Relative(e) && Relative(n)
    ensures Join(FilesYear(root, year), e) != Join(DictionariesYear(root, year), n)
  {
    var d := Dir(RawDatabasesPath(root));
    var f, g := Join(FilesYear(root, year), e), Join(DictionariesYear(root, year), n);
    assert RawFilesPath(root) == d + "files";
    assert RawDictionariesPath(root) == d + "dictionaries";
    JoinExtends(RawFilesPath(root), year);
    JoinExtends(FilesYear(root, year), e);
    StartsWithTransitive(RawFilesPath(root), FilesYear(root, year), f);
    JoinExtends(RawDictionariesPath(root), year);
    JoinExtends(DictionariesYear(root, year), n);
    StartsWithTransitive(RawDictionariesPath(root), DictionariesYear(root, year), g);
    assert f[|d|] == RawFilesPath(root)[|d|] == 'f';
    assert g[|d|] == RawDictionariesPath(root)[|d|] == 'd';
  }

  // ---------------------------------------------------------------------------
  // Targets

  /** A `.csv` entry that renames ends up as `Join(fy, new name)`; a `.xlsx` entry as `Join(dy, new name)`. */
  lemma TargetOfCsv(fy: string, dy: string, e: string)
    requires Classify(e) == CsvEntry
    ensures CsvNewName(Join(fy, e)).Err? ==> Target(fy, dy, e) == Err(CsvNewName(Join(fy, e)).error)
    ensures CsvNewName(Join(fy, e)).Ok? ==> Target(fy, dy, e) == Ok(Some(Join(fy, CsvNewName(Join(fy, e)).value)))
  {
  }

  lemma TargetOfXlsx(fy: string, dy: string, e: string)
    requires Classify(e) == XlsxEntry
    ensures XlsxNewName(Join(dy, e)).Err? ==> Target(fy, dy, e) == Err(XlsxNewName(Join(dy, e)).error)
    ensures XlsxNewName(Join(dy, e)).Ok? ==> Target(fy, dy, e) == Ok(Some(Join(dy, XlsxNewName(Join(dy, e)).value)))
  {
  }

  /**
   * Extension dispatch: a `.csv` entry ends up directly inside the data-file
   * year folder, a `.xlsx` entry directly inside the dictionary year folder,
   * each under one of the names the table allows.
   */
  lemma TargetFolder(root: string, year: string, e: string)
    requires year != [] && '/' !in year
    ensures var fy, dy := FilesYear(root, year), DictionariesYear(root, year);
      && (Classify(e) == CsvEntry && Target(fy, dy, e).Ok? ==>
            var d := Target(fy, dy, e).value.value;
            Dirname(d) == fy && Basename(d) in CsvNames)
      && (Classify(e) == XlsxEntry && Target(fy, dy, e).Ok? ==>
            var d := Target(fy, dy, e).value.value;
            Dirname(d) == dy && Basename(d) in DictionaryNames)
      && (Classify(e) == OtherEntry ==> Target(fy, dy, e) == Ok(None))
  {
    var fy, dy := FilesYear(root, year), DictionariesYear(root, year);
    YearFolderProper(RawFilesPath(root), year);
    YearFolderProper(RawDictionariesPath(root), year);
    if Classify(e) == CsvEntry {
      TargetOfCsv(fy, dy, e);
      if CsvNewName(Join(fy, e)).Ok? {
        CsvTargetFolder(fy, CsvNewName(Join(fy, e)).value);
      }
    } else if Classify(e) == XlsxEntry {
      TargetOfXlsx(fy, dy, e);
      if XlsxNewName(Join(dy, e)).Ok? {
        DictionaryTargetFolder(dy, XlsxNewName(Join(dy, e)).value);
      }
    }
  }

  lemma CsvTargetFolder(fy: string, n: string)
    requires Proper(fy) && n in CsvNames
    ensures Dirname(Join(fy, n)) == fy && Basename(Join(fy, n)) == n
  {
    CsvNameShape(n);
    BasenameOfJoin(fy, n);
    DirnameOfJoin(fy, n);
  }

  lemma DictionaryTargetFolder(dy: string, n: string)
    requires Proper(dy) && n in DictionaryNames
    ensures Dirname(Join(dy, n)) == dy && Basename(Join(dy, n)) == n
  {
    DictionaryNameShape(n);
    BasenameOfJoin(dy, n);
    DirnameOfJoin(dy, n);
  }

  /**
   * The path an entry is extracted to is never where another entry of the
   * same bundle ends up, unless renaming that entry fails: an extracted name
   * equal to a new name has no `_` (`.csv`) or a single `_` (`.xlsx`), and
   * neither renames.
   */
  lemma SourceIsNoTarget(root: string, year: string, e1: string, e2: string)
    requires Relative(year) && Relative(e2)
    requires Target(FilesYear(root, year), DictionariesYear(root, year), e1).Ok?
    requires Target(FilesYear(root, year), DictionariesYear(root, year), e1).value.Some?
    ensures var fy, dy := FilesYear(root, year), DictionariesYear(root, year);
      Target(fy, dy, e2).Err? || Source(fy, dy, e2) != Target(fy, dy, e1).value.value
  {
    var fy, dy := FilesYear(root, year), DictionariesYear(root, year);
    if Classify(e1) == CsvEntry {
      TargetOfCsv(fy, dy, e1);
      CsvSourceIsNoTarget(root, year, CsvNewName(Join(fy, e1)).value, e2);
    } else {
      TargetOfXlsx(fy, dy, e1);
      XlsxSourceIsNoTarget(root, year, XlsxNewName(Join(dy, e1)).value, e2);
    }
  }

  lemma CsvSourceIsNoTarget(root: string, year: string, n: string, e2: string)
    requires Relative(year) && Relative(e2) && n in CsvNames
    ensures var fy, dy := FilesYear(root, year), DictionariesYear(root, year);
      Target(fy, dy, e2).Err? || Source(fy, dy, e2) != Join(fy, n)
  {
    var fy, dy := FilesYear(root, year), DictionariesYear(root, year);
    CsvNameShape(n);
    if Classify(e2) == XlsxEntry {
      DifferentBranches(root, year, n, e2);
    } else if Source(fy, dy, e2) == Join(fy, n) {
      JoinInjective(fy, e2, n);
      BasenameOfJoin(fy, n);
      CsvWithoutUnderscoreFails(Join(fy, n));
      TargetOfCsv(fy, dy, e2);
    }
  }

  lemma XlsxSourceIsNoTarget(root: string, year: string, n: string, e2: string)
    requires Relative(year) && Relative(e2) && n in DictionaryNames
    ensures var fy, dy := FilesYear(root, year), DictionariesYear(root, year);
      Target(fy, dy, e2).Err? || Source(fy, dy, e2) != Join(dy, n)
  {
    var fy, dy := FilesYear(root, year), DictionariesYear(root, year);
    DictionaryNameShape(n);
    if Classify(e2) != XlsxEntry {
      DifferentBranches(root, year, e2, n);
    } else if Source(fy, dy, e2) == Join(dy, n) {
      JoinInjective(dy, e2, n);
      BasenameOfJoin(dy, n);
      TargetOfXlsx(fy, dy, e2);
    }
  }

  // ---------------------------------------------------------------------------
  // One entry, then the entry loop

  /** What a step does with a `.csv` entry, and with a `.xlsx` entry. */
  lemma StepOfCsv(s: State, fy: string, dy: string, a: string, e: string)
    requires Classify(e) == CsvEntry
    ensures var p := Join(fy, e); var r := CsvNewName(p);
      Step(s, fy, dy, a, e) ==
        if r.Err? then Err(r.error)
        else Ok(State(Move(Extract(s.tree, p, Member(a, e)), p, Join(fy, r.value)), Some(p), s.lastXlsx))
  {
  }

  lemma StepOfXlsx(s: State, fy: string, dy: string, a: string, e: string)
    requires Classify(e) == XlsxEntry
    ensures var p := Join(dy, e); var r := XlsxNewName(p);
      Step(s, fy, dy, a, e) ==
        if r.Err? then Err(r.error)
        else Ok(State(Move(Extract(s.tree, p, Member(a, e)), p, Join(dy, r.value)), s.lastCsv, Some(p)))
  {
  }

  /** A step fails exactly when renaming its entry fails, and with that error. */
  lemma StepFails(s: State, fy: string, dy: string, a: string, e: string)
    ensures Step(s, fy, dy, a, e).Err? <==> Target(fy, dy, e).Err?
    ensures Step(s, fy, dy, a, e).Err? ==> Step(s, fy, dy, a, e).error == Target(fy, dy, e).error
  {
    if Classify(e) == CsvEntry {
      StepOfCsv(s, fy, dy, a, e);
      TargetOfCsv(fy, dy, e);
    } else if Classify(e) == XlsxEntry {
      StepOfXlsx(s, fy, dy, a, e);
      TargetOfXlsx(fy, dy, e);
    }
  }

  /**
   * Entry `e` of archive `a` has been dealt with in tree `t`: it renames, its
   * new path holds a file of archive `a` extracted from one of the archive's
   * `entries` that renames to that same path, and nothing is left at the path
   * it was extracted to.
   */
  predicate Settled(t: Tree, fy: string, dy: string, a: string, entries: seq<string>, e: string) {
    && Target(fy, dy, e).Ok?
    && (Target(fy, dy, e).value.Some? ==>
          var d := Target(fy, dy, e).value.value;
          && d in t.files
          && t.files[d].archive == a
          && t.files[d].name in entries
          && Target(fy, dy, t.files[d].name) == Ok(Some(d)))
    && (Classify(e) != OtherEntry ==> Source(fy, dy, e) !in t.files)
  }

  /** The entry a step handles is settled afterwards. */
  lemma StepSettles(s: State, root: string, year: string, a: string, entries: seq<string>, e: string)
    requires Relative(year) && Relative(e) && e in entries
    requires Step(s, FilesYear(root, year), DictionariesYear(root, year), a, e).Ok?
    ensures var fy, dy := FilesYear(root, year), DictionariesYear(root, year);
      Settled(Step(s, fy, dy, a, e).value.tree, fy, dy, a, entries, e)
  {
    var fy, dy := FilesYear(root, year), DictionariesYear(root, year);
    StepFails(s, fy, dy, a, e);
    if Classify(e) == CsvEntry {
      StepOfCsv(s, fy, dy, a, e);
      TargetOfCsv(fy, dy, e);
      CsvSourceIsNoTarget(root, year, CsvNewName(Join(fy, e)).value, e);
    } else if Classify(e) == XlsxEntry {
      StepOfXlsx(s, fy, dy, a, e);
      TargetOfXlsx(fy, dy, e);
      XlsxSourceIsNoTarget(root, year, XlsxNewName(Join(dy, e)).value, e);
    }
  }

  /** A step leaves every entry settled before it settled. */
  lemma StepKeepsSettled(s: State, root: string, year: string, a: string, entries: seq<string>, e: string, e0: string)
    requires Relative(year) && Relative(e) && Relative(e0) && e in entries
    requires Step(s, FilesYear(root, year), DictionariesYear(root, year), a, e).Ok?
    requires Settled(s.tree, FilesYear(root, year), DictionariesYear(root, year), a, entries, e0)
    ensures var fy, dy := FilesYear(root, year), DictionariesYear(root, year);
      Settled(Step(s, fy, dy, a, e).value.tree, fy, dy, a, entries, e0)
  {
    var fy, dy := FilesYear(root, year), DictionariesYear(root, year);
    StepFails(s, fy, dy, a, e);
    if Classify(e) == CsvEntry {
      StepOfCsv(s, fy, dy, a, e);
      TargetOfCsv(fy, dy, e);
      var d := Join(fy, CsvNewName(Join(fy, e)).value);
      Moved(s.tree, Join(fy, e), d, Member(a, e), fy, dy, a, entries, e0, root, year);
    } else if Classify(e) == XlsxEntry {
      StepOfXlsx(s, fy, dy, a, e);
      TargetOfXlsx(fy, dy, e);
      var d := Join(dy, XlsxNewName(Join(dy, e)).value);
      Moved(s.tree, Join(dy, e), d, Member(a, e), fy, dy, a, entries, e0, root, year);
    }
  }

  /**
   * Extracting an entry of the archive to `p` and moving it to `d`, where `p`
   * is that entry's source and `d` its target, keeps `e0` settled.
   */
  lemma Moved(t: Tree, p: string, d: string, m: Member, fy: string, dy: string, a: string, entries: seq<string>, e0: string, root: string, year: string)
    requires fy == FilesYear(root, year) && dy == DictionariesYear(root, year)
    requires Relative(year) && Relative(m.name) && Relative(e0)
    requires m.archive == a && m.name in entries
    requires p == Source(fy, dy, m.name) && Target(fy, dy, m.name) == Ok(Some(d))
    requires Settled(t, fy, dy, a, entries, e0)
    ensures Settled(Move(Extract(t, p, m), p, d), fy, dy, a, entries, e0)
  {
    SourceIsNoTarget(root, year, m.name, m.name);
    if Target(fy, dy, e0).value.Some? {
      SourceIsNoTarget(root, year, e0, m.name);
      MovedKeepsTarget(t, p, d, m, fy, dy, a, entries, Target(fy, dy, e0).value.value);
    }
    if Classify(e0) != OtherEntry {
      SourceIsNoTarget(root, year, m.name, e0);
      MovedKeepsGone(t, p, d, m, Source(fy, dy, e0));
    }
  }

  /** A target `d0` other than the source survives the move, with the file it held or the moved one. */
  lemma MovedKeepsTarget(t: Tree, p: string, d: string, m: Member, fy: string, dy: string, a: string, entries: seq<string>, d0: string)
    requires p != d && p != d0
    requires m.archive == a && m.name in entries && Target(fy, dy, m.name) == Ok(Some(d))
    requires d0 in t.files && t.files[d0].archive == a && t.files[d0].name in entries
    requires Target(fy, dy, t.files[d0].name) == Ok(Some(d0))
    ensures var t' := Move(Extract(t, p, m), p, d);
      && d0 in t'.files && t'.files[d0].archive == a && t'.files[d0].name in entries
      && Target(fy, dy, t'.files[d0].name) == Ok(Some(d0))
  {
  }

  /** A path that was empty and is neither the target stays empty; the source is emptied. */
  lemma MovedKeepsGone(t: Tree, p: string, d: string, m: Member, q: string)
    requires p != d && q != d
    requires q == p || q !in t.files
    ensures q !in Move(Extract(t, p, m), p, d).files
  {
  }

  /** The entries of a listing that are `.csv` or `.xlsx`, in order. */
  function Relevant(names: seq<string>): (r: seq<string>)
    ensures forall e | e in r :: e in names && Classify(e) != OtherEntry
    ensures forall e | e in names && Classify(e) != OtherEntry :: e in r
    decreases |names|
  {
    if names == [] then []
    else
      var init, e := names[..|names| - 1], names[|names| - 1];
      assert names == init + [e];
      if Classify(e) == OtherEntry then Relevant(init) else Relevant(init) + [e]
  }

  /** Entries that are neither `.csv` nor `.xlsx` change nothing: the loop over the others alone gives the same result. */
  lemma {:induction false} EntriesIgnoreOthers(s: State, fy: string, dy: string, a: string, names: seq<string>)
    ensures Entries(s, fy, dy, a, names) == Entries(s, fy, dy, a, Relevant(names))
    decreases |names|
  {
    if names != [] {
      var init, e := names[..|names| - 1], names[|names| - 1];
      EntriesIgnoreOthers(s, fy, dy, a, init);
      if Classify(e) != OtherEntry {
        var r := Relevant(init) + [e];
        assert r[..|r| - 1] == Relevant(init);
      }
    }
  }

  /** After the entry loop succeeds, every entry of the archive is settled. */
  lemma {:induction false} EntriesSettle(s: State, root: string, year: string, a: string, names: seq<string>, entries: seq<string>)
    requires Relative(year)
    requires forall e | e in names :: e in entries && Relative(e)
    requires Entries(s, FilesYear(root, year), DictionariesYear(root, year), a, names).Ok?
    ensures var fy, dy := FilesYear(root, year), DictionariesYear(root, year);
      forall e | e in names :: Settled(Entries(s, fy, dy, a, names).value.tree, fy, dy, a, entries, e)
    decreases |names|
  {
    var fy, dy := FilesYear(root, year), DictionariesYear(root, year);
    if names != [] {
      var init, e := names[..|names| - 1], names[|names| - 1];
      assert names == init + [e];
      EntriesSettle(s, root, year, a, init, entries);
      var s1 := Entries(s, fy, dy, a, init).value;
      StepSettles(s1, root, year, a, entries, e);
      forall e0 | e0 in init
        ensures Settled(Step(s1, fy, dy, a, e).value.tree, fy, dy, a, entries, e0)
      {
        StepKeepsSettled(s1, root, year, a, entries, e, e0);
      }
    }
  }

  /** The entry loop succeeds exactly when every entry renames (or is skipped). */
  lemma {:induction false} EntriesSucceed(s: State, fy: string, dy: string, a: string, names: seq<string>)
    ensures Entries(s, fy, dy, a, names).Ok? <==> forall i | 0 <= i < |names| :: Target(fy, dy, names[i]).Ok?
    decreases |names|
  {
    if names != [] {
      var init, e := names[..|names| - 1], names[|names| - 1];
      EntriesSucceed(s, fy, dy, a, init);
      assert forall j | 0 <= j < |init| :: init[j] == names[j];
      if Entries(s, fy, dy, a, init).Ok? {
        StepFails(Entries(s, fy, dy, a, init).value, fy, dy, a, e);
      }
    }
  }

  /** A failing entry loop fails with the error of the first entry that does not rename. */
  lemma {:induction false} EntriesFirstFailure(s: State, fy: string, dy: string, a: string, names: seq<string>)
    requires Entries(s, fy, dy, a, names).Err?
    ensures exists i | 0 <= i < |names| ::
      && Target(fy, dy, names[i]).Err?
      && Entries(s, fy, dy, a, names).error == Target(fy, dy, names[i]).error
      && forall j | 0 <= j < i :: Target(fy, dy, names[j]).Ok?
    decreases |names|
  {
    var init, e := names[..|names| - 1], names[|names| - 1];
    assert forall j | 0 <= j < |init| :: init[j] == names[j];
    if Entries(s, fy, dy, a, init).Err? {
      EntriesFirstFailure(s, fy, dy, a, init);
      var i :| 0 <= i < |init| && Target(fy, dy, init[i]).Err?
        && Entries(s, fy, dy, a, init).error == Target(fy, dy, init[i]).error
        && forall j | 0 <= j < i :: Target(fy, dy, init[j]).Ok?;
      assert Target(fy, dy, names[i]).Err?;
    } else {
      EntriesSucceed(s, fy, dy, a, init);
      StepFails(Entries(s, fy, dy, a, init).value, fy, dy, a, e);
      assert Target(fy, dy, names[|names| - 1]).Err?;
    }
  }

  /** The path the last entry of kind `k` was extracted to, or `before` when there is none. */
  function LastSource(fy: string, dy: string, names: seq<string>, k: Kind, before: Option<string>): (r: Option<string>)
    ensures (forall i | 0 <= i < |names| :: Classify(names[i]) != k) ==> r == before
    ensures (exists i | 0 <= i < |names| :: Classify(names[i]) == k) ==>
      exists i | 0 <= i < |names| :: Classify(names[i]) == k && r == Some(Source(fy, dy, names[i]))
    decreases |names|
  {
    if names == [] then before
    else if Classify(names[|names| - 1]) == k then Some(Source(fy, dy, names[|names| - 1]))
    else
      var init := names[..|names| - 1];
      assert forall j | 0 <= j < |init| :: init[j] == names[j];
      LastSource(fy, dy, init, k, before)
  }

  /** `LastSource` is the extraction path of the last entry of kind `k`: no later entry has that kind. */
  lemma {:induction false} LastIsLast(fy: string, dy: string, names: seq<string>, k: Kind, before: Option<string>, i: int)
    requires 0 <= i < |names| && Classify(names[i]) == k
    requires forall j | i < j < |names| :: Classify(names[j]) != k
    ensures LastSource(fy, dy, names, k, before) == Some(Source(fy, dy, names[i]))
    decreases |names|
  {
    if i < |names| - 1 {
      var init := names[..|names| - 1];
      assert Classify(names[|names| - 1]) != k;
      LastIsLast(fy, dy, init, k, before, i);
    }
  }

  /** The entry loop leaves in `csv_file_path` and `xlsx_file_path` the paths the last entries of each kind were extracted to. */
  lemma {:induction false} EntriesLast(s: State, fy: string, dy: string, a: string, names: seq<string>)
    requires Entries(s, fy, dy, a, names).Ok?
    ensures Entries(s, fy, dy, a, names).value.lastCsv == LastSource(fy, dy, names, CsvEntry, s.lastCsv)
    ensures Entries(s, fy, dy, a, names).value.lastXlsx == LastSource(fy, dy, names, XlsxEntry, s.lastXlsx)
    decreases |names|
  {
    if names != [] {
      var init, e := names[..|names| - 1], names[|names| - 1];
      EntriesLast(s, fy, dy, a, init);
      var s1 := Entries(s, fy, dy, a, init).value;
      if Classify(e) == CsvEntry {
        StepOfCsv(s1, fy, dy, a, e);
      } else if Classify(e) == XlsxEntry {
        StepOfXlsx(s1, fy, dy, a, e);
      }
    }
  }

  // ---------------------------------------------------------------------------
  // Clean-up and one bundle

  /**
   * What the clean-up does: it raises `NameError` for an unassigned path;
   * otherwise, when the path's folder exists, the path leaves the files and
   * the folder leaves the directories unless it is named like the year.
   */
  lemma CleanupEffect(t: Tree, year: string, last: Option<string>, variable: string)
    ensures last.None? ==> Cleanup(t, year, last, variable) == Err(NameError(variable))
    ensures Cleanup(t, year, last, variable).Err? ==>
      last.None? || Cleanup(t, year, last, variable).error in
        {IsADirectory(last.value), NotADirectory(Dirname(last.value)), NotEmpty(Dirname(last.value))}
    ensures Cleanup(t, year, last, variable).Ok? ==>
      var p, t' := last.value, Cleanup(t, year, last, variable).value;
      var d := Dirname(p);
      && t'.files == (if Exists(t, d) then t.files - {p} else t.files)
      && t'.dirs == (if Exists(t, d) && year != Basename(d) then t.dirs - {d} else t.dirs)
  {
  }

  /** The clean-up never removes a folder named like the year. */
  lemma CleanupKeepsYearFolders(t: Tree, year: string, last: Option<string>, variable: string, q: string)
    requires Cleanup(t, year, last, variable).Ok?
    requires q in t.dirs && Basename(q) == year
    ensures q in Cleanup(t, year, last, variable).value.dirs
  {
    CleanupEffect(t, year, last, variable);
  }

  /** The stages of a bundle that succeeds, each of which succeeds. */
  lemma BundleStages(s: State, root: string, archives: map<string, seq<string>>, rar: string)
    requires Bundle(s, root, archives, rar).Ok?
    ensures Year(rar).Ok?
    ensures var year := Year(rar).value;
      var fy, dy := FilesYear(root, year), DictionariesYear(root, year);
      && MakeDirs(s.tree, fy).Ok?
      && Join(RawRarPath(root), rar) in archives
      && var s1 := State(MakeDirs(s.tree, fy).value, s.lastCsv, s.lastXlsx);
      && var names := archives[Join(RawRarPath(root), rar)];
      && Entries(s1, fy, dy, rar, names).Ok?
      && var s2 := Entries(s1, fy, dy, rar, names).value;
      && Cleanup(s2.tree, year, s2.lastCsv, "csv_file_path").Ok?
      && var t3 := Cleanup(s2.tree, year, s2.lastCsv, "csv_file_path").value;
      && Cleanup(t3, year, s2.lastXlsx, "xlsx_file_path").Ok?
      && Bundle(s, root, archives, rar) == Ok(State(Cleanup(t3, year, s2.lastXlsx, "xlsx_file_path").value, s2.lastCsv, s2.lastXlsx))
  {
  }

  /** A year taken from a folder listing's name has no separator, so it is a relative component. */
  lemma YearRelative(rar: string)
    requires '/' !in rar && Year(rar).Ok?
    ensures '/' !in Year(rar).value && Relative(Year(rar).value)
  {
    var year := Year(rar).value;
    if '/' in year {
      YearChars(rar, '/');
    }
    if year != [] {
      assert year[0] in year;
    }
  }

  /**
   * When the archive has a `.csv` and a `.xlsx` entry, the entry loop leaves
   * both path variables pointing at paths it extracted to and then emptied.
   */
  lemma LastsEmptied(s: State, root: string, year: string, a: string, names: seq<string>)
    requires Relative(year)
    requires forall e | e in names :: Relative(e)
    requires exists e | e in names :: Classify(e) == CsvEntry
    requires exists e | e in names :: Classify(e) == XlsxEntry
    requires Entries(s, FilesYear(root, year), DictionariesYear(root, year), a, names).Ok?
    ensures var s2 := Entries(s, FilesYear(root, year), DictionariesYear(root, year), a, names).value;
      && s2.lastCsv.Some? && s2.lastCsv.value !in s2.tree.files
      && s2.lastXlsx.Some? && s2.lastXlsx.value !in s2.tree.files
  {
    var fy, dy := FilesYear(root, year), DictionariesYear(root, year);
    var s2 := Entries(s, fy, dy, a, names).value;
    EntriesSettle(s, root, year, a, names, names);
    EntriesLast(s, fy, dy, a, names);
    var c :| c in names && Classify(c) == CsvEntry;
    var x :| x in names && Classify(x) == XlsxEntry;
    var ci :| 0 <= ci < |names| && names[ci] == c;
    var xi :| 0 <= xi < |names| && names[xi] == x;
    assert Classify(names[ci]) == CsvEntry && Classify(names[xi]) == XlsxEntry;
    var i :| 0 <= i < |names| && Classify(names[i]) == CsvEntry && s2.lastCsv == Some(Source(fy, dy, names[i]));
    var j :| 0 <= j < |names| && Classify(names[j]) == XlsxEntry && s2.lastXlsx == Some(Source(fy, dy, names[j]));
    assert Settled(s2.tree, fy, dy, a, names, names[i]);
    assert Settled(s2.tree, fy, dy, a, names, names[j]);
  }

  /** A clean-up of a path that is no longer there leaves the files as they are. */
  lemma CleanupKeepsFiles(t: Tree, year: string, last: Option<string>, variable: string)
    requires last.Some? && last.value !in t.files
    requires Cleanup(t, year, last, variable).Ok?
    ensures Cleanup(t, year, last, variable).value.files == t.files
  {
    CleanupEffect(t, year, last, variable);
    RemoveAbsent(t.files, last.value);
  }

  lemma RemoveAbsent(m: map<string, Member>, p: string)
    requires p !in m
    ensures m - {p} == m
  {
  }

  lemma CleanupsKeepFiles(t: Tree, year: string, lastCsv: Option<string>, lastXlsx: Option<string>)
    requires lastCsv.Some? && lastCsv.value !in t.files
    requires lastXlsx.Some? && lastXlsx.value !in t.files
    requires Cleanup(t, year, lastCsv, "csv_file_path").Ok?
    requires Cleanup(Cleanup(t, year, lastCsv, "csv_file_path").value, year, lastXlsx, "xlsx_file_path").Ok?
    ensures Cleanup(Cleanup(t, year, lastCsv, "csv_file_path").value, year, lastXlsx, "xlsx_file_path").value.files == t.files
  {
    var t3 := Cleanup(t, year, lastCsv, "csv_file_path").value;
    CleanupKeepsFiles(t, year, lastCsv, "csv_file_path");
    CleanupKeepsFiles(t3, year, lastXlsx, "xlsx_file_path");
  }

  /** Being settled depends on the files only. */
  lemma SettledFiles(t: Tree, t': Tree, fy: string, dy: string, a: string, names: seq<string>)
    requires t'.files == t.files
    requires forall e | e in names :: Settled(t, fy, dy, a, names, e)
    ensures forall e | e in names :: Settled(t', fy, dy, a, names, e)
  {
  }

  /**
   * A bundle that succeeds and has at least one `.csv` and one `.xlsx` entry
   * leaves every entry of the archive settled: the clean-up that follows the
   * entry loop only ever meets paths the loop already emptied.
   */
  lemma BundleSettles(s: State, root: string, archives: map<string, seq<string>>, rar: string)
    requires '/' !in rar
    requires Bundle(s, root, archives, rar).Ok?
    requires Join(RawRarPath(root), rar) in archives
    requires var names := archives[Join(RawRarPath(root), rar)];
      && (forall e | e in names :: Relative(e))
      && (exists e | e in names :: Classify(e) == CsvEntry)
      && (exists e | e in names :: Classify(e) == XlsxEntry)
    ensures Year(rar).Ok?
    ensures var year, names := Year(rar).value, archives[Join(RawRarPath(root), rar)];
      var fy, dy := FilesYear(root, year), DictionariesYear(root, year);
      forall e | e in names :: Settled(Bundle(s, root, archives, rar).value.tree, fy, dy, rar, names, e)
  {
    BundleStages(s, root, archives, rar);
    var year, names := Year(rar).value, archives[Join(RawRarPath(root), rar)];
    var fy, dy := FilesYear(root, year), DictionariesYear(root, year);
    YearRelative(rar);
    var s1 := State(MakeDirs(s.tree, fy).value, s.lastCsv, s.lastXlsx);
    var s2 := Entries(s1, fy, dy, rar, names).value;
    EntriesSettle(s1, root, year, rar, names, names);
    LastsEmptied(s1, root, year, rar, names);
    CleanupsKeepFiles(s2.tree, year, s2.lastCsv, s2.lastXlsx);
    SettledFiles(s2.tree, Bundle(s, root, archives, rar).value.tree, fy, dy, rar, names);
  }
}
