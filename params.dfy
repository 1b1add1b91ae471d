/**
 * The folder layout of the project, derived from the root folder (the
 * working directory) by a fixed chain of `os.path.join` calls:
 *
 *   root/data/raw/demre
 *   root/data/raw/demre_open/rar                      (the downloaded archives)
 *   root/data/raw/demre_open/databases/files          (the extracted data files)
 *   root/data/raw/demre_open/databases/dictionaries   (the extracted dictionaries)
 */
module Params {
  import opened Text
  import opened Paths

  const DataFolder := "data"
  const DemreFolder := "demre"
  const DemreOpenFolder := "demre_open"
  const RarFolder := "rar"
  const DatabasesFolder := "databases"
  const FilesFolder := "files"
  const DictionariesFolder := "dictionaries"
  const RawFolder := "raw"

  function DataPath(root: string): string { Join(root, DataFolder) }
  function RawPath(root: string): string { Join(DataPath(root), RawFolder) }
  function RawDemrePath(root: string): string { Join(RawPath(root), DemreFolder) }
  function RawDemreOpenPath(root: string): string { Join(RawPath(root), DemreOpenFolder) }
  function RawRarPath(root: string): string { Join(RawDemreOpenPath(root), RarFolder) }
  function RawDatabasesPath(root: string): string { Join(RawDemreOpenPath(root), DatabasesFolder) }
  function RawFilesPath(root: string): string { Join(RawDatabasesPath(root), FilesFolder) }
  function RawDictionariesPath(root: string): string { Join(RawDatabasesPath(root), DictionariesFolder) }

  /** Two folders with no common path: nothing lies inside both. */
  ghost predicate Disjoint(p: string, q: string) {
    forall x :: !(Under(p, x) && Under(q, x))
  }

  // ---------------------------------------------------------------------------
  // The layout relative to the root

  /** Each folder's path relative to the root, built the way the chain of joins builds it. */
  const DataRel := DataFolder
  const RawRel := DataRel + "/" + RawFolder
  const RawDemreRel := RawRel + "/" + DemreFolder
  const RawDemreOpenRel := RawRel + "/" + DemreOpenFolder
  const RawRarRel := RawDemreOpenRel + "/" + RarFolder
  const RawDatabasesRel := RawDemreOpenRel + "/" + DatabasesFolder
  const RawFilesRel := RawDatabasesRel + "/" + FilesFolder
  const RawDictionariesRel := RawDatabasesRel + "/" + DictionariesFolder

  /** The whole layout spelled out: every folder is the root followed by a fixed relative path. */
  lemma Layout(root: string)
    ensures DataPath(root) == Dir(root) + "data"
    ensures RawPath(root) == Dir(root) + "data/raw"
    ensures RawDemrePath(root) == Dir(root) + "data/raw/demre"
    ensures RawDemreOpenPath(root) == Dir(root) + "data/raw/demre_open"
    ensures RawRarPath(root) == Dir(root) + "data/raw/demre_open/rar"
    ensures RawDatabasesPath(root) == Dir(root) + "data/raw/demre_open/databases"
    ensures RawFilesPath(root) == Dir(root) + "data/raw/demre_open/databases/files"
    ensures RawDictionariesPath(root) == Dir(root) + "data/raw/demre_open/databases/dictionaries"
  {
    DataLayout(root);
    RawLayout(root);
    RawDemreLayout(root);
    RawDemreOpenLayout(root);
    RawRarLayout(root);
    RawDatabasesLayout(root);
    RawFilesLayout(root);
    RawDictionariesLayout(root);
    RelativePaths();
  }

  /** The relative paths as literals. */
  lemma RelativePaths()
    ensures DataRel == "data"
    ensures RawRel == "data/raw"
    ensures RawDemreRel == "data/raw/demre"
    ensures RawDemreOpenRel == "data/raw/demre_open"
    ensures RawRarRel == "data/raw/demre_open/rar"
    ensures RawDatabasesRel == "data/raw/demre_open/databases"
    ensures RawFilesRel == "data/raw/demre_open/databases/files"
    ensures RawDictionariesRel == "data/raw/demre_open/databases/dictionaries"
  {
  }

  lemma DataLayout(root: string)
    ensures DataPath(root) == Dir(root) + DataRel
  {
  }

  lemma RawLayout(root: string)
    ensures RawPath(root) == Dir(root) + RawRel
  {
    DataLayout(root);
    Extend(Dir(root), DataRel, RawFolder);
  }

  lemma RawDemreLayout(root: string)
    ensures RawDemrePath(root) == Dir(root) + RawDemreRel
  {
    RawLayout(root);
    Extend(Dir(root), RawRel, DemreFolder);
  }

  lemma RawDemreOpenLayout(root: string)
    ensures RawDemreOpenPath(root) == Dir(root) + RawDemreOpenRel
  {
    RawLayout(root);
    Extend(Dir(root), RawRel, DemreOpenFolder);
  }

  lemma RawRarLayout(root: string)
    ensures RawRarPath(root) == Dir(root) + RawRarRel
  {
    RawDemreOpenLayout(root);
    Extend(Dir(root), RawDemreOpenRel, RarFolder);
  }

  lemma RawDatabasesLayout(root: string)
    ensures RawDatabasesPath(root) == Dir(root) + RawDatabasesRel
  {
    RawDemreOpenLayout(root);
    Extend(Dir(root), RawDemreOpenRel, DatabasesFolder);
  }

  lemma RawFilesLayout(root: string)
    ensures RawFilesPath(root) == Dir(root) + RawFilesRel
  {
    RawDatabasesLayout(root);
    Extend(Dir(root), RawDatabasesRel, FilesFolder);
  }

  lemma RawDictionariesLayout(root: string)
    ensures RawDictionariesPath(root) == Dir(root) + RawDictionariesRel
  {
    RawDatabasesLayout(root);
    Extend(Dir(root), RawDatabasesRel, DictionariesFolder);
  }

  /**
   * One step of the layout: the child `n` of the folder `d + parent` is
   * `d + (parent + "/" + n)`, when `parent` is a non-empty path not ending in a separator.
   */
  lemma Extend(d: string, parent: string, n: string)
    requires parent != [] && parent[|parent| - 1] != '/'
    requires Relative(n)
    ensures Join(d + parent, n) == d + (parent + "/" + n)
  {
    var a := d + parent;
    assert a[|a| - 1] == parent[|parent| - 1];
    assert a + "/" + n == d + (parent + "/" + n);
  }

  /** For the usual root (a non-empty folder name without a trailing separator) the layout is `root + "/data/..."`. */
  lemma LayoutUnderRoot(root: string)
    requires root != [] && root[|root| - 1] != '/'
    ensures RawFilesPath(root) == root + "/" + "data/raw/demre_open/databases/files"
    ensures RawDictionariesPath(root) == root + "/" + "data/raw/demre_open/databases/dictionaries"
    ensures RawRarPath(root) == root + "/" + "data/raw/demre_open/rar"
  {
    Layout(root);
    assert Dir(root) == root + "/";
  }

  /** A folder name without separators is the first component of everything inside it. */
  lemma FirstComponent(n: string, t: string)
    requires '/' !in n
    requires t == n || StartsWith(t, n + "/")
    ensures Split(t, '/')[0] == n
  {
    if t == n {
      SplitNoSep(n, '/');
    } else {
      assert t == n + ['/'] + t[|n| + 1..];
      SplitCons(n, '/', t[|n| + 1..]);
    }
  }

  /** Two differently named children of one folder share nothing. */
  lemma SiblingsDisjoint(base: string, n1: string, n2: string)
    requires '/' !in n1 && '/' !in n2 && n1 != n2
    ensures Disjoint(Join(base, n1), Join(base, n2))
  {
    var d := Dir(base);
    forall x | Under(Join(base, n1), x) && Under(Join(base, n2), x)
      ensures false
    {
      InsideChild(base, n1, x);
      InsideChild(base, n2, x);
      FirstComponent(n1, x[|d|..]);
      FirstComponent(n2, x[|d|..]);
    }
  }

  /** What lies inside the child `n` of `base` is `Dir(base)` followed by `n` or by something inside `n`. */
  lemma InsideChild(base: string, n: string, x: string)
    requires '/' !in n
    requires Under(Join(base, n), x)
    ensures StartsWith(x, Dir(base))
    ensures var t := x[|Dir(base)|..]; t == n || StartsWith(t, n + "/")
  {
    var d := Dir(base);
    assert Relative(n);
    assert Join(base, n) == d + n;
    if x != d + n {
      assert x[..|d| + |n| + 1] == d + n + "/";
      assert x[..|d|] == d;
      assert x[|d|..][..|n| + 1] == x[|d|..|d| + |n| + 1];
    } else {
      assert x[..|d|] == d;
    }
  }

  /** The data files and the dictionaries are two separate children of the databases folder. */
  lemma FilesAndDictionariesApart(root: string)
    ensures RawFilesPath(root) != RawDictionariesPath(root)
    ensures Disjoint(RawFilesPath(root), RawDictionariesPath(root))
  {
    SiblingsDisjoint(RawDatabasesPath(root), FilesFolder, DictionariesFolder);
    assert Under(RawFilesPath(root), RawFilesPath(root));
  }

  /** The archive folder and the databases folder are disjoint siblings: input and output trees never meet. */
  lemma ArchivesAndDatabasesApart(root: string)
    ensures Disjoint(RawRarPath(root), RawDatabasesPath(root))
    ensures !StartsWith(RawRarPath(root), RawDatabasesPath(root))
    ensures !StartsWith(RawDatabasesPath(root), RawRarPath(root))
  {
    SiblingsDisjoint(RawDemreOpenPath(root), RarFolder, DatabasesFolder);
    var d := Dir(RawDemreOpenPath(root));
    assert RawRarPath(root) == d + "rar";
    assert RawDatabasesPath(root) == d + "databases";
    assert RawRarPath(root)[|d|] == 'r';
    assert RawDatabasesPath(root)[|d|] == 'd';
  }

  /**
   * `demre` and `demre_open` are two children of the raw folder. The first
   * name is a string prefix of the second, yet neither folder lies inside the other.
   */
  lemma DemreFoldersApart(root: string)
    ensures StartsWith(RawDemreOpenPath(root), RawDemrePath(root))
    ensures RawDemrePath(root) != RawDemreOpenPath(root)
    ensures Disjoint(RawDemrePath(root), RawDemreOpenPath(root))
  {
    SiblingsDisjoint(RawPath(root), DemreFolder, DemreOpenFolder);
    var d := Dir(RawPath(root));
    assert RawDemrePath(root) == d + "demre";
    assert RawDemreOpenPath(root) == (d + "demre") + "_open";
    assert Under(RawDemrePath(root), RawDemrePath(root));
  }

  /** A child joined onto a folder path lies strictly inside it. */
  lemma ChildInside(a: string, n: string)
    requires Proper(a)
    requires Relative(n)
    ensures StartsWith(Join(a, n), a + "/")
  {
    assert Join(a, n) == (a + "/") + n;
  }

  lemma InsideTransitive(a: string, b: string, c: string)
    requires StartsWith(b, a + "/") && StartsWith(c, b + "/")
    ensures StartsWith(c, a + "/")
  {
    assert c[..|a| + 1] == b[..|a| + 1];
  }

  /** A path that is non-empty and does not end in a separator. */
  predicate Proper(p: string) {
    p != [] && p[|p| - 1] != '/'
  }

  /** Joining a proper relative name gives a proper path. */
  lemma JoinProper(a: string, n: string)
    requires Proper(n) && Relative(n)
    ensures Proper(Join(a, n))
  {
    var j := Join(a, n);
    assert j == Dir(a) + n;
    assert j[|j| - 1] == n[|n| - 1];
  }

  /** Every derived folder lies strictly inside the data folder, which lies strictly inside the root. */
  lemma EverythingUnderData(root: string)
    ensures StartsWith(DataPath(root), root) && DataPath(root) != root
    ensures var data := DataPath(root);
      && StartsWith(RawPath(root), data + "/")
      && StartsWith(RawDemrePath(root), data + "/")
      && StartsWith(RawDemreOpenPath(root), data + "/")
      && StartsWith(RawRarPath(root), data + "/")
      && StartsWith(RawDatabasesPath(root), data + "/")
      && StartsWith(RawFilesPath(root), data + "/")
      && StartsWith(RawDictionariesPath(root), data + "/")
  {
    var data := DataPath(root);
    assert data == Dir(root) + "data";
    assert StartsWith(data, root) by {
      assert Dir(root)[..|root|] == root;
      assert data[..|root|] == Dir(root)[..|root|];
    }
    JoinProper(root, DataFolder);
    JoinProper(data, RawFolder);
    JoinProper(RawPath(root), DemreOpenFolder);
    JoinProper(RawDemreOpenPath(root), DatabasesFolder);
    ChildInside(data, RawFolder);
    ChildInside(RawPath(root), DemreFolder);
    ChildInside(RawPath(root), DemreOpenFolder);
    ChildInside(RawDemreOpenPath(root), RarFolder);
    ChildInside(RawDemreOpenPath(root), DatabasesFolder);
    ChildInside(RawDatabasesPath(root), FilesFolder);
    ChildInside(RawDatabasesPath(root), DictionariesFolder);
    InsideTransitive(data, RawPath(root), RawDemrePath(root));
    InsideTransitive(data, RawPath(root), RawDemreOpenPath(root));
    InsideTransitive(data, RawDemreOpenPath(root), RawRarPath(root));
    InsideTransitive(data, RawDemreOpenPath(root), RawDatabasesPath(root));
    InsideTransitive(data, RawDatabasesPath(root), RawFilesPath(root));
    InsideTransitive(data, RawDatabasesPath(root), RawDictionariesPath(root));
  }
}
