/**
 * The pure part of the processing script: which directory entries are
 * archives, the year an archive belongs to, the category table, and the
 * name each extracted `.csv` or `.xlsx` entry is renamed to.
 */
module Naming {
  import opened Wrappers
  import opened Text
  import opened Paths

  // ---------------------------------------------------------------------------
  // The category table

  /** `change_name`: short tokens found in entry names, to canonical category names. */
  const ChangeName: map<string, string> := map[
    "b" := "inscripciones",
    "c" := "resultados",
    "d" := "postulaciones",
    "mat" := "matriculas",
    "matr" := "matriculas",
    "matricula" := "matriculas"
  ]

  const Tokens: set<string> := {"b", "c", "d", "mat", "matr", "matricula"}
  const Categories: set<string> := {"inscripciones", "resultados", "postulaciones", "matriculas"}

  /** The names a renamed data file can have. */
  const CsvNames: set<string> := set c | c in Categories :: c + ".csv"

  /** The names a renamed dictionary can have. */
  const DictionaryNames: set<string> := set c | c in Categories :: "dict_" + c + ".xlsx"

  /** Category names are plain words: no separator of either kind. */
  lemma CategoryShape(c: string)
    requires c in Categories
    ensures '_' !in c && '/' !in c && '.' !in c
  {
  }

  /** A renamed data file is a plain `.csv` name: no folder, no `_`. */
  lemma CsvNameShape(n: string)
    requires n in CsvNames
    ensures '/' !in n && '_' !in n
    ensures EndsWith(n, ".csv")
  {
    var c :| c in Categories && n == c + ".csv";
    CategoryShape(c);
    assert n[|c|..] == ".csv";
  }

  /** A renamed dictionary is a plain `.xlsx` name with exactly one `_`. */
  lemma DictionaryNameShape(n: string)
    requires n in DictionaryNames
    ensures '/' !in n && Count(n, '_') == 1
    ensures EndsWith(n, ".xlsx") && !EndsWith(n, ".csv")
  {
    var c :| c in Categories && n == "dict_" + c + ".xlsx";
    CategoryShape(c);
    DictionaryCount(c);
    DictionarySuffix("dict_" + c);
  }

  lemma DictionaryCount(c: string)
    requires '_' !in c && '/' !in c
    ensures '/' !in "dict_" + c + ".xlsx" && Count("dict_" + c + ".xlsx", '_') == 1
  {
    CountZero(c, '_');
    CountAppend("dict_" + c, ".xlsx", '_');
    CountAppend("dict_", c, '_');
    assert Count(".xlsx", '_') == 0 && Count("dict_", '_') == 1;
  }

  lemma DictionarySuffix(a: string)
    ensures EndsWith(a + ".xlsx", ".xlsx") && !EndsWith(a + ".xlsx", ".csv")
  {
    var n := a + ".xlsx";
    assert n[|n| - 5..] == ".xlsx";
    assert n[|n| - 4..] == "xlsx";
  }

  /**
   * The table is defined on exactly six tokens and sends them onto the four
   * categories; the three spellings of the enrolment token agree, and the
   * other three tokens name three different categories.
   */
  lemma ChangeNameShape()
    ensures ChangeName.Keys == Tokens
    ensures ChangeName.Values == Categories
    ensures ChangeName["mat"] == ChangeName["matr"] == ChangeName["matricula"] == "matriculas"
    ensures |{ChangeName["b"], ChangeName["c"], ChangeName["d"], ChangeName["mat"]}| == 4
  {
    assert ChangeName["b"] in ChangeName.Values;
    assert ChangeName["c"] in ChangeName.Values;
    assert ChangeName["d"] in ChangeName.Values;
    assert ChangeName["mat"] in ChangeName.Values;
  }

  /** `change_name[token]`, with the `KeyError` of a missing token made explicit. */
  function Lookup(token: string): (r: Result<string>)
    ensures r.Ok? <==> token in Tokens
    ensures r.Ok? ==> r.value in Categories
    ensures r.Err? ==> r.error == KeyError(token)
  {
    if token in ChangeName then Ok(ChangeName[token]) else Err(KeyError(token))
  }

  // ---------------------------------------------------------------------------
  // Archive selection and the year

  predicate IsArchiveName(f: string) {
    EndsWith(f, ".rar") && StartsWith(f, "PROCESO")
  }

  /** The list comprehension: the archive names of a listing, in listing order. */
  function FilterArchives(listing: seq<string>): (r: seq<string>)
    ensures forall x :: multiset(r)[x] == if IsArchiveName(x) then multiset(listing)[x] else 0
  {
    if listing == [] then []
    else
      assert listing == [listing[0]] + listing[1..];
      (if IsArchiveName(listing[0]) then [listing[0]] else []) + FilterArchives(listing[1..])
  }

  /**
   * `rar_files`: the listing entries that start with `PROCESO` and end with
   * `.rar`, each as often as it is listed, in ascending code-point order.
   */
  function SelectArchives(listing: seq<string>): (r: seq<string>)
    ensures Sorted(r)
    ensures forall x :: multiset(r)[x] == if IsArchiveName(x) then multiset(listing)[x] else 0
    ensures forall x :: x in r <==> x in listing && IsArchiveName(x)
  {
    var kept := FilterArchives(listing);
    SortCorrect(kept);
    assert forall x :: x in Sort(kept) <==> multiset(Sort(kept))[x] > 0;
    assert forall x :: x in listing <==> multiset(listing)[x] > 0;
    Sort(kept)
  }

  /** `rar_file.split('-')[3]`: the fourth `-`-separated field, or the `IndexError` of a name with fewer fields. */
  function Year(name: string): (r: Result<string>)
    ensures r.Err? <==> Count(name, '-') < 3
    ensures r.Err? ==> r.error == IndexError
    ensures r.Ok? ==> '-' !in r.value
  {
    var fields := Split(name, '-');
    if |fields| < 4 then Err(IndexError) else Ok(fields[3])
  }

  /** The year is a piece of the archive name: it has no character the name lacks. */
  lemma YearChars(name: string, c: char)
    requires Year(name).Ok?
    requires c in Year(name).value
    ensures c in name
  {
    SplitChars(name, '-', 3, c);
  }


  /** `name` reads `a-b-c-y` followed by nothing or by a further `-` field: `y` is its fourth field. */
  ghost predicate YearLayout(name: string, a: string, b: string, c: string, y: string, rest: string) {
    && '-' !in a && '-' !in b && '-' !in c && '-' !in y
    && (rest == [] || rest[0] == '-')
    && name == a + "-" + (b + "-" + (c + "-" + (y + rest)))
  }

  /** Any name laid out as `a-b-c-y...` has year `y`. */
  lemma YearOfLayout(name: string, a: string, b: string, c: string, y: string, rest: string)
    requires YearLayout(name, a, b, c, y, rest)
    ensures Year(name) == Ok(y)
  {
    var t := y + rest;
    if rest == [] {
      SplitNoSep(y, '-');
      assert t == y;
    } else {
      assert t == y + ['-'] + rest[1..];
      SplitCons(y, '-', rest[1..]);
    }
    assert name == a + ['-'] + (b + ['-'] + (c + ['-'] + t)) by {
      assert a + "-" + (b + "-" + (c + "-" + t)) == a + ['-'] + (b + ['-'] + (c + ['-'] + t));
    }
    SplitCons(c, '-', t);
    SplitCons(b, '-', c + ['-'] + t);
    SplitCons(a, '-', b + ['-'] + (c + ['-'] + t));
  }

  /** Conversely, a year is always the fourth field of such a layout of the name. */
  lemma YearHasLayout(name: string)
    requires Year(name).Ok?
    ensures exists a, b, c, rest :: YearLayout(name, a, b, c, Year(name).value, rest)
  {
    var f := Split(name, '-');
    var tail := JoinWith(f[3..], '-');
    var rest := if |f| == 4 then [] else ['-'] + JoinWith(f[4..], '-');
    assert f[3..][1..] == f[4..];
    assert tail == f[3] + rest;
    assert f[1..][1..] == f[2..] && f[2..][1..] == f[3..];
    assert JoinWith(f, '-') == f[0] + ['-'] + JoinWith(f[1..], '-');
    assert JoinWith(f[1..], '-') == f[1] + ['-'] + JoinWith(f[2..], '-');
    assert JoinWith(f[2..], '-') == f[2] + ['-'] + tail;
    assert name == f[0] + "-" + (f[1] + "-" + (f[2] + "-" + (f[3] + rest)));
    assert YearLayout(name, f[0], f[1], f[2], f[3], rest);
  }

  // ---------------------------------------------------------------------------
  // Renaming extracted entries

  /** What the script removes from every token. */
  const Filler := "archivo"

  /**
   * The new name of an extracted `.csv` entry, from the path it was extracted
   * to: the first `_`-separated field of the lower-cased basename, with every
   * `archivo` removed, looked up in the table, plus `.csv`. The first field
   * always exists, so the only failure is an unknown token.
   */
  function CsvNewName(extracted: string): (r: Result<string>)
    ensures r.Ok? ==> r.value in CsvNames
    ensures r.Err? ==> r.error.KeyError?
  {
    var token := Split(Lower(Basename(extracted)), '_')[0];
    match Lookup(RemoveAll(token, Filler))
    case Ok(category) => Ok(category + ".csv")
    case Err(e) => Err(e)
  }

  /**
   * The new name of an extracted `.xlsx` entry: the third `_`-separated field
   * of the lower-cased basename, cut before its first `.`, with every
   * `archivo` removed, looked up in the table, as `dict_<category>.xlsx`.
   * A basename with fewer than two `_` has no third field (`IndexError`).
   */
  function XlsxNewName(extracted: string): (r: Result<string>)
    ensures r.Ok? ==> r.value in DictionaryNames
    ensures r == Err(IndexError) <==> Count(Basename(extracted), '_') < 2
    ensures r.Err? ==> r.error == IndexError || r.error.KeyError?
  {
    var fields := Split(Lower(Basename(extracted)), '_');
    LowerCount(Basename(extracted), '_');
    if |fields| < 3 then Err(IndexError)
    else
      var token := Split(fields[2], '.')[0];
      match Lookup(RemoveAll(token, Filler))
      case Ok(category) => Ok("dict_" + category + ".xlsx")
      case Err(e) => Err(e)
  }

  /** The three branches of the entry loop, chosen on the entry's name as the archive lists it. */
  datatype Kind = CsvEntry | XlsxEntry | OtherEntry

  function Classify(entry: string): Kind {
    if EndsWith(entry, ".csv") then CsvEntry
    else if EndsWith(entry, ".xlsx") then XlsxEntry
    else OtherEntry
  }

  // ---------------------------------------------------------------------------
  // Properties of the renaming

  /**
   * The `.csv` rule on the shape of the name: for a basename `pre_rest` whose
   * `pre` has no `_`, the token is `pre` lower-cased without `archivo`,
   * whatever `rest` holds, and the new name is its category plus `.csv`.
   */
  lemma CsvRule(extracted: string, pre: string, rest: string)
    requires Basename(extracted) == pre + "_" + rest
    requires '_' !in pre
    ensures var key := RemoveAll(Lower(pre), Filler);
      CsvNewName(extracted) == if key in ChangeName then Ok(ChangeName[key] + ".csv") else Err(KeyError(key))
  {
    LowerAppend(pre + "_", rest);
    LowerAppend(pre, "_");
    assert Lower("_") == "_";
    LowerKeepsAbsent(pre, '_');
    SplitCons(Lower(pre), '_', Lower(rest));
  }

  /**
   * The `.xlsx` rule on the shape of the name: for a basename `a_b_c.rest` or
   * `a_b_c_rest` whose `a`, `b` and `c` have no `_` and whose `c` has no `.`,
   * the token is `c` lower-cased without `archivo`, whatever `rest` holds,
   * and the new name is `dict_` plus its category plus `.xlsx`. Every
   * `.xlsx` basename with at least two `_` has one of these shapes: `c` runs
   * up to the first `.` or `_` after the second `_`, and the extension
   * supplies a `.` if nothing earlier does.
   */
  lemma XlsxRule(extracted: string, a: string, b: string, c: string, x: char, rest: string)
    requires Basename(extracted) == a + "_" + b + "_" + c + [x] + rest
    requires x == '.' || x == '_'
    requires '_' !in a && '_' !in b && '_' !in c && '.' !in c
    ensures var key := RemoveAll(Lower(c), Filler);
      XlsxNewName(extracted) == if key in ChangeName then Ok("dict_" + ChangeName[key] + ".xlsx") else Err(KeyError(key))
  {
    var base := Basename(extracted);
    var lr := Lower(rest);
    XlsxLowerShape(a, b, c, x, rest);
    if x == '.' {
      var third := Lower(c) + "." + Split(lr, '_')[0];
      XlsxThirdFieldDot(Lower(a), Lower(b), Lower(c), lr);
      SplitCons(Lower(c), '.', Split(lr, '_')[0]);
      XlsxSteps(extracted, base, Lower(base), third, Lower(c), RemoveAll(Lower(c), Filler));
    } else {
      XlsxThirdFieldBar(Lower(a), Lower(b), Lower(c), lr);
      SplitNoSep(Lower(c), '.');
      XlsxSteps(extracted, base, Lower(base), Lower(c), Lower(c), RemoveAll(Lower(c), Filler));
    }
  }

  /** Lower-casing `a_b_cxrest` lower-cases each part and keeps the separators. */
  lemma XlsxLowerShape(a: string, b: string, c: string, x: char, rest: string)
    requires x == '.' || x == '_'
    requires '_' !in a && '_' !in b && '_' !in c && '.' !in c
    ensures Lower(a + "_" + b + "_" + c + [x] + rest) == Lower(a) + "_" + (Lower(b) + "_" + (Lower(c) + [x] + Lower(rest)))
    ensures '_' !in Lower(a) && '_' !in Lower(b) && '_' !in Lower(c) && '.' !in Lower(c)
  {
    LowerKeepsAbsent(a, '_');
    LowerKeepsAbsent(b, '_');
    LowerKeepsAbsent(c, '_');
    LowerKeepsAbsent(c, '.');
    assert Lower("_") == "_" && Lower([x]) == [x];
    LowerAppend(a + "_" + b + "_" + c + [x], rest);
    LowerAppend(a + "_" + b + "_" + c, [x]);
    LowerAppend(a + "_" + b + "_", c);
    LowerAppend(a + "_" + b, "_");
    LowerAppend(a + "_", b);
    LowerAppend(a, "_");
  }

  /** The third `_` field of `a_b_c.rest` is `c.` followed by the first `_` field of `rest`. */
  lemma XlsxThirdFieldDot(a: string, b: string, c: string, rest: string)
    requires '_' !in a && '_' !in b && '_' !in c
    ensures var fields := Split(a + "_" + (b + "_" + (c + "." + rest)), '_');
      |fields| >= 3 && fields[2] == c + "." + Split(rest, '_')[0]
  {
    var tail := c + "." + rest;
    SplitCons(a, '_', b + "_" + tail);
    SplitCons(b, '_', tail);
    assert tail == (c + ".") + rest;
    SplitHead(c + ".", '_', rest);
  }

  /** The third `_` field of `a_b_c_rest` is `c`. */
  lemma XlsxThirdFieldBar(a: string, b: string, c: string, rest: string)
    requires '_' !in a && '_' !in b && '_' !in c
    ensures var fields := Split(a + "_" + (b + "_" + (c + "_" + rest)), '_');
      |fields| >= 3 && fields[2] == c
  {
    var tail := c + "_" + rest;
    SplitCons(a, '_', b + "_" + tail);
    SplitCons(b, '_', tail);
    SplitCons(c, '_', rest);
  }

  /** `ArchivoB_2019.csv`, extracted into any folder, becomes `inscripciones.csv`. */
  lemma CsvExample(folder: string)
    ensures CsvNewName(Join(folder, "ArchivoB_2019.csv")) == Ok("inscripciones.csv")
  {
    BasenameOfJoin(folder, "ArchivoB_2019.csv");
    CsvExampleAt(Join(folder, "ArchivoB_2019.csv"));
  }

  lemma CsvExampleAt(extracted: string)
    requires Basename(extracted) == "ArchivoB_2019.csv"
    ensures CsvNewName(extracted) == Ok("inscripciones.csv")
  {
    CsvExampleLower();
    CsvExampleFirstField();
    CsvExampleStrip();
    CsvExampleName();
    CsvSteps(extracted, "ArchivoB_2019.csv", "archivob_2019.csv", "archivob", "b");
  }

  /** `archivo_dict_matr.xlsx`, extracted into any folder, becomes `dict_matriculas.xlsx`. */
  lemma XlsxExample(folder: string)
    ensures XlsxNewName(Join(folder, "archivo_dict_matr.xlsx")) == Ok("dict_matriculas.xlsx")
  {
    BasenameOfJoin(folder, "archivo_dict_matr.xlsx");
    XlsxExampleAt(Join(folder, "archivo_dict_matr.xlsx"));
  }

  lemma XlsxExampleAt(extracted: string)
    requires Basename(extracted) == "archivo_dict_matr.xlsx"
    ensures XlsxNewName(extracted) == Ok("dict_matriculas.xlsx")
  {
    XlsxExampleLower();
    XlsxExampleFields();
    XlsxExampleCut();
    XlsxExampleStrip();
    XlsxExampleName();
    XlsxSteps(extracted, "archivo_dict_matr.xlsx", "archivo_dict_matr.xlsx", "matr.xlsx", "matr", "matr");
  }

  /**
   * The `.csv` token keeps its extension when the basename has no `_`, so it
   * can never be a table key: such an entry always fails with `KeyError`.
   */
  lemma CsvWithoutUnderscoreFails(extracted: string)
    requires EndsWith(Basename(extracted), ".csv")
    requires '_' !in Basename(extracted)
    ensures CsvNewName(extracted).Err?
    ensures EndsWith(CsvNewName(extracted).error.key, ".csv")
  {
    var base := Basename(extracted);
    var lowered := Lower(base);
    var key := RemoveAll(lowered, Filler);
    BareCsvKey(base);
    NoTokenEndsInCsv(key);
    CsvSteps(extracted, base, lowered, lowered, key);
  }

  /** A `_`-free `.csv` basename is its own first field, and its key keeps the extension. */
  lemma BareCsvKey(base: string)
    requires EndsWith(base, ".csv") && '_' !in base
    ensures Split(Lower(base), '_')[0] == Lower(base)
    ensures EndsWith(RemoveAll(Lower(base), Filler), ".csv")
  {
    var lowered := Lower(base);
    LowerCount(base, '_');
    CountZero(base, '_');
    CountZero(lowered, '_');
    SplitNoSep(lowered, '_');
    assert Lower(".csv") == ".csv";
    LowerEndsWith(base, ".csv");
    RemoveAllKeepsSuffix(lowered, ".csv", Filler);
  }

  /** No table key carries an extension. */
  lemma NoTokenEndsInCsv(key: string)
    requires EndsWith(key, ".csv")
    ensures key !in ChangeName
  {
  }

  /** `b.csv` (no `_`) is looked up as `b.csv` and fails. */
  lemma CsvTokenNotStripped(folder: string)
    ensures CsvNewName(Join(folder, "b.csv")) == Err(KeyError("b.csv"))
  {
    BasenameOfJoin(folder, "b.csv");
    BareCsvExampleSteps();
    CsvSteps(Join(folder, "b.csv"), "b.csv", "b.csv", "b.csv", "b.csv");
  }

  // ---------------------------------------------------------------------------
  // The individual steps of the examples. Each string computation is its own
  // lemma, so that no proof has to reason about several literals at once.

  /** `CsvNewName` follows the steps listed in its own comment: basename, lower, first field, removal, lookup. */
  lemma CsvSteps(extracted: string, base: string, low: string, first: string, token: string)
    requires Basename(extracted) == base
    requires Lower(base) == low
    requires Split(low, '_')[0] == first
    requires RemoveAll(first, Filler) == token
    ensures CsvNewName(extracted) == if token in ChangeName then Ok(ChangeName[token] + ".csv") else Err(KeyError(token))
  {
  }

  /** `XlsxNewName` follows the steps listed in its own comment: basename, lower, third field, cut at `.`, removal, lookup. */
  lemma XlsxSteps(extracted: string, base: string, low: string, third: string, field: string, token: string)
    requires Basename(extracted) == base
    requires Lower(base) == low
    requires |Split(low, '_')| >= 3 && Split(low, '_')[2] == third
    requires Split(third, '.')[0] == field
    requires RemoveAll(field, Filler) == token
    ensures XlsxNewName(extracted) == if token in ChangeName then Ok("dict_" + ChangeName[token] + ".xlsx") else Err(KeyError(token))
  {
  }

  lemma CsvExampleLower()
    ensures Lower("ArchivoB_2019.csv") == "archivob_2019.csv"
  {
  }

  lemma CsvExampleFirstField()
    ensures Split("archivob_2019.csv", '_')[0] == "archivob"
  {
    assert "archivob_2019.csv" == "archivob" + ['_'] + "2019.csv";
    SplitCons("archivob", '_', "2019.csv");
  }

  lemma CsvExampleStrip()
    ensures RemoveAll("archivob", Filler) == "b"
  {
    assert StartsWith("archivob", Filler);
    assert "archivob"[7..] == "b";
  }

  lemma CsvExampleName()
    ensures "b" in ChangeName && ChangeName["b"] + ".csv" == "inscripciones.csv"
  {
  }

  lemma XlsxExampleLower()
    ensures Lower("archivo_dict_matr.xlsx") == "archivo_dict_matr.xlsx"
  {
  }

  lemma XlsxExampleFields()
    ensures Split("archivo_dict_matr.xlsx", '_') == ["archivo", "dict", "matr.xlsx"]
  {
    XlsxExampleLayout();
    SplitThree("archivo", "dict", "matr.xlsx", '_');
  }

  lemma XlsxExampleLayout()
    ensures "archivo_dict_matr.xlsx" == "archivo" + ['_'] + ("dict" + ['_'] + "matr.xlsx")
    ensures '_' !in "archivo" && '_' !in "dict" && '_' !in "matr.xlsx"
  {
  }

  /** Three separator-free fields joined by the separator split back into those three fields. */
  lemma SplitThree(a: string, b: string, c: string, sep: char)
    requires sep !in a && sep !in b && sep !in c
    ensures Split(a + [sep] + (b + [sep] + c), sep) == [a, b, c]
  {
    SplitNoSep(c, sep);
    SplitCons(b, sep, c);
    SplitCons(a, sep, b + [sep] + c);
  }

  lemma XlsxExampleCut()
    ensures Split("matr.xlsx", '.')[0] == "matr"
  {
    assert "matr.xlsx" == "matr" + ['.'] + "xlsx";
    SplitCons("matr", '.', "xlsx");
  }

  lemma XlsxExampleStrip()
    ensures RemoveAll("matr", Filler) == "matr"
  {
  }

  lemma XlsxExampleName()
    ensures "matr" in ChangeName && "dict_" + ChangeName["matr"] + ".xlsx" == "dict_matriculas.xlsx"
  {
  }

  lemma BareCsvExampleSteps()
    ensures Lower("b.csv") == "b.csv"
    ensures Split("b.csv", '_')[0] == "b.csv"
    ensures RemoveAll("b.csv", Filler) == "b.csv"
    ensures "b.csv" !in ChangeName
  {
    assert '_' !in "b.csv";
    SplitNoSep("b.csv", '_');
  }
}
