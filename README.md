# DEMRE open-data archive processing, modelled in Dafny

The DEMRE open-data portal publishes one RAR archive per admission process.
The archives are named `PROCESO-…-<year>-….rar`. The processing script opens
every such archive in the archive folder, in sorted order. For each archive it:

- creates a year folder for data files;
- extracts each `.csv` entry into that folder and renames it after the
  category its name encodes (`ArchivoB_2019.csv` becomes `inscripciones.csv`);
- extracts each `.xlsx` entry into a sibling dictionary year folder and renames
  it the same way (`archivo_dict_matr.xlsx` becomes `dict_matriculas.xlsx`);
- cleans up the path the last entry of each kind was extracted to, and its
  folder, unless that folder's name is the year.

A chain of `os.path.join` calls from the working directory fixes all folders.

The model has seven modules:

- `Text`: the `str` operations the script relies on (`lower`, `split`,
  `replace` with an empty replacement, code-point ordering, `sorted`).
- `Paths`: POSIX `os.path.join`, `basename` and `dirname`.
- `Params`: the folder constants and the path chain of the parameters module,
  with the layout facts proved about it.
- `Naming`: the pure part of the script. It covers the archive filter, the
  year, the `change_name` table, and the new names of `.csv` and `.xlsx`
  entries, each with its `IndexError` and `KeyError` failure paths.
- `Processing`: the script itself over a file-system value. That value holds
  regular files, each carrying the archive entry it came from, and a set of
  directories. `os`, `shutil` and `rarfile` calls become functions on this
  value. The model raises these exceptions: an archive that cannot be opened,
  a name with too few fields (`IndexError`), an unknown token (`KeyError`),
  a path variable that was never set (`NameError`), `makedirs` over a regular
  file, and `remove` or `rmdir` on the wrong kind of entry. Each becomes an
  `Err` that ends the run. Extraction and moving never fail in the model
  (see "Left out"). The entry loop
  and the archive loop are methods with `while` loops, proved against fold
  functions.
- `Placement`: where entries end up, which failures end the entry loop, what
  the clean-up removes, and what a whole bundle leaves behind.
- `Confinement`: a successful run changes nothing outside the databases folder,
  so the archive folder is left exactly as it was.

The variables `csv_file_path` and `xlsx_file_path` are modelled as the script
uses them: they survive the entry loop and the bundle that set them. So a
bundle with no `.csv` entry cleans up the path the previous bundle extracted.
If no earlier bundle set the variable, the clean-up raises `NameError` (the
`Err(NameError(...))` of `Processing.Cleanup`). Placement after clean-up is
stated only for bundles that have both kinds of entry.

## Model

| member | source | states |
|---|---|---|
| Params.Layout | datos_demre/params.py:22-33 | each derived folder is the root followed by its literal relative path (`data`, `data/raw`, …, `data/raw/demre_open/databases/dictionaries`) |
| Params.LayoutUnderRoot | datos_demre/params.py:22-33 | for a root not ending in `/`, the files, dictionaries and archive folders are `root/data/raw/demre_open/…` |
| Params.FilesAndDictionariesApart | datos_demre/params.py:32-33 | the data-file and dictionary roots differ, and no path lies inside both |
| Params.ArchivesAndDatabasesApart | datos_demre/params.py:30-31 | no path lies inside both the archive folder and the databases folder, and neither folder is a prefix of the other |
| Params.DemreFoldersApart | datos_demre/params.py:27-28 | `demre_open` extends the text of `demre`, yet the two folders are different and disjoint |
| Params.SiblingsDisjoint | datos_demre/params.py:30-33 | two different plain names joined onto one folder give disjoint folders |
| Params.EverythingUnderData | datos_demre/params.py:24-33 | every derived folder lies strictly inside the data folder, which extends the root |
| Paths.Basename | datos_demre/scripts/raw_processing.py:56 | the basename has no separator, ends the path, and follows a separator when shorter than the path |
| Paths.BasenameOfJoin | datos_demre/scripts/raw_processing.py:55-56 | the basename of a separator-free name joined onto any folder is that name |
| Paths.DirnameOfJoin | datos_demre/scripts/raw_processing.py:66-70 | the folder of a separator-free name joined onto a proper folder is that folder |
| Paths.JoinInjective | datos_demre/scripts/raw_processing.py:55-58 | joining onto one folder keeps different relative names apart |
| Paths.DirnameInside | datos_demre/scripts/raw_processing.py:66-75 | the folder of a path strictly inside `c` starts with `c` |
| Text.Split | datos_demre/scripts/raw_processing.py:47 | `str.split` on a character: one more field than separators, no field holds the separator, and joining the fields gives back the string |
| Text.SplitJoin | datos_demre/scripts/raw_processing.py:47 | splitting a join of separator-free fields gives back the fields |
| Text.LowerCount | datos_demre/scripts/raw_processing.py:56 | lower-casing keeps the number of a non-letter character such as `_` |
| Text.RemoveAllSplice | datos_demre/scripts/raw_processing.py:57 | removing `archivo` works separately on either side of a character that cannot occur in it |
| Text.RemoveAllKeepsSuffix | datos_demre/scripts/raw_processing.py:57 | removing `archivo` keeps a short suffix that starts with a character outside it, such as `.csv` |
| Text.SortCorrect | datos_demre/scripts/raw_processing.py:32-35 | the insertion sort returns a sorted permutation of its input |
| Text.SortedUnique | datos_demre/scripts/raw_processing.py:32-35 | two sorted sequences with the same elements are equal, so `sorted` has one possible result |
| Text.LessEqTotal | datos_demre/scripts/raw_processing.py:32 | code-point order on strings is total |
| Text.LessEqTransitive | datos_demre/scripts/raw_processing.py:32 | code-point order on strings is transitive |
| Naming.ChangeNameShape | datos_demre/scripts/raw_processing.py:37-44 | the table maps exactly the six tokens onto exactly the four categories; the three enrolment spellings agree and the other tokens name distinct categories |
| Naming.Lookup | datos_demre/scripts/raw_processing.py:57 | the lookup succeeds exactly on the six tokens, gives a category, and raises `KeyError(token)` otherwise |
| Naming.FilterArchives | datos_demre/scripts/raw_processing.py:32-35 | each listing entry that starts with `PROCESO` and ends with `.rar` is kept as often as it is listed; every other entry is dropped |
| Naming.SelectArchives | datos_demre/scripts/raw_processing.py:32-35 | the archives are sorted, and they are exactly the listed archive names with their multiplicities |
| Naming.Year | datos_demre/scripts/raw_processing.py:47 | `IndexError` exactly when the name has fewer than three `-`; otherwise a field without `-` |
| Naming.YearOfLayout | datos_demre/scripts/raw_processing.py:47 | a name of the form `a-b-c-y` or `a-b-c-y-rest` with `-`-free parts has year `y` |
| Naming.YearHasLayout | datos_demre/scripts/raw_processing.py:47 | every name with a year has that form around its year |
| Naming.YearChars | datos_demre/scripts/raw_processing.py:47 | the year contains only characters of the archive name |
| Naming.CsvNewName | datos_demre/scripts/raw_processing.py:56-57 | a `.csv` rename gives one of the four `<category>.csv` names, or fails with `KeyError` |
| Naming.CsvRule | datos_demre/scripts/raw_processing.py:56-57 | for a basename `pre_rest` with `_`-free `pre`, the token is `pre` lower-cased with `archivo` removed, whatever `rest` holds; the new name is its category plus `.csv`, or the rename fails with `KeyError` of that token |
| Naming.XlsxNewName | datos_demre/scripts/raw_processing.py:62-64 | a `.xlsx` rename gives one of the four `dict_<category>.xlsx` names; it fails with `IndexError` exactly when the basename has fewer than two `_`, and otherwise only with `KeyError` |
| Naming.XlsxRule | datos_demre/scripts/raw_processing.py:62-64 | for a basename `a_b_c.rest` or `a_b_c_rest` with `_`-free `a`, `b`, `c` and `.`-free `c` (every `.xlsx` basename with at least two `_` has one of these shapes), the token is `c` lower-cased with `archivo` removed, whatever `rest` holds; the new name is `dict_` plus its category plus `.xlsx`, or the rename fails with `KeyError` of that token |
| Naming.CsvExample | datos_demre/scripts/raw_processing.py:55-57 | `ArchivoB_2019.csv`, extracted into any folder, is renamed `inscripciones.csv` |
| Naming.XlsxExample | datos_demre/scripts/raw_processing.py:61-64 | `archivo_dict_matr.xlsx`, extracted into any folder, is renamed `dict_matriculas.xlsx` |
| Naming.CsvWithoutUnderscoreFails | datos_demre/scripts/raw_processing.py:56-57 | a `.csv` basename without `_` keeps its extension in the token, so renaming it always fails with a `KeyError` whose key ends in `.csv` |
| Naming.CsvTokenNotStripped | datos_demre/scripts/raw_processing.py:56-57 | `b.csv` fails with `KeyError("b.csv")` rather than becoming `inscripciones.csv` |
| Naming.CsvNameShape | datos_demre/scripts/raw_processing.py:57-58 | every new `.csv` name is a plain name without `_` or `/` ending in `.csv` |
| Naming.DictionaryNameShape | datos_demre/scripts/raw_processing.py:63-64 | every new `.xlsx` name is a plain name with exactly one `_`, ending in `.xlsx` and not in `.csv` |
| Processing.MakeDirs | datos_demre/scripts/raw_processing.py:29-30 | `makedirs(exist_ok=True)` fails exactly when a regular file is at the path itself, and otherwise only adds the directory |
| Processing.Extract | datos_demre/scripts/raw_processing.py:55 | extraction puts the entry at the path, adds its folder, and keeps every other file |
| Processing.Move | datos_demre/scripts/raw_processing.py:59 | the moved file is at the destination, gone from the source, and every other file is kept |
| Processing.Remove | datos_demre/scripts/raw_processing.py:67-68 | `os.remove` of an existing path deletes a regular file and raises on a directory |
| Processing.Rmdir | datos_demre/scripts/raw_processing.py:69-70 | `os.rmdir` of an existing path deletes an empty directory and raises on a file or a non-empty directory |
| Processing.Target | datos_demre/scripts/raw_processing.py:54-65 | an entry has no destination exactly when it is neither `.csv` nor `.xlsx`; only `.csv` and `.xlsx` entries can fail |
| Processing.EntriesFailureSticks | datos_demre/scripts/raw_processing.py:53-65 | once a prefix of the entry loop fails, the whole loop fails with that error |
| Processing.ProcessEntries | datos_demre/scripts/raw_processing.py:53-65 | the loop over `rf.namelist()` computes the entry fold, stopping at the first exception |
| Processing.ProcessArchives | datos_demre/scripts/raw_processing.py:46-75 | the loop over the archives computes the bundle fold, stopping at the first exception |
| Processing.Run | datos_demre/scripts/raw_processing.py:29-75 | the script, statement by statement, computes the whole-run specification |
| Placement.TargetFolder | datos_demre/scripts/raw_processing.py:54-65 | a renamed `.csv` lands directly in the data-file year folder under a `<category>.csv` name; a renamed `.xlsx` lands directly in the dictionary year folder under a `dict_<category>.xlsx` name; other entries go nowhere |
| Placement.DifferentBranches | datos_demre/scripts/raw_processing.py:48-49 | nothing below the data-file year folder is below the dictionary year folder |
| Placement.SourceIsNoTarget | datos_demre/scripts/raw_processing.py:55-65 | an entry is never extracted onto another entry's new path unless its own rename fails |
| Placement.StepFails | datos_demre/scripts/raw_processing.py:54-65 | an entry step fails exactly when its rename fails, with that error |
| Placement.StepSettles | datos_demre/scripts/raw_processing.py:54-65 | after its step, an entry's new path holds a file of this archive that renames to that path, and its extraction path is empty |
| Placement.StepKeepsSettled | datos_demre/scripts/raw_processing.py:53-65 | a step keeps every earlier entry settled |
| Placement.EntriesSettle | datos_demre/scripts/raw_processing.py:53-65 | after a successful entry loop, every entry is settled; a destination shared by several entries holds one of them |
| Placement.EntriesIgnoreOthers | datos_demre/scripts/raw_processing.py:53-65 | the entry loop gives the same result as the loop over its `.csv` and `.xlsx` entries alone, so any other entry leaves state and errors unchanged |
| Placement.EntriesSucceed | datos_demre/scripts/raw_processing.py:53-65 | the entry loop succeeds exactly when every entry renames or is skipped |
| Placement.EntriesFirstFailure | datos_demre/scripts/raw_processing.py:53-65 | a failed entry loop fails with the error of the first entry that does not rename |
| Placement.LastSource | datos_demre/scripts/raw_processing.py:55-61 | the last extraction path of a kind is the old value when no entry has that kind, and otherwise the extraction path of an entry of that kind |
| Placement.LastIsLast | datos_demre/scripts/raw_processing.py:55-61 | when entry `i` has kind `k` and no later entry does, the last extraction path of kind `k` is entry `i`'s |
| Placement.EntriesLast | datos_demre/scripts/raw_processing.py:55-61 | after the entry loop, `csv_file_path` and `xlsx_file_path` hold `LastSource` of their kind over the entries, starting from their earlier values, so by `LastIsLast` the extraction path of the last entry of each kind |
| Placement.CleanupEffect | datos_demre/scripts/raw_processing.py:66-75 | an unset path raises `NameError`; otherwise, when the folder exists, the path leaves the files and the folder leaves the directories unless it is named like the year; the only other errors are those of `remove` and `rmdir` |
| Placement.CleanupKeepsYearFolders | datos_demre/scripts/raw_processing.py:69-70 | a folder named like the year is never removed by the clean-up |
| Placement.LastsEmptied | datos_demre/scripts/raw_processing.py:53-67 | with at least one entry of each kind, both path variables point at paths the loop has already emptied |
| Placement.BundleSettles | datos_demre/scripts/raw_processing.py:46-75 | a successful bundle with at least one `.csv` and one `.xlsx` entry leaves every entry of its archive settled after the clean-up |
| Confinement.StepConfined | datos_demre/scripts/raw_processing.py:54-65 | an entry step changes nothing outside the databases folder, and keeps the path variables inside it |
| Confinement.EntriesConfined | datos_demre/scripts/raw_processing.py:53-65 | the entry loop changes nothing outside the databases folder |
| Confinement.CleanupConfined | datos_demre/scripts/raw_processing.py:66-75 | the clean-up of a path inside the databases folder changes nothing outside it |
| Confinement.BundleConfined | datos_demre/scripts/raw_processing.py:46-75 | a bundle changes nothing outside the databases folder |
| Confinement.BundlesConfined | datos_demre/scripts/raw_processing.py:46-75 | the archive loop changes nothing outside the databases folder |
| Confinement.RunConfined | datos_demre/scripts/raw_processing.py:29-75 | a successful run changes nothing outside the databases folder |
| Confinement.RunKeepsArchives | datos_demre/scripts/raw_processing.py:29-75 | a successful run leaves every file and directory under the archive folder as it was |

## Left out

- Archive reading: `rarfile.RarFile` is not modelled. Each readable archive is a parameter mapping its path to its entry names; an archive that is absent fails with `CannotOpen`. Entry contents are represented only by the archive and entry name.
- `rarfile` sanitising entry names on extraction is not modelled. The placement and confinement lemmas assume entry names are relative. Paths are compared as text, so `..` components are not resolved.
- The working directory, the folder listing and the file system are parameters. The listing's order comes from `os.listdir`, and the model sorts it as the script does.
- A missing archive folder is not modelled. In the script, `os.listdir` raises on it (datos_demre/scripts/raw_processing.py:33) before anything is created. The model takes the listing as a parameter, so it has no such failure.
- Rerunning the script on the same input is not proved to give the same renamed files. `Processing.Move` does replace an existing destination, as a POSIX rename does, and `Processing.Extract` overwrites. But no lemma relates a second run to the first. On real systems that property also depends on `shutil.move` behaving as a rename, which is not claimed beyond the `Processing.Move` line below.
- No claim is made that every extraction subfolder is gone after a bundle. The script does not do that: the clean-up touches only the folder of the last `.csv` path and the last `.xlsx` path (`Placement.CleanupEffect`). With entries `x/ArchivoB_1.csv`, then `y/ArchivoC_1.csv`, then one `.xlsx` entry, the folder `<year>/y` is removed and `<year>/x` is left behind.
- `tqdm` only draws a progress bar and is left out.
- `ID_AUTHOR` (datos_demre/params.py:6) is not used by the script and is left out.
- Text.Lower: lower-cases ASCII letters only; Python's `str.lower` also lower-cases non-ASCII letters.
- Processing.MakeDirs: records only the requested directory, not its missing parents, and fails only when a regular file is at the path itself. The real call also raises when an ancestor of the path is a regular file, and on permission or disk errors; the model does not.
- Processing.Extract: never fails in the model. A corrupt or encrypted archive, a directory already at the extraction path, a regular file where a folder is needed, and permission or disk errors all make `rf.extract` raise in the script, and none of these is modelled. It also records only the folder of the extracted file, not every missing parent.
- Processing.Move: never fails in the model; it is a POSIX rename of a regular file. Moving onto an existing directory, cross-device copies, and permission or disk errors of `shutil.move` are not modelled.
- Processing.Run: on an exception only the error is returned, not the tree as it stood when the script stopped.
- Only POSIX path semantics are modelled; Windows paths are not.
- Placement.BundleSettles: states placement only for a bundle with at least one `.csv` and one `.xlsx` entry. A bundle lacking one kind cleans up a path left by an earlier bundle, and no placement claim is made for it. A later bundle of the same year may also overwrite earlier results, and that is not stated either.
- Confinement.RunConfined: assumes listing names without `/`, which `os.listdir` guarantees, and entry names that are relative.
