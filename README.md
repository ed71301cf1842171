# fake-bpy-module: `gen_module_by_inspect.py`, aggregation and argument trimming

`gen_module_by_inspect.py` imports Blender's `bpy` module, reflects over its
members and writes one JSON file per top-level package, each holding
`{"new": [...]}` with the class and function descriptors found under that
package. This project models the two deterministic parts of that script in
Dafny and proves their properties:

- **Aggregation** (`write_to_modfile`). The analysis result is a dictionary from
  module name to `{classes, functions}`, iterated in insertion order. It is grouped
  by package, where the package is the module name cut at its first `.`. Each
  package's `{"new": []}` record is created the first time the package is met.
  Then the module's classes, followed by its functions, are appended to it one
  by one. Finally each record is written to `<output_dir>/<package>.json`.
- **Host-argument trimming** (`parse_options`). Only the arguments after the
  first `--` are kept. When there is no `--`, `argv.index` raises, the bare
  `except` sets the index to `len(argv)`, and nothing is kept.

Layout:

- `search.dfy`, module `Search`: first-occurrence search (`FirstIndex`), the common
  core of Python's `list.index` and `str.find` (`Find`, which returns -1).
- `aggregator.dfy`, module `Aggregator`: the data model (`ModuleInfo`,
  `PackageRecord`), `PackageName`, the imperative grouping loop (`GroupByPackage`,
  with one iteration `AddModule` and the inner append loops `AppendAll`), the
  writing loop (`WriteRecords`, `WriteToModfile`), and the reference definitions
  with their lemmas.
- `options.dfy`, module `Options`: `TrimHostArgv` and its lemma.

Modelling choices:

- Descriptors are opaque values of a type parameter `D`.
- The analysis dictionary `info` is a sequence of `ModuleInfo(name, classes, functions)`.
  A Python dict keeps insertion order, and a sequence keeps that order too.
  The model does not require the names to be distinct: every property holds
  without that assumption.
- `data` is a `map<string, PackageRecord<D>>` together with `order`, the sequence
  of its keys in insertion order. `"new"` is a Dafny keyword, so the record's
  field is called `newEntries`.
- The grouping is specified over *tagged* modules. `Tag(m)` pairs the package of
  `m` with its classes followed by its functions, and `TagAll(info)` tags every
  module in order. The reference definitions `PackageSet`, `FirstSeen`,
  `EntriesFor` and `TotalSize` are recursive on the last module processed, which
  is the order the loop of `write_to_modfile` follows. `GroupByPackage`'s loop is
  proved against them.
- File writes are not performed. `WriteToModfile` returns the list of
  `(path, record)` writes in the order the source performs them.

## Model

| member | source | states |
|---|---|---|
| `Search.FirstIndex` | gen_module_by_inspect.py:102 | `list.index` semantics: `None` exactly when the value is absent; otherwise an in-range index holding the value with no earlier occurrence |
| `Search.FirstIndexUnique` | gen_module_by_inspect.py:102 | the first occurrence is unique: any index holding `x` with no earlier `x` is the one `FirstIndex` returns |
| `Search.Find` | gen_module_by_inspect.py:79 | `str.find` for one character: -1 exactly when the character is absent, otherwise the index of its first occurrence |
| `Aggregator.PackageName` | gen_module_by_inspect.py:78-81 | the package is a dot-free prefix of the module name; it is the whole name when there is no `.`, and otherwise it stops right before the first `.` |
| `Aggregator.PackageNameOfDotted` | gen_module_by_inspect.py:78-81 | for a dot-free `head`, the package of `head + "." + rest` is `head` |
| `Aggregator.PackagesOfModules` | gen_module_by_inspect.py:77-86 | a package is among the keys exactly when the package name of some module name in `info` equals it |
| `Aggregator.PackageSetMembers` | gen_module_by_inspect.py:83-86 | a package is in the key set exactly when some tagged module carries it |
| `Aggregator.FirstSeenMembers` | gen_module_by_inspect.py:83-86 | a package is in the insertion order exactly when it is in the key set |
| `Aggregator.FirstSeenPrefix` | gen_module_by_inspect.py:83-86 | the key order after a prefix of the modules is a prefix of the final key order |
| `Aggregator.FirstSeenOrder` | gen_module_by_inspect.py:83-86 | the key order is the order of first encounter: a package met before the module where another is first met comes earlier in the order |
| `Aggregator.FirstSeenIsKeyOrder` | gen_module_by_inspect.py:83-86 | the insertion order lists exactly the packages, each once, so each `{"new": []}` record is created only once |
| `Aggregator.EntriesForAbsent` | gen_module_by_inspect.py:83-86 | a package no module belongs to has an empty list |
| `Aggregator.EntriesForAppend` | gen_module_by_inspect.py:77-90 | the list for a package over `a + b` is its list over `a` followed by its list over `b` |
| `Aggregator.AppendOnly` | gen_module_by_inspect.py:87-90 | append-only: the list after processing a prefix of the modules is a prefix of the final list |
| `Aggregator.EntriesForSingle` | gen_module_by_inspect.py:87-90 | one module contributes its classes and functions to its own package and nothing to any other |
| `Aggregator.NoLeak` | gen_module_by_inspect.py:87-90 | inserting a module anywhere leaves every other package's list unchanged, and puts its entries into its own package's list at that position |
| `Aggregator.TagAllAppend` | gen_module_by_inspect.py:77 | tagging a concatenation of module sequences tags each part, so the lemmas over tagged modules apply to `info` directly |
| `Aggregator.NoLeakModules` | gen_module_by_inspect.py:77-90 | over the analysis result itself: inserting a module leaves every other package's list unchanged and puts its classes then functions into its own package's list at that position |
| `Aggregator.EntriesComeFromPackage` | gen_module_by_inspect.py:87-90 | every entry of a package's list comes from some module of that package |
| `Aggregator.SumLengthsStep` | gen_module_by_inspect.py:87-90 | one more module adds its number of entries to the summed list lengths of a set of distinct packages that contains its package, and nothing otherwise |
| `Aggregator.NoDeduplication` | gen_module_by_inspect.py:87-90 | no deduplication: the lengths of all `"new"` lists add up to the total number of classes and functions over all modules |
| `Aggregator.SnocModule` | gen_module_by_inspect.py:77-90 | how the key set, the insertion order and every package's list extend when one more module is processed |
| `Aggregator.AppendAll` | gen_module_by_inspect.py:87-90 | an inner loop appends the descriptors, in order, to the named package's list; keys and all other records are unchanged |
| `Aggregator.GroupedStep` | gen_module_by_inspect.py:83-90 | creating the record when the package is missing and appending the module's entries keeps `data` and `order` the grouping of the processed modules |
| `Aggregator.AddModule` | gen_module_by_inspect.py:78-90 | one iteration of the outer loop turns the grouping of the processed modules into the grouping with one more module |
| `Aggregator.GroupByPackage` | gen_module_by_inspect.py:75-90 | the keys of `data` are exactly the packages; the insertion order is the order of first encounter; each package's `"new"` list is the concatenation, in input order, of each of its modules' classes followed by its functions |
| `Aggregator.OutputPathInjective` | gen_module_by_inspect.py:94 | distinct packages give distinct `<output_dir>/<package>.json` path strings |
| `Aggregator.WriteRecords` | gen_module_by_inspect.py:93-95 | one write per key in insertion order, of that key's record to its own path string; with distinct keys no two writes share a path string |
| `Aggregator.WriteToModfile` | gen_module_by_inspect.py:74-95 | one write per package, in first-encounter order, each of the package's full `"new"` list to `<output_dir>/<package>.json`; no two writes name the same path string |
| `Options.TrimHostArgv` | gen_module_by_inspect.py:100-105 | the result is a suffix of `argv`; it is empty when `--` is absent; otherwise it is exactly what follows the first `--` |
| `Options.TrimAfterFirstSeparator` | gen_module_by_inspect.py:101-105 | for host arguments without `--`, trimming `host + ["--"] + script` gives exactly `script`, including any later `--` |

## Left out

- `import_modules` (lines 14-22): a loop around `importlib.import_module`, a foreign call.
- `analyze_module` and its inner `analyze_module_internal` (lines 25-63): runtime reflection through `inspect`. The code also cannot run as written. Line 29 leaves a bare string in a dict literal, which is a syntax error. Line 33 reads `this_module_name` before it is assigned. Line 39 passes the `(name, obj)` tuple to `ismodule`. Line 52 tests `isclass` where functions are meant. Lines 49 and 59 use the undefined `c`, `f`, `analyze_class` and `analyze_function`. So there is no defined behaviour to model, and the descriptors stay opaque.
- `analyze` (lines 66-71): it only dispatches to `analyze_module`. Its result is the input `info` of the model.
- `os.makedirs`, `open` and `json.dump` (lines 92-95): file-system I/O and JSON formatting (`indent`, `sort_keys`, `separators`). The model returns the sequence of intended writes instead of performing them.
- The `argparse` handling (lines 107-119) and `main` (lines 122-140): library argument parsing and plumbing. `TrimHostArgv` models only the slicing that feeds `parse_args`.
- `GenerationConfig` (lines 10-11): a holder for one value with no behaviour. The output directory is a parameter of `WriteToModfile`.
- WriteToModfile: proves only that the writes name pairwise distinct path strings. Whether two strings name the same file (case folding on a case-insensitive file system, path normalisation) is not modelled, because the file system is not part of the model. So a later write overwriting an earlier one, such as `Bpy.json` and `bpy.json`, is not ruled out.
- `TrimHostArgv`: the bare `except` at line 103 catches any exception. Here `argv.index("--")` can only raise `ValueError`, so only that case is modelled.
