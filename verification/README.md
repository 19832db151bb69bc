# csplint import-hygiene checker, modelled in Dafny

csplint checks the imports of a Python project laid out as `package/<name>/…`
beside other code. It reads the package names from `package/pyproject.toml`
(the `include` values of `tool.poetry.packages`, or `tool.poetry.name` when
there are none). It then runs two passes over the syntax trees of the `.py`
files:

- **Outside pass.** Every file not under `package/` must import a package
  through the `package.` namespace. An absolute import whose dotted path starts
  with a package name, as a plain string prefix, is reported.
- **Inside pass.** Every file under `package/<name>/` must import its own
  package relatively. An absolute import starting with `<name>` is reported,
  and so is any import, relative or not, starting with `package.<name>`.

The outside violations come first, then the inside ones. The process exits
with 1 exactly when there is at least one violation.

The model is functional. Import statements, records, the config and
violations are immutable datatypes. The two passes are pure functions over
sequences. Python iterates a `set` in an unspecified order. This happens for
each statement's (module, relative) pairs and for the package-name set. The
model therefore picks that order nondeterministically (`EnumerateSet`), and
its contracts hold for every order. `Checker.ReportDeterminedUpToOrder` proves
that the order changes nothing but the order of the report.

Files and modules:

| file | module | models |
|---|---|---|
| `imports.dfy` | `Imports` | `get_import_modules`, the per-statement flattening of `parse_imports_from_file` |
| `config.dfy` | `PackageConfig` | the package-name resolution of `main` |
| `rules.dfy` | `Rules` | the two prefix/relativity tests and per-line counts of flagged records |
| `outside.dfy` | `OutsidePass` | `check_non_package_imports` |
| `inside.dfy` | `InsidePass` | `check_non_relative_imports` |
| `checker.dfy` | `Checker` | `main`: early exit, aggregation, exit code |
| `scenarios.dfy` | `Scenarios` | concrete runs: prefix edge case, namespaced import, self-import, several packages |
| `collections.dfy`, `strings.dfy`, `paths.dfy`, `optional.dfy`, `diagnostics.dfy` | | set enumeration, `str.startswith`, `Path.parents`, `None`, the violation datatype |

## Model

| member | source | states |
|---|---|---|
| Imports.ImportModules | csplint.py:63-67 | A `from` import with no module, or an empty one, yields no pair. One with a module yields exactly that module, relative iff its level is non-zero. A plain import yields only absolute pairs, exactly one per distinct alias name: never more than there are aliases, and as many when the aliases differ. |
| Imports.AliasPairsCount | csplint.py:67 | Collapsing aliases into a set gives at most one pair per alias, and exactly one per alias when all aliases differ. |
| Imports.BlockContents | csplint.py:57-60 | The records one statement contributes are exactly the pairs of its set, tagged with its line, each once. |
| Imports.DuplicateAliasesCollapse | csplint.py:59-60 | `import foo, foo` on line 3 yields the single record (3, `foo`, absolute). |
| Imports.FlattensMembership | csplint.py:55-60 | Any record stream of a file holds exactly the records its statements yield, and no others. |
| Imports.FlattensPermutation | csplint.py:57-60 | Two record streams of the same statements differ only in order: they are permutations of each other. |
| Imports.NodeRecords | csplint.py:59-60 | One statement contributes its pair set, walked once in an unspecified order, each pair tagged with the statement's line. |
| Imports.FileRecords | csplint.py:55-60 | The extraction loop returns a valid record stream for the file's statements, whatever set order it meets. |
| Collections.EnumerateSet | csplint.py:59 | Iterating a set visits every element exactly once, in an order the caller does not control. |
| PackageConfig.PackageNames | csplint.py:20-21 | The name set is never empty. The fallback `{name}` is taken when the package list is missing or empty; otherwise the set is exactly the `include` values, which may themselves be just `{name}`. |
| Strings.NotBoundaryAware | csplint.py:49 | The prefix test ignores dots: `foobaz.x` starts with `foo`. |
| Strings.StartsWithConcat | csplint.py:35-36 | A path starting with `package.<name>` starts with `package`. |
| Rules.Flags | csplint.py:35-37 | Only the inside rule ever flags a relative import (the outside test at csplint.py:49 requires an absolute one), and a flagged path starts with the rule's package name or with the `package` namespace. |
| Paths.Parents | csplint.py:46 | `parents` lists every proper ancestor of a path, nearest first. |
| Paths.ParentsAreAncestors | csplint.py:46 | The config directory is among a file's `parents` exactly when the file lies strictly inside it. |
| Rules.RelativityAsymmetry | csplint.py:35-37 | A relative import is never flagged from outside. Inside a package it is flagged exactly when it starts with `package.<name>`. |
| Rules.CountPermutation | csplint.py:47-49 | How many records of a file a rule flags does not depend on their order. |
| Rules.FlaggedRecordFromNode | csplint.py:34-35 | A file's records contain a flagged record on a line exactly when a statement on that line yields one. |
| OutsidePass.RecordViolations | csplint.py:48-52 | One violation at the record's line for each package name the record's path starts with, when the record is absolute. None for a relative record. |
| OutsidePass.FileViolations | csplint.py:47-52 | A file has exactly one violation per (record, package name) pair that the outside rule flags. |
| OutsidePass.Violations | csplint.py:44-52 | No violation points into the config directory. Every other file has, per line and listed name, exactly as many violations as it has flagged records. |
| InsidePass.PackageDirOwner | csplint.py:33 | A file lies under `package/<p>` exactly when its first component is `package` and its second is `p`. |
| InsidePass.FileViolations | csplint.py:34-41 | A file has one inside violation per record the inside rule of its package flags, at that record's line. |
| InsidePass.PackageViolations | csplint.py:32-41 | Only files under `package/<p>` are reported for `p`, each as often as it has flagged records on that line. |
| InsidePass.Violations | csplint.py:31-41 | Inside violations occur only for files of a listed package. Their number per file and line is the number of records that package's inside rule flags. |
| Checker.Report | csplint.py:23-25 | Every outside violation names a listed package and a file outside `package`; every inside one a file of a listed package; no outside violation follows an inside one. |
| Checker.ParseTree | csplint.py:34 | Each file of the tree is extracted, paths kept in listing order. |
| Checker.TreeCountHit | csplint.py:47-49 | After extraction, a flagged record exists on a line of a file exactly when a statement of the tree yields one. |
| Checker.OutsideMember | csplint.py:44-52 | An outside violation is reported exactly for a listed name, and for a file outside `package` with an absolute import on that line whose path starts with the name. |
| Checker.InsideMember | csplint.py:31-41 | An inside violation is reported exactly for a file under `package/<p>` with `p` listed, and a statement on that line that the inside rule of `p` flags. |
| Checker.OutsideCount | csplint.py:44-52 | An outside violation for a file, line and name is reported once per record there that the outside rule of that listed name flags, and never for a file under `package` or an unlisted name. |
| Checker.InsideCount | csplint.py:31-41 | An inside violation for a file and line is reported once per record there that its own package's inside rule flags, and never for a file outside a listed package's tree. |
| Checker.ReportMembership | csplint.py:23-25 | Both membership characterisations hold at once for every violation. |
| Checker.OutsideThenInside | csplint.py:23-25 | No outside violation comes after an inside one. |
| Checker.ReportDeterminedUpToOrder | csplint.py:21-25 | Any two runs on the same config and tree report the same violations, each the same number of times. |
| Checker.Check | csplint.py:13-28 | No config means exit 0 with no output. Otherwise the outside violations precede the inside ones, and membership is as in `OutsideMember`/`InsideMember`. The exit code is 1 iff something is reported, and 0 iff nothing is. |
| Scenarios.PrefixMatchIgnoresDots | csplint.py:49 | Outside the package, `import foobaz.x` is reported against package `foo`. |
| Scenarios.NamespacedImportAccepted | csplint.py:44-52 | Outside the package, `from package.foo import bar` leaves the report empty. |
| Scenarios.SelfImportRecords | csplint.py:55-67 | The file `import foo.bar` / `from . import bar` / `from .package.foo import x` extracts to exactly one record for line 1 and one for line 3, in that order. |
| Scenarios.SelfImportInsidePackage | csplint.py:35-37 | Inside `foo`, `import foo.bar` and `from .package.foo import x` are reported exactly once each. `from . import bar` is not reported. |
| Scenarios.ListedPackages | csplint.py:21 | Listing packages `a` and `b` gives exactly `{a, b}`, dropping the main name. |
| Scenarios.TwoPackageRecords | csplint.py:55-67 | `import a.x, b.y` on line 1 extracts to exactly the two absolute records of line 1, in either order. |
| Scenarios.OneViolationPerPackage | csplint.py:48-52 | `import a.x, b.y` outside gets exactly one violation for `a` and exactly one for `b`, and none for the unlisted main name. |

## Left out

- The `tomljson` subprocess (csplint.py:15-19). It is a foreign process, and the config is an already-parsed `Config` value; a missing `package/pyproject.toml` is `None`. As written, the call never yields a config. On POSIX, `run` given a list together with `shell=True` makes only `tomljson` the shell command, and the config path becomes the shell's `$0`; on Windows the list is joined into one command line and the path does reach `tomljson`. On both, neither stream is captured: the child writes to the inherited stdout and stderr, and `result.stderr` and `result.stdout` are `None`. A failing call ends in `SystemExit(None)`: exit status 0; csplint prints nothing itself, but the child's error text reaches the inherited stderr. A succeeding call prints its JSON to the terminal, then `json.loads(None)` raises `TypeError`. Either way a present config never reaches the two passes.
- Checker.Check: its `config.Some?` branch models the evident intent of csplint.py:15-21, a config file whose contents are captured and parsed. It does not model the as-written behaviour above, where a present config never reaches the two passes.
- JSON decoding, and the `KeyError` raised for a missing `tool.poetry.name` or a package entry without `include` (csplint.py:19-21). These are library failures. Both fields are required in the datatypes.
- `ast.parse`, its syntax errors and the traversal order of `ast.walk` (csplint.py:56-57). These belong to the Python parser. A file is given as its import statements, already in walk order.
- The filesystem: `Path.glob`, `exists` and `read_text` (csplint.py:13, 33, 45, 56). The tree is an input sequence of `.py` files in listing order. The inside pass for `p` takes the files of that tree under `package/<p>`, in the same order.
- The `sys.argv` root (csplint.py:10-12). The root is the current directory, so the config directory is `package`. The mismatch between the globs, which are relative to the current directory, and a root given on the command line is not modelled.
- InsidePass.PackageDir: the package name is one path component. `pathlib` would split a name containing `/`, or drop an empty one.
- `print` and `SystemExit` (csplint.py:27-28). `Checker.Check` returns the exit code and the violations instead.
- Message text, including the rendering of paths and line numbers (csplint.py:39-40, 51). A violation is `Outside(file, line, name)` or `Inside(file, line)`.
