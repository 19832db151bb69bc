/**
 `check_non_relative_imports`: the files of a package must import the
 package itself relatively.
 */
module InsidePass {

  import opened Paths
  import opened Imports
  import opened Diagnostics
  import opened Rules
  import opened Collections

  /** The source directory of package `p`: `package/<p>`. */
  function PackageDir(p: string): Path {
    [PackageRoot, p]
  }

  /** `f` lies inside some package directory `package/<name>`. */
  predicate InPackageTree(f: Path) {
    |f| > 2 && f[0] == PackageRoot
  }

  /** The package directory a file lies under is named by its second component. */
  lemma PackageDirOwner(p: string, f: Path)
    ensures IsUnder(PackageDir(p), f) <==> InPackageTree(f) && f[1] == p
  {
    if InPackageTree(f) && f[1] == p {
      assert f[..2] == [f[0], f[1]];
    }
  }

  /** One violation, at the record's line, for every record the inside rule of `p` flags. */
  function FileViolations(file: Path, recs: seq<ImportRecord>, p: string): (vs: seq<Violation>)
    ensures forall v :: v in vs ==> v.Inside? && v.file == file
    ensures forall l :: multiset(vs)[Inside(file, l)] == Count(recs, l, InsideRule(p))
    decreases |recs|
  {
    if |recs| == 0 then []
    else
      (if Flags(InsideRule(p), recs[0]) then [Inside(file, recs[0].line)] else [])
      + FileViolations(file, recs[1..], p)
  }

  /**
   The violations of package `p`: the files of the tree under `package/<p>`,
   in listing order, each checked against the inside rule of `p`.
   */
  function PackageViolations(files: seq<ParsedFile>, p: string): (vs: seq<Violation>)
    ensures forall v :: v in vs ==> v.Inside? && IsUnder(PackageDir(p), v.file)
    ensures forall f, l :: IsUnder(PackageDir(p), f) ==>
      multiset(vs)[Inside(f, l)] == TreeCount(files, f, l, InsideRule(p))
    decreases |files|
  {
    if |files| == 0 then []
    else
      (if IsUnder(PackageDir(p), files[0].path) then FileViolations(files[0].path, files[0].records, p) else [])
      + PackageViolations(files[1..], p)
  }

  /**
   The whole inside pass, package by package in the iteration order of the
   name set. A file is checked only against the package whose directory holds
   it, and only when that package is one of the names; nothing outside
   `package/<name>` for a listed name is ever reported.
   */
  function Violations(files: seq<ParsedFile>, names: seq<string>): (vs: seq<Violation>)
    requires Distinct(names)
    ensures forall v :: v in vs ==> v.Inside? && InPackageTree(v.file) && v.file[1] in names
    ensures forall f, l :: InPackageTree(f) ==>
      multiset(vs)[Inside(f, l)] == (if f[1] in names then TreeCount(files, f, l, InsideRule(f[1])) else 0)
    decreases |names|
  {
    if |names| == 0 then []
    else
      assert names == [names[0]] + names[1..];
      assert Distinct(names[1..]) && names[0] !in names[1..] by {
        DistinctTail(names);
      }
      assert forall f :: IsUnder(PackageDir(names[0]), f) <==> InPackageTree(f) && f[1] == names[0] by {
        forall f ensures IsUnder(PackageDir(names[0]), f) <==> InPackageTree(f) && f[1] == names[0] {
          PackageDirOwner(names[0], f);
        }
      }
      PackageViolations(files, names[0]) + Violations(files, names[1..])
  }
}
