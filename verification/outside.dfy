/**
 `check_non_package_imports`: files outside the package directory must reach
 a package through the `package.` namespace, never by its bare name.
 */
module OutsidePass {

  import opened Paths
  import opened Imports
  import opened Diagnostics
  import opened Rules
  import opened Collections

  /**
   The violations of one record, for package names iterated from a set: one
   violation at the record's line for each name that flags it, that is, each
   name the record's path starts with when the record is absolute. A relative
   record yields none.
   */
  function RecordViolations(file: Path, r: ImportRecord, names: seq<string>): (vs: seq<Violation>)
    requires Distinct(names)
    ensures r.isRelative ==> vs == []
    ensures forall v :: v in vs ==> v.Outside? && v.file == file && v.line == r.line && v.name in names
    ensures forall l, n :: multiset(vs)[Outside(file, l, n)] == (if n in names then Hit(r, l, OutsideRule(n)) else 0)
    decreases |names|
  {
    if |names| == 0 then []
    else
      assert names == [names[0]] + names[1..];
      DistinctTail(names);
      (if Flags(OutsideRule(names[0]), r) then [Outside(file, r.line, names[0])] else [])
      + RecordViolations(file, r, names[1..])
  }

  /**
   The violations of one file, for package names iterated from a set: every
   (record, name) pair the outside rule flags gives exactly one violation at
   the record's line.
   */
  function FileViolations(file: Path, recs: seq<ImportRecord>, names: seq<string>): (vs: seq<Violation>)
    requires Distinct(names)
    ensures forall v :: v in vs ==> v.Outside? && v.file == file && v.name in names
    ensures forall l, n :: multiset(vs)[Outside(file, l, n)] == (if n in names then Count(recs, l, OutsideRule(n)) else 0)
    decreases |recs|
  {
    if |recs| == 0 then []
    else RecordViolations(file, recs[0], names) + FileViolations(file, recs[1..], names)
  }

  /**
   The whole outside pass over the tree, files in listing order. A file that
   has `configDir` among its parents is skipped, so no violation points into
   the config directory; every other file contributes one violation per
   flagged (record, name) pair.
   */
  function Violations(configDir: Path, files: seq<ParsedFile>, names: seq<string>): (vs: seq<Violation>)
    requires Distinct(names)
    ensures forall v :: v in vs ==> v.Outside? && !IsUnder(configDir, v.file) && v.name in names
    ensures forall f, l, n ::
              !IsUnder(configDir, f) ==>
                multiset(vs)[Outside(f, l, n)] == (if n in names then TreeCount(files, f, l, OutsideRule(n)) else 0)
    decreases |files|
  {
    if |files| == 0 then []
    else
      ParentsAreAncestors(configDir, files[0].path);
      (if configDir !in Parents(files[0].path) then FileViolations(files[0].path, files[0].records, names) else [])
      + Violations(configDir, files[1..], names)
  }
}
