/**
 The checker as a whole (`main` once the config is read): resolve the package
 names, run the outside pass and then the inside pass, report every violation
 and exit with 1 exactly when there is one.
 */
module Checker {

  import opened Optional
  import opened Collections
  import opened Paths
  import opened Imports
  import opened PackageConfig
  import opened Diagnostics
  import opened Rules
  import OutsidePass
  import InsidePass

  /** The parent of `package/pyproject.toml` when the root is the current directory. */
  const ConfigDir: Path := [PackageRoot]

  /**
   The report for chosen iteration orders: the outside pass over one parse of
   the tree, then the inside pass over another. Every outside violation names
   a listed package and a file outside `package`; every inside one a file of
   a listed package; and no outside violation follows an inside one.
   */
  function Report(outsideFiles: seq<ParsedFile>, insideFiles: seq<ParsedFile>, names: seq<string>): (r: seq<Violation>)
    requires Distinct(names)
    ensures forall v :: v in r && v.Outside? ==> v.name in names && !IsUnder(ConfigDir, v.file)
    ensures forall v :: v in r && v.Inside? ==> InsidePass.InPackageTree(v.file) && v.file[1] in names
    ensures forall i, j :: 0 <= i < j < |r| && r[i].Inside? ==> r[j].Inside?
  {
    var outside := OutsidePass.Violations(ConfigDir, outsideFiles, names);
    var inside := InsidePass.Violations(insideFiles, names);
    OutsideThenInside(outside, inside);
    outside + inside
  }

  /** `parsed` is one extraction of `tree`: same files, same paths, each file's records. */
  ghost predicate Extracted(tree: seq<SourceFile>, parsed: seq<ParsedFile>) {
    && |parsed| == |tree|
    && forall i :: 0 <= i < |tree| ==>
         parsed[i].path == tree[i].path && Flattens(tree[i].nodes, parsed[i].records)
  }

  /** Extracts the records of every file of the tree, in listing order. */
  method ParseTree(tree: seq<SourceFile>) returns (parsed: seq<ParsedFile>)
    ensures Extracted(tree, parsed)
  {
    parsed := [];
    var i := 0;
    while i < |tree|
      invariant 0 <= i <= |tree|
      invariant |parsed| == i
      invariant forall k :: 0 <= k < i ==>
        parsed[k].path == tree[k].path && Flattens(tree[k].nodes, parsed[k].records)
    {
      var recs := FileRecords(tree[i].nodes);
      parsed := parsed + [ParsedFile(tree[i].path, recs)];
      i := i + 1;
    }
  }

  /** Some statement on `line` of a file at path `f` yields a record that `rule` flags. */
  ghost predicate TreeHit(tree: seq<SourceFile>, f: Path, line: nat, rule: Rule) {
    exists i, j :: 0 <= i < |tree| && tree[i].path == f && 0 <= j < |tree[i].nodes| && NodeHit(tree[i].nodes[j], line, rule)
  }

  /** Any extraction of the tree flags a line of a file exactly when the tree's statements do. */
  lemma TreeCountHit(tree: seq<SourceFile>, parsed: seq<ParsedFile>, f: Path, line: nat, rule: Rule)
    requires Extracted(tree, parsed)
    ensures TreeCount(parsed, f, line, rule) > 0 <==> TreeHit(tree, f, line, rule)
  {
    TreeCountPositive(parsed, f, line, rule);
    if TreeCount(parsed, f, line, rule) > 0 {
      var i :| 0 <= i < |parsed| && parsed[i].path == f && Count(parsed[i].records, line, rule) > 0;
      CountPositive(parsed[i].records, line, rule);
      FlaggedRecordFromNode(tree[i].nodes, parsed[i].records, line, rule);
      var j :| 0 <= j < |tree[i].nodes| && NodeHit(tree[i].nodes[j], line, rule);
    }
    if TreeHit(tree, f, line, rule) {
      var i, j :| 0 <= i < |tree| && tree[i].path == f && 0 <= j < |tree[i].nodes| && NodeHit(tree[i].nodes[j], line, rule);
      FlaggedRecordFromNode(tree[i].nodes, parsed[i].records, line, rule);
      CountPositive(parsed[i].records, line, rule);
    }
  }

  /**
   The violations depend on the iteration orders only through their order:
   any two runs over the same config and tree report the same violations,
   each the same number of times.
   */
  lemma ReportDeterminedUpToOrder(
    c: Config, tree: seq<SourceFile>,
    names1: seq<string>, out1: seq<ParsedFile>, in1: seq<ParsedFile>,
    names2: seq<string>, out2: seq<ParsedFile>, in2: seq<ParsedFile>)
    requires Enumerates(names1, PackageNames(c)) && Extracted(tree, out1) && Extracted(tree, in1)
    requires Enumerates(names2, PackageNames(c)) && Extracted(tree, out2) && Extracted(tree, in2)
    ensures multiset(Report(out1, in1, names1)) == multiset(Report(out2, in2, names2))
  {
    var r1, r2 := Report(out1, in1, names1), Report(out2, in2, names2);
    forall i | 0 <= i < |tree|
      ensures multiset(out1[i].records) == multiset(out2[i].records)
      ensures multiset(in1[i].records) == multiset(in2[i].records)
    {
      FlattensPermutation(tree[i].nodes, out1[i].records, out2[i].records);
      FlattensPermutation(tree[i].nodes, in1[i].records, in2[i].records);
    }
    forall v ensures multiset(r1)[v] == multiset(r2)[v] {
      match v
      case Outside(f, l, n) =>
        TreeCountPermutation(out1, out2, f, l, OutsideRule(n));
      case Inside(f, l) =>
        if InsidePass.InPackageTree(f) {
          TreeCountPermutation(in1, in2, f, l, InsideRule(f[1]));
        }
    }
  }

  /**
   An outside violation is reported, whatever the iteration orders, exactly
   for a listed package name and a file outside `package` with a statement on
   that line that imports, absolutely, a path starting with the name.
   */
  lemma OutsideMember(c: Config, tree: seq<SourceFile>, names: seq<string>, outs: seq<ParsedFile>, ins: seq<ParsedFile>,
                      f: Path, l: nat, n: string)
    requires Enumerates(names, PackageNames(c)) && Extracted(tree, outs) && Extracted(tree, ins)
    ensures Outside(f, l, n) in Report(outs, ins, names) <==>
      n in PackageNames(c) && !IsUnder(ConfigDir, f) && TreeHit(tree, f, l, OutsideRule(n))
  {
    var outside := OutsidePass.Violations(ConfigDir, outs, names);
    var inside := InsidePass.Violations(ins, names);
    assert Report(outs, ins, names) == outside + inside;
    TreeCountHit(tree, outs, f, l, OutsideRule(n));
    assert Outside(f, l, n) !in inside;
  }

  /**
   An inside violation is reported, whatever the iteration orders, exactly
   for a file under `package/<p>` with `p` a listed name and a statement on
   that line that the inside rule of `p` flags.
   */
  lemma InsideMember(c: Config, tree: seq<SourceFile>, names: seq<string>, outs: seq<ParsedFile>, ins: seq<ParsedFile>,
                     f: Path, l: nat)
    requires Enumerates(names, PackageNames(c)) && Extracted(tree, outs) && Extracted(tree, ins)
    ensures Inside(f, l) in Report(outs, ins, names) <==>
      InsidePass.InPackageTree(f) && f[1] in PackageNames(c) && TreeHit(tree, f, l, InsideRule(f[1]))
  {
    var outside := OutsidePass.Violations(ConfigDir, outs, names);
    var inside := InsidePass.Violations(ins, names);
    assert Report(outs, ins, names) == outside + inside;
    assert Inside(f, l) !in outside;
    if InsidePass.InPackageTree(f) {
      TreeCountHit(tree, ins, f, l, InsideRule(f[1]));
    }
  }

  /** The two membership facts for every violation at once. */
  lemma ReportMembership(c: Config, tree: seq<SourceFile>, names: seq<string>, outs: seq<ParsedFile>, ins: seq<ParsedFile>)
    requires Enumerates(names, PackageNames(c)) && Extracted(tree, outs) && Extracted(tree, ins)
    ensures forall f, l, n ::
      Outside(f, l, n) in Report(outs, ins, names) <==>
        n in PackageNames(c) && !IsUnder(ConfigDir, f) && TreeHit(tree, f, l, OutsideRule(n))
    ensures forall f, l ::
      Inside(f, l) in Report(outs, ins, names) <==>
        InsidePass.InPackageTree(f) && f[1] in PackageNames(c) && TreeHit(tree, f, l, InsideRule(f[1]))
  {
    forall f, l, n
      ensures Outside(f, l, n) in Report(outs, ins, names) <==>
        n in PackageNames(c) && !IsUnder(ConfigDir, f) && TreeHit(tree, f, l, OutsideRule(n))
    {
      OutsideMember(c, tree, names, outs, ins, f, l, n);
    }
    forall f, l
      ensures Inside(f, l) in Report(outs, ins, names) <==>
        InsidePass.InPackageTree(f) && f[1] in PackageNames(c) && TreeHit(tree, f, l, InsideRule(f[1]))
    {
      InsideMember(c, tree, names, outs, ins, f, l);
    }
  }

  /**
   How often an outside violation is reported: once per record of that file
   and line that the outside rule of a listed name flags, and never for a
   file under `package` or an unlisted name.
   */
  lemma OutsideCount(c: Config, tree: seq<SourceFile>, names: seq<string>, outs: seq<ParsedFile>, ins: seq<ParsedFile>,
                     f: Path, l: nat, n: string)
    requires Enumerates(names, PackageNames(c)) && Extracted(tree, outs) && Extracted(tree, ins)
    ensures multiset(Report(outs, ins, names))[Outside(f, l, n)] ==
      if n in PackageNames(c) && !IsUnder(ConfigDir, f) then TreeCount(outs, f, l, OutsideRule(n)) else 0
  {
    var outside := OutsidePass.Violations(ConfigDir, outs, names);
    var inside := InsidePass.Violations(ins, names);
    assert Report(outs, ins, names) == outside + inside;
    assert Outside(f, l, n) !in inside;
    if IsUnder(ConfigDir, f) {
      assert Outside(f, l, n) !in outside;
    }
  }

  /**
   How often an inside violation is reported: once per record of that file
   and line that its own package's inside rule flags, and never for a file
   outside the tree of a listed package.
   */
  lemma InsideCount(c: Config, tree: seq<SourceFile>, names: seq<string>, outs: seq<ParsedFile>, ins: seq<ParsedFile>,
                    f: Path, l: nat)
    requires Enumerates(names, PackageNames(c)) && Extracted(tree, outs) && Extracted(tree, ins)
    ensures multiset(Report(outs, ins, names))[Inside(f, l)] ==
      if InsidePass.InPackageTree(f) && f[1] in PackageNames(c) then TreeCount(ins, f, l, InsideRule(f[1])) else 0
  {
    var outside := OutsidePass.Violations(ConfigDir, outs, names);
    var inside := InsidePass.Violations(ins, names);
    assert Report(outs, ins, names) == outside + inside;
    assert Inside(f, l) !in outside;
    if !InsidePass.InPackageTree(f) {
      assert Inside(f, l) !in inside;
    }
  }

  /** Outside violations followed by inside ones: no outside violation comes after an inside one. */
  lemma OutsideThenInside(outside: seq<Violation>, inside: seq<Violation>)
    requires forall v :: v in outside ==> v.Outside?
    requires forall v :: v in inside ==> v.Inside?
    ensures forall i, j :: 0 <= i < j < |outside + inside| && (outside + inside)[i].Inside? ==> (outside + inside)[j].Inside?
  {
    var all := outside + inside;
    forall k | 0 <= k < |outside| ensures all[k].Outside? {
      assert all[k] == outside[k];
    }
    forall k | |outside| <= k < |all| ensures all[k].Inside? {
      assert all[k] == inside[k - |outside|];
    }
  }

  /**
   `main` from the config onwards. Without a config file the run succeeds
   silently. Otherwise the violations are the outside pass's followed by the
   inside pass's for some iteration order of the name set and of each
   statement's pairs; an outside violation is reported for exactly the
   package names and absolute imports outside `package` whose path starts
   with the name, an inside violation for exactly the files of a listed
   package that import it by an absolute path starting with its name, or by
   any path starting with `package.<name>`. The exit
   code is 1 exactly when something is reported.
   */
  method Check(config: Option<Config>, tree: seq<SourceFile>) returns (exitCode: int, violations: seq<Violation>)
    ensures config.None? ==> exitCode == 0 && violations == []
    ensures exitCode == 0 <==> violations == []
    ensures exitCode == 1 <==> violations != []
    ensures forall i, j :: 0 <= i < j < |violations| && violations[i].Inside? ==> violations[j].Inside?
    ensures config.Some? ==>
      exists names, outs, ins ::
        && Enumerates(names, PackageNames(config.value))
        && Extracted(tree, outs) && Extracted(tree, ins)
        && violations == Report(outs, ins, names)
    ensures forall f, l, n ::
      Outside(f, l, n) in violations <==>
        && config.Some?
        && n in PackageNames(config.value)
        && !IsUnder(ConfigDir, f)
        && TreeHit(tree, f, l, OutsideRule(n))
    ensures forall f, l ::
      Inside(f, l) in violations <==>
        && config.Some?
        && InsidePass.InPackageTree(f)
        && f[1] in PackageNames(config.value)
        && TreeHit(tree, f, l, InsideRule(f[1]))
  {
    if config.None? {
      return 0, [];
    }
    var names := EnumerateSet(PackageNames(config.value));
    var outs := ParseTree(tree);
    var ins := ParseTree(tree);
    var outside := OutsidePass.Violations(ConfigDir, outs, names);
    var inside := InsidePass.Violations(ins, names);
    violations := outside + inside;
    exitCode := if |violations| > 0 then 1 else 0;
    assert violations == Report(outs, ins, names);
    ReportMembership(config.value, tree, names, outs, ins);
  }
}
