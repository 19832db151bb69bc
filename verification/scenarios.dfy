/**
 Concrete runs of the checker, each stated for every iteration order the
 runtime may pick.
 */
module Scenarios {

  import opened Optional
  import opened Collections
  import opened Strings
  import opened Paths
  import opened Imports
  import opened PackageConfig
  import opened Diagnostics
  import opened Rules
  import opened Checker

  /** A run over `tree` with config `c`, for some iteration orders. */
  ghost predicate Run(c: Config, tree: seq<SourceFile>, names: seq<string>, outs: seq<ParsedFile>, ins: seq<ParsedFile>) {
    Enumerates(names, PackageNames(c)) && Extracted(tree, outs) && Extracted(tree, ins)
  }

  /** Package `foo` with no package list. */
  const FooConfig := Config("foo", None)

  /** A file outside the package: `import foobaz.x` on line 1. */
  const LookalikeTree := [SourceFile(["app.py"], [Import(["foobaz.x"], 1)])]

  /** A file outside the package: `from package.foo import bar` on line 1. */
  const NamespacedTree := [SourceFile(["app.py"], [ImportFrom(Some("package.foo"), 0, 1)])]

  /** The file of package `foo` used below. */
  const FooFile: Path := ["package", "foo", "a.py"]

  /**
   `import foo.bar` on line 1, `from . import bar` on line 2,
   `from .package.foo import x` on line 3.
   */
  const SelfImportTree := [SourceFile(FooFile,
    [Import(["foo.bar"], 1), ImportFrom(None, 1, 2), ImportFrom(Some("package.foo"), 1, 3)])]

  /** Packages `a` and `b` listed under the main name `main`. */
  const TwoPackageConfig := Config("main", Some([PackageEntry("a"), PackageEntry("b")]))

  /** A file outside the packages: `import a.x, b.y` on line 1. */
  const TwoPackageTree := [SourceFile(["app.py"], [Import(["a.x", "b.y"], 1)])]

  /** In a tree of one file with one statement, a hit is a hit of that statement. */
  lemma SingleStatementHit(tree: seq<SourceFile>, f: Path, line: nat, rule: Rule)
    requires |tree| == 1 && |tree[0].nodes| == 1
    ensures TreeHit(tree, f, line, rule) <==> f == tree[0].path && NodeHit(tree[0].nodes[0], line, rule)
  {
  }

  lemma FooNames()
    ensures PackageNames(FooConfig) == {"foo"}
  {
  }

  /** Listing packages `a` and `b` replaces the main name `main`. */
  lemma ListedPackages()
    ensures PackageNames(TwoPackageConfig) == {"a", "b"}
  {
    var c := TwoPackageConfig;
    assert Entries(c)[0].includeName == "a" && Entries(c)[1].includeName == "b";
    forall n ensures n in PackageNames(c) <==> n in {"a", "b"} {
      if n in PackageNames(c) {
        var i :| 0 <= i < |Entries(c)| && Entries(c)[i].includeName == n;
      }
    }
  }

  /** `package.foo` is the namespaced form of `foo` and does not itself start with `foo`. */
  lemma NamespacedFoo()
    ensures StartsWith("package.foo", Namespace + "." + "foo")
    ensures !StartsWith("package.foo", "foo")
  {
    assert Namespace + "." + "foo" == "package.foo";
    assert "package.foo"[..3][0] == 'p';
  }

  lemma LookalikeHit()
    ensures TreeHit(LookalikeTree, ["app.py"], 1, OutsideRule("foo"))
  {
    var node := LookalikeTree[0].nodes[0];
    assert node.names[0] == "foobaz.x";
    assert Pair("foobaz.x", false) in ImportModules(node);
    SingleStatementHit(LookalikeTree, ["app.py"], 1, OutsideRule("foo"));
  }

  /**
   Outside the package, `import foobaz.x` is reported against package `foo`:
   the prefix test does not stop at dots.
   */
  lemma PrefixMatchIgnoresDots(names: seq<string>, outs: seq<ParsedFile>, ins: seq<ParsedFile>)
    requires Run(FooConfig, LookalikeTree, names, outs, ins)
    ensures Outside(["app.py"], 1, "foo") in Report(outs, ins, names)
  {
    OutsideMember(FooConfig, LookalikeTree, names, outs, ins, ["app.py"], 1, "foo");
    FooNames();
    LookalikeHit();
  }

  lemma NamespacedNoHit(f: Path, l: nat)
    ensures !TreeHit(NamespacedTree, f, l, OutsideRule("foo"))
    ensures InsidePass.InPackageTree(f) ==> !TreeHit(NamespacedTree, f, l, InsideRule(f[1]))
  {
    var node := NamespacedTree[0].nodes[0];
    assert ImportModules(node) == {Pair("package.foo", false)};
    NamespacedFoo();
    SingleStatementHit(NamespacedTree, f, l, OutsideRule("foo"));
    if InsidePass.InPackageTree(f) {
      SingleStatementHit(NamespacedTree, f, l, InsideRule(f[1]));
    }
  }

  /**
   Outside the package, importing through the namespace
   (`from package.foo import bar`) is accepted: the run reports nothing.
   */
  lemma NamespacedImportAccepted(names: seq<string>, outs: seq<ParsedFile>, ins: seq<ParsedFile>)
    requires Run(FooConfig, NamespacedTree, names, outs, ins)
    ensures Report(outs, ins, names) == []
  {
    var r := Report(outs, ins, names);
    FooNames();
    forall v ensures v !in r {
      match v
      case Outside(f, l, n) =>
        OutsideMember(FooConfig, NamespacedTree, names, outs, ins, f, l, n);
        NamespacedNoHit(f, l);
      case Inside(f, l) =>
        InsideMember(FooConfig, NamespacedTree, names, outs, ins, f, l);
        NamespacedNoHit(f, l);
    }
    NothingInEmpty(r);
  }

  lemma SelfImportHits()
    ensures TreeHit(SelfImportTree, FooFile, 1, InsideRule("foo"))
    ensures !TreeHit(SelfImportTree, FooFile, 2, InsideRule("foo"))
    ensures TreeHit(SelfImportTree, FooFile, 3, InsideRule("foo"))
  {
    var nodes := SelfImportTree[0].nodes;
    assert nodes[0].names[0] == "foo.bar";
    assert Pair("foo.bar", false) in ImportModules(nodes[0]);
    assert NodeHit(nodes[0], 1, InsideRule("foo"));
    assert ImportModules(nodes[1]) == {};
    assert ImportModules(nodes[2]) == {Pair("package.foo", true)};
    NamespacedFoo();
    assert NodeHit(nodes[2], 3, InsideRule("foo"));
    assert forall j :: 0 <= j < |nodes| ==> !NodeHit(nodes[j], 2, InsideRule("foo"));
  }

  /**
   Extraction of the self-importing file: one record for line 1, none for the
   bare `from . import bar`, one for line 3, in walk order.
   */
  lemma SelfImportRecords(recs: seq<ImportRecord>)
    requires Flattens(SelfImportTree[0].nodes, recs)
    ensures recs == [ImportRecord(1, "foo.bar", false), ImportRecord(3, "package.foo", true)]
  {
    var nodes := SelfImportTree[0].nodes;
    assert nodes[0].names[0] == "foo.bar";
    assert ImportModules(nodes[0]) == {Pair("foo.bar", false)};
    assert ImportModules(nodes[1]) == {};
    assert ImportModules(nodes[2]) == {Pair("package.foo", true)};
    var rest := recs[1..];
    assert |ImportModules(nodes[0])| == 1 && NodeBlock(recs[..1], nodes[0]);
    BlockContents(recs[..1], nodes[0]);
    assert recs[0] in recs[..1] && Yields(nodes[0], recs[0]);
    assert PairOf(recs[0]) == Pair("foo.bar", false);
    assert recs[0] == ImportRecord(1, "foo.bar", false);
    assert nodes[1..][0] == nodes[1] && nodes[1..][1..] == nodes[2..];
    assert Flattens(nodes[2..], rest);
    assert nodes[2..][0] == nodes[2] && nodes[2..][1..] == [];
    assert |ImportModules(nodes[2])| == 1 && NodeBlock(rest[..1], nodes[2]);
    BlockContents(rest[..1], nodes[2]);
    assert rest[0] in rest[..1] && Yields(nodes[2], rest[0]);
    assert PairOf(rest[0]) == Pair("package.foo", true);
    assert rest[0] == ImportRecord(3, "package.foo", true);
    assert rest[1..] == [];
    assert recs == [recs[0]] + [rest[0]] + rest[1..];
  }

  /** Line 1 and line 3 of the self-importing file each hold one flagged record. */
  lemma SelfImportCounts(ins: seq<ParsedFile>)
    requires Extracted(SelfImportTree, ins)
    ensures TreeCount(ins, FooFile, 1, InsideRule("foo")) == 1
    ensures TreeCount(ins, FooFile, 3, InsideRule("foo")) == 1
  {
    var recs := ins[0].records;
    var r1, r3 := ImportRecord(1, "foo.bar", false), ImportRecord(3, "package.foo", true);
    SelfImportRecords(recs);
    assert ins[0].path == FooFile && ins[1..] == [];
    assert recs[1..] == [r3] && recs[1..][1..] == [];
    NamespacedFoo();
    assert Flags(InsideRule("foo"), r3);
    assert Flags(InsideRule("foo"), r1) by {
      assert "foo.bar"[..3] == "foo";
    }
    forall l ensures TreeCount(ins, FooFile, l, InsideRule("foo")) == Hit(r1, l, InsideRule("foo")) + Hit(r3, l, InsideRule("foo")) {
      assert Count(recs, l, InsideRule("foo")) == Hit(r1, l, InsideRule("foo")) + Count([r3], l, InsideRule("foo"));
    }
  }

  /**
   Inside package `foo`, `import foo.bar` on line 1 and
   `from .package.foo import x` on line 3 are reported, while
   `from . import bar` on line 2 is not; lines 1 and 3 are reported once each.
   */
  lemma SelfImportInsidePackage(names: seq<string>, outs: seq<ParsedFile>, ins: seq<ParsedFile>)
    requires Run(FooConfig, SelfImportTree, names, outs, ins)
    ensures Inside(FooFile, 1) in Report(outs, ins, names)
    ensures Inside(FooFile, 2) !in Report(outs, ins, names)
    ensures Inside(FooFile, 3) in Report(outs, ins, names)
    ensures multiset(Report(outs, ins, names))[Inside(FooFile, 1)] == 1
    ensures multiset(Report(outs, ins, names))[Inside(FooFile, 3)] == 1
  {
    FooNames();
    SelfImportHits();
    assert InsidePass.InPackageTree(FooFile) && FooFile[1] == "foo";
    assert Inside(FooFile, 1) in Report(outs, ins, names) by {
      InsideMember(FooConfig, SelfImportTree, names, outs, ins, FooFile, 1);
    }
    assert Inside(FooFile, 2) !in Report(outs, ins, names) by {
      InsideMember(FooConfig, SelfImportTree, names, outs, ins, FooFile, 2);
    }
    assert Inside(FooFile, 3) in Report(outs, ins, names) by {
      InsideMember(FooConfig, SelfImportTree, names, outs, ins, FooFile, 3);
    }
    assert multiset(Report(outs, ins, names))[Inside(FooFile, 1)] == 1 by {
      InsideCount(FooConfig, SelfImportTree, names, outs, ins, FooFile, 1);
      SelfImportCounts(ins);
    }
    assert multiset(Report(outs, ins, names))[Inside(FooFile, 3)] == 1 by {
      InsideCount(FooConfig, SelfImportTree, names, outs, ins, FooFile, 3);
      SelfImportCounts(ins);
    }
  }

  lemma TwoPackageHits()
    ensures TreeHit(TwoPackageTree, ["app.py"], 1, OutsideRule("a"))
    ensures TreeHit(TwoPackageTree, ["app.py"], 1, OutsideRule("b"))
  {
    var node := TwoPackageTree[0].nodes[0];
    assert node.names[0] == "a.x" && node.names[1] == "b.y";
    assert Pair("a.x", false) in ImportModules(node) && Pair("b.y", false) in ImportModules(node);
    SingleStatementHit(TwoPackageTree, ["app.py"], 1, OutsideRule("a"));
    SingleStatementHit(TwoPackageTree, ["app.py"], 1, OutsideRule("b"));
  }

  /**
   Extraction of `import a.x, b.y`: the two absolute records of line 1, in
   either order.
   */
  lemma TwoPackageRecords(recs: seq<ImportRecord>)
    requires Flattens(TwoPackageTree[0].nodes, recs)
    ensures multiset(recs) == multiset{ImportRecord(1, "a.x", false), ImportRecord(1, "b.y", false)}
  {
    var nodes := TwoPackageTree[0].nodes;
    var recA, recB := ImportRecord(1, "a.x", false), ImportRecord(1, "b.y", false);
    assert nodes[0].names[0] == "a.x" && nodes[0].names[1] == "b.y";
    assert ImportModules(nodes[0]) == {Pair("a.x", false), Pair("b.y", false)};
    assert |ImportModules(nodes[0])| == 2 && NodeBlock(recs[..2], nodes[0]);
    assert nodes[1..] == [] && recs[2..] == [];
    assert recs == recs[..2];
    BlockContents(recs, nodes[0]);
    assert Yields(nodes[0], recA) && Yields(nodes[0], recB);
    assert Distinct([recA, recB]);
    SameElementsPermutation(recs, [recA, recB]);
  }

  /** Line 1 of `app.py` holds one record flagged for `a` and one for `b`. */
  lemma TwoPackageCounts(outs: seq<ParsedFile>)
    requires Extracted(TwoPackageTree, outs)
    ensures TreeCount(outs, ["app.py"], 1, OutsideRule("a")) == 1
    ensures TreeCount(outs, ["app.py"], 1, OutsideRule("b")) == 1
  {
    var recA, recB := ImportRecord(1, "a.x", false), ImportRecord(1, "b.y", false);
    TwoPackageRecords(outs[0].records);
    assert outs[0].path == ["app.py"] && outs[1..] == [];
    assert [recA, recB][1..] == [recB] && [recB][1..] == [];
    assert "a.x"[..1] == "a" && "b.y"[..1] == "b";
    assert "a.x"[..1][0] == 'a' && "b.y"[..1][0] == 'b';
    assert Hit(recA, 1, OutsideRule("a")) == 1 && Hit(recB, 1, OutsideRule("a")) == 0;
    assert Hit(recA, 1, OutsideRule("b")) == 0 && Hit(recB, 1, OutsideRule("b")) == 1;
    forall rule | rule in {OutsideRule("a"), OutsideRule("b")}
      ensures TreeCount(outs, ["app.py"], 1, rule) == Hit(recA, 1, rule) + Hit(recB, 1, rule)
    {
      CountPermutation(outs[0].records, [recA, recB], 1, rule);
      assert Count([recA, recB], 1, rule) == Hit(recA, 1, rule) + Count([recB], 1, rule);
      assert TreeCount(outs, ["app.py"], 1, rule) == Count(outs[0].records, 1, rule) + TreeCount(outs[1..], ["app.py"], 1, rule);
    }
  }

  /**
   With packages `a` and `b` listed, a file outside importing `a.x` and
   `b.y` gets one violation per package, each exactly once, and none for the
   main name `main`.
   */
  lemma OneViolationPerPackage(names: seq<string>, outs: seq<ParsedFile>, ins: seq<ParsedFile>)
    requires Run(TwoPackageConfig, TwoPackageTree, names, outs, ins)
    ensures Outside(["app.py"], 1, "a") in Report(outs, ins, names)
    ensures Outside(["app.py"], 1, "b") in Report(outs, ins, names)
    ensures Outside(["app.py"], 1, "main") !in Report(outs, ins, names)
    ensures multiset(Report(outs, ins, names))[Outside(["app.py"], 1, "a")] == 1
    ensures multiset(Report(outs, ins, names))[Outside(["app.py"], 1, "b")] == 1
  {
    ListedPackages();
    TwoPackageHits();
    OutsideMember(TwoPackageConfig, TwoPackageTree, names, outs, ins, ["app.py"], 1, "a");
    OutsideMember(TwoPackageConfig, TwoPackageTree, names, outs, ins, ["app.py"], 1, "b");
    OutsideMember(TwoPackageConfig, TwoPackageTree, names, outs, ins, ["app.py"], 1, "main");
    assert !IsUnder(ConfigDir, ["app.py"]);
    assert multiset(Report(outs, ins, names))[Outside(["app.py"], 1, "a")] == 1 by {
      OutsideCount(TwoPackageConfig, TwoPackageTree, names, outs, ins, ["app.py"], 1, "a");
      TwoPackageCounts(outs);
    }
    assert multiset(Report(outs, ins, names))[Outside(["app.py"], 1, "b")] == 1 by {
      OutsideCount(TwoPackageConfig, TwoPackageTree, names, outs, ins, ["app.py"], 1, "b");
      TwoPackageCounts(outs);
    }
  }
}
