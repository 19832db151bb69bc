/**
 The two classification rules and how many records of a file each flags.
 */
module Rules {

  import opened Strings
  import opened Imports
  import opened Collections

  /** The import namespace `package.` under which packages are imported from outside. */
  const Namespace: string := "package"

  /**
   `OutsideRule(name)` is applied to files outside the package directory for
   every package name; `InsideRule(p)` to the files of package `p`.
   */
  datatype Rule = OutsideRule(name: string) | InsideRule(packageName: string)

  /**
   Whether a rule flags a record. Outside: an absolute import whose path
   starts with the name. Inside: an absolute import whose path starts with the
   package name, or any import, relative or not, whose path starts with
   `package.<name>`. Only the inside rule ever flags a relative import, and
   a flagged path starts with the rule's package name or with the namespace.
   */
  predicate Flags(rule: Rule, r: ImportRecord): (b: bool)
    ensures b && r.isRelative ==> rule.InsideRule?
    ensures b ==> StartsWith(r.modulePath, RuleName(rule)) || StartsWith(r.modulePath, Namespace)
  {
    match rule
    case OutsideRule(name) =>
      StartsWith(r.modulePath, name) && !r.isRelative
    case InsideRule(p) =>
      if StartsWith(r.modulePath, Namespace + "." + p) then
        StartsWithConcat(r.modulePath, Namespace, "." + p);
        true
      else
        StartsWith(r.modulePath, p) && !r.isRelative
  }

  /** The package name a rule is about. */
  function RuleName(rule: Rule): string {
    match rule
    case OutsideRule(name) => name
    case InsideRule(p) => p
  }

  /**
   The rules treat relativity asymmetrically: no relative import is ever
   flagged from outside, while inside a package a relative import is flagged
   exactly when its path starts with `package.<name>`.
   */
  lemma RelativityAsymmetry(r: ImportRecord, p: string)
    requires r.isRelative
    ensures !Flags(OutsideRule(p), r)
    ensures Flags(InsideRule(p), r) <==> StartsWith(r.modulePath, Namespace + "." + p)
  {
  }

  /** Number of records on `line` that `rule` flags. */
  function Count(recs: seq<ImportRecord>, line: nat, rule: Rule): nat
    decreases |recs|
  {
    if |recs| == 0 then 0 else Hit(recs[0], line, rule) + Count(recs[1..], line, rule)
  }

  /** 1 when `r` is on `line` and flagged by `rule`, else 0. */
  function Hit(r: ImportRecord, line: nat, rule: Rule): nat {
    if r.line == line && Flags(rule, r) then 1 else 0
  }

  lemma {:induction false} CountAppend(a: seq<ImportRecord>, b: seq<ImportRecord>, line: nat, rule: Rule)
    ensures Count(a + b, line, rule) == Count(a, line, rule) + Count(b, line, rule)
    decreases |a|
  {
    if |a| > 0 {
      assert (a + b)[1..] == a[1..] + b;
      CountAppend(a[1..], b, line, rule);
    } else {
      assert a + b == b;
    }
  }

  /** Taking one record out of a file lowers the count by that record's hit. */
  lemma CountRemoveAt(b: seq<ImportRecord>, k: nat, line: nat, rule: Rule)
    requires k < |b|
    ensures Count(b, line, rule) == Hit(b[k], line, rule) + Count(b[..k] + b[k + 1..], line, rule)
  {
    var tail := [b[k]] + b[k + 1..];
    assert b == b[..k] + tail;
    assert tail[1..] == b[k + 1..];
    CountAppend(b[..k], tail, line, rule);
    CountAppend(b[..k], b[k + 1..], line, rule);
  }

  /** The count depends only on which records there are, not on their order. */
  lemma {:induction false} CountPermutation(a: seq<ImportRecord>, b: seq<ImportRecord>, line: nat, rule: Rule)
    requires multiset(a) == multiset(b)
    ensures Count(a, line, rule) == Count(b, line, rule)
    decreases |a|
  {
    if |a| > 0 {
      assert a[0] in multiset(b);
      var k :| 0 <= k < |b| && b[k] == a[0];
      PermutationRemove(a, b, k);
      CountPermutation(a[1..], b[..k] + b[k + 1..], line, rule);
      CountRemoveAt(b, k, line, rule);
    } else {
      assert |b| == |multiset(b)| == 0;
    }
  }

  /** Some record is counted exactly when one on that line is flagged. */
  lemma {:induction false} CountPositive(recs: seq<ImportRecord>, line: nat, rule: Rule)
    ensures Count(recs, line, rule) > 0 <==> exists r :: r in recs && r.line == line && Flags(rule, r)
    decreases |recs|
  {
    if |recs| > 0 {
      CountPositive(recs[1..], line, rule);
      assert recs == [recs[0]] + recs[1..];
    }
  }

  /** The statement `node` is on `line` and yields a record that `rule` flags. */
  predicate NodeHit(node: ImportNode, line: nat, rule: Rule) {
    node.line == line && exists p :: p in ImportModules(node) && Flags(rule, ImportRecord(line, p.modulePath, p.isRelative))
  }

  /**
   Read back through extraction: a file's records hold a flagged record on a
   line exactly when one of its statements on that line yields one.
   */
  lemma FlaggedRecordFromNode(nodes: seq<ImportNode>, recs: seq<ImportRecord>, line: nat, rule: Rule)
    requires Flattens(nodes, recs)
    ensures (exists r :: r in recs && r.line == line && Flags(rule, r))
        <==> (exists j :: 0 <= j < |nodes| && NodeHit(nodes[j], line, rule))
  {
    FlattensMembership(nodes, recs);
    if exists r :: r in recs && r.line == line && Flags(rule, r) {
      var r :| r in recs && r.line == line && Flags(rule, r);
      var j :| 0 <= j < |nodes| && Yields(nodes[j], r);
      assert r == ImportRecord(line, PairOf(r).modulePath, PairOf(r).isRelative);
      assert NodeHit(nodes[j], line, rule);
    }
    if exists j :: 0 <= j < |nodes| && NodeHit(nodes[j], line, rule) {
      var j :| 0 <= j < |nodes| && NodeHit(nodes[j], line, rule);
      var p :| p in ImportModules(nodes[j]) && Flags(rule, ImportRecord(line, p.modulePath, p.isRelative));
      var r := ImportRecord(line, p.modulePath, p.isRelative);
      assert Yields(nodes[j], r);
      assert r in recs;
    }
  }

  /** Number of flagged records on `line` over all files at path `f`. */
  function TreeCount(files: seq<ParsedFile>, f: Paths.Path, line: nat, rule: Rule): nat
    decreases |files|
  {
    if |files| == 0 then 0
    else (if files[0].path == f then Count(files[0].records, line, rule) else 0) + TreeCount(files[1..], f, line, rule)
  }

  /** The tree count is positive exactly when some file at that path has a flagged record on the line. */
  lemma {:induction false} TreeCountPositive(files: seq<ParsedFile>, f: Paths.Path, line: nat, rule: Rule)
    ensures TreeCount(files, f, line, rule) > 0 <==>
      exists i :: 0 <= i < |files| && files[i].path == f && Count(files[i].records, line, rule) > 0
    decreases |files|
  {
    if |files| > 0 {
      TreeCountPositive(files[1..], f, line, rule);
      if exists i :: 0 <= i < |files[1..]| && files[1..][i].path == f && Count(files[1..][i].records, line, rule) > 0 {
        var i :| 0 <= i < |files[1..]| && files[1..][i].path == f && Count(files[1..][i].records, line, rule) > 0;
        assert files[i + 1] == files[1..][i];
      }
      if exists i :: 0 <= i < |files| && files[i].path == f && Count(files[i].records, line, rule) > 0 {
        var i :| 0 <= i < |files| && files[i].path == f && Count(files[i].records, line, rule) > 0;
        if i > 0 {
          assert files[1..][i - 1] == files[i];
        }
      }
    }
  }

  /**
   Reordering the records inside each file, paths kept file by file, leaves
   every tree count unchanged.
   */
  lemma {:induction false} TreeCountPermutation(a: seq<ParsedFile>, b: seq<ParsedFile>, f: Paths.Path, line: nat, rule: Rule)
    requires |a| == |b|
    requires forall i :: 0 <= i < |a| ==> a[i].path == b[i].path && multiset(a[i].records) == multiset(b[i].records)
    ensures TreeCount(a, f, line, rule) == TreeCount(b, f, line, rule)
    decreases |a|
  {
    if |a| > 0 {
      CountPermutation(a[0].records, b[0].records, line, rule);
      TreeCountPermutation(a[1..], b[1..], f, line, rule);
    }
  }
}
