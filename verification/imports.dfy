/**
 Import extraction: how one `import` or `from ... import` statement becomes a
 set of (module path, is-relative) pairs, and how the pairs of a file's
 statements are laid out one after another as import records.
 */
module Imports {

  import opened Optional
  import opened Collections
  import opened Paths

  /**
   The two import statements of Python's syntax tree, with the fields the
   checker reads. `level` counts the leading dots of a `from` import (0 is
   absolute); `module` is absent for `from . import x`.
   */
  datatype ImportNode =
    | ImportFrom(modulePath: Option<string>, level: nat, line: nat)
    | Import(names: seq<string>, line: nat)

  /** A module path together with whether it was imported relatively. */
  datatype Pair = Pair(modulePath: string, isRelative: bool)

  /** The pairs of a plain `import a, b, ...`: every alias, always absolute. */
  function AliasPairs(names: seq<string>): set<Pair> {
    set n | n in names :: Pair(n, false)
  }

  /**
   A plain import collapses repeated aliases: it has at most one pair per
   alias, and exactly one per alias when the aliases are all different.
   */
  lemma {:induction false} AliasPairsCount(names: seq<string>)
    ensures |AliasPairs(names)| <= |names|
    ensures Distinct(names) ==> |AliasPairs(names)| == |names|
    decreases |names|
  {
    if |names| > 0 {
      var rest := names[1..];
      assert names == [names[0]] + rest;
      assert AliasPairs(names) == {Pair(names[0], false)} + AliasPairs(rest);
      assert Distinct(names) ==> Distinct(rest) by {
        if Distinct(names) {
          forall i, j | 0 <= i < j < |rest| ensures rest[i] != rest[j] {
            assert rest[i] == names[i + 1] && rest[j] == names[j + 1];
          }
        }
      }
      if Distinct(names) {
        forall k | 0 <= k < |rest| ensures rest[k] != names[0] {
          assert rest[k] == names[k + 1];
        }
        assert names[0] !in rest;
      }
      AliasPairsCount(rest);
    }
  }

  /**
   `get_import_modules`: a `from` import with a non-empty module yields that
   module once, relative exactly when its level is not 0; one without a module
   (or with an empty one) yields nothing; a plain import yields each alias
   name as an absolute import, duplicates collapsed.
   */
  function ImportModules(node: ImportNode): (r: set<Pair>)
    ensures node.ImportFrom? ==>
      (r == {} <==> node.modulePath.None? || node.modulePath.value == "")
    ensures node.ImportFrom? && r != {} ==>
      r == {Pair(node.modulePath.value, node.level != 0)}
    ensures node.Import? ==> forall p :: p in r ==> !p.isRelative
    ensures node.Import? ==> forall m :: Pair(m, false) in r <==> m in node.names
    ensures node.Import? ==> |r| <= |node.names|
    ensures node.Import? && Distinct(node.names) ==> |r| == |node.names|
  {
    match node
    case ImportFrom(modulePath, level, _) =>
      if modulePath.Some? && modulePath.value != "" then {Pair(modulePath.value, level != 0)} else {}
    case Import(names, _) =>
      AliasPairsCount(names);
      AliasPairs(names)
  }

  /** A source file as the parser hands it over: its path and its import statements in walk order. */
  datatype SourceFile = SourceFile(path: Path, nodes: seq<ImportNode>)

  /** A source file after extraction: its path and its import records. */
  datatype ParsedFile = ParsedFile(path: Path, records: seq<ImportRecord>)

  /** One classified import: the statement's line, the module path, its relativity. */
  datatype ImportRecord = ImportRecord(line: nat, modulePath: string, isRelative: bool)

  function PairOf(r: ImportRecord): Pair {
    Pair(r.modulePath, r.isRelative)
  }

  function PairsOf(block: seq<ImportRecord>): (ps: seq<Pair>)
    ensures |ps| == |block|
  {
    seq(|block|, i requires 0 <= i < |block| => PairOf(block[i]))
  }

  /** `node` gives rise to the record `r`. */
  predicate Yields(node: ImportNode, r: ImportRecord) {
    r.line == node.line && PairOf(r) in ImportModules(node)
  }

  /**
   `block` is what `parse_imports_from_file` yields for one node: its pairs in
   whatever order the set is iterated, each tagged with the node's line.
   */
  ghost predicate NodeBlock(block: seq<ImportRecord>, node: ImportNode) {
    && (forall r :: r in block ==> r.line == node.line)
    && Enumerates(PairsOf(block), ImportModules(node))
  }

  /**
   `recs` is the record stream of a file whose import statements, in walk
   order, are `nodes`: one block per node, back to back.
   */
  ghost predicate Flattens(nodes: seq<ImportNode>, recs: seq<ImportRecord>)
    decreases |nodes|
  {
    if |nodes| == 0 then recs == []
    else
      var k := |ImportModules(nodes[0])|;
      && k <= |recs|
      && NodeBlock(recs[..k], nodes[0])
      && Flattens(nodes[1..], recs[k..])
  }

  /** A node's block holds exactly the records the node yields, each once. */
  lemma BlockContents(block: seq<ImportRecord>, node: ImportNode)
    requires NodeBlock(block, node)
    ensures forall r :: r in block <==> Yields(node, r)
    ensures Distinct(block)
    ensures |block| == |ImportModules(node)|
  {
    var ps := PairsOf(block);
    EnumerationMultiset(ps, ImportModules(node));
    forall r ensures r in block <==> Yields(node, r) {
      if r in block {
        var k :| 0 <= k < |block| && block[k] == r;
        assert ps[k] == PairOf(r);
      }
      if Yields(node, r) {
        assert PairOf(r) in ps;
        var k :| 0 <= k < |ps| && ps[k] == PairOf(r);
        assert block[k] == r;
      }
    }
    forall i, j | 0 <= i < j < |block| ensures block[i] != block[j] {
      assert ps[i] != ps[j];
    }
  }

  /**
   Per-node de-duplication: a statement never yields the same record twice,
   so `import foo, foo` on line 3 gives the single record (3, foo, absolute).
   */
  lemma DuplicateAliasesCollapse(recs: seq<ImportRecord>)
    requires Flattens([Import(["foo", "foo"], 3)], recs)
    ensures recs == [ImportRecord(3, "foo", false)]
  {
    var node := Import(["foo", "foo"], 3);
    assert ImportModules(node) == {Pair("foo", false)};
    var rest := [node][1..];
    assert rest == [];
    BlockContents(recs[..1], node);
    assert recs[1..] == [];
    assert recs == recs[..1];
    assert recs[0] in recs[..1];
  }

  /**
   The records of a file are exactly those its statements yield: every record
   comes from some statement, and every pair of every statement is there.
   */
  lemma {:induction false} FlattensMembership(nodes: seq<ImportNode>, recs: seq<ImportRecord>)
    requires Flattens(nodes, recs)
    ensures forall r :: r in recs <==> exists i :: 0 <= i < |nodes| && Yields(nodes[i], r)
    decreases |nodes|
  {
    if |nodes| > 0 {
      var k := |ImportModules(nodes[0])|;
      var block, rest := recs[..k], recs[k..];
      assert recs == block + rest;
      BlockContents(block, nodes[0]);
      FlattensMembership(nodes[1..], rest);
      forall r ensures r in recs <==> exists i :: 0 <= i < |nodes| && Yields(nodes[i], r) {
        if r in rest {
          var i :| 0 <= i < |nodes[1..]| && Yields(nodes[1..][i], r);
          assert Yields(nodes[i + 1], r);
        }
        if exists i :: 0 <= i < |nodes| && Yields(nodes[i], r) {
          var i :| 0 <= i < |nodes| && Yields(nodes[i], r);
          if i > 0 {
            assert Yields(nodes[1..][i - 1], r);
          }
        }
      }
    }
  }

  /**
   Only the order of a file's records is left open: two record streams of the
   same statements are permutations of each other.
   */
  lemma {:induction false} FlattensPermutation(nodes: seq<ImportNode>, a: seq<ImportRecord>, b: seq<ImportRecord>)
    requires Flattens(nodes, a) && Flattens(nodes, b)
    ensures multiset(a) == multiset(b)
    decreases |nodes|
  {
    if |nodes| > 0 {
      var k := |ImportModules(nodes[0])|;
      assert a == a[..k] + a[k..];
      assert b == b[..k] + b[k..];
      BlockContents(a[..k], nodes[0]);
      BlockContents(b[..k], nodes[0]);
      SameElementsPermutation(a[..k], b[..k]);
      FlattensPermutation(nodes[1..], a[k..], b[k..]);
    }
  }

  /** Walks one node's pair set in an unspecified order. */
  method NodeRecords(node: ImportNode) returns (block: seq<ImportRecord>)
    ensures NodeBlock(block, node)
  {
    var ps := EnumerateSet(ImportModules(node));
    block := seq(|ps|, i requires 0 <= i < |ps| => ImportRecord(node.line, ps[i].modulePath, ps[i].isRelative));
    assert PairsOf(block) == ps;
  }

  /**
   The flattening loop of `parse_imports_from_file`: for each statement in
   walk order, the records of its pair set. The loop runs from the last
   statement to the first and prepends each block, which builds the same
   stream as appending in walk order and keeps the invariant a suffix.
   */
  method FileRecords(nodes: seq<ImportNode>) returns (recs: seq<ImportRecord>)
    ensures Flattens(nodes, recs)
    ensures forall r :: r in recs <==> exists i :: 0 <= i < |nodes| && Yields(nodes[i], r)
  {
    recs := [];
    var i := |nodes|;
    while i > 0
      invariant 0 <= i <= |nodes|
      invariant Flattens(nodes[i..], recs)
    {
      i := i - 1;
      var block := NodeRecords(nodes[i]);
      BlockContents(block, nodes[i]);
      assert nodes[i..][1..] == nodes[i + 1..];
      assert (block + recs)[..|block|] == block;
      assert (block + recs)[|block|..] == recs;
      recs := block + recs;
    }
    assert nodes[0..] == nodes;
    FlattensMembership(nodes, recs);
  }
}
