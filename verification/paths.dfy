/**
 Relative filesystem paths as sequences of components, and the `parents`
 view of `pathlib` the checker uses to skip files under the config directory.
 */
module Paths {

  /** A relative path, one component per element; the empty path is `.`. */
  type Path = seq<string>

  /**
   The directory, relative to the root, that holds `pyproject.toml` and one
   sub-directory per package.
   */
  const PackageRoot: string := "package"

  /**
   `Path.parents` of a relative path: every proper ancestor, nearest first,
   ending with `.` (the empty path).
   */
  function Parents(p: Path): (r: seq<Path>)
    ensures |r| == |p|
    ensures forall k :: 0 <= k < |r| ==> r[k] == p[..|p| - 1 - k]
    decreases |p|
  {
    if |p| == 0 then []
    else [p[..|p| - 1]] + Parents(p[..|p| - 1])
  }

  /** `dir` is a proper ancestor of `p`: `p` lies somewhere inside `dir`. */
  predicate IsUnder(dir: Path, p: Path) {
    |dir| < |p| && p[..|dir|] == dir
  }

  /** Membership in `parents` is exactly being a proper ancestor. */
  lemma ParentsAreAncestors(dir: Path, p: Path)
    ensures dir in Parents(p) <==> IsUnder(dir, p)
  {
    var r := Parents(p);
    if IsUnder(dir, p) {
      assert r[|p| - 1 - |dir|] == dir;
    }
  }
}
