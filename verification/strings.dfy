/**
 Python's `str.startswith` on module paths: a plain character-prefix test that
 knows nothing about the dots separating package components.
 */
module Strings {

  /** `s.startswith(prefix)`: the first `|prefix|` characters of `s` are `prefix`. */
  predicate StartsWith(s: string, prefix: string) {
    |prefix| <= |s| && s[..|prefix|] == prefix
  }

  /** A string starts with `a + b` only when it starts with `a`. */
  lemma StartsWithConcat(s: string, a: string, b: string)
    requires StartsWith(s, a + b)
    ensures StartsWith(s, a)
  {
    assert s[..|a|] == (a + b)[..|a|];
  }

  /**
   The match ignores dot boundaries: a module path that merely shares leading
   characters with a package name, such as `foobaz.x` against `foo`, matches.
   */
  lemma NotBoundaryAware()
    ensures StartsWith("foobaz.x", "foo")
    ensures !StartsWith("fo", "foo")
  {
  }
}
