/**
 The package metadata read from `package/pyproject.toml`, already converted
 from TOML: the main package name and the optional list of package entries.
 */
module PackageConfig {

  import opened Optional

  /** One entry of `tool.poetry.packages`; only its `include` value is read. */
  datatype PackageEntry = PackageEntry(includeName: string)

  /**
   `tool.poetry.name` and `tool.poetry.packages`; the list is `None` when the
   key is missing.
   */
  datatype Config = Config(name: string, packages: Option<seq<PackageEntry>>)

  /** The list of package entries, an absent list read as empty. */
  function Entries(c: Config): seq<PackageEntry> {
    if c.packages.Some? then c.packages.value else []
  }

  /**
   The package names the checker enforces: the `include` values of the
   package entries, or the main name alone when that set comes out empty.
   The set is never empty; the main name is the fallback exactly when the
   list is missing or empty, and otherwise the names are exactly the
   `include` values, the main name among them only when some entry lists it.
   */
  function PackageNames(c: Config): (r: set<string>)
    ensures r != {}
    ensures Entries(c) == [] ==> r == {c.name}
    ensures Entries(c) != [] ==>
      forall n :: n in r <==> exists i :: 0 <= i < |Entries(c)| && Entries(c)[i].includeName == n
  {
    var included := set e | e in Entries(c) :: e.includeName;
    assert Entries(c) != [] ==> Entries(c)[0].includeName in included;
    if included != {} then included else {c.name}
  }
}
