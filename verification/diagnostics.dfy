/** The two kinds of violation the checker reports, without their rendered text. */
module Diagnostics {

  import opened Paths

  /**
   `Outside`: a file outside the package imports package `name` by absolute
   path instead of through `package.<name>`. `Inside`: a file of a package
   imports that package non-relatively.
   */
  datatype Violation =
    | Outside(file: Path, line: nat, name: string)
    | Inside(file: Path, line: nat)
}
