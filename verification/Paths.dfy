// Paths relative to the root of one tree, as sequences of component names.

module Paths {
  newtype Byte = b: int | 0 <= b < 256
  type Bytes = seq<Byte>
  type Path = seq<string>

  function Parent(p: Path): Path
    requires p != []
  {
    p[..|p| - 1]
  }

  /** `q` names a directory strictly between the root and `p`. */
  predicate IsAbove(q: Path, p: Path) {
    q != [] && |q| < |p| && q == p[..|q|]
  }
}
