/** Paths as lists of names, and when one lies inside another. */
module Paths {
  type Path = seq<string>

  /** `p` is `top` or lies inside it. */
  predicate Inside(top: Path, p: Path) {
    |top| <= |p| && p[..|top|] == top
  }

  predicate StrictlyInside(top: Path, p: Path) {
    Inside(top, p) && p != top
  }

  /** Neither path is the other or lies inside it. */
  predicate Apart(a: Path, b: Path) {
    !Inside(a, b) && !Inside(b, a)
  }

  function Parent(p: Path): Path
    requires p != []
  {
    p[..|p| - 1]
  }
}
