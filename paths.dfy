/** Filesystem paths as sequences of name components (java.nio.file.Path). */
module Paths {

  /** A path is the sequence of its name elements, the root first. */
  type Path = seq<string>

  /** Path.startsWith(prefix): the path begins with the same name elements as `prefix`. */
  predicate StartsWith(p: Path, prefix: Path) {
    |prefix| <= |p| && p[..|prefix|] == prefix
  }

  /** A path strictly inside `dir` (what listing `dir` can return). */
  predicate StrictlyUnder(p: Path, dir: Path) {
    StartsWith(p, dir) && |dir| < |p|
  }
}
