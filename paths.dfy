/** POSIX path handling the fetcher relies on. */
module Paths {

  /** `os.path.basename`: the text after the last '/' of `path`, or all of
      `path` when it has no '/'. Characterised as the longest suffix of
      `path` that holds no '/'. */
  function Basename(path: string): (r: string)
    ensures '/' !in r
    ensures |r| <= |path| && r == path[|path| - |r|..]
    ensures |r| < |path| ==> path[|path| - |r| - 1] == '/'
  {
    if path == [] || path[|path| - 1] == '/' then []
    else Basename(path[..|path| - 1]) + [path[|path| - 1]]
  }

  /** When `path[k]` is the last '/', the basename is what follows it. */
  lemma BasenameAfterLastSlash(path: string, k: nat)
    requires k < |path| && path[k] == '/'
    requires '/' !in path[k + 1..]
    ensures Basename(path) == path[k + 1..]
  {
  }

  /** A path with no '/' is its own basename. */
  lemma BasenameWithoutSlash(path: string)
    requires '/' !in path
    ensures Basename(path) == path
  {
  }
}
