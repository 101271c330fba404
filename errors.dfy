/** The conditions on which the tool stops with an error message and exit status 2. */
module Errors {

  datatype Fatal =
    | DiffFailed(stderr: string)                       // `git diff baseline..target` failed
    | DiffTreeFailed(commit: string, stderr: string)   // `git diff-tree` for one commit failed
    | RangeDiffFailed(range: string, stderr: string)   // `git diff A..B` for one range failed
    | CachedDiffFailed(stderr: string)                 // `git diff --cached` failed
    | WorktreeDiffFailed(stderr: string)               // `git diff` on the working tree failed
    | UntrackedFailed(stderr: string)                  // `git ls-files --others` failed
    | MalformedRange(range: string)                    // a range without `..`
    | CommitNotAncestor(commit: string)                // a selected commit is not an ancestor of the target
    | RangeTipNotAncestor(tip: string)                 // a range tip is not an ancestor of the target
    | InvalidExplicitPath(path: string)                // an absolute explicit path that cannot be resolved
    | ExplicitOutsideRepo(path: string)                // an absolute explicit path outside the repository
    | MissingExplicit(paths: seq<string>)              // explicitly selected paths absent at the target
    | UnknownFormat(format: string)                    // an output format other than flat or curly
}
