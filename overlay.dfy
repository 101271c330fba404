/** The run of the generator from its settings to the manifest it writes (`main`,
    gen_patch.py lines 544-608), with every answer git and the file system give as a
    parameter and the manifest written next to the repository's default output file. */
module Overlay {
  import opened Wrappers
  import opened Text
  import opened Paths
  import opened Errors
  import opened NameStatus
  import opened Collect
  import opened Classify
  import opened Ordering
  import opened Braces
  import Render

  /** What git and the file system answer during one run. */
  datatype World = World(
    isAncestor: string -> bool,               // `merge-base --is-ancestor <ref> <target>`
    diff: GitRun,                             // `diff baseline..target`
    diffTree: string -> GitRun,               // `diff-tree` of one commit
    rangeDiff: (string, string) -> GitRun,    // `diff A..B` of one range
    staged: GitRun,                           // `diff --cached`
    unstaged: GitRun,                         // `diff` of the working tree
    untracked: GitRun,                        // `ls-files --others --exclude-standard`
    locate: string -> Located,                // resolving an absolute explicit path
    present: string -> bool)                  // whether a path exists at the target

  /** The settings of one run. */
  datatype Settings = Settings(
    commits: seq<string>,
    ranges: seq<string>,
    paths: seq<string>,
    prefixes: seq<string>,
    order: string,
    outputFormat: string,
    includeUncommitted: bool,
    included: seq<string>)                    // the include specs, relative to the output directory

  /** Every selected commit and every range tip is an ancestor of the target, and every range
      has the `A..B` form. */
  predicate SelectorsAccepted(s: Settings, w: World)
  {
    && (forall i :: 0 <= i < |s.commits| ==> w.isAncestor(s.commits[i]))
    && (forall k :: 0 <= k < |s.ranges| ==> RangeError(s.ranges[k], w.isAncestor).None?)
  }

  /** Every git query the run makes succeeds and every explicit path has a repository-relative form. */
  predicate Collectable(s: Settings, w: World)
  {
    && w.diff.Completed?
    && FromCommits(s.commits, w.diffTree, s.prefixes).Ok?
    && FromRanges(s.ranges, w.rangeDiff, s.prefixes).Ok?
    && (s.includeUncommitted ==> FromUncommitted(w.staged, w.unstaged, w.untracked, s.prefixes).Ok?)
    && ExplicitForms(s.paths, w.locate).Ok?
  }

  /** The failure that stops collection, if any: the first git query that fails or explicit
      path that cannot be placed, in the order `main` runs them. */
  function CollectionFailure(s: Settings, w: World): (r: Option<Fatal>)
    ensures r.None? <==> Collectable(s, w)
    ensures w.diff.Failed? ==> r == Some(DiffFailed(w.diff.stderr))
    ensures w.diff.Completed? && FromCommits(s.commits, w.diffTree, s.prefixes).Err? ==>
      r == Some(FromCommits(s.commits, w.diffTree, s.prefixes).error)
  {
    if w.diff.Failed? then Some(DiffFailed(w.diff.stderr))
    else if FromCommits(s.commits, w.diffTree, s.prefixes).Err? then Some(FromCommits(s.commits, w.diffTree, s.prefixes).error)
    else if FromRanges(s.ranges, w.rangeDiff, s.prefixes).Err? then Some(FromRanges(s.ranges, w.rangeDiff, s.prefixes).error)
    else if s.includeUncommitted && FromUncommitted(w.staged, w.unstaged, w.untracked, s.prefixes).Err? then
      Some(FromUncommitted(w.staged, w.unstaged, w.untracked, s.prefixes).error)
    else if ExplicitForms(s.paths, w.locate).Err? then Some(ExplicitForms(s.paths, w.locate).error)
    else None
  }

  /** `rel_paths`: the union of what every collector and the explicit selections keep. */
  function Candidates(s: Settings, w: World): set<string>
    requires Collectable(s, w)
  {
    Kept(Parsed(w.diff.stdout), s.prefixes)
    + FromCommits(s.commits, w.diffTree, s.prefixes).value
    + FromRanges(s.ranges, w.rangeDiff, s.prefixes).value
    + (if s.includeUncommitted then FromUncommitted(w.staged, w.unstaged, w.untracked, s.prefixes).value else {})
    + Kept(ExplicitForms(s.paths, w.locate).value, s.prefixes)
  }

  /** `explicit_set`: the repository-relative forms of the explicit paths. */
  function Requested(s: Settings, w: World): set<string>
    requires Collectable(s, w)
  {
    set p | p in ExplicitForms(s.paths, w.locate).value
  }

  /** Every candidate lies under the allowed prefixes, whichever selector brought it in. */
  lemma CandidatesUnderPrefixes(s: Settings, w: World)
    requires Collectable(s, w)
    ensures forall p :: p in Candidates(s, w) ==> IsUnderPrefixes(p, s.prefixes)
  {
    CollectedUnderPrefixes(s.commits, w.diffTree, s.ranges, w.rangeDiff, w.staged, w.unstaged, w.untracked, s.prefixes);
  }

  /** The selection step of `main`: the selectors are checked first, then the collectors run
      in turn and the explicit paths are normalised; the first failure stops the run. */
  method SelectCandidates(s: Settings, w: World) returns (r: Result<(set<string>, set<string>), Fatal>)
    ensures r.Ok? <==> SelectorsAccepted(s, w) && Collectable(s, w)
    ensures r.Ok? ==> r.value.0 == Candidates(s, w) && r.value.1 == Requested(s, w)
    ensures !SelectorsAccepted(s, w) ==> r.Err? && FirstRefusal(s.commits, s.ranges, w.isAncestor, r.error)
    ensures SelectorsAccepted(s, w) && !Collectable(s, w) ==> r == Err(CollectionFailure(s, w).value)
    ensures SelectorsAccepted(s, w) && w.diff.Failed? ==> r == Err(DiffFailed(w.diff.stderr))
  {
    var refused := CheckSelectors(s.commits, s.ranges, w.isAncestor);
    if refused.Some? {
      return Err(refused.value);
    }
    var fromDiff := CollectFromDiff(w.diff, s.prefixes);
    if fromDiff.Err? {
      return Err(fromDiff.error);
    }
    var fromCommits := CollectFromCommits(s.commits, w.diffTree, s.prefixes);
    if fromCommits.Err? {
      return Err(fromCommits.error);
    }
    var fromRanges := CollectFromRanges(s.ranges, w.rangeDiff, s.prefixes);
    if fromRanges.Err? {
      return Err(fromRanges.error);
    }
    var relPaths := fromDiff.value + fromCommits.value + fromRanges.value;
    if s.includeUncommitted {
      var fromUncommitted := CollectFromUncommitted(w.staged, w.unstaged, w.untracked, s.prefixes);
      if fromUncommitted.Err? {
        return Err(fromUncommitted.error);
      }
      relPaths := relPaths + fromUncommitted.value;
    }
    var explicit := NormalizeExplicitPaths(s.paths, w.locate, s.prefixes);
    if explicit.Err? {
      return Err(explicit.error);
    }
    relPaths := relPaths + explicit.value.selected;
    return Ok((relPaths, explicit.value.requested));
  }

  /** Paths joined under the repository directory, taken relative to it again, are the paths
      themselves: with the manifest next to the repository's default output file, every
      file is written by its repository-relative path. */
  lemma RelativeAgain(repo: string, rels: set<string>)
    ensures (set p | p in Under(repo, rels) :: RelPosix(p, repo)) == rels
  {
    forall x
      ensures x in (set p | p in Under(repo, rels) :: RelPosix(p, repo)) <==> x in rels
    {
      if x in rels {
        RelPosixOfJoin(repo, x);
        assert JoinPath(repo, x) in Under(repo, rels);
      }
      if x in (set p | p in Under(repo, rels) :: RelPosix(p, repo)) {
        var p :| p in Under(repo, rels) && RelPosix(p, repo) == x;
        var rel :| rel in rels && JoinPath(repo, rel) == p;
        RelPosixOfJoin(repo, rel);
      }
    }
  }

  /** The files as the formatters see them: each path under the repository taken relative
      to the directory of the output file, which is the repository directory. */
  method Relative(repo: string, files: set<string>, ghost rels: set<string>) returns (r: set<string>)
    requires files == Under(repo, rels)
    ensures r == rels
  {
    r := set p | p in files :: RelPosix(p, repo);
    RelativeAgain(repo, rels);
  }

  /** The candidates a run lists, by bucket. */
  function Listed(s: Settings, w: World, repo: string, b: Bucket): set<string>
    requires Collectable(s, w)
  {
    InBucket(repo, Candidates(s, w), Requested(s, w), w.present, b)
  }

  /** The manifest of a run whose selection succeeded and whose explicit paths all exist. */
  ghost function Written(s: Settings, w: World, repo: string): Result<seq<string>, Fatal>
    requires Collectable(s, w)
  {
    Render.Manifest(s.outputFormat, s.order, s.included, Listed(s, w, repo, SpecFile), Listed(s, w, repo, MFile))
  }

  /** One run of the generator: select, classify, stop when an explicitly selected path is
      missing at the target, and render the manifest of the configured format. */
  method Generate(s: Settings, w: World, repo: string) returns (r: Result<seq<string>, Fatal>)
    ensures r.Ok? ==> SelectorsAccepted(s, w) && Collectable(s, w)
    ensures r.Ok? ==> Listed(s, w, repo, MissingExplicitPath) == {} && r == Written(s, w, repo)
    ensures !SelectorsAccepted(s, w) ==> r.Err? && FirstRefusal(s.commits, s.ranges, w.isAncestor, r.error)
    ensures SelectorsAccepted(s, w) && !Collectable(s, w) ==> r == Err(CollectionFailure(s, w).value)
    ensures SelectorsAccepted(s, w) && Collectable(s, w) && Listed(s, w, repo, MissingExplicitPath) != {} ==>
      r == Err(MissingExplicit(SortedSet(Listed(s, w, repo, MissingExplicitPath))))
    ensures SelectorsAccepted(s, w) && Collectable(s, w) && Listed(s, w, repo, MissingExplicitPath) == {} ==>
      r == Written(s, w, repo)
  {
    var selection := SelectCandidates(s, w);
    if selection.Err? {
      return Err(selection.error);
    }
    var (relPaths, explicitSet) := selection.value;
    var c := MaterializeAndClassify(repo, relPaths, explicitSet, w.present);
    if |c.missingExplicit| > 0 {
      assert c.missingExplicit[0] in Listed(s, w, repo, MissingExplicitPath);
      SortedSeqIsSortedSet(c.missingExplicit, Listed(s, w, repo, MissingExplicitPath));
      return Err(MissingExplicit(c.missingExplicit));
    }
    assert forall x :: x !in Listed(s, w, repo, MissingExplicitPath) by {
      assert c.missingExplicit == [];
    }
    var spec := Relative(repo, c.spec, Listed(s, w, repo, SpecFile));
    var m := Relative(repo, c.m, Listed(s, w, repo, MFile));
    r := Render.BuildManifest(s.outputFormat, s.order, s.included, spec, m);
  }

  /** Every listed `.spec` file ends in `.spec` and every listed `.m` file in `.m`. */
  lemma ListedSuffixes(s: Settings, w: World, repo: string)
    requires Collectable(s, w)
    ensures forall p :: p in Listed(s, w, repo, SpecFile) ==> EndsWith(p, ".spec")
    ensures forall p :: p in Listed(s, w, repo, MFile) ==> EndsWith(p, ".m") && !EndsWith(p, ".spec")
  {
  }

  /** A written manifest closes every block it opens and never closes one that is not open. */
  lemma WrittenBalanced(s: Settings, w: World, repo: string)
    requires Collectable(s, w)
    ensures Written(s, w, repo).Ok? ==> Balanced(Written(s, w, repo).value)
  {
    ListedSuffixes(s, w, repo);
    Render.ManifestBalanced(s.outputFormat, s.order, s.included, Listed(s, w, repo, SpecFile), Listed(s, w, repo, MFile));
  }

  /** A candidate that exists at the target and ends in `.spec` or `.m` is what the manifest
      is built from; one that does not exist is never among them. */
  lemma ListedExactly(s: Settings, w: World, repo: string, p: string)
    requires Collectable(s, w)
    ensures p in Listed(s, w, repo, SpecFile) <==> p in Candidates(s, w) && w.present(JoinPath(repo, p)) && EndsWith(p, ".spec")
    ensures p in Listed(s, w, repo, MFile) <==>
      p in Candidates(s, w) && w.present(JoinPath(repo, p)) && !EndsWith(p, ".spec") && EndsWith(p, ".m")
    ensures p in Listed(s, w, repo, MissingExplicitPath) <==>
      p in Candidates(s, w) && !w.present(JoinPath(repo, p)) && p in ExplicitForms(s.paths, w.locate).value
  {
  }
}
