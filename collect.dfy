/** Gathering the repository-relative paths to include: the prefix filter, the collectors
    that read git's output, the explicit path selections and the range syntax
    (gen_patch.py lines 87-89 and 145-298). */
module Collect {
  import opened Wrappers
  import opened Text
  import opened Paths
  import opened NameStatus
  import opened Errors

  /** `is_under_prefixes`: the path starts with one of the allowed prefixes. */
  function IsUnderPrefixes(path: string, prefixes: seq<string>): (r: bool)
    ensures r <==> exists i :: 0 <= i < |prefixes| && StartsWith(path, prefixes[i])
  {
    if |prefixes| == 0 then false
    else
      assert forall i :: 1 <= i < |prefixes| ==> prefixes[i] == prefixes[1..][i - 1];
      StartsWith(path, prefixes[0]) || IsUnderPrefixes(path, prefixes[1..])
  }

  /** With no prefixes nothing is selected; with the empty prefix everything is. */
  lemma IsUnderPrefixesExtremes(path: string, prefixes: seq<string>)
    ensures |prefixes| == 0 ==> !IsUnderPrefixes(path, prefixes)
    ensures "" in prefixes ==> IsUnderPrefixes(path, prefixes)
  {
    if "" in prefixes {
      var i :| 0 <= i < |prefixes| && prefixes[i] == "";
      assert StartsWith(path, prefixes[i]);
    }
  }

  /** Allowing more prefixes selects the union of what each list selects. */
  lemma IsUnderPrefixesConcat(path: string, a: seq<string>, b: seq<string>)
    ensures IsUnderPrefixes(path, a + b) <==> IsUnderPrefixes(path, a) || IsUnderPrefixes(path, b)
  {
    if IsUnderPrefixes(path, a) {
      var i :| 0 <= i < |a| && StartsWith(path, a[i]);
      assert (a + b)[i] == a[i];
    }
    if IsUnderPrefixes(path, b) {
      var i :| 0 <= i < |b| && StartsWith(path, b[i]);
      assert (a + b)[|a| + i] == b[i];
    }
    if IsUnderPrefixes(path, a + b) {
      var i :| 0 <= i < |a + b| && StartsWith(path, (a + b)[i]);
      if i >= |a| { assert (a + b)[i] == b[i - |a|]; }
    }
  }

  /** The paths of a list that a collector keeps. */
  function Kept(paths: seq<string>, prefixes: seq<string>): set<string>
  {
    set p | p in paths && IsUnderPrefixes(p, prefixes)
  }

  lemma KeptConcat(a: seq<string>, b: seq<string>, prefixes: seq<string>)
    ensures Kept(a + b, prefixes) == Kept(a, prefixes) + Kept(b, prefixes)
  {
  }

  /** The filter-then-add loop every collector runs over the paths git reported. */
  method AddUnderPrefixes(acc: set<string>, paths: seq<string>, prefixes: seq<string>) returns (r: set<string>)
    ensures r == acc + Kept(paths, prefixes)
  {
    r := acc;
    for i := 0 to |paths|
      invariant r == acc + Kept(paths[..i], prefixes)
    {
      assert paths[..i + 1] == paths[..i] + [paths[i]];
      KeptConcat(paths[..i], [paths[i]], prefixes);
      if IsUnderPrefixes(paths[i], prefixes) {
        r := r + {paths[i]};
      }
    }
    assert paths[..|paths|] == paths;
  }

  /** What a git command gave back: its standard output as lines, or its error output. */
  datatype GitRun = Completed(stdout: seq<string>) | Failed(stderr: string)

  /** `collect_paths_from_diff`: the paths the baseline..target diff reports, under the prefixes. */
  method CollectFromDiff(diff: GitRun, prefixes: seq<string>) returns (r: Result<set<string>, Fatal>)
    ensures diff.Failed? ==> r == Err(DiffFailed(diff.stderr))
    ensures diff.Completed? ==> r == Ok(Kept(Parsed(diff.stdout), prefixes))
  {
    match diff
    case Failed(stderr) =>
      return Err(DiffFailed(stderr));
    case Completed(stdout) =>
      var paths := ParseNameStatus(stdout);
      var rel := AddUnderPrefixes({}, paths, prefixes);
      assert {} + Kept(paths, prefixes) == Kept(paths, prefixes);
      return Ok(rel);
  }

  /** The paths selected by running one step per item, in order: the first step that fails
      stops everything with its error; otherwise the union of what every step kept. */
  function Gathered(items: seq<string>, step: string -> Result<seq<string>, Fatal>, prefixes: seq<string>): Result<set<string>, Fatal>
  {
    if |items| == 0 then Ok({})
    else
      match Gathered(items[..|items| - 1], step, prefixes)
      case Err(e) => Err(e)
      case Ok(s) =>
        match step(items[|items| - 1])
        case Err(e) => Err(e)
        case Ok(paths) => Ok(s + Kept(paths, prefixes))
  }

  /** Once a step has failed, the later items do not change the outcome. */
  lemma {:induction false} GatheredStopsAtError(items: seq<string>, k: nat, step: string -> Result<seq<string>, Fatal>, prefixes: seq<string>)
    requires k <= |items|
    requires Gathered(items[..k], step, prefixes).Err?
    ensures Gathered(items, step, prefixes) == Gathered(items[..k], step, prefixes)
    decreases |items| - k
  {
    if k < |items| {
      assert items[..k + 1][..k] == items[..k];
      GatheredStopsAtError(items, k + 1, step, prefixes);
    } else {
      assert items[..k] == items;
    }
  }

  /** The gathering succeeds exactly when every step does, and then it holds exactly the paths
      some step reported that lie under the prefixes. */
  lemma {:induction false} GatheredOk(items: seq<string>, step: string -> Result<seq<string>, Fatal>, prefixes: seq<string>)
    ensures Gathered(items, step, prefixes).Ok? <==> forall i :: 0 <= i < |items| ==> step(items[i]).Ok?
    ensures Gathered(items, step, prefixes).Ok? ==>
      forall p :: p in Gathered(items, step, prefixes).value <==>
        IsUnderPrefixes(p, prefixes) && exists i :: 0 <= i < |items| && p in step(items[i]).value
  {
    if |items| > 0 {
      var init := items[..|items| - 1];
      GatheredOk(init, step, prefixes);
      assert forall i :: 0 <= i < |init| ==> init[i] == items[i];
    }
  }

  /** When the gathering fails, its error is that of the first step that failed. */
  lemma {:induction false} GatheredErr(items: seq<string>, step: string -> Result<seq<string>, Fatal>, prefixes: seq<string>)
    ensures Gathered(items, step, prefixes).Err? ==>
      exists j :: 0 <= j < |items| && step(items[j]).Err? &&
        Gathered(items, step, prefixes).error == step(items[j]).error &&
        forall i :: 0 <= i < j ==> step(items[i]).Ok?
  {
    if |items| > 0 {
      var init := items[..|items| - 1];
      GatheredErr(init, step, prefixes);
      GatheredOk(init, step, prefixes);
      assert forall i :: 0 <= i < |init| ==> init[i] == items[i];
    }
  }

  /** The paths `git diff-tree --first-parent` reports for one commit. */
  function CommitPaths(diffTree: string -> GitRun, commit: string): Result<seq<string>, Fatal>
  {
    match diffTree(commit)
    case Failed(stderr) => Err(DiffTreeFailed(commit, stderr))
    case Completed(stdout) => Ok(Parsed(stdout))
  }

  function FromCommits(commits: seq<string>, diffTree: string -> GitRun, prefixes: seq<string>): Result<set<string>, Fatal>
  {
    Gathered(commits, c => CommitPaths(diffTree, c), prefixes)
  }

  /** `collect_paths_from_commits`: one `diff-tree` per commit, in order. */
  method CollectFromCommits(commits: seq<string>, diffTree: string -> GitRun, prefixes: seq<string>)
    returns (r: Result<set<string>, Fatal>)
    ensures r == FromCommits(commits, diffTree, prefixes)
  {
    var rel := {};
    for i := 0 to |commits|
      invariant FromCommits(commits[..i], diffTree, prefixes) == Ok(rel)
    {
      assert commits[..i + 1][..i] == commits[..i];
      var c := commits[i];
      match diffTree(c)
      case Failed(stderr) =>
        GatheredStopsAtError(commits, i + 1, c => CommitPaths(diffTree, c), prefixes);
        return Err(DiffTreeFailed(c, stderr));
      case Completed(stdout) =>
        var paths := ParseNameStatus(stdout);
        rel := AddUnderPrefixes(rel, paths, prefixes);
    }
    assert commits[..|commits|] == commits;
    return Ok(rel);
  }

  /** Two dots start at position `j` of `s`. */
  predicate DotsAt(s: string, j: int)
  {
    0 <= j && j + 1 < |s| && s[j] == '.' && s[j + 1] == '.'
  }

  /** The position of the first `..` in `s`, if any. */
  function FindDots(s: string): (r: Option<nat>)
    ensures r.None? ==> forall j :: !DotsAt(s, j)
    ensures r.Some? ==> DotsAt(s, r.value) && forall j :: 0 <= j < r.value ==> !DotsAt(s, j)
  {
    if |s| < 2 then None
    else if s[0] == '.' && s[1] == '.' then Some(0)
    else
      match FindDots(s[1..])
      case None =>
        assert forall j :: 1 <= j ==> (DotsAt(s, j) <==> DotsAt(s[1..], j - 1));
        None
      case Some(i) =>
        assert forall j :: 1 <= j ==> (DotsAt(s, j) <==> DotsAt(s[1..], j - 1));
        Some(i + 1)
  }

  /** `rng.split("..", 1)`: the parts before and after the first `..`; `None` when there is none. */
  function SplitRange(rng: string): (r: Option<(string, string)>)
    ensures r.None? <==> forall j :: !DotsAt(rng, j)
    ensures r.Some? ==> rng == r.value.0 + ".." + r.value.1
    ensures r.Some? ==> forall j :: !DotsAt(r.value.0 + ".", j)
  {
    match FindDots(rng)
    case None => None
    case Some(i) =>
      var a := rng[..i];
      assert forall j :: 0 <= j < i ==> (DotsAt(a + ".", j) <==> DotsAt(rng, j));
      assert rng == a + ".." + rng[i + 2..];
      Some((a, rng[i + 2..]))
  }

  /** Splitting `a..b` gives back `a` and `b` when `a` holds no `..` and does not end in a dot. */
  lemma SplitRangeOfJoin(a: string, b: string)
    requires forall j :: !DotsAt(a + ".", j)
    ensures SplitRange(a + ".." + b) == Some((a, b))
  {
    var rng := a + ".." + b;
    assert DotsAt(rng, |a|);
    assert forall j :: 0 <= j < |a| ==> (DotsAt(rng, j) <==> DotsAt(a + ".", j));
    var i := FindDots(rng).value;
    assert i == |a|;
    assert rng[..i] == a && rng[i + 2..] == b;
  }

  /** Why a range selector is refused, if it is: it has no `..`, or its tip is not an
      ancestor of the target. */
  function RangeError(rng: string, isAncestor: string -> bool): Option<Fatal>
  {
    match SplitRange(rng)
    case None => Some(MalformedRange(rng))
    case Some((_, tip)) => if isAncestor(tip) then None else Some(RangeTipNotAncestor(tip))
  }

  /** `e` is the refusal of the first selector that is not accepted: the first commit that is
      not an ancestor or, with every commit accepted, the first range that is refused. */
  predicate FirstRefusal(commits: seq<string>, ranges: seq<string>, isAncestor: string -> bool, e: Fatal)
  {
    || (exists i :: 0 <= i < |commits| && !isAncestor(commits[i]) && e == CommitNotAncestor(commits[i]) &&
         forall h :: 0 <= h < i ==> isAncestor(commits[h]))
    || ((forall i :: 0 <= i < |commits| ==> isAncestor(commits[i])) &&
         exists k :: 0 <= k < |ranges| && Some(e) == RangeError(ranges[k], isAncestor) &&
           forall h :: 0 <= h < k ==> RangeError(ranges[h], isAncestor).None?)
  }

  /** `ensure_selectors_are_ancestors`: every selected commit, then every range in order, must
      end at an ancestor of the target; the first selector that does not stops the run. The
      ancestry question git answers is the parameter `isAncestor`. */
  method CheckSelectors(commits: seq<string>, ranges: seq<string>, isAncestor: string -> bool)
    returns (r: Option<Fatal>)
    ensures r.None? <==>
      (forall i :: 0 <= i < |commits| ==> isAncestor(commits[i])) &&
      (forall k :: 0 <= k < |ranges| ==> RangeError(ranges[k], isAncestor).None?)
    ensures r.Some? ==> FirstRefusal(commits, ranges, isAncestor, r.value)
  {
    for i := 0 to |commits|
      invariant forall h :: 0 <= h < i ==> isAncestor(commits[h])
    {
      if !isAncestor(commits[i]) {
        return Some(CommitNotAncestor(commits[i]));
      }
    }
    for k := 0 to |ranges|
      invariant forall h :: 0 <= h < k ==> RangeError(ranges[h], isAncestor).None?
    {
      var rng := ranges[k];
      var split := SplitRange(rng);
      if split.None? {
        return Some(MalformedRange(rng));
      }
      var tip := split.value.1;
      if !isAncestor(tip) {
        return Some(RangeTipNotAncestor(tip));
      }
    }
    return None;
  }

  /** The paths `git diff A..B` reports for one range. */
  function RangePaths(rangeDiff: (string, string) -> GitRun, rng: string): Result<seq<string>, Fatal>
  {
    match SplitRange(rng)
    case None => Err(MalformedRange(rng))
    case Some((a, b)) =>
      match rangeDiff(a, b)
      case Failed(stderr) => Err(RangeDiffFailed(rng, stderr))
      case Completed(stdout) => Ok(Parsed(stdout))
  }

  function FromRanges(ranges: seq<string>, rangeDiff: (string, string) -> GitRun, prefixes: seq<string>): Result<set<string>, Fatal>
  {
    Gathered(ranges, rng => RangePaths(rangeDiff, rng), prefixes)
  }

  /** `collect_paths_from_ranges`: one `git diff A..B` per range, in order. */
  method CollectFromRanges(ranges: seq<string>, rangeDiff: (string, string) -> GitRun, prefixes: seq<string>)
    returns (r: Result<set<string>, Fatal>)
    ensures r == FromRanges(ranges, rangeDiff, prefixes)
  {
    var rel := {};
    for i := 0 to |ranges|
      invariant FromRanges(ranges[..i], rangeDiff, prefixes) == Ok(rel)
    {
      assert ranges[..i + 1][..i] == ranges[..i];
      var rng := ranges[i];
      var split := SplitRange(rng);
      if split.None? {
        GatheredStopsAtError(ranges, i + 1, rng => RangePaths(rangeDiff, rng), prefixes);
        return Err(MalformedRange(rng));
      }
      var (a, b) := split.value;
      match rangeDiff(a, b)
      case Failed(stderr) =>
        GatheredStopsAtError(ranges, i + 1, rng => RangePaths(rangeDiff, rng), prefixes);
        return Err(RangeDiffFailed(rng, stderr));
      case Completed(stdout) =>
        var paths := ParseNameStatus(stdout);
        rel := AddUnderPrefixes(rel, paths, prefixes);
    }
    assert ranges[..|ranges|] == ranges;
    return Ok(rel);
  }

  /** The path an untracked-file line names: the line without surrounding whitespace,
      nothing for a blank line. */
  function UntrackedPath(line: string): seq<string>
  {
    var rel := Strip(line);
    if rel == "" then [] else [rel]
  }

  /** The loop over `git ls-files --others` output. */
  method AddUntracked(acc: set<string>, lines: seq<string>, prefixes: seq<string>) returns (r: set<string>)
    ensures r == acc + Kept(FlatMap(lines, UntrackedPath), prefixes)
  {
    r := acc;
    for i := 0 to |lines|
      invariant r == acc + Kept(FlatMap(lines[..i], UntrackedPath), prefixes)
    {
      UntrackedStep(lines, i, prefixes);
      var rel := Strip(lines[i]);
      if rel == "" {
        continue;
      }
      if IsUnderPrefixes(rel, prefixes) {
        r := r + {rel};
      }
    }
    assert lines[..|lines|] == lines;
  }

  /** One more line of untracked output adds its path when it has one under the prefixes. */
  lemma UntrackedStep(lines: seq<string>, i: nat, prefixes: seq<string>)
    requires i < |lines|
    ensures Kept(FlatMap(lines[..i + 1], UntrackedPath), prefixes) ==
      Kept(FlatMap(lines[..i], UntrackedPath), prefixes) +
      (var rel := Strip(lines[i]); if rel != "" && IsUnderPrefixes(rel, prefixes) then {rel} else {})
  {
    assert lines[..i + 1] == lines[..i] + [lines[i]];
    FlatMapSnoc(lines[..i], lines[i], UntrackedPath);
    KeptConcat(FlatMap(lines[..i], UntrackedPath), UntrackedPath(lines[i]), prefixes);
  }

  /** Untracked files name non-empty paths with no whitespace at either end. */
  lemma {:induction false} UntrackedTrimmed(lines: seq<string>)
    ensures forall p :: p in FlatMap(lines, UntrackedPath) ==> p != "" && !IsSpace(p[0]) && !IsSpace(p[|p| - 1])
  {
    if |lines| > 0 {
      UntrackedTrimmed(lines[..|lines| - 1]);
      FlatMapSnoc(lines[..|lines| - 1], lines[|lines| - 1], UntrackedPath);
      assert lines[..|lines| - 1] + [lines[|lines| - 1]] == lines;
      StripTrims(lines[|lines| - 1]);
    }
  }

  /** The outcome of the three working-tree queries: the first that fails stops the run;
      otherwise the staged, the unstaged and the untracked paths under the prefixes. */
  function FromUncommitted(staged: GitRun, unstaged: GitRun, untracked: GitRun, prefixes: seq<string>): Result<set<string>, Fatal>
  {
    match staged
    case Failed(e) => Err(CachedDiffFailed(e))
    case Completed(s) =>
      match unstaged
      case Failed(e) => Err(WorktreeDiffFailed(e))
      case Completed(u) =>
        match untracked
        case Failed(e) => Err(UntrackedFailed(e))
        case Completed(o) =>
          Ok(Kept(Parsed(s), prefixes) + Kept(Parsed(u), prefixes) + Kept(FlatMap(o, UntrackedPath), prefixes))
  }

  /** `collect_paths_from_uncommitted`: staged changes, then unstaged changes, then untracked files. */
  method CollectFromUncommitted(staged: GitRun, unstaged: GitRun, untracked: GitRun, prefixes: seq<string>)
    returns (r: Result<set<string>, Fatal>)
    ensures r == FromUncommitted(staged, unstaged, untracked, prefixes)
  {
    var rel := {};
    match staged
    case Failed(e) =>
      return Err(CachedDiffFailed(e));
    case Completed(stdout) =>
      var paths := ParseNameStatus(stdout);
      rel := AddUnderPrefixes(rel, paths, prefixes);
      assert rel == Kept(Parsed(stdout), prefixes);
    match unstaged
    case Failed(e) =>
      return Err(WorktreeDiffFailed(e));
    case Completed(stdout) =>
      var paths := ParseNameStatus(stdout);
      rel := AddUnderPrefixes(rel, paths, prefixes);
    match untracked
    case Failed(e) =>
      return Err(UntrackedFailed(e));
    case Completed(stdout) =>
      rel := AddUntracked(rel, stdout, prefixes);
    return Ok(rel);
  }

  /** Every path a collector returns lies under the prefixes. */
  lemma CollectedUnderPrefixes(commits: seq<string>, diffTree: string -> GitRun, ranges: seq<string>,
                               rangeDiff: (string, string) -> GitRun, staged: GitRun, unstaged: GitRun,
                               untracked: GitRun, prefixes: seq<string>)
    ensures FromCommits(commits, diffTree, prefixes).Ok? ==>
      forall p :: p in FromCommits(commits, diffTree, prefixes).value ==> IsUnderPrefixes(p, prefixes)
    ensures FromRanges(ranges, rangeDiff, prefixes).Ok? ==>
      forall p :: p in FromRanges(ranges, rangeDiff, prefixes).value ==> IsUnderPrefixes(p, prefixes)
    ensures FromUncommitted(staged, unstaged, untracked, prefixes).Ok? ==>
      forall p :: p in FromUncommitted(staged, unstaged, untracked, prefixes).value ==> IsUnderPrefixes(p, prefixes)
  {
    GatheredOk(commits, c => CommitPaths(diffTree, c), prefixes);
    GatheredOk(ranges, rng => RangePaths(rangeDiff, rng), prefixes);
  }

  /** Where an explicit path that expands to an absolute one lands once resolved: inside the
      repository at a relative path, outside it, or nowhere because resolving it failed. */
  datatype Located = Inside(rel: string) | Outside | Unresolvable

  /** `Path(p).expanduser().is_absolute()`: the path starts at the root or at a home directory. */
  predicate ExpandsToAbsolute(p: string)
  {
    |p| > 0 && (p[0] == '/' || p[0] == '~')
  }

  /** The repository-relative POSIX form of one explicit path, or why there is none. */
  function ExplicitForm(pth: string, locate: string -> Located): Result<string, Fatal>
  {
    if ExpandsToAbsolute(pth) then
      match locate(pth)
      case Unresolvable => Err(InvalidExplicitPath(pth))
      case Outside => Err(ExplicitOutsideRepo(pth))
      case Inside(rel) => Ok(PosixForm(rel))
    else Ok(PosixForm(pth))
  }

  /** The forms of all explicit paths, in order; the first path that has none stops the run. */
  function ExplicitForms(paths: seq<string>, locate: string -> Located): Result<seq<string>, Fatal>
  {
    if |paths| == 0 then Ok([])
    else
      match ExplicitForms(paths[..|paths| - 1], locate)
      case Err(e) => Err(e)
      case Ok(forms) =>
        match ExplicitForm(paths[|paths| - 1], locate)
        case Err(e) => Err(e)
        case Ok(f) => Ok(forms + [f])
  }

  lemma {:induction false} ExplicitFormsStopAtError(paths: seq<string>, k: nat, locate: string -> Located)
    requires k <= |paths|
    requires ExplicitForms(paths[..k], locate).Err?
    ensures ExplicitForms(paths, locate) == ExplicitForms(paths[..k], locate)
    decreases |paths| - k
  {
    if k < |paths| {
      assert paths[..k + 1][..k] == paths[..k];
      ExplicitFormsStopAtError(paths, k + 1, locate);
    } else {
      assert paths[..k] == paths;
    }
  }

  /** With only relative explicit paths nothing can fail, and the forms are the POSIX forms of
      the paths, one for one. */
  lemma {:induction false} ExplicitFormsOfRelative(paths: seq<string>, locate: string -> Located)
    requires forall i :: 0 <= i < |paths| ==> !ExpandsToAbsolute(paths[i])
    ensures ExplicitForms(paths, locate).Ok?
    ensures |ExplicitForms(paths, locate).value| == |paths|
    ensures forall i :: 0 <= i < |paths| ==> ExplicitForms(paths, locate).value[i] == PosixForm(paths[i])
  {
    if |paths| > 0 {
      ExplicitFormsOfRelative(paths[..|paths| - 1], locate);
    }
  }

  /** The form of one explicit path is already in POSIX form. */
  lemma ExplicitFormIsPosix(pth: string, locate: string -> Located)
    ensures ExplicitForm(pth, locate).Ok? ==> PosixForm(ExplicitForm(pth, locate).value) == ExplicitForm(pth, locate).value
  {
    if ExpandsToAbsolute(pth) && locate(pth).Inside? {
      PosixFormIdempotent(locate(pth).rel);
    } else if !ExpandsToAbsolute(pth) {
      PosixFormIdempotent(pth);
    }
  }

  /** Every form is already in POSIX form. */
  lemma {:induction false} ExplicitFormsArePosix(paths: seq<string>, locate: string -> Located)
    ensures ExplicitForms(paths, locate).Ok? ==>
      forall i :: 0 <= i < |ExplicitForms(paths, locate).value| ==>
        PosixForm(ExplicitForms(paths, locate).value[i]) == ExplicitForms(paths, locate).value[i]
  {
    if |paths| > 0 && ExplicitForms(paths, locate).Ok? {
      var init := paths[..|paths| - 1];
      var last := paths[|paths| - 1];
      ExplicitFormsArePosix(init, locate);
      ExplicitFormIsPosix(last, locate);
      var forms := ExplicitForms(init, locate).value;
      var f := ExplicitForm(last, locate).value;
      assert ExplicitForms(paths, locate).value == forms + [f];
      forall i | 0 <= i < |forms| + 1
        ensures PosixForm((forms + [f])[i]) == (forms + [f])[i]
      {
        if i < |forms| {
          assert (forms + [f])[i] == forms[i];
        }
      }
    }
  }

  /** One more explicit path extends the forms by its own form, or stops at its error. */
  lemma ExplicitFormsStep(paths: seq<string>, i: nat, locate: string -> Located)
    requires i < |paths| && ExplicitForms(paths[..i], locate).Ok?
    ensures ExplicitForms(paths[..i + 1], locate) ==
      match ExplicitForm(paths[i], locate)
      case Err(e) => Err(e)
      case Ok(f) => Ok(ExplicitForms(paths[..i], locate).value + [f])
  {
    assert paths[..i + 1][..i] == paths[..i];
  }

  /** The explicitly requested paths, and those of them that lie under the prefixes. */
  datatype Explicit = Explicit(requested: set<string>, selected: set<string>)

  /** `normalize_and_apply_explicit_paths`: puts every explicit path in repository-relative
      POSIX form, and selects those under the prefixes. */
  method NormalizeExplicitPaths(paths: seq<string>, locate: string -> Located, prefixes: seq<string>)
    returns (r: Result<Explicit, Fatal>)
    ensures ExplicitForms(paths, locate).Err? ==> r == Err(ExplicitForms(paths, locate).error)
    ensures ExplicitForms(paths, locate).Ok? ==>
      && r.Ok?
      && (forall p :: p in r.value.requested <==> p in ExplicitForms(paths, locate).value)
      && r.value.selected == Kept(ExplicitForms(paths, locate).value, prefixes)
    ensures r.Ok? ==> r.value.selected <= r.value.requested
  {
    var requested := {};
    var selected := {};
    ghost var forms: seq<string> := [];
    for i := 0 to |paths|
      invariant ExplicitForms(paths[..i], locate) == Ok(forms)
      invariant forall p :: p in requested <==> p in forms
      invariant selected == Kept(forms, prefixes)
    {
      ExplicitFormsStep(paths, i, locate);
      var pth := paths[i];
      var relS: string;
      if ExpandsToAbsolute(pth) {
        match locate(pth)
        case Unresolvable =>
          ExplicitFormsStopAtError(paths, i + 1, locate);
          return Err(InvalidExplicitPath(pth));
        case Outside =>
          ExplicitFormsStopAtError(paths, i + 1, locate);
          return Err(ExplicitOutsideRepo(pth));
        case Inside(rel) =>
          relS := PosixForm(rel);
      } else {
        relS := PosixForm(pth);
      }
      KeptConcat(forms, [relS], prefixes);
      forms := forms + [relS];
      requested := requested + {relS};
      if IsUnderPrefixes(relS, prefixes) {
        selected := selected + {relS};
      }
    }
    assert paths[..|paths|] == paths;
    return Ok(Explicit(requested, selected));
  }
}
