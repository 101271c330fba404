# A verified model of `gen_patch.py`

`gen_patch.py` is the tool of the magma overlay that writes a spec manifest. The manifest
lists the `.spec` and `.m` files a set of git changes touched.

How a run goes:

- It asks git which files changed. The sources are the diff from the baseline to the target,
  the first-parent diff of each selected commit, the diff of each selected `A..B` range and,
  optionally, the staged, unstaged and untracked files of the working tree.
- It keeps the paths that start with one of the allowed prefixes.
- It adds the paths selected explicitly.
- It sorts the candidates into `.spec` files, `.m` files, explicitly selected paths that are
  missing at the target (a fatal error) and other missing paths (dropped).
- It writes the manifest inside one outer `{ … }` block. The manifest has one of two layouts:
  - **flat**: one line per file, with `.spec` files marked `+`;
  - **curly**: the files grouped in brace blocks by directory, by file name, under a common
    directory when there is one.

The model follows the source function by function:

| module | file | models |
|---|---|---|
| `NameStatus` | `name_status.dfy` | `parse_name_status` and the lines git prints |
| `Collect` | `collect.dfy` | `is_under_prefixes`, the selector check, the four collectors and the explicit paths |
| `Classify` | `classify.dfy` | `materialize_and_classify` |
| `Flat` | `flat.dfy` | `build_output_lines_flat` |
| `Curly` | `curly.dfy` | `build_output_lines_curly` |
| `Render` | `render.dfy` | the choice of format and the outer block in `main` |
| `Overlay` | `overlay.dfy` | `main` from the selector check to the manifest |

The library modules are:

- `Text`: `split`, `join`, `strip`, `rstrip` and an ASCII `lower`.
- `Ordering`: Python's string order, sorting, and sorted sets.
- `Paths`: `as_posix`, `Path.parent`, `Path.name`, `relpath` and `os.path.commonpath`.
- `Wrappers` and `Errors`: outcomes, and the conditions that stop the tool with status 2.

Loops of the source are methods with loop invariants. Each is proved against a function
stating what the loop computes, and the properties are lemmas about those functions.

Everything the tool learns from outside is a parameter:

- git's output is a `GitRun`: its standard output as lines, or its failure;
- whether a file exists at the target is `present`;
- whether a ref is an ancestor of the target is `isAncestor`;
- where an absolute explicit path resolves to is `locate`.

A fatal error is a `Fatal` value returned in `Err`.

Two assumptions run through the model:

- Sets are walked in ascending order. The source walks them in arbitrary order, but every
  group is sorted before it is written. `Flat.FlatMergedAnyOrder` proves this for the merged
  flat layout.
- The formatters receive paths already relative to the output directory. `Overlay.Relative`
  shows that for the default output file, next to the repository's root, these are the
  repository-relative paths. In `spec-first` order the source sorts the absolute paths and
  only then makes them relative (gen_patch.py:381, 383), while the model sorts the relative
  paths. The two orders agree because every file lies inside the output directory, so all
  absolute paths share its prefix and `Ordering.BelowAfterCommonPrefix` applies.

"Balanced" (module `Braces`) is a property of the model, not a check the source makes:

- a line opens a block when it is spaces followed by `{`, and closes one when it is spaces
  followed by `}`;
- a list of lines is balanced when the depth never drops below zero and ends at zero.

## Model

| member | source | states |
|---|---|---|
| NameStatus.ParseLine | gen_patch.py:69-83 | a path taken from a line never contains a tab |
| NameStatus.ParseLineSkipsBlank | gen_patch.py:70-71 | a line of whitespace yields no path |
| NameStatus.ParseLineNeedsATab | gen_patch.py:72-83 | a line without a tab has a single field and yields nothing |
| NameStatus.ParseLineShortRename | gen_patch.py:74-76 | a rename line with only two fields yields nothing |
| NameStatus.ParseFormatRoundTrip | gen_patch.py:62-84 | for every well-formed record git can print, parsing its line gives back the record's path, the destination for a rename |
| NameStatus.ParsedConcat | gen_patch.py:69-83 | lines are parsed independently: parsing two runs of lines is parsing each and concatenating |
| NameStatus.ParsedBounds | gen_patch.py:68-84 | at most one path per line, none containing a tab |
| NameStatus.ParseNameStatus | gen_patch.py:62-84 | the loop returns exactly the paths the lines yield, in line order, at most one per line |
| Collect.IsUnderPrefixes | gen_patch.py:87-89 | true exactly when some allowed prefix starts the path |
| Collect.IsUnderPrefixesExtremes | gen_patch.py:87-89 | no prefixes keep nothing; an empty prefix keeps everything |
| Collect.IsUnderPrefixesConcat | gen_patch.py:87-89 | the prefix filter over two prefix lists is the disjunction of the two filters |
| Collect.AddUnderPrefixes | gen_patch.py:173-175 | the accumulated set grows by exactly the reported paths under the prefixes |
| Collect.CollectFromDiff | gen_patch.py:165-179 | a failed diff stops the run with its error output; otherwise the parsed paths under the prefixes |
| Collect.GatheredOk | gen_patch.py:185-197 | a per-item collector succeeds exactly when every item's git run succeeds, and then holds exactly the reported paths under the prefixes |
| Collect.GatheredErr | gen_patch.py:185-197 | a failing collector reports the error of the first item whose git run failed |
| Collect.GatheredStopsAtError | gen_patch.py:194-196 | once an item fails, later items cannot change the outcome |
| Collect.CollectFromCommits | gen_patch.py:182-197 | the loop over commits agrees with the per-commit specification, so the three lemmas above describe it |
| Collect.FindDots | gen_patch.py:154 | finds the first occurrence of `..`, or reports that there is none |
| Collect.SplitRange | gen_patch.py:154-157 | no split exactly when `..` is absent; otherwise the two parts joined by `..` rebuild the range, and the first part holds no `..` |
| Collect.SplitRangeOfJoin | gen_patch.py:157 | joining two parts with `..` and splitting gives them back when the first part holds no `..` and does not end in a dot |
| Collect.CheckSelectors | gen_patch.py:145-162 | no error exactly when every commit and every range tip is an ancestor and every range has `..`; otherwise the error of the first refused selector, commits before ranges |
| Collect.CollectFromRanges | gen_patch.py:200-216 | the loop over ranges agrees with the per-range specification: for ranges of the `A..B` form, the only ones that reach it once the selectors are checked, the first failed diff stops the run with that range's error, and otherwise the result is the reported paths under the prefixes |
| Collect.AddUntracked | gen_patch.py:258-263 | the set grows by the stripped, non-blank untracked lines under the prefixes |
| Collect.UntrackedTrimmed | gen_patch.py:258-261 | an untracked path is never empty and has no surrounding whitespace |
| Collect.CollectFromUncommitted | gen_patch.py:219-268 | staged, then unstaged, then untracked: the first failure stops the run with its own error, otherwise the union of the three |
| Collect.CollectedUnderPrefixes | gen_patch.py:182-268 | every path the commit, range and working-tree collectors return lies under the prefixes |
| Collect.ExplicitFormsStopAtError | gen_patch.py:278-291 | the first unresolvable or outside-the-repository absolute path stops the run whatever follows |
| Collect.ExplicitFormsOfRelative | gen_patch.py:293-294 | relative explicit paths never fail and each becomes its own POSIX form |
| Collect.ExplicitFormsArePosix | gen_patch.py:292-294 | every normalised explicit path is already in POSIX form |
| Collect.NormalizeExplicitPaths | gen_patch.py:271-298 | the first failing path's error is returned; otherwise the requested set is exactly the normalised paths and the selected set exactly those under the prefixes, a subset of the requested |
| Classify.ClassificationContents | gen_patch.py:313-327 | the `.spec` and `.m` sets hold exactly the present candidates with that suffix, joined under the repository, and the missing lists hold exactly the absent candidates, explicit or not |
| Classify.ClassificationSorted | gen_patch.py:313-319 | walking the candidates in sorted order makes both missing lists strictly ascending |
| Classify.MaterializeAndClassify | gen_patch.py:301-329 | each of the four outputs holds exactly its bucket of the candidates, and both missing lists are strictly ascending |
| Classify.UnderKeepsCount | gen_patch.py:322-324 | joining under the repository never merges two candidates |
| Classify.BucketSizes | gen_patch.py:313-327 | every candidate lands in exactly one bucket, the ignored one included |
| Classify.ClassifiedPartition | gen_patch.py:301-329 | the sizes of the four outputs and of the ignored candidates add up to the number of candidates |
| Paths.PosixFormIdempotent | gen_patch.py:292-294 | a path already in POSIX form is unchanged by another conversion |
| Paths.ParentAndName | gen_patch.py:422-423 | parent and name rebuild a relative path, the root being `.` |
| Paths.NameKeepsSuffix | gen_patch.py:423 | the name of a path ending in a suffix without a slash ends in that suffix |
| Paths.RelPosixOfJoin | gen_patch.py:37-39 | a path joined under a directory, taken relative to that directory, is the original relative path |
| Paths.JoinPathInjective | gen_patch.py:322-324 | different relative paths join to different paths |
| Paths.CommonPath | gen_patch.py:444 | a common path exists exactly when the list is non-empty and not a mix of absolute and relative paths |
| Paths.CommonPrefixOfAllIsLongest | gen_patch.py:444 | the common segments are the longest list of segments every path starts with |
| Paths.JoinNamed | gen_patch.py:444 | joining named segments gives a relative path in POSIX form with exactly those segments, starting and ending with no slash |
| Paths.BelowJoin | gen_patch.py:445-447 | a path whose segments start with a run of segments is that run joined, or lies below it |
| Paths.ParentOfPosix | gen_patch.py:421 | the directory of a relative path in POSIX form is `.` or again such a path |
| Paths.CommonPathOfRelative | gen_patch.py:444 | for relative paths in POSIX form, `commonpath` is the join of their common segments |
| Paths.AllBelowCommon | gen_patch.py:444-447 | each of those paths is the join of the common segments or lies below it |
| Ordering.SortSeqSorted | gen_patch.py:387 | sorting gives an ascending permutation of its input |
| Ordering.SortedSetIsStrictlySorted | gen_patch.py:313 | a sorted set is strictly ascending |
| Ordering.SortedSeqIsSortedSet | gen_patch.py:437 | a strictly ascending list is the sorted form of its element set, so it is unique |
| Ordering.SortSeqOrderIrrelevant | gen_patch.py:386-387 | sorting two lists with the same elements, counted with repetition, gives the same list |
| Flat.EmitFlat | gen_patch.py:376-389 | the emitting loops produce the flat layout for the given lists |
| Flat.BuildFlat | gen_patch.py:371-389 | the flat manifest of two sets walked in ascending order |
| Flat.FlatCount | gen_patch.py:376-389 | one line per include spec, `.spec` file and `.m` file |
| Flat.FlatIncludeFirst | gen_patch.py:377-379 | the include specs come first, each marked `+`, in configuration order |
| Flat.FlatSpecFirstLayout | gen_patch.py:380-384 | in `spec-first` order, every selected `.spec` file appears once, marked and ascending, then every `.m` file once, ascending |
| Flat.FlatMergedLayout | gen_patch.py:385-388 | in merged order, the lines after the include specs are an ascending permutation of the `.spec` and `.m` lines |
| Flat.FlatMergedAnyOrder | gen_patch.py:386-388 | the merged layout does not depend on the order in which the sets are walked |
| Flat.FlatMembers | gen_patch.py:376-389 | every flat line is a `.m` path or a `+`-marked line |
| Curly.FilesByDirKeys | gen_patch.py:420-424 | a directory is a key exactly when some `.m` path lies in it |
| Curly.FilesByDirNames | gen_patch.py:420-424 | a name is listed under a directory exactly when a `.m` path there has that name |
| Curly.SpecsByDirKeys | gen_patch.py:427-431 | the same for the `.spec` paths |
| Curly.SpecsByDirNames | gen_patch.py:427-431 | the same for the `.spec` names |
| Curly.GroupFiles | gen_patch.py:420-424 | the loop builds the `.m` grouping the two lemmas above describe |
| Curly.GroupSpecs | gen_patch.py:427-431 | the loop builds the `.spec` grouping |
| Curly.Normalise | gen_patch.py:434-436 | one entry per key, `.` turned into the empty string and every other key kept |
| Curly.AllDirs | gen_patch.py:433-437 | the directory list is the sorted set of normalised keys |
| Curly.DirsOfExactly | gen_patch.py:433-437 | a directory is visited exactly when a selected file lies in it |
| Curly.DirsArePosix | gen_patch.py:420-437 | when the selected paths are relative paths in POSIX form, so is every visited directory other than the root |
| Curly.CurlyLayoutChoice | gen_patch.py:433-452 | for such paths, the common layout is chosen exactly when there are at least two non-root directories and all of them share a first segment, headed by the deepest directory they all lie in |
| Curly.RootComesFirst | gen_patch.py:437 | the root, when visited, is the first directory |
| Curly.NonRoot | gen_patch.py:441 | exactly the visited directories other than the root |
| Curly.CommonDir | gen_patch.py:439-450 | a chosen common directory is non-empty and every non-root directory is it or lies below it |
| Curly.CommonDirIsDeepest | gen_patch.py:439-450 | for directories in POSIX form, a common directory exists exactly when there are at least two non-root directories and all of them share a first segment, and it is the join of their longest common run of segments |
| Curly.NoCommonDirOfStrangers | gen_patch.py:441-450 | any two directories in POSIX form whose first segments differ have no common directory |
| Curly.AppendEntries | gen_patch.py:459-462 | appends one directory's entries |
| Curly.EntriesLayout | gen_patch.py:459-462 | a directory's `.m` names come ascending, then its `.spec` names, marked, ascending and each once |
| Curly.EntriesLines | gen_patch.py:459-462 | nothing else is among the entries: each `.m` line is the indentation and a name listed in that directory, each `.spec` line the indentation, `+` and a name held there |
| Curly.EmitFallbackPart | gen_patch.py:482-494 | appends a block headed by the directory, or the unheaded root entries |
| Curly.EmitSubBlock | gen_patch.py:466-477 | appends a block below the common directory, or nothing for the root, the common directory itself and directories not below it |
| Curly.EmitFallback | gen_patch.py:481-494 | the loop appends every visited directory's part in order |
| Curly.EmitCommon | gen_patch.py:452-478 | one block headed by the common directory, holding its entries and then a sub-block per directory below it |
| Curly.EmitBody | gen_patch.py:452-494 | the common layout when there is a common directory, the per-directory layout otherwise |
| Curly.BuildCurly | gen_patch.py:392-496 | the curly manifest with the root entries looked up where they are stored |
| Curly.CurlyBalanced | gen_patch.py:392-496 | with `.m` and `.spec` names, every block the curly manifest opens is closed and none is closed unopened |
| Curly.FallbackListsFile | gen_patch.py:479-494 | without a common directory, every selected `.m` file is listed by name in its directory's part, and that part is in the manifest |
| Curly.FallbackListsSpec | gen_patch.py:479-494 | the same for every selected `.spec` file, marked `+` |
| Curly.CommonListsFile | gen_patch.py:452-478 | with a common directory, every non-root `.m` file is listed in the common entries or in its directory's sub-block, which lies below the common directory |
| Curly.CommonListsSpec | gen_patch.py:452-478 | the same for every non-root `.spec` file |
| Curly.RootEntriesEmptyAsWritten | gen_patch.py:490-494 | as written, the root entries are always empty |
| Curly.RootFileDroppedAsWritten | gen_patch.py:433-494 | a lone `.m` file at the root produces an empty manifest as written and is listed once corrected |
| Curly.AsWrittenMatchesWithoutRootFiles | gen_patch.py:433-494 | the correction changes nothing unless a selected file lies at the root |
| Render.ConfiguredFormat | gen_patch.py:534 | a configured format is used as given |
| Render.FormatName | gen_patch.py:598 | an empty setting names `flat`; any other keeps its length; the name holds no upper-case letter |
| Render.Wrap | gen_patch.py:608 | the lines between one opening and one closing brace |
| Render.BuildManifest | gen_patch.py:597-608 | the run yields the wrapped lines of the chosen format, the curly one with the corrected root lookup, or the unknown-format error |
| Render.FormatIgnoresCase | gen_patch.py:598 | letter case does not matter for the format setting |
| Render.DefaultFormats | gen_patch.py:534 | with no setting the format is `curly`, with an empty one `flat` |
| Render.ManifestOrError | gen_patch.py:599-605 | a manifest exactly for `flat` and `curly` in any letter case, the unknown-format error naming the setting otherwise |
| Render.WrapBalanced | gen_patch.py:608 | wrapping keeps balanced lines balanced and puts all of them inside the outer block |
| Render.FlatBalanced | gen_patch.py:371-389 | with `.m` paths, the flat lines open and close no block |
| Render.ManifestBalanced | gen_patch.py:597-608 | every manifest produced, of either format, is balanced |
| Render.FlatManifestCount | gen_patch.py:597-608 | a flat manifest has one line per listed path and per include spec plus the two braces |
| Overlay.CandidatesUnderPrefixes | gen_patch.py:547-557 | every candidate lies under the prefixes, whichever selector brought it in |
| Overlay.CollectionFailure | gen_patch.py:547-557 | the first failing collection step in the order `main` runs them; none exactly when every git run and explicit path succeeds |
| Overlay.SelectCandidates | gen_patch.py:544-557 | success exactly when the selectors are accepted and every git run and explicit path succeeds, returning the union and the requested set; otherwise the first refused selector's error, reported before anything is collected, or the first collection failure |
| Overlay.Relative | gen_patch.py:373-374 | files joined under the repository, taken relative to it again, are the repository-relative paths |
| Overlay.ListedSuffixes | gen_patch.py:321-324 | listed `.spec` files end in `.spec`, and listed `.m` files end in `.m` and not in `.spec` |
| Overlay.ListedExactly | gen_patch.py:313-327 | a candidate is listed as `.spec` or `.m` exactly when present with that suffix, and reported missing exactly when it was requested and is absent |
| Overlay.WrittenBalanced | gen_patch.py:597-608 | the manifest a run writes is balanced |
| Overlay.Generate | gen_patch.py:544-608 | a refused selector stops the run with the first refused selector's error, a failed collection step with the first failure, and missing explicit paths with all of them in ascending order; otherwise the run writes the manifest of the listed files, a curly one with the corrected root lookup |

## Left out

- Reading the TOML configuration and the command line, `load_config`, `resolve_repo_dir_from_config`, `maybe_fetch` and `ensure_target_exists`: these are I/O. The settings a run uses are the parameters of `Overlay.Settings`.
- `resolve_effective_baseline`: the diff from the baseline is a parameter (`World.diff`), whatever baseline produced it.
- Running git (`run`) and `text.splitlines()`: git's output arrives as a list of lines, or as a failure with its error output.
- `write_atomic_lines`, the messages printed, the warnings for dropped paths and the exit status: errors are returned as `Fatal` values, and the manifest is returned as lines.
- The choice of output path (gen_patch.py:586-595): the manifest is placed next to the default output file, so the output directory is the repository directory.
- The resolution of `include_specs` (gen_patch.py:575-584): the include specs are given already relative to the output directory.
- `expanduser`, `resolve` and symbolic links: an absolute explicit path is resolved by the parameter `locate`. Resolving the `.spec` and `.m` paths again (gen_patch.py:563-564) is taken to leave them unchanged.
- Paths.RelPosix: models `os.path.relpath` only for paths inside the start directory. The `..` steps it writes for other paths are not modelled; no such path reaches the formatters here.
- Collect.RangePaths: a range without `..` makes `rng.split("..", 1)` (gen_patch.py:204) raise an uncaught `ValueError` in the source, while the model reports `MalformedRange`. No such range reaches it, because the selector check (gen_patch.py:154-156) refuses it first.
- Paths.CommonPath: models `os.path.commonpath` on the `/`-separated named segments only; `..` segments are kept as names.
- Text.LowerAscii: `str.lower` is modelled on ASCII letters only.
- Iteration over Python sets: modelled as ascending order. Nothing the tool writes depends on that order.
- Concurrency and the file system changing during a run are not modelled.
- The common-directory layout skips the root directory (`if not d: continue`). Root-level files are therefore missing from that layout in the model as in the source. `Curly.CommonListsFile` and `Curly.CommonListsSpec` are stated for non-root files only.

## Findings

| source | as written | input that shows it | evidently intended | confidence | as-written member | corrected member |
|---|---|---|---|---|---|---|
| gen_patch.py:490-494 | Files are grouped under `Path(rel).parent`, which is `.` for a file at the root. The fallback layout looks the root entries up under the normalised name `""`, so no file at the root is ever written. | a single selected `.m` file `x.m` directly in the output directory: as written the manifest body is empty | the root entries list the files stored under `.`, as the comment "root entries listed directly" says | not executed | Curly.RootFileDroppedAsWritten | Curly.BuildCurly |

The corrected lookup is `Curly.RootKey`. `Curly.CurlyAsWritten` is the as-written layout. `Curly.AsWrittenMatchesWithoutRootFiles` shows the two agree whenever no selected file lies at the root. The rest of the model (`Render`, `Overlay`) uses the corrected `Curly.CurlyLines`.
