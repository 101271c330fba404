/** The curly manifest: the selected files grouped by directory in brace blocks
    (`build_output_lines_curly`, gen_patch.py lines 392-496). Paths are relative to the
    output directory; a file is listed by its name inside the block of its directory. */
module Curly {
  import opened Wrappers
  import opened Text
  import opened Ordering
  import opened Paths
  import opened Braces
  import Flat

  // ----- Grouping by directory

  /** `dir_to_files.get(d, [])`. */
  function Listed(byDir: map<string, seq<string>>, d: string): seq<string>
  {
    if d in byDir then byDir[d] else []
  }

  /** `dir_to_spec_files.get(d, [])`. */
  function Held(byDir: map<string, set<string>>, d: string): set<string>
  {
    if d in byDir then byDir[d] else {}
  }

  /** `dir_to_files` once the `.m` paths have been visited in the given order: each
      directory, as `Path(rel).parent` writes it, maps to the names of its files. */
  function FilesByDir(paths: seq<string>): map<string, seq<string>>
  {
    if |paths| == 0 then map[]
    else
      var byDir := FilesByDir(paths[..|paths| - 1]);
      var p := paths[|paths| - 1];
      byDir[Parent(p) := Listed(byDir, Parent(p)) + [Name(p)]]
  }

  /** `dir_to_spec_files` once the `.spec` paths have been visited in the given order. */
  function SpecsByDir(paths: seq<string>): map<string, set<string>>
  {
    if |paths| == 0 then map[]
    else
      var byDir := SpecsByDir(paths[..|paths| - 1]);
      var p := paths[|paths| - 1];
      byDir[Parent(p) := Held(byDir, Parent(p)) + {Name(p)}]
  }

  /** A directory is a key of `dir_to_files` exactly when one of the `.m` paths lies in it. */
  lemma {:induction false} FilesByDirKeys(paths: seq<string>, d: string)
    ensures d in FilesByDir(paths) <==> exists p :: p in paths && Parent(p) == d
  {
    if |paths| > 0 {
      var init := paths[..|paths| - 1];
      FilesByDirKeys(init, d);
      assert paths == init + [paths[|paths| - 1]];
    }
  }

  /** A name is listed under a directory exactly when a `.m` path in that directory has it. */
  lemma {:induction false} FilesByDirNames(paths: seq<string>, d: string, x: string)
    ensures x in Listed(FilesByDir(paths), d) <==> exists p :: p in paths && Parent(p) == d && Name(p) == x
  {
    if |paths| > 0 {
      var init := paths[..|paths| - 1];
      FilesByDirNames(init, d, x);
      assert paths == init + [paths[|paths| - 1]];
    }
  }

  /** A directory is a key of `dir_to_spec_files` exactly when one of the `.spec` paths lies in it. */
  lemma {:induction false} SpecsByDirKeys(paths: seq<string>, d: string)
    ensures d in SpecsByDir(paths) <==> exists p :: p in paths && Parent(p) == d
  {
    if |paths| > 0 {
      var init := paths[..|paths| - 1];
      SpecsByDirKeys(init, d);
      assert paths == init + [paths[|paths| - 1]];
    }
  }

  /** A name is held under a directory exactly when a `.spec` path in that directory has it. */
  lemma {:induction false} SpecsByDirNames(paths: seq<string>, d: string, x: string)
    ensures x in Held(SpecsByDir(paths), d) <==> exists p :: p in paths && Parent(p) == d && Name(p) == x
  {
    if |paths| > 0 {
      var init := paths[..|paths| - 1];
      SpecsByDirNames(init, d, x);
      assert paths == init + [paths[|paths| - 1]];
    }
  }

  /** The loop filling `dir_to_files`. */
  method GroupFiles(paths: seq<string>) returns (byDir: map<string, seq<string>>)
    ensures byDir == FilesByDir(paths)
  {
    byDir := map[];
    for i := 0 to |paths|
      invariant byDir == FilesByDir(paths[..i])
    {
      var parent := Parent(paths[i]);
      var name := Name(paths[i]);
      assert paths[..i + 1][..i] == paths[..i];
      byDir := byDir[parent := Listed(byDir, parent) + [name]];
    }
    assert paths[..|paths|] == paths;
  }

  /** The loop filling `dir_to_spec_files`. */
  method GroupSpecs(paths: seq<string>) returns (byDir: map<string, set<string>>)
    ensures byDir == SpecsByDir(paths)
  {
    byDir := map[];
    for i := 0 to |paths|
      invariant byDir == SpecsByDir(paths[..i])
    {
      var parent := Parent(paths[i]);
      var name := Name(paths[i]);
      assert paths[..i + 1][..i] == paths[..i];
      byDir := byDir[parent := Held(byDir, parent) + {name}];
    }
    assert paths[..|paths|] == paths;
  }

  // ----- The directories

  /** Every directory holding a selected file, the root `.` written as the empty string. */
  function DirSet(files: map<string, seq<string>>, specs: map<string, set<string>>): set<string>
  {
    set d | d in files.Keys + specs.Keys :: NormDir(d)
  }

  /** Normalising each of a list of keys gives the normalised set of those keys. */
  lemma NormalisedKeys(keys: seq<string>, normDirs: seq<string>, ks: set<string>)
    requires forall k :: k in keys <==> k in ks
    requires |normDirs| == |keys|
    requires forall j :: 0 <= j < |keys| ==> normDirs[j] == NormDir(keys[j])
    ensures (set d | d in normDirs) == (set k | k in ks :: NormDir(k))
  {
    forall x
      ensures x in normDirs <==> x in (set k | k in ks :: NormDir(k))
    {
      if x in normDirs {
        var j :| 0 <= j < |normDirs| && normDirs[j] == x;
        assert keys[j] in ks;
      }
      if x in (set k | k in ks :: NormDir(k)) {
        var k :| k in ks && NormDir(k) == x;
        var j :| 0 <= j < |keys| && keys[j] == k;
        assert normDirs[j] == x;
      }
    }
  }

  /** The loop building `norm_dirs`, then `all_dirs = sorted(set(norm_dirs))`. */
  method AllDirs(files: map<string, seq<string>>, specs: map<string, set<string>>) returns (dirs: seq<string>)
    ensures dirs == SortedSet(DirSet(files, specs))
  {
    var ks := files.Keys + specs.Keys;
    var keys := SortSet(ks);
    var normDirs := Normalise(keys);
    NormalisedKeys(keys, normDirs, ks);
    dirs := SortSet(set d | d in normDirs);
  }

  /** The loop filling `norm_dirs`: each key with `.` written as the empty string. */
  method Normalise(keys: seq<string>) returns (normDirs: seq<string>)
    ensures |normDirs| == |keys|
    ensures forall j :: 0 <= j < |keys| ==> normDirs[j] == NormDir(keys[j])
  {
    normDirs := [];
    for i := 0 to |keys|
      invariant |normDirs| == i
      invariant forall j :: 0 <= j < i ==> normDirs[j] == NormDir(keys[j])
    {
      normDirs := normDirs + [NormDir(keys[i])];
    }
  }

  /** `[d for d in all_dirs if d]`. */
  function NonRoot(dirs: seq<string>): (r: seq<string>)
    ensures forall d :: d in r <==> d in dirs && d != ""
  {
    if |dirs| == 0 then []
    else
      var init := dirs[..|dirs| - 1];
      var d := dirs[|dirs| - 1];
      assert dirs == init + [d];
      NonRoot(init) + (if d != "" then [d] else [])
  }

  /** `common_dir`: with at least two non-root directories, `os.path.commonpath` of them,
      accepted when it is neither empty nor `.` and every non-root directory is it or lies
      below it, and kept when it is still non-empty without its trailing slashes. `None`
      stands for every way the source ends with no common directory, the exception from
      `commonpath` included. */
  function CommonDir(dirs: seq<string>): (r: Option<string>)
    ensures r.Some? ==> r.value != ""
    ensures r.Some? ==> forall d :: d in dirs && d != "" ==> d == r.value || StartsWith(d, r.value + "/")
  {
    var named := NonRoot(dirs);
    if |named| <= 1 then None
    else
      match CommonPath(named)
      case None => None
      case Some(candidate) =>
        var stem := RStripChar(candidate, '/');
        if candidate != "" && candidate != "." && stem != ""
          && (forall d :: d in named ==> d == candidate || StartsWith(d, stem + "/"))
        then
          assert candidate != stem ==> StartsWith(candidate, stem + "/") by {
            if candidate != stem {
              assert candidate[|stem|] == '/';
              assert candidate[..|stem| + 1] == stem + "/";
            }
          }
          Some(stem)
        else None
  }

  /** For directories in the form `relpath` and `as_posix` give them, a common directory
      exists exactly when there are at least two non-root directories and all of them share
      a first segment, and it is then the deepest directory they all lie in: the join of
      their longest common run of segments. */
  lemma CommonDirIsDeepest(dirs: seq<string>)
    requires forall d :: d in dirs && d != "" ==> RelativePosix(d)
    ensures CommonDir(dirs).Some? <==>
      |NonRoot(dirs)| >= 2 && CommonPrefixOfAll(SegmentLists(NonRoot(dirs))) != []
    ensures CommonDir(dirs).Some? ==>
      && |NonRoot(dirs)| >= 2
      && CommonDir(dirs).value == Join(CommonPrefixOfAll(SegmentLists(NonRoot(dirs))), '/')
      && Segments(CommonDir(dirs).value) == CommonPrefixOfAll(SegmentLists(NonRoot(dirs)))
  {
    var named := NonRoot(dirs);
    if |named| >= 2 {
      var common := CommonPrefixOfAll(SegmentLists(named));
      assert forall i :: 0 <= i < |named| ==> RelativePosix(named[i]) by {
        assert forall i :: 0 <= i < |named| ==> named[i] in named;
      }
      CommonPathOfRelative(named);
      if common != [] {
        CommonSegmentsNamed(named);
        JoinNamed(common);
        assert RStripChar(Join(common, '/'), '/') == Join(common, '/');
        AllBelowCommon(named);
      }
    }
  }

  /** Two directories whose first segments differ have no common directory. */
  lemma NoCommonDirOfStrangers(d1: string, d2: string)
    requires RelativePosix(d1) && RelativePosix(d2)
    requires |Segments(d1)| > 0 && |Segments(d2)| > 0 && Segments(d1)[0] != Segments(d2)[0]
    ensures CommonDir([d1, d2]).None?
  {
    var dirs := [d1, d2];
    assert d1 != "" && d2 != "";
    assert NonRoot(dirs) == dirs by {
      assert dirs[..1] == [d1];
      assert NonRoot([d1]) == [d1] by {
        assert [d1][..0] == [];
      }
    }
    var lists := SegmentLists(dirs);
    assert lists[1..] == [Segments(d2)];
    assert CommonPrefix(Segments(d1), Segments(d2)) == [];
    CommonDirIsDeepest(dirs);
  }

  // ----- The lines

  /** The entries of one directory: its `.m` names, ascending, then its `.spec` names marked
      with `+`, ascending, each behind the given indentation. */
  ghost function Entries(files: map<string, seq<string>>, specs: map<string, set<string>>, key: string, indent: string): seq<string>
  {
    Prefixed(indent, SortSeq(Listed(files, key))) + Prefixed(indent + "+", SortedSet(Held(specs, key)))
  }

  /** One directory of the layout without a common directory: a block headed by the
      directory, or, for the root, its entries with no header, looked up under `rootKey`. */
  ghost function FallbackPart(files: map<string, seq<string>>, specs: map<string, set<string>>, rootKey: string, d: string): seq<string>
  {
    if d != "" then [RStripChar(d, '/') + "/", "{"] + Entries(files, specs, d, "  ") + ["}"]
    else Entries(files, specs, rootKey, "  ")
  }

  /** The parts of the given directories, one after another. */
  ghost function Fallback(files: map<string, seq<string>>, specs: map<string, set<string>>, dirs: seq<string>, rootKey: string): seq<string>
  {
    if |dirs| == 0 then []
    else Fallback(files, specs, dirs[..|dirs| - 1], rootKey) + FallbackPart(files, specs, rootKey, dirs[|dirs| - 1])
  }

  /** One more directory extends the lines by its part. */
  lemma FallbackStep(lines: seq<string>, before: seq<string>, after: seq<string>, files: map<string, seq<string>>, specs: map<string, set<string>>, dirs: seq<string>, i: nat, rootKey: string)
    requires i < |dirs|
    requires before == lines + Fallback(files, specs, dirs[..i], rootKey)
    requires after == before + FallbackPart(files, specs, rootKey, dirs[i])
    ensures after == lines + Fallback(files, specs, dirs[..i + 1], rootKey)
  {
    var done := Fallback(files, specs, dirs[..i], rootKey);
    var part := FallbackPart(files, specs, rootKey, dirs[i]);
    assert Fallback(files, specs, dirs[..i + 1], rootKey) == done + part by {
      assert dirs[..i + 1][..i] == dirs[..i];
    }
    ConcatAssoc(lines, done, part);
  }

  /** One directory below the common directory `c`: a block headed by its path below `c`,
      its entries indented by four. The root, `c` itself and anything not below `c`
      contribute nothing. */
  ghost function SubBlock(files: map<string, seq<string>>, specs: map<string, set<string>>, c: string, d: string): seq<string>
  {
    if d == "" || d == c || !StartsWith(d, c + "/") then []
    else ["  " + RStripChar(d[|c| + 1..], '/') + "/", "  {"] + Entries(files, specs, d, "    ") + ["  }"]
  }

  /** The sub-blocks of the given directories, one after another. */
  ghost function SubBlocks(files: map<string, seq<string>>, specs: map<string, set<string>>, c: string, dirs: seq<string>): seq<string>
  {
    if |dirs| == 0 then []
    else SubBlocks(files, specs, c, dirs[..|dirs| - 1]) + SubBlock(files, specs, c, dirs[|dirs| - 1])
  }

  /** One more directory extends the lines by its sub-block. */
  lemma SubBlocksStep(head: seq<string>, before: seq<string>, after: seq<string>, files: map<string, seq<string>>, specs: map<string, set<string>>, c: string, dirs: seq<string>, i: nat)
    requires i < |dirs|
    requires before == head + SubBlocks(files, specs, c, dirs[..i])
    requires after == before + SubBlock(files, specs, c, dirs[i])
    ensures after == head + SubBlocks(files, specs, c, dirs[..i + 1])
  {
    var done := SubBlocks(files, specs, c, dirs[..i]);
    var part := SubBlock(files, specs, c, dirs[i]);
    assert SubBlocks(files, specs, c, dirs[..i + 1]) == done + part by {
      assert dirs[..i + 1][..i] == dirs[..i];
    }
    ConcatAssoc(head, done, part);
  }

  /** The layout with a common directory `c`: one block headed by `c` holding the entries of
      `c` and a sub-block per directory below it. */
  ghost function Common(files: map<string, seq<string>>, specs: map<string, set<string>>, dirs: seq<string>, c: string): seq<string>
  {
    [c + "/", "{"] + Entries(files, specs, c, "  ") + SubBlocks(files, specs, c, dirs) + ["}"]
  }

  ghost function Body(files: map<string, seq<string>>, specs: map<string, set<string>>, dirs: seq<string>, rootKey: string): seq<string>
  {
    match CommonDir(dirs)
    case Some(c) => Common(files, specs, dirs, c)
    case None => Fallback(files, specs, dirs, rootKey)
  }

  /** The key the files of the root directory are stored under: `Path(rel).parent` of a
      path with no slash is `.`. */
  const RootKey := "."

  ghost function FilesOf(m: set<string>): map<string, seq<string>>
  {
    FilesByDir(SortedSet(m))
  }

  ghost function SpecsOf(spec: set<string>): map<string, set<string>>
  {
    SpecsByDir(SortedSet(spec))
  }

  ghost function DirsOf(spec: set<string>, m: set<string>): seq<string>
  {
    SortedSet(DirSet(FilesOf(m), SpecsOf(spec)))
  }

  /** The lines of the curly manifest when the root entries are looked up under `rootKey`:
      the included specs marked with `+`, then the directory blocks. */
  ghost function CurlyWith(included: seq<string>, spec: set<string>, m: set<string>, rootKey: string): seq<string>
  {
    Flat.PlusEach(included) + Body(FilesOf(m), SpecsOf(spec), DirsOf(spec, m), rootKey)
  }

  /** The source looks the root entries up under the normalised name `""`. */
  ghost function CurlyAsWritten(included: seq<string>, spec: set<string>, m: set<string>): seq<string>
  {
    CurlyWith(included, spec, m, "")
  }

  /** The curly manifest with the root entries looked up where they are stored. */
  ghost function CurlyLines(included: seq<string>, spec: set<string>, m: set<string>): seq<string>
  {
    CurlyWith(included, spec, m, RootKey)
  }

  // ----- The method

  /** The two loops listing one directory's entries. */
  method AppendEntries(lines: seq<string>, files: map<string, seq<string>>, specs: map<string, set<string>>, key: string, indent: string)
    returns (r: seq<string>)
    ensures r == lines + Entries(files, specs, key, indent)
  {
    r := AppendPrefixed(lines, indent, SortSeq(Listed(files, key)));
    var names := SortSet(Held(specs, key));
    r := AppendPrefixed(r, indent + "+", names);
  }

  /** One directory's share of the branch without a common directory. */
  method EmitFallbackPart(lines: seq<string>, files: map<string, seq<string>>, specs: map<string, set<string>>, d: string)
    returns (r: seq<string>)
    ensures r == lines + FallbackPart(files, specs, RootKey, d)
  {
    if d != "" {
      r := lines + [RStripChar(d, '/') + "/", "{"];
      r := AppendEntries(r, files, specs, d, "  ");
      r := r + ["}"];
    } else {
      r := AppendEntries(lines, files, specs, RootKey, "  ");
    }
  }

  /** One directory's share of the branch with a common directory `c`. */
  method EmitSubBlock(lines: seq<string>, files: map<string, seq<string>>, specs: map<string, set<string>>, c: string, d: string)
    returns (r: seq<string>)
    ensures r == lines + SubBlock(files, specs, c, d)
  {
    var prefix := c + "/";
    if d == "" || d == c || !StartsWith(d, prefix) {
      return lines;
    }
    var rel := RStripChar(d[|prefix|..], '/');
    r := lines + ["  " + rel + "/", "  {"];
    r := AppendEntries(r, files, specs, d, "    ");
    r := r + ["  }"];
  }

  /** The branch without a common directory: one block per directory. */
  method EmitFallback(lines: seq<string>, files: map<string, seq<string>>, specs: map<string, set<string>>, dirs: seq<string>)
    returns (r: seq<string>)
    ensures r == lines + Fallback(files, specs, dirs, RootKey)
  {
    r := lines;
    for i := 0 to |dirs|
      invariant r == lines + Fallback(files, specs, dirs[..i], RootKey)
    {
      ghost var before := r;
      r := EmitFallbackPart(r, files, specs, dirs[i]);
      FallbackStep(lines, before, r, files, specs, dirs, i, RootKey);
    }
    assert dirs[..|dirs|] == dirs;
  }

  /** The branch with a common directory `c`. */
  method EmitCommon(lines: seq<string>, files: map<string, seq<string>>, specs: map<string, set<string>>, dirs: seq<string>, c: string)
    returns (r: seq<string>)
    ensures r == lines + Common(files, specs, dirs, c)
  {
    r := lines + [c + "/", "{"];
    r := AppendEntries(r, files, specs, c, "  ");
    ghost var opening := [c + "/", "{"] + Entries(files, specs, c, "  ");
    ConcatAssoc(lines, [c + "/", "{"], Entries(files, specs, c, "  "));
    ghost var head := r;
    for i := 0 to |dirs|
      invariant r == head + SubBlocks(files, specs, c, dirs[..i])
    {
      ghost var before := r;
      r := EmitSubBlock(r, files, specs, c, dirs[i]);
      SubBlocksStep(head, before, r, files, specs, c, dirs, i);
    }
    assert dirs[..|dirs|] == dirs;
    ghost var subs := SubBlocks(files, specs, c, dirs);
    ConcatAssoc(lines, opening, subs);
    ConcatAssoc(lines, opening + subs, ["}"]);
    r := r + ["}"];
  }

  /** The choice between the two layouts. */
  method EmitBody(lines: seq<string>, files: map<string, seq<string>>, specs: map<string, set<string>>, dirs: seq<string>)
    returns (r: seq<string>)
    ensures r == lines + Body(files, specs, dirs, RootKey)
  {
    var common := CommonDir(dirs);
    if common.Some? {
      r := EmitCommon(lines, files, specs, dirs, common.value);
    } else {
      r := EmitFallback(lines, files, specs, dirs);
    }
  }

  /** `build_output_lines_curly` with the root entries looked up where they are stored. The
      source walks its sets in no particular order; here they are walked in ascending order,
      which changes nothing since every group of names is sorted before it is listed. */
  method BuildCurly(included: seq<string>, spec: set<string>, m: set<string>) returns (lines: seq<string>)
    ensures lines == CurlyLines(included, spec, m)
  {
    lines := AppendPrefixed([], "+", included);
    assert lines == Flat.PlusEach(included);
    var mSorted := SortSet(m);
    var files := GroupFiles(mSorted);
    var specSorted := SortSet(spec);
    var specs := GroupSpecs(specSorted);
    var dirs := AllDirs(files, specs);
    assert files == FilesOf(m) && specs == SpecsOf(spec) && dirs == DirsOf(spec, m);
    lines := EmitBody(lines, files, specs, dirs);
  }

  // ----- Properties

  /** `part` occurs in `whole` starting at line `i`. */
  ghost predicate RunAt(part: seq<string>, whole: seq<string>, i: int)
  {
    0 <= i && i + |part| <= |whole| && whole[i..i + |part|] == part
  }

  /** `part` occurs in `whole` as a run of consecutive lines. */
  ghost predicate Within(part: seq<string>, whole: seq<string>)
  {
    exists i :: RunAt(part, whole, i)
  }

  lemma WithinLeft(part: seq<string>, a: seq<string>, b: seq<string>)
    requires Within(part, a)
    ensures Within(part, a + b)
  {
    var i :| RunAt(part, a, i);
    assert (a + b)[i..i + |part|] == part;
    assert RunAt(part, a + b, i);
  }

  lemma WithinRight(part: seq<string>, a: seq<string>, b: seq<string>)
    requires Within(part, b)
    ensures Within(part, a + b)
  {
    var i :| RunAt(part, b, i);
    assert (a + b)[|a| + i..|a| + i + |part|] == part;
    assert RunAt(part, a + b, |a| + i);
  }

  lemma WithinSelf(part: seq<string>)
    ensures Within(part, part)
  {
    assert part[0..|part|] == part;
    assert RunAt(part, part, 0);
  }

  /** Every name of a sorted group is one of the group's names. */
  lemma SortSeqMembers(names: seq<string>, x: string)
    ensures x in SortSeq(names) <==> x in names
  {
    assert x in SortSeq(names) <==> x in multiset(SortSeq(names));
  }

  /** The entries of a directory are its `.m` names, ascending, then its `.spec` names marked
      with `+`, ascending and each once, all behind the indentation. */
  lemma EntriesLayout(files: map<string, seq<string>>, specs: map<string, set<string>>, key: string, indent: string)
    ensures var e := Entries(files, specs, key, indent);
      var n := |Listed(files, key)|;
      && |e| == n + |Held(specs, key)|
      && Sorted(e[..n])
      && (forall x :: indent + x in e[..n] <==> x in Listed(files, key))
      && StrictlySorted(e[n..])
      && (forall x :: indent + "+" + x in e[n..] <==> x in Held(specs, key))
  {
    var e := Entries(files, specs, key, indent);
    var names := SortSeq(Listed(files, key));
    var specNames := SortedSet(Held(specs, key));
    var n := |Listed(files, key)|;
    assert e[..n] == Prefixed(indent, names);
    assert e[n..] == Prefixed(indent + "+", specNames);
    SortSeqSorted(Listed(files, key));
    PrefixedSorted(indent, names);
    SortedSetIsStrictlySorted(Held(specs, key));
    PrefixedStrictlySorted(indent + "+", specNames);
    forall x
      ensures indent + x in e[..n] <==> x in Listed(files, key)
    {
      PrefixedMembers(indent, names, x);
      SortSeqMembers(Listed(files, key), x);
    }
    forall x
      ensures indent + "+" + x in e[n..] <==> x in Held(specs, key)
    {
      assert indent + "+" + x == (indent + "+") + x;
      PrefixedMembers(indent + "+", specNames, x);
    }
  }

  /** Nothing else is among the entries: each of the first lines is the indentation and a
      listed `.m` name, each of the others the indentation, `+` and a held `.spec` name. */
  lemma EntriesLines(files: map<string, seq<string>>, specs: map<string, set<string>>, key: string, indent: string)
    ensures var e := Entries(files, specs, key, indent);
      var n := |Listed(files, key)|;
      && |e| == n + |Held(specs, key)|
      && (forall i :: 0 <= i < n ==> StartsWith(e[i], indent) && e[i][|indent|..] in Listed(files, key))
      && (forall i :: n <= i < |e| ==> StartsWith(e[i], indent + "+") && e[i][|indent| + 1..] in Held(specs, key))
  {
    var names := SortSeq(Listed(files, key));
    var specNames := SortedSet(Held(specs, key));
    ConcatPrefixedLines(indent, names, indent + "+", specNames);
    assert |indent + "+"| == |indent| + 1;
    forall i | 0 <= i < |names|
      ensures names[i] in Listed(files, key)
    {
      SortSeqMembers(Listed(files, key), names[i]);
    }
  }

  /** No grouped name ends in a brace. */
  ghost predicate ProperNames(files: map<string, seq<string>>, specs: map<string, set<string>>)
  {
    && (forall d, x :: x in Listed(files, d) ==> BraceFree(x))
    && (forall d, x :: x in Held(specs, d) ==> BraceFree(x))
  }

  /** The name of a path that ends in a suffix without a slash or a final brace does not end
      in a brace either. */
  lemma NameBraceFree(p: string, suffix: string)
    requires EndsWith(p, suffix) && '/' !in suffix && BraceFree(suffix)
    ensures BraceFree(Name(p))
  {
    NameKeepsSuffix(p, suffix);
    var n := Name(p);
    assert n[|n| - 1] == n[|n| - |suffix|..][|suffix| - 1];
  }

  /** Grouping paths that all end in `suffix` gives names that do not end in a brace. */
  lemma FilesBraceFree(paths: seq<string>, suffix: string, d: string, x: string)
    requires '/' !in suffix && BraceFree(suffix)
    requires forall p :: p in paths ==> EndsWith(p, suffix)
    requires x in Listed(FilesByDir(paths), d)
    ensures BraceFree(x)
  {
    FilesByDirNames(paths, d, x);
    var p :| p in paths && Parent(p) == d && Name(p) == x;
    NameBraceFree(p, suffix);
  }

  lemma SpecsBraceFree(paths: seq<string>, suffix: string, d: string, x: string)
    requires '/' !in suffix && BraceFree(suffix)
    requires forall p :: p in paths ==> EndsWith(p, suffix)
    requires x in Held(SpecsByDir(paths), d)
    ensures BraceFree(x)
  {
    SpecsByDirNames(paths, d, x);
    var p :| p in paths && Parent(p) == d && Name(p) == x;
    NameBraceFree(p, suffix);
  }

  /** The classifier hands over `.m` paths ending in `.m` and `.spec` paths ending in `.spec`;
      grouped by directory, their names end in neither brace. */
  lemma GroupedNamesProper(spec: set<string>, m: set<string>)
    requires forall p :: p in m ==> EndsWith(p, ".m")
    requires forall p :: p in spec ==> EndsWith(p, ".spec")
    ensures ProperNames(FilesOf(m), SpecsOf(spec))
  {
    var ms := SortedSet(m);
    var specs := SortedSet(spec);
    assert '/' !in ".m" && BraceFree(".m");
    assert '/' !in ".spec" && BraceFree(".spec");
    forall d, x | x in Listed(FilesOf(m), d)
      ensures BraceFree(x)
    {
      FilesBraceFree(ms, ".m", d, x);
    }
    forall d, x | x in Held(SpecsOf(spec), d)
      ensures BraceFree(x)
    {
      SpecsBraceFree(specs, ".spec", d, x);
    }
  }

  /** No entry line opens or closes a block. */
  lemma EntriesNeutral(files: map<string, seq<string>>, specs: map<string, set<string>>, key: string, indent: string)
    requires ProperNames(files, specs)
    ensures Balanced(Entries(files, specs, key, indent))
  {
    var names := SortSeq(Listed(files, key));
    var specNames := SortedSet(Held(specs, key));
    forall x | x in names
      ensures BraceFree(x)
    {
      SortSeqMembers(Listed(files, key), x);
    }
    PrefixedBalanced(indent, names);
    PrefixedBalanced(indent + "+", specNames);
    BalancedConcat(Prefixed(indent, names), Prefixed(indent + "+", specNames));
  }

  /** A header line, then a block holding balanced lines, is balanced. */
  lemma HeadedBlock(header: string, open: string, inner: seq<string>, close: string)
    requires BraceFree(header) && IsOpen(open) && IsClose(close)
    requires Balanced(inner)
    ensures Balanced([header, open] + inner + [close])
  {
    var block := [open] + inner + [close];
    NeutralLine(header);
    NeutralBalanced([header]);
    Wrapped(open, inner, close);
    BalancedConcat([header], block);
    assert [header, open] + inner + [close] == [header] + block;
  }

  lemma FallbackPartBalanced(files: map<string, seq<string>>, specs: map<string, set<string>>, rootKey: string, d: string)
    requires ProperNames(files, specs)
    ensures Balanced(FallbackPart(files, specs, rootKey, d))
  {
    if d != "" {
      EntriesNeutral(files, specs, d, "  ");
      BraceLines();
      SlashEnded(RStripChar(d, '/'));
      HeadedBlock(RStripChar(d, '/') + "/", "{", Entries(files, specs, d, "  "), "}");
    } else {
      EntriesNeutral(files, specs, rootKey, "  ");
    }
  }

  lemma {:induction false} FallbackBalanced(files: map<string, seq<string>>, specs: map<string, set<string>>, dirs: seq<string>, rootKey: string)
    requires ProperNames(files, specs)
    ensures Balanced(Fallback(files, specs, dirs, rootKey))
  {
    if |dirs| == 0 {
      NeutralBalanced([]);
    } else {
      var d := dirs[|dirs| - 1];
      FallbackBalanced(files, specs, dirs[..|dirs| - 1], rootKey);
      FallbackPartBalanced(files, specs, rootKey, d);
      BalancedConcat(Fallback(files, specs, dirs[..|dirs| - 1], rootKey), FallbackPart(files, specs, rootKey, d));
    }
  }

  lemma SubBlockBalanced(files: map<string, seq<string>>, specs: map<string, set<string>>, c: string, d: string)
    requires ProperNames(files, specs)
    ensures Balanced(SubBlock(files, specs, c, d))
  {
    if d == "" || d == c || !StartsWith(d, c + "/") {
      NeutralBalanced([]);
    } else {
      EntriesNeutral(files, specs, d, "    ");
      BraceLines();
      SlashEnded("  " + RStripChar(d[|c| + 1..], '/'));
      HeadedBlock("  " + RStripChar(d[|c| + 1..], '/') + "/", "  {", Entries(files, specs, d, "    "), "  }");
    }
  }

  lemma {:induction false} SubBlocksBalanced(files: map<string, seq<string>>, specs: map<string, set<string>>, c: string, dirs: seq<string>)
    requires ProperNames(files, specs)
    ensures Balanced(SubBlocks(files, specs, c, dirs))
  {
    if |dirs| == 0 {
      NeutralBalanced([]);
    } else {
      var d := dirs[|dirs| - 1];
      SubBlocksBalanced(files, specs, c, dirs[..|dirs| - 1]);
      SubBlockBalanced(files, specs, c, d);
      BalancedConcat(SubBlocks(files, specs, c, dirs[..|dirs| - 1]), SubBlock(files, specs, c, d));
    }
  }

  lemma CommonBalanced(files: map<string, seq<string>>, specs: map<string, set<string>>, dirs: seq<string>, c: string)
    requires ProperNames(files, specs)
    ensures Balanced(Common(files, specs, dirs, c))
  {
    var e := Entries(files, specs, c, "  ");
    var s := SubBlocks(files, specs, c, dirs);
    EntriesNeutral(files, specs, c, "  ");
    SubBlocksBalanced(files, specs, c, dirs);
    BalancedConcat(e, s);
    BraceLines();
    SlashEnded(c);
    HeadedBlock(c + "/", "{", e + s, "}");
    ConcatAssoc([c + "/", "{"], e, s);
  }

  /** Both layouts open and close their blocks in matching pairs. */
  lemma BodyBalanced(files: map<string, seq<string>>, specs: map<string, set<string>>, dirs: seq<string>, rootKey: string)
    requires ProperNames(files, specs)
    ensures Balanced(Body(files, specs, dirs, rootKey))
  {
    match CommonDir(dirs)
    case Some(c) => CommonBalanced(files, specs, dirs, c);
    case None => FallbackBalanced(files, specs, dirs, rootKey);
  }

  /** The included-spec lines open no block. */
  lemma IncludedNeutral(included: seq<string>)
    ensures Balanced(Flat.PlusEach(included))
  {
    var lines := Flat.PlusEach(included);
    forall i | 0 <= i < |lines|
      ensures Delta(lines[i]) == 0
    {
      assert lines[i] == "+" + included[i];
      assert lines[i][0] == '+';
    }
    NeutralBalanced(lines);
  }

  /** When every `.m` path ends in `.m` and every `.spec` path in `.spec`, the curly manifest
      closes every block it opens and never closes one that is not open. */
  lemma CurlyBalanced(included: seq<string>, spec: set<string>, m: set<string>)
    requires forall p :: p in m ==> EndsWith(p, ".m")
    requires forall p :: p in spec ==> EndsWith(p, ".spec")
    ensures Balanced(CurlyLines(included, spec, m))
  {
    GroupedNamesProper(spec, m);
    IncludedNeutral(included);
    BodyBalanced(FilesOf(m), SpecsOf(spec), DirsOf(spec, m), RootKey);
    BalancedConcat(Flat.PlusEach(included), Body(FilesOf(m), SpecsOf(spec), DirsOf(spec, m), RootKey));
  }

  /** A directory is visited exactly when a selected file lies in it; the root is written
      as the empty string. */
  lemma DirsOfExactly(spec: set<string>, m: set<string>, d: string)
    ensures d in DirsOf(spec, m) <==> exists p :: (p in m || p in spec) && NormDir(Parent(p)) == d
  {
    var files := FilesOf(m);
    var specs := SpecsOf(spec);
    if d in DirsOf(spec, m) {
      var k :| k in files.Keys + specs.Keys && NormDir(k) == d;
      FilesByDirKeys(SortedSet(m), k);
      SpecsByDirKeys(SortedSet(spec), k);
    }
    if exists p :: (p in m || p in spec) && NormDir(Parent(p)) == d {
      var p :| (p in m || p in spec) && NormDir(Parent(p)) == d;
      FilesByDirKeys(SortedSet(m), Parent(p));
      SpecsByDirKeys(SortedSet(spec), Parent(p));
      assert Parent(p) in files.Keys + specs.Keys;
    }
  }

  /** When every selected path is a relative path in POSIX form, as `relpath` and `as_posix`
      write them, so is every visited directory other than the root. */
  lemma DirsArePosix(spec: set<string>, m: set<string>)
    requires forall p :: p in m || p in spec ==> RelativePosix(p)
    ensures forall d :: d in DirsOf(spec, m) && d != "" ==> RelativePosix(d)
  {
    forall d | d in DirsOf(spec, m) && d != ""
      ensures RelativePosix(d)
    {
      DirsOfExactly(spec, m, d);
      var p :| (p in m || p in spec) && NormDir(Parent(p)) == d;
      ParentOfPosix(p);
    }
  }

  /** The layout the curly manifest takes: for selected paths in the form `relpath` gives,
      the common block is written exactly when there are at least two directories other than
      the root and all of them share a first segment, and it is headed by the deepest
      directory they all lie in. */
  lemma CurlyLayoutChoice(spec: set<string>, m: set<string>)
    requires forall p :: p in m || p in spec ==> RelativePosix(p)
    ensures var dirs := DirsOf(spec, m);
      CommonDir(dirs).Some? <==>
        |NonRoot(dirs)| >= 2 && CommonPrefixOfAll(SegmentLists(NonRoot(dirs))) != []
    ensures var dirs := DirsOf(spec, m);
      CommonDir(dirs).Some? ==>
        && |NonRoot(dirs)| >= 2
        && Segments(CommonDir(dirs).value) == CommonPrefixOfAll(SegmentLists(NonRoot(dirs)))
  {
    DirsArePosix(spec, m);
    CommonDirIsDeepest(DirsOf(spec, m));
  }

  /** The directories are visited in ascending order, so the root, when present, comes first. */
  lemma RootComesFirst(spec: set<string>, m: set<string>)
    requires "" in DirsOf(spec, m)
    ensures DirsOf(spec, m)[0] == ""
  {
    var dirs := DirsOf(spec, m);
    SortedSetIsStrictlySorted(DirSet(FilesOf(m), SpecsOf(spec)));
    var j :| 0 <= j < |dirs| && dirs[j] == "";
    if j > 0 {
      assert Below(dirs[0], dirs[j]);
    }
  }

  lemma {:induction false} FallbackHasPart(files: map<string, seq<string>>, specs: map<string, set<string>>, dirs: seq<string>, rootKey: string, d: string)
    requires d in dirs
    ensures Within(FallbackPart(files, specs, rootKey, d), Fallback(files, specs, dirs, rootKey))
  {
    var init := dirs[..|dirs| - 1];
    var last := dirs[|dirs| - 1];
    var part := FallbackPart(files, specs, rootKey, d);
    assert dirs == init + [last];
    if d == last {
      WithinSelf(part);
      WithinRight(part, Fallback(files, specs, init, rootKey), part);
    } else {
      FallbackHasPart(files, specs, init, rootKey, d);
      WithinLeft(part, Fallback(files, specs, init, rootKey), FallbackPart(files, specs, rootKey, last));
    }
  }

  lemma {:induction false} SubBlocksHaveBlock(files: map<string, seq<string>>, specs: map<string, set<string>>, c: string, dirs: seq<string>, d: string)
    requires d in dirs
    ensures Within(SubBlock(files, specs, c, d), SubBlocks(files, specs, c, dirs))
  {
    var init := dirs[..|dirs| - 1];
    var last := dirs[|dirs| - 1];
    var block := SubBlock(files, specs, c, d);
    assert dirs == init + [last];
    if d == last {
      WithinSelf(block);
      WithinRight(block, SubBlocks(files, specs, c, init), block);
    } else {
      SubBlocksHaveBlock(files, specs, c, init, d);
      WithinLeft(block, SubBlocks(files, specs, c, init), SubBlock(files, specs, c, last));
    }
  }

  /** Each `.m` name of a directory is among its entries. */
  lemma EntriesListFile(files: map<string, seq<string>>, specs: map<string, set<string>>, key: string, indent: string, x: string)
    requires x in Listed(files, key)
    ensures indent + x in Entries(files, specs, key, indent)
  {
    SortSeqMembers(Listed(files, key), x);
    PrefixedMembers(indent, SortSeq(Listed(files, key)), x);
  }

  /** Each `.spec` name of a directory is among its entries, marked with `+`. */
  lemma EntriesListSpec(files: map<string, seq<string>>, specs: map<string, set<string>>, key: string, indent: string, x: string)
    requires x in Held(specs, key)
    ensures indent + "+" + x in Entries(files, specs, key, indent)
  {
    PrefixedMembers(indent + "+", SortedSet(Held(specs, key)), x);
  }

  /** The directory of a selected file is visited, and its files are stored under its
      directory as `Path(rel).parent` writes it. */
  lemma SelectedFileGrouped(spec: set<string>, m: set<string>, p: string)
    requires p in m || p in spec
    ensures NormDir(Parent(p)) in DirsOf(spec, m)
    ensures p in m ==> Name(p) in Listed(FilesOf(m), Parent(p))
    ensures p in spec ==> Name(p) in Held(SpecsOf(spec), Parent(p))
  {
    DirsOfExactly(spec, m, NormDir(Parent(p)));
    FilesByDirNames(SortedSet(m), Parent(p), Name(p));
    SpecsByDirNames(SortedSet(spec), Parent(p), Name(p));
  }

  /** Without a common directory, the part of each visited directory is in the manifest. */
  lemma FallbackPartPresent(included: seq<string>, spec: set<string>, m: set<string>, d: string)
    requires d in DirsOf(spec, m) && CommonDir(DirsOf(spec, m)).None?
    ensures Within(FallbackPart(FilesOf(m), SpecsOf(spec), RootKey, d), CurlyLines(included, spec, m))
  {
    var part := FallbackPart(FilesOf(m), SpecsOf(spec), RootKey, d);
    var body := Fallback(FilesOf(m), SpecsOf(spec), DirsOf(spec, m), RootKey);
    FallbackHasPart(FilesOf(m), SpecsOf(spec), DirsOf(spec, m), RootKey, d);
    WithinRight(part, Flat.PlusEach(included), body);
  }

  /** Without a common directory, every selected `.m` file is listed by its name, indented by
      two, in the part of its directory, and that part is in the manifest: the block headed
      by the directory, or, for a file at the root, the root entries. */
  lemma FallbackListsFile(included: seq<string>, spec: set<string>, m: set<string>, p: string)
    requires p in m && CommonDir(DirsOf(spec, m)).None?
    ensures "  " + Name(p) in FallbackPart(FilesOf(m), SpecsOf(spec), RootKey, NormDir(Parent(p)))
    ensures Within(FallbackPart(FilesOf(m), SpecsOf(spec), RootKey, NormDir(Parent(p))), CurlyLines(included, spec, m))
  {
    SelectedFileGrouped(spec, m, p);
    EntriesListFile(FilesOf(m), SpecsOf(spec), Parent(p), "  ", Name(p));
    FallbackPartPresent(included, spec, m, NormDir(Parent(p)));
  }

  /** The same for every selected `.spec` file, listed by its name marked with `+`. */
  lemma FallbackListsSpec(included: seq<string>, spec: set<string>, m: set<string>, p: string)
    requires p in spec && CommonDir(DirsOf(spec, m)).None?
    ensures "  " + "+" + Name(p) in FallbackPart(FilesOf(m), SpecsOf(spec), RootKey, NormDir(Parent(p)))
    ensures Within(FallbackPart(FilesOf(m), SpecsOf(spec), RootKey, NormDir(Parent(p))), CurlyLines(included, spec, m))
  {
    SelectedFileGrouped(spec, m, p);
    EntriesListSpec(FilesOf(m), SpecsOf(spec), Parent(p), "  ", Name(p));
    FallbackPartPresent(included, spec, m, NormDir(Parent(p)));
  }

  /** With a common directory `c`, the entries of `c` and the sub-block of every visited
      directory are in the manifest. */
  lemma CommonPartsPresent(included: seq<string>, spec: set<string>, m: set<string>, c: string, d: string)
    requires CommonDir(DirsOf(spec, m)) == Some(c)
    ensures Within(Entries(FilesOf(m), SpecsOf(spec), c, "  "), CurlyLines(included, spec, m))
    ensures d in DirsOf(spec, m) ==> Within(SubBlock(FilesOf(m), SpecsOf(spec), c, d), CurlyLines(included, spec, m))
  {
    var files := FilesOf(m);
    var specs := SpecsOf(spec);
    var dirs := DirsOf(spec, m);
    var opening := [c + "/", "{"];
    var e := Entries(files, specs, c, "  ");
    var s := SubBlocks(files, specs, c, dirs);
    var body := Common(files, specs, dirs, c);
    assert body == opening + e + s + ["}"];
    WithinSelf(e);
    WithinRight(e, opening, e);
    WithinLeft(e, opening + e, s);
    WithinLeft(e, opening + e + s, ["}"]);
    WithinRight(e, Flat.PlusEach(included), body);
    if d in dirs {
      var block := SubBlock(files, specs, c, d);
      SubBlocksHaveBlock(files, specs, c, dirs, d);
      WithinRight(block, opening + e, s);
      WithinLeft(block, opening + e + s, ["}"]);
      WithinRight(block, Flat.PlusEach(included), body);
    }
  }

  /** With a common directory `c`, every selected `.m` file outside the root is listed: by
      its name indented by two among the entries of `c` when it lies in `c`, and otherwise by
      its name indented by four in the sub-block of its directory, which lies below `c`. */
  lemma CommonListsFile(included: seq<string>, spec: set<string>, m: set<string>, c: string, p: string)
    requires p in m && Parent(p) != "." && CommonDir(DirsOf(spec, m)) == Some(c)
    ensures Parent(p) == c ==> "  " + Name(p) in Entries(FilesOf(m), SpecsOf(spec), c, "  ")
    ensures Parent(p) != c ==> StartsWith(Parent(p), c + "/")
    ensures Parent(p) != c ==> "    " + Name(p) in SubBlock(FilesOf(m), SpecsOf(spec), c, Parent(p))
    ensures Within(if Parent(p) == c then Entries(FilesOf(m), SpecsOf(spec), c, "  ") else SubBlock(FilesOf(m), SpecsOf(spec), c, Parent(p)), CurlyLines(included, spec, m))
  {
    SelectedFileGrouped(spec, m, p);
    CommonPartsPresent(included, spec, m, c, Parent(p));
    EntriesListFile(FilesOf(m), SpecsOf(spec), Parent(p), "  ", Name(p));
    EntriesListFile(FilesOf(m), SpecsOf(spec), Parent(p), "    ", Name(p));
  }

  /** The same for every selected `.spec` file outside the root, marked with `+`. */
  lemma CommonListsSpec(included: seq<string>, spec: set<string>, m: set<string>, c: string, p: string)
    requires p in spec && Parent(p) != "." && CommonDir(DirsOf(spec, m)) == Some(c)
    ensures Parent(p) == c ==> "  " + "+" + Name(p) in Entries(FilesOf(m), SpecsOf(spec), c, "  ")
    ensures Parent(p) != c ==> StartsWith(Parent(p), c + "/")
    ensures Parent(p) != c ==> "    " + "+" + Name(p) in SubBlock(FilesOf(m), SpecsOf(spec), c, Parent(p))
    ensures Within(if Parent(p) == c then Entries(FilesOf(m), SpecsOf(spec), c, "  ") else SubBlock(FilesOf(m), SpecsOf(spec), c, Parent(p)), CurlyLines(included, spec, m))
  {
    SelectedFileGrouped(spec, m, p);
    CommonPartsPresent(included, spec, m, c, Parent(p));
    EntriesListSpec(FilesOf(m), SpecsOf(spec), Parent(p), "  ", Name(p));
    EntriesListSpec(FilesOf(m), SpecsOf(spec), Parent(p), "    ", Name(p));
  }

  // ----- The root entries

  /** As written, the root entries are looked up under the empty string, which no directory
      is stored under, so they are always empty. */
  lemma RootEntriesEmptyAsWritten(spec: set<string>, m: set<string>, indent: string)
    ensures Entries(FilesOf(m), SpecsOf(spec), "", indent) == []
  {
    FilesByDirKeys(SortedSet(m), "");
    SpecsByDirKeys(SortedSet(spec), "");
    assert SortedSet({}) == [];
  }

  /** A path with no slash lies in the root, stored under `.`. */
  lemma RootPath(x: string)
    requires '/' !in x
    ensures Parent(x) == RootKey && Name(x) == x
  {
    assert LastSlash(x).None?;
  }

  /** One `.m` path grouped on its own. */
  lemma SingleFileGrouped(p: string)
    ensures FilesByDir([p]) == map[Parent(p) := [Name(p)]]
  {
    assert [p][..0] == [];
    var empty: map<string, seq<string>> := map[];
    assert FilesByDir([]) == empty;
    assert Listed(empty, Parent(p)) + [Name(p)] == [Name(p)];
    assert FilesByDir([p]) == empty[Parent(p) := [Name(p)]];
  }

  /** The files of a single root-level `.m` path, grouped. */
  lemma SingleRootFile(x: string)
    requires '/' !in x
    ensures FilesOf({x}) == map[RootKey := [x]]
    ensures SpecsOf({}) == map[]
    ensures DirsOf({}, {x}) == [""]
  {
    var s := SortedSet({x});
    assert s == [x] by {
      assert |s| == 1 && x in s;
    }
    assert SortedSet({}) == [];
    RootPath(x);
    SingleFileGrouped(x);
    var files: map<string, seq<string>> := map[RootKey := [x]];
    var specs: map<string, set<string>> := map[];
    assert files.Keys + specs.Keys == {RootKey};
    assert DirSet(files, specs) == {""} by {
      assert NormDir(RootKey) == "";
    }
    var dirs := DirsOf({}, {x});
    assert |dirs| == 1 && "" in dirs;
  }

  /** A manifest of root-level files only has the fallback layout: the root entries. */
  lemma RootOnlyBody(files: map<string, seq<string>>, specs: map<string, set<string>>, rootKey: string)
    ensures Body(files, specs, [""], rootKey) == Entries(files, specs, rootKey, "  ")
  {
    assert [""][..0] == [];
    assert NonRoot([""]) == [];
    assert CommonDir([""]) == None;
    assert Fallback(files, specs, [], rootKey) == [];
    assert Fallback(files, specs, [""], rootKey) == FallbackPart(files, specs, rootKey, "");
  }

  /** A single `.m` file at the root and nothing else: as written the manifest is empty; with
      the root entries looked up where they are stored it lists the file. */
  lemma RootFileDroppedAsWritten(x: string)
    requires '/' !in x
    ensures CurlyAsWritten([], {}, {x}) == []
    ensures CurlyLines([], {}, {x}) == ["  " + x]
  {
    SingleRootFile(x);
    var files := FilesOf({x});
    var specs := SpecsOf({});
    RootOnlyBody(files, specs, "");
    RootOnlyBody(files, specs, RootKey);
    RootEntriesEmptyAsWritten({}, {x}, "  ");
    assert SortedSet({}) == [];
    assert SortSeq([x]) == [x];
    assert Entries(files, specs, RootKey, "  ") == ["  " + x];
    assert Flat.PlusEach([]) == [];
  }

  /** The two lookups agree when the root directory is not visited. */
  lemma {:induction false} FallbackRootKeyIrrelevant(files: map<string, seq<string>>, specs: map<string, set<string>>, dirs: seq<string>, k1: string, k2: string)
    requires "" !in dirs
    ensures Fallback(files, specs, dirs, k1) == Fallback(files, specs, dirs, k2)
  {
    if |dirs| > 0 {
      assert dirs[..|dirs| - 1] + [dirs[|dirs| - 1]] == dirs;
      FallbackRootKeyIrrelevant(files, specs, dirs[..|dirs| - 1], k1, k2);
    }
  }

  /** The correction changes nothing unless a selected file lies at the root. */
  lemma AsWrittenMatchesWithoutRootFiles(included: seq<string>, spec: set<string>, m: set<string>)
    requires forall p :: p in m || p in spec ==> Parent(p) != "."
    ensures CurlyAsWritten(included, spec, m) == CurlyLines(included, spec, m)
  {
    var dirs := DirsOf(spec, m);
    DirsOfExactly(spec, m, "");
    assert "" !in dirs;
    FallbackRootKeyIrrelevant(FilesOf(m), SpecsOf(spec), dirs, "", RootKey);
  }
}
