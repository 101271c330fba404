/** The pieces of `pathlib` and `os.path` the tool uses, on POSIX paths written as strings. */
module Paths {
  import opened Wrappers
  import opened Text

  /** The segments that survive `pathlib`'s parsing: empty and `.` segments are dropped. */
  function KeepNamed(parts: seq<string>): (r: seq<string>)
    ensures |r| <= |parts|
    ensures forall i :: 0 <= i < |r| ==> r[i] != "" && r[i] != "." && r[i] in parts
  {
    if |parts| == 0 then []
    else (if parts[0] == "" || parts[0] == "." then [] else [parts[0]]) + KeepNamed(parts[1..])
  }

  /** Segments that are all named already survive unchanged. */
  lemma {:induction false} KeepNamedOfNamed(parts: seq<string>)
    requires forall i :: 0 <= i < |parts| ==> parts[i] != "" && parts[i] != "."
    ensures KeepNamed(parts) == parts
  {
    if |parts| > 0 {
      KeepNamedOfNamed(parts[1..]);
      assert parts == [parts[0]] + parts[1..];
    }
  }

  /** The named segments of a path. */
  function Segments(p: string): (r: seq<string>)
    ensures forall i :: 0 <= i < |r| ==> r[i] != "" && r[i] != "." && '/' !in r[i]
  {
    KeepNamed(Split(p, '/'))
  }

  /** `Path(p).as_posix()` for a relative `p`: repeated slashes, `.` segments and a
      trailing slash disappear, and a path with nothing left is `.`. */
  function PosixForm(p: string): (r: string)
    ensures r != ""
  {
    var segs := Segments(p);
    if |segs| == 0 then "." else
      assert segs[0] != "" && Join(segs, '/')[..|segs[0]|] == segs[0] by {
        if |segs| > 1 {
          assert Join(segs, '/') == segs[0] + ("/" + Join(segs[1..], '/'));
        }
      }
      Join(segs, '/')
  }

  /** Putting a path in POSIX form twice changes nothing the second time. */
  lemma PosixFormIdempotent(p: string)
    ensures PosixForm(PosixForm(p)) == PosixForm(p)
  {
    var segs := Segments(p);
    if |segs| == 0 {
      SplitAfterChunk(".", "", '/');
      assert "." + "" == ".";
    } else {
      SplitJoin(segs, '/');
      KeepNamedOfNamed(segs);
    }
  }

  /** A path in POSIX form has no empty segment: no doubled, leading or trailing slash. */
  lemma PosixFormHasNoEmptySegment(p: string)
    ensures forall i :: 0 <= i < |Split(PosixForm(p), '/')| ==> Split(PosixForm(p), '/')[i] != ""
  {
    var segs := Segments(p);
    if |segs| == 0 {
      SplitAfterChunk(".", "", '/');
      assert "." + "" == ".";
    } else {
      SplitJoin(segs, '/');
    }
  }

  /** A relative path as `as_posix` writes it, other than `.`. */
  predicate RelativePosix(p: string)
  {
    p != "." && PosixForm(p) == p
  }

  /** Segments as they survive parsing: none is empty or `.`, and none holds a slash. */
  predicate Named(segs: seq<string>)
  {
    forall i :: 0 <= i < |segs| ==> segs[i] != "" && segs[i] != "." && '/' !in segs[i]
  }

  /** Such a path is the join of its segments, of which it has at least one. */
  lemma RelativePosixSegments(p: string)
    requires RelativePosix(p)
    ensures |Segments(p)| >= 1 && p == Join(Segments(p), '/') && Named(Segments(p))
  {
  }

  /** Joining named segments gives a relative path in POSIX form whose segments they are, and
      which neither starts nor ends with a slash. */
  lemma JoinNamed(segs: seq<string>)
    requires |segs| >= 1 && Named(segs)
    ensures Segments(Join(segs, '/')) == segs
    ensures RelativePosix(Join(segs, '/'))
    ensures var j := Join(segs, '/'); |j| > 0 && j[0] != '/' && j[|j| - 1] != '/'
  {
    var j := Join(segs, '/');
    SplitJoin(segs, '/');
    KeepNamedOfNamed(segs);
    JoinStartsWithFirst(segs, '/');
    assert j[0] == j[..|segs[0]|][0] == segs[0][0];
    if |segs| >= 2 {
      JoinEndsWithLast(segs, '/');
      var last := segs[|segs| - 1];
      assert j[|j| - 1] == j[|j| - |last| - 1..][|last|] == last[|last| - 1];
      assert j == segs[0] + ['/'] + Join(segs[1..], '/');
    }
  }

  /** A path whose segments start with `common` is the join of `common` or lies below it. */
  lemma BelowJoin(common: seq<string>, p: string)
    requires RelativePosix(p) && |common| >= 1 && common <= Segments(p)
    ensures p == Join(common, '/') || StartsWith(p, Join(common, '/') + "/")
  {
    var segs := Segments(p);
    RelativePosixSegments(p);
    if |segs| > |common| {
      var rest := segs[|common|..];
      assert segs == common + rest;
      JoinAppend(common, rest, '/');
      var c := Join(common, '/');
      assert p == c + "/" + Join(rest, '/');
      assert p[..|c| + 1] == c + "/";
    } else {
      assert segs == common;
    }
  }

  /** The position of the last `/` in `p`, if any. */
  function LastSlash(p: string): (r: Option<nat>)
    ensures r.None? ==> '/' !in p
    ensures r.Some? ==> r.value < |p| && p[r.value] == '/' && '/' !in p[r.value + 1..]
  {
    if |p| == 0 then None
    else if p[|p| - 1] == '/' then Some(|p| - 1)
    else
      var r := LastSlash(p[..|p| - 1]);
      assert p == p[..|p| - 1] + [p[|p| - 1]];
      if r.Some? then
        assert p[r.value + 1..] == p[..|p| - 1][r.value + 1..] + [p[|p| - 1]];
        r
      else r
  }

  /** `Path(p).parent.as_posix()`: `.` when there is no `/`, `/` for a file at the root. */
  function Parent(p: string): (r: string)
    ensures r != ""
  {
    match LastSlash(p)
    case None => "."
    case Some(k) => if k == 0 then "/" else p[..k]
  }

  /** The last slash of a path is the one with no slash after it. */
  lemma LastSlashAt(p: string, k: nat)
    requires k < |p| && p[k] == '/' && '/' !in p[k + 1..]
    ensures LastSlash(p) == Some(k)
  {
  }

  /** A directory, a slash and a name: the directory is the parent. */
  lemma ParentOfJoin(dir: string, name: string)
    requires |dir| > 0 && '/' !in name
    ensures Parent(dir + "/" + name) == dir
  {
    var p := dir + "/" + name;
    assert p[|dir|] == '/' && p[|dir| + 1..] == name;
    LastSlashAt(p, |dir|);
    assert p[..|dir|] == dir;
  }

  /** The directory of a relative path in POSIX form is `.` or again such a path. */
  lemma ParentOfPosix(p: string)
    requires RelativePosix(p)
    ensures Parent(p) == "." || RelativePosix(Parent(p))
  {
    var segs := Segments(p);
    RelativePosixSegments(p);
    if |segs| == 1 {
      assert p == segs[0];
      assert LastSlash(p).None?;
    } else {
      var init := segs[..|segs| - 1];
      var last := segs[|segs| - 1];
      assert segs == init + [last];
      JoinAppend(init, [last], '/');
      JoinNamed(init);
      ParentOfJoin(Join(init, '/'), last);
    }
  }

  /** `Path(p).name`: what follows the last `/`. */
  function Name(p: string): (r: string)
    ensures '/' !in r
  {
    match LastSlash(p)
    case None => p
    case Some(k) => p[k + 1..]
  }

  /** A relative path is its directory, a slash and its name; with no slash it is its name. */
  lemma ParentAndName(p: string)
    requires |p| > 0 && p[0] != '/'
    ensures Parent(p) == "." ==> p == Name(p) || p == "./" + Name(p)
    ensures Parent(p) != "." ==> p == Parent(p) + "/" + Name(p)
  {
    match LastSlash(p)
    case None =>
    case Some(k) =>
      assert p == p[..k] + "/" + p[k + 1..];
  }

  /** The name of a path with a suffix that holds no slash keeps that suffix. */
  lemma NameKeepsSuffix(p: string, suffix: string)
    requires EndsWith(p, suffix) && '/' !in suffix
    ensures EndsWith(Name(p), suffix)
  {
    match LastSlash(p)
    case None =>
    case Some(k) =>
      assert forall i :: |p| - |suffix| <= i < |p| ==> p[i] == suffix[i - (|p| - |suffix|)];
      assert p[k + 1..][|p[k + 1..]| - |suffix|..] == p[|p| - |suffix|..];
  }

  /** The source writes the root directory `.` as the empty string. */
  function NormDir(d: string): string
  {
    if d == "." then "" else d
  }

  /** `(dir / rel).as_posix()` for a relative `rel`. */
  function JoinPath(dir: string, rel: string): string
  {
    dir + "/" + rel
  }

  /** Different relative paths under one directory are different paths. */
  lemma JoinPathInjective(dir: string, a: string, b: string)
    requires JoinPath(dir, a) == JoinPath(dir, b)
    ensures a == b
  {
    assert a == JoinPath(dir, a)[|dir| + 1..];
    assert b == JoinPath(dir, b)[|dir| + 1..];
  }

  /** `relpath_posix(p, start)` for `p` inside `start`: what follows `start/`. */
  function RelPosix(p: string, start: string): (r: string)
    ensures p == start ==> r == "."
    ensures p != start && StartsWith(p, start + "/") ==> p == start + "/" + r
  {
    if p == start then "."
    else if StartsWith(p, start + "/") then
      assert p == p[..|start| + 1] + p[|start| + 1..];
      p[|start| + 1..]
    else p
  }

  /** A path joined under a directory is found again relative to that directory. */
  lemma RelPosixOfJoin(dir: string, rel: string)
    ensures RelPosix(JoinPath(dir, rel), dir) == rel
  {
    var p := JoinPath(dir, rel);
    assert |p| > |dir| && p[..|dir| + 1] == dir + "/";
    assert p[|dir| + 1..] == rel;
  }

  /** The longest common prefix of two segment lists. */
  function CommonPrefix(a: seq<string>, b: seq<string>): (r: seq<string>)
    ensures r <= a && r <= b
    ensures |r| == |a| || |r| == |b| || a[|r|] != b[|r|]
  {
    if |a| == 0 || |b| == 0 || a[0] != b[0] then []
    else
      var r := CommonPrefix(a[1..], b[1..]);
      assert a == [a[0]] + a[1..] && b == [b[0]] + b[1..];
      [a[0]] + r
  }

  /** A segment list that is a prefix of every list in `all`. */
  function CommonPrefixOfAll(all: seq<seq<string>>): (r: seq<string>)
    requires |all| > 0
    ensures forall i :: 0 <= i < |all| ==> r <= all[i]
  {
    if |all| == 1 then all[0]
    else
      var rest := CommonPrefixOfAll(all[1..]);
      var r := CommonPrefix(all[0], rest);
      assert forall i :: 1 <= i < |all| ==> all[i] == all[1..][i - 1];
      r
  }

  /** No longer segment list is a prefix of every list in `all`: the common prefix is the longest. */
  lemma {:induction false} CommonPrefixOfAllIsLongest(all: seq<seq<string>>, q: seq<string>)
    requires |all| > 0
    requires forall i :: 0 <= i < |all| ==> q <= all[i]
    ensures q <= CommonPrefixOfAll(all)
  {
    if |all| > 1 {
      var rest := CommonPrefixOfAll(all[1..]);
      assert forall i :: 0 <= i < |all| - 1 ==> all[1..][i] == all[i + 1];
      CommonPrefixOfAllIsLongest(all[1..], q);
      var r := CommonPrefix(all[0], rest);
      assert q <= all[0] && q <= rest;
    }
  }

  predicate IsAbsolute(p: string)
  {
    |p| > 0 && p[0] == '/'
  }

  /** The named segments of each path of a list. */
  function SegmentLists(paths: seq<string>): (r: seq<seq<string>>)
    ensures |r| == |paths| && forall i :: 0 <= i < |paths| ==> r[i] == Segments(paths[i])
  {
    seq(|paths|, i requires 0 <= i < |paths| => Segments(paths[i]))
  }

  /** `os.path.commonpath(paths)`: the longest common run of named segments, with the
      leading `/` kept when every path is absolute. `None` stands for the `ValueError`
      raised on an empty list or on a mix of absolute and relative paths. */
  function CommonPath(paths: seq<string>): (r: Option<string>)
    ensures r.Some? <==> |paths| > 0 && forall i :: 0 <= i < |paths| ==> IsAbsolute(paths[i]) == IsAbsolute(paths[0])
  {
    if |paths| == 0 then None
    else if exists i :: 0 <= i < |paths| && IsAbsolute(paths[i]) != IsAbsolute(paths[0]) then None
    else
      var common := CommonPrefixOfAll(SegmentLists(paths));
      Some((if IsAbsolute(paths[0]) then "/" else "") + Join(common, '/'))
  }

  /** The common segments of any paths are named segments. */
  lemma CommonSegmentsNamed(paths: seq<string>)
    requires |paths| > 0
    ensures Named(CommonPrefixOfAll(SegmentLists(paths)))
  {
    var common := CommonPrefixOfAll(SegmentLists(paths));
    assert common <= Segments(paths[0]);
    assert forall i :: 0 <= i < |common| ==> common[i] == Segments(paths[0])[i];
  }

  /** For relative paths in POSIX form, `commonpath` is the join of their common segments. */
  lemma CommonPathOfRelative(paths: seq<string>)
    requires |paths| > 0 && forall i :: 0 <= i < |paths| ==> RelativePosix(paths[i])
    ensures CommonPath(paths) == Some(Join(CommonPrefixOfAll(SegmentLists(paths)), '/'))
  {
    forall i | 0 <= i < |paths|
      ensures !IsAbsolute(paths[i])
    {
      RelativePosixSegments(paths[i]);
      JoinNamed(Segments(paths[i]));
    }
    var j := Join(CommonPrefixOfAll(SegmentLists(paths)), '/');
    assert "" + j == j;
  }

  /** Each of those paths is the join of their common segments or lies below it. */
  lemma AllBelowCommon(paths: seq<string>)
    requires |paths| > 0 && forall i :: 0 <= i < |paths| ==> RelativePosix(paths[i])
    requires CommonPrefixOfAll(SegmentLists(paths)) != []
    ensures var c := Join(CommonPrefixOfAll(SegmentLists(paths)), '/');
      forall p :: p in paths ==> p == c || StartsWith(p, c + "/")
  {
    var lists := SegmentLists(paths);
    var common := CommonPrefixOfAll(lists);
    forall p | p in paths
      ensures p == Join(common, '/') || StartsWith(p, Join(common, '/') + "/")
    {
      var j :| 0 <= j < |paths| && paths[j] == p;
      assert common <= lists[j];
      BelowJoin(common, p);
    }
  }
}
