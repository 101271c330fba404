/** The flat manifest: one line per file, `.spec` files marked with `+`
    (`build_output_lines_flat`, gen_patch.py lines 371-389). */
module Flat {
  import opened Text
  import opened Ordering

  /** The `+`-marked line of each path, in order. */
  function PlusEach(paths: seq<string>): seq<string>
  {
    Prefixed("+", paths)
  }

  /** The order mode that lists `.spec` files before `.m` files; any other value merges them. */
  const SpecFirst := "spec-first"

  /** The lines of the flat manifest, given the selected `.spec` and `.m` files as lists:
      the included specs marked with `+`, then in `spec-first` order the `+`-marked `.spec`
      lines followed by the `.m` lines, and in any other order both kinds sorted together. */
  function FlatOf(included: seq<string>, specs: seq<string>, ms: seq<string>, order: string): seq<string>
  {
    PlusEach(included) + (if order == SpecFirst then PlusEach(specs) + ms else SortSeq(PlusEach(specs) + ms))
  }

  /** The lines of the flat manifest for sets of paths relative to the output directory,
      each set walked in ascending order. */
  ghost function FlatLines(included: seq<string>, spec: set<string>, m: set<string>, order: string): seq<string>
  {
    FlatOf(included, SortedSet(spec), SortedSet(m), order)
  }

  /** The body of `build_output_lines_flat` once both sets have been put in order. */
  method EmitFlat(included: seq<string>, specs: seq<string>, ms: seq<string>, order: string) returns (lines: seq<string>)
    ensures lines == FlatOf(included, specs, ms, order)
  {
    lines := AppendPrefixed([], "+", included);
    if order == SpecFirst {
      lines := AppendPrefixed(lines, "+", specs);
      lines := AppendAll(lines, ms);
    } else {
      lines := AppendAll(lines, SortSeq(PlusEach(specs) + ms));
    }
  }

  /** `build_output_lines_flat`: the included `.spec` files first, then the selected files in
      the chosen order. The source walks its sets in no particular order; here they are walked
      in ascending order, and `FlatMergedAnyOrder` shows the merged result does not depend on it. */
  method BuildFlat(included: seq<string>, spec: set<string>, m: set<string>, order: string) returns (lines: seq<string>)
    ensures lines == FlatLines(included, spec, m, order)
  {
    var specs := SortSet(spec);
    var ms := SortSet(m);
    lines := EmitFlat(included, specs, ms, order);
  }

  /** One line per included spec, per selected `.spec` file and per selected `.m` file. */
  lemma FlatCount(included: seq<string>, spec: set<string>, m: set<string>, order: string)
    ensures |FlatLines(included, spec, m, order)| == |included| + |spec| + |m|
  {
  }

  /** The included specs open the manifest, each marked with `+`, in the order given. */
  lemma FlatIncludeFirst(included: seq<string>, spec: set<string>, m: set<string>, order: string)
    ensures |FlatLines(included, spec, m, order)| >= |included|
    ensures forall i :: 0 <= i < |included| ==> FlatLines(included, spec, m, order)[i] == "+" + included[i]
  {
  }

  /** In `spec-first` order the included specs are followed by every selected `.spec` file
      marked with `+`, ascending, and then every selected `.m` file, ascending. */
  lemma FlatSpecFirstLayout(included: seq<string>, spec: set<string>, m: set<string>)
    ensures var rest := FlatLines(included, spec, m, SpecFirst)[|included|..];
      && |rest| == |spec| + |m|
      && StrictlySorted(rest[..|spec|])
      && (forall x :: "+" + x in rest[..|spec|] <==> x in spec)
      && (forall i :: 0 <= i < |spec| ==> StartsWith(rest[i], "+"))
      && StrictlySorted(rest[|spec|..])
      && (forall x :: x in rest[|spec|..] <==> x in m)
  {
    var s := SortedSet(spec);
    var rest := FlatLines(included, spec, m, SpecFirst)[|included|..];
    assert rest == PlusEach(s) + SortedSet(m);
    assert rest[..|spec|] == PlusEach(s);
    assert rest[|spec|..] == SortedSet(m);
    SortedSetIsStrictlySorted(spec);
    SortedSetIsStrictlySorted(m);
    PrefixedStrictlySorted("+", s);
    forall x
      ensures "+" + x in PlusEach(s) <==> x in spec
    {
      PlusEachMembers(s, "+" + x);
      assert ("+" + x)[1..] == x;
    }
    forall i | 0 <= i < |spec|
      ensures StartsWith(rest[i], "+")
    {
      assert rest[i] == PlusEach(s)[i] == "+" + s[i];
    }
  }

  /** In merged order the included specs are followed by one ascending list holding each
      `.spec` line and each `.m` line once. */
  lemma FlatMergedLayout(included: seq<string>, spec: set<string>, m: set<string>, order: string)
    requires order != SpecFirst
    ensures var rest := FlatLines(included, spec, m, order)[|included|..];
      && Sorted(rest)
      && multiset(rest) == multiset(PlusEach(SortedSet(spec))) + multiset(SortedSet(m))
  {
    var rest := FlatLines(included, spec, m, order)[|included|..];
    assert rest == SortSeq(PlusEach(SortedSet(spec)) + SortedSet(m));
    SortSeqSorted(PlusEach(SortedSet(spec)) + SortedSet(m));
  }

  /** A list without repetitions holds each of its elements exactly once. */
  lemma {:induction false} DistinctMultiset(a: seq<string>)
    requires Distinct(a)
    ensures forall x :: multiset(a)[x] == if x in a then 1 else 0
  {
    if |a| > 0 {
      DistinctMultiset(a[1..]);
      assert a == [a[0]] + a[1..];
      assert a[0] !in a[1..];
    }
  }

  /** Walking the two sets in any order gives the same merged lines: the result of the merged
      mode does not depend on how the sets are iterated. */
  lemma FlatMergedAnyOrder(included: seq<string>, spec: set<string>, m: set<string>, order: string, xs: seq<string>, ys: seq<string>)
    requires order != SpecFirst
    requires Distinct(xs) && (forall x :: x in xs <==> x in spec)
    requires Distinct(ys) && (forall y :: y in ys <==> y in m)
    ensures PlusEach(included) + SortSeq(PlusEach(xs) + ys) == FlatLines(included, spec, m, order)
  {
    var s := SortedSet(spec);
    var t := SortedSet(m);
    SortedSetIsStrictlySorted(spec);
    SortedSetIsStrictlySorted(m);
    SameElementsSameMultiset(ys, t);
    PlusEachDistinct(xs);
    PlusEachDistinct(s);
    forall y ensures y in PlusEach(xs) <==> y in PlusEach(s) {
      PlusEachMembers(xs, y);
      PlusEachMembers(s, y);
    }
    SameElementsSameMultiset(PlusEach(xs), PlusEach(s));
    SortSeqOrderIrrelevant(PlusEach(xs) + ys, PlusEach(s) + t);
  }

  /** Two lists without repetitions that hold the same elements hold them equally often. */
  lemma SameElementsSameMultiset(a: seq<string>, b: seq<string>)
    requires Distinct(a) && Distinct(b)
    requires forall x :: x in a <==> x in b
    ensures multiset(a) == multiset(b)
  {
    DistinctMultiset(a);
    DistinctMultiset(b);
  }

  /** Different paths give different `+` lines. */
  lemma PlusEachDistinct(paths: seq<string>)
    requires Distinct(paths)
    ensures Distinct(PlusEach(paths))
  {
    forall i, j | 0 <= i < j < |paths|
      ensures PlusEach(paths)[i] != PlusEach(paths)[j]
    {
      assert PlusEach(paths)[i][1..] == paths[i] && PlusEach(paths)[j][1..] == paths[j];
    }
  }

  /** The `+` lines are exactly the paths with a `+` in front. */
  lemma PlusEachMembers(paths: seq<string>, line: string)
    ensures line in PlusEach(paths) <==> |line| > 0 && line[0] == '+' && line[1..] in paths
  {
    if line in PlusEach(paths) {
      var i :| 0 <= i < |paths| && PlusEach(paths)[i] == line;
      assert line[1..] == paths[i];
    }
    if |line| > 0 && line[0] == '+' && line[1..] in paths {
      var i :| 0 <= i < |paths| && paths[i] == line[1..];
      assert PlusEach(paths)[i] == line;
    }
  }

  /** Every line of the flat manifest is a selected `.m` path or a `+`-marked line. */
  lemma FlatMembers(included: seq<string>, spec: set<string>, m: set<string>, order: string, line: string)
    requires line in FlatLines(included, spec, m, order)
    ensures line in m || (|line| > 0 && line[0] == '+')
  {
    var specs := SortedSet(spec);
    var ms := SortedSet(m);
    var rest := if order == SpecFirst then PlusEach(specs) + ms else SortSeq(PlusEach(specs) + ms);
    if line in PlusEach(included) {
      PlusEachMembers(included, line);
    } else {
      assert line in rest;
      if order != SpecFirst {
        assert multiset(rest)[line] > 0;
      }
      assert line in PlusEach(specs) + ms;
      if line in PlusEach(specs) {
        PlusEachMembers(specs, line);
      }
    }
  }
}
