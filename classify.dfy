/** Sorting the candidate paths into `.spec` files, `.m` files and the two kinds of missing
    path (`materialize_and_classify`, gen_patch.py lines 301-329). */
module Classify {
  import opened Text
  import opened Ordering
  import opened Paths

  /** Where one candidate path ends up. */
  datatype Bucket = SpecFile | MFile | MissingExplicitPath | DroppedPath | Ignored

  /** The bucket of a repository-relative path, given which files exist at the target
      (`present`, asked about the path joined under the repository directory) and which
      paths were selected explicitly. */
  function BucketOf(repo: string, rel: string, explicit: set<string>, present: string -> bool): Bucket
  {
    if !present(JoinPath(repo, rel)) then
      if rel in explicit then MissingExplicitPath else DroppedPath
    else if EndsWith(rel, ".spec") then SpecFile
    else if EndsWith(rel, ".m") then MFile
    else Ignored
  }

  /** The candidate paths that land in bucket `b`. */
  function InBucket(repo: string, rels: set<string>, explicit: set<string>, present: string -> bool, b: Bucket): set<string>
  {
    set rel | rel in rels && BucketOf(repo, rel, explicit, present) == b
  }

  /** The paths of `rels` joined under `repo`. */
  function Under(repo: string, rels: set<string>): set<string>
  {
    set rel | rel in rels :: JoinPath(repo, rel)
  }

  /** What `materialize_and_classify` returns: the `.spec` and `.m` files as paths under the
      repository, and the missing paths in the order they were met. */
  datatype Classified = Classified(spec: set<string>, m: set<string>, missingExplicit: seq<string>, droppedMissing: seq<string>)

  /** Filing one more candidate. */
  function File(c: Classified, repo: string, rel: string, explicit: set<string>, present: string -> bool): Classified
  {
    match BucketOf(repo, rel, explicit, present)
    case SpecFile => c.(spec := c.spec + {JoinPath(repo, rel)})
    case MFile => c.(m := c.m + {JoinPath(repo, rel)})
    case MissingExplicitPath => c.(missingExplicit := c.missingExplicit + [rel])
    case DroppedPath => c.(droppedMissing := c.droppedMissing + [rel])
    case Ignored => c
  }

  /** The classification of a list of candidates filed in order. */
  function Classification(repo: string, rels: seq<string>, explicit: set<string>, present: string -> bool): Classified
  {
    if |rels| == 0 then Classified({}, {}, [], [])
    else File(Classification(repo, rels[..|rels| - 1], explicit, present), repo, rels[|rels| - 1], explicit, present)
  }

  /** The candidates met so far, as a set. */
  function Met(rels: seq<string>): set<string>
  {
    set x | x in rels
  }

  /** Filing a list puts each candidate in its bucket: the two sets hold exactly the `.spec`
      and `.m` files, and each missing list holds exactly its paths. */
  lemma {:induction false} ClassificationContents(repo: string, rels: seq<string>, explicit: set<string>, present: string -> bool)
    ensures Classification(repo, rels, explicit, present).spec == Under(repo, InBucket(repo, Met(rels), explicit, present, SpecFile))
    ensures Classification(repo, rels, explicit, present).m == Under(repo, InBucket(repo, Met(rels), explicit, present, MFile))
    ensures forall x :: x in Classification(repo, rels, explicit, present).missingExplicit <==>
      x in InBucket(repo, Met(rels), explicit, present, MissingExplicitPath)
    ensures forall x :: x in Classification(repo, rels, explicit, present).droppedMissing <==>
      x in InBucket(repo, Met(rels), explicit, present, DroppedPath)
  {
    if |rels| == 0 {
      assert Met(rels) == {};
    } else {
      var init := rels[..|rels| - 1];
      var rel := rels[|rels| - 1];
      ClassificationContents(repo, init, explicit, present);
      assert rels == init + [rel];
      assert Met(rels) == Met(init) + {rel};
      InBucketAdd(repo, Met(init), rel, explicit, present, SpecFile);
      InBucketAdd(repo, Met(init), rel, explicit, present, MFile);
      InBucketAdd(repo, Met(init), rel, explicit, present, MissingExplicitPath);
      InBucketAdd(repo, Met(init), rel, explicit, present, DroppedPath);
    }
  }

  /** Filing candidates in ascending order without repetitions gives ascending missing lists
      without repetitions. */
  lemma {:induction false} ClassificationSorted(repo: string, rels: seq<string>, explicit: set<string>, present: string -> bool)
    requires StrictlySorted(rels)
    ensures StrictlySorted(Classification(repo, rels, explicit, present).missingExplicit)
    ensures StrictlySorted(Classification(repo, rels, explicit, present).droppedMissing)
  {
    if |rels| > 0 {
      var i := |rels| - 1;
      var init := rels[..i];
      ClassificationSorted(repo, init, explicit, present);
      ClassificationContents(repo, init, explicit, present);
      var c := Classification(repo, init, explicit, present);
      assert forall x :: x in c.missingExplicit ==> x in init;
      assert forall x :: x in c.droppedMissing ==> x in init;
      AppendKeepsStrictlySorted(rels, i, c.missingExplicit);
      AppendKeepsStrictlySorted(rels, i, c.droppedMissing);
    }
  }

  /** `materialize_and_classify`: visits the candidates in ascending order and files each one
      in its bucket. The `.spec` and `.m` sets hold exactly the present files with those
      suffixes; each missing list holds exactly its paths, ascending and without repetition. */
  method MaterializeAndClassify(repo: string, relPaths: set<string>, explicit: set<string>, present: string -> bool)
    returns (c: Classified)
    ensures c == Classification(repo, SortedSet(relPaths), explicit, present)
    ensures c.spec == Under(repo, InBucket(repo, relPaths, explicit, present, SpecFile))
    ensures c.m == Under(repo, InBucket(repo, relPaths, explicit, present, MFile))
    ensures StrictlySorted(c.missingExplicit)
    ensures forall rel :: rel in c.missingExplicit <==> rel in InBucket(repo, relPaths, explicit, present, MissingExplicitPath)
    ensures StrictlySorted(c.droppedMissing)
    ensures forall rel :: rel in c.droppedMissing <==> rel in InBucket(repo, relPaths, explicit, present, DroppedPath)
  {
    var sorted := SortSet(relPaths);
    var absSpec := {};
    var absM := {};
    var missingExplicit := [];
    var droppedMissing := [];
    for i := 0 to |sorted|
      invariant Classified(absSpec, absM, missingExplicit, droppedMissing) == Classification(repo, sorted[..i], explicit, present)
    {
      var rel := sorted[i];
      assert sorted[..i + 1][..i] == sorted[..i];
      var absP := JoinPath(repo, rel);
      if !present(absP) {
        if rel in explicit {
          missingExplicit := missingExplicit + [rel];
        } else {
          droppedMissing := droppedMissing + [rel];
        }
        continue;
      }
      if EndsWith(rel, ".spec") {
        absSpec := absSpec + {absP};
      } else if EndsWith(rel, ".m") {
        absM := absM + {absP};
      }
    }
    assert sorted[..|sorted|] == sorted;
    c := Classified(absSpec, absM, missingExplicit, droppedMissing);
    SortedClassification(repo, relPaths, explicit, present);
  }

  /** Filing the candidates in ascending order puts each one in its bucket and leaves both
      missing lists ascending and free of repetitions. */
  lemma SortedClassification(repo: string, relPaths: set<string>, explicit: set<string>, present: string -> bool)
    ensures var c := Classification(repo, SortedSet(relPaths), explicit, present);
      && c.spec == Under(repo, InBucket(repo, relPaths, explicit, present, SpecFile))
      && c.m == Under(repo, InBucket(repo, relPaths, explicit, present, MFile))
      && StrictlySorted(c.missingExplicit)
      && (forall rel :: rel in c.missingExplicit <==> rel in InBucket(repo, relPaths, explicit, present, MissingExplicitPath))
      && StrictlySorted(c.droppedMissing)
      && (forall rel :: rel in c.droppedMissing <==> rel in InBucket(repo, relPaths, explicit, present, DroppedPath))
  {
    var sorted := SortedSet(relPaths);
    SortedSetIsStrictlySorted(relPaths);
    ClassificationContents(repo, sorted, explicit, present);
    ClassificationSorted(repo, sorted, explicit, present);
    assert Met(sorted) == relPaths;
  }

  /** Meeting one more candidate adds it to its own bucket and to no other. */
  lemma InBucketAdd(repo: string, seen: set<string>, rel: string, explicit: set<string>, present: string -> bool, b: Bucket)
    ensures InBucket(repo, seen + {rel}, explicit, present, b) ==
      InBucket(repo, seen, explicit, present, b) + (if BucketOf(repo, rel, explicit, present) == b then {rel} else {})
    ensures Under(repo, InBucket(repo, seen + {rel}, explicit, present, b)) ==
      Under(repo, InBucket(repo, seen, explicit, present, b)) + (if BucketOf(repo, rel, explicit, present) == b then {JoinPath(repo, rel)} else {})
  {
  }

  /** Appending the next element of an ascending sequence to a list drawn from its earlier
      elements keeps the list ascending and free of repetitions. */
  lemma AppendKeepsStrictlySorted(sorted: seq<string>, i: nat, list: seq<string>)
    requires StrictlySorted(sorted) && i < |sorted|
    requires StrictlySorted(list)
    requires forall x :: x in list ==> x in sorted[..i]
    ensures StrictlySorted(list + [sorted[i]])
  {
    var l := list + [sorted[i]];
    forall a, b | 0 <= a < b < |l|
      ensures Below(l[a], l[b]) && l[a] != l[b]
    {
      if b == |list| {
        assert l[a] in list;
        assert l[a] in sorted[..i];
        var j :| 0 <= j < i && sorted[j] == l[a];
      }
    }
  }

  /** Joining under one directory keeps distinct paths distinct, so it keeps the count. */
  lemma {:induction false} UnderKeepsCount(repo: string, rels: set<string>)
    ensures |Under(repo, rels)| == |rels|
    decreases |rels|
  {
    if rels != {} {
      var x :| x in rels;
      UnderKeepsCount(repo, rels - {x});
      assert Under(repo, rels) == Under(repo, rels - {x}) + {JoinPath(repo, x)};
      if JoinPath(repo, x) in Under(repo, rels - {x}) {
        var y :| y in rels - {x} && JoinPath(repo, y) == JoinPath(repo, x);
        JoinPathInjective(repo, x, y);
      }
    }
  }

  /** Every candidate lands in exactly one bucket: the two sets, the two missing lists and the
      ignored paths together account for each candidate once. */
  lemma ClassifiedPartition(repo: string, relPaths: set<string>, explicit: set<string>, present: string -> bool, c: Classified)
    requires c.spec == Under(repo, InBucket(repo, relPaths, explicit, present, SpecFile))
    requires c.m == Under(repo, InBucket(repo, relPaths, explicit, present, MFile))
    requires Distinct(c.missingExplicit) && Distinct(c.droppedMissing)
    requires forall rel :: rel in c.missingExplicit <==> rel in InBucket(repo, relPaths, explicit, present, MissingExplicitPath)
    requires forall rel :: rel in c.droppedMissing <==> rel in InBucket(repo, relPaths, explicit, present, DroppedPath)
    ensures |c.spec| + |c.m| + |c.missingExplicit| + |c.droppedMissing| + |InBucket(repo, relPaths, explicit, present, Ignored)| == |relPaths|
  {
    UnderKeepsCount(repo, InBucket(repo, relPaths, explicit, present, SpecFile));
    UnderKeepsCount(repo, InBucket(repo, relPaths, explicit, present, MFile));
    DistinctCount(c.missingExplicit, InBucket(repo, relPaths, explicit, present, MissingExplicitPath));
    DistinctCount(c.droppedMissing, InBucket(repo, relPaths, explicit, present, DroppedPath));
    BucketSizes(repo, relPaths, explicit, present);
  }

  /** A new candidate adds one to the size of its own bucket and nothing to the others. */
  lemma InBucketCount(repo: string, seen: set<string>, rel: string, explicit: set<string>, present: string -> bool, b: Bucket)
    requires rel !in seen
    ensures |InBucket(repo, seen + {rel}, explicit, present, b)| ==
      |InBucket(repo, seen, explicit, present, b)| + (if BucketOf(repo, rel, explicit, present) == b then 1 else 0)
  {
    InBucketAdd(repo, seen, rel, explicit, present, b);
    assert rel !in InBucket(repo, seen, explicit, present, b);
  }

  /** The five buckets split the candidates: their sizes add up to the number of candidates. */
  lemma {:induction false} BucketSizes(repo: string, rels: set<string>, explicit: set<string>, present: string -> bool)
    ensures |InBucket(repo, rels, explicit, present, SpecFile)| + |InBucket(repo, rels, explicit, present, MFile)| +
            |InBucket(repo, rels, explicit, present, MissingExplicitPath)| + |InBucket(repo, rels, explicit, present, DroppedPath)| +
            |InBucket(repo, rels, explicit, present, Ignored)| == |rels|
    decreases |rels|
  {
    if rels != {} {
      var x :| x in rels;
      var rest := rels - {x};
      BucketSizes(repo, rest, explicit, present);
      assert rest + {x} == rels;
      InBucketCount(repo, rest, x, explicit, present, SpecFile);
      InBucketCount(repo, rest, x, explicit, present, MFile);
      InBucketCount(repo, rest, x, explicit, present, MissingExplicitPath);
      InBucketCount(repo, rest, x, explicit, present, DroppedPath);
      InBucketCount(repo, rest, x, explicit, present, Ignored);
    } else {
      assert forall b :: InBucket(repo, rels, explicit, present, b) == {};
    }
  }

  /** A list without repetitions has as many elements as the set of its elements. */
  lemma {:induction false} DistinctCount(list: seq<string>, s: set<string>)
    requires Distinct(list)
    requires forall x :: x in list <==> x in s
    ensures |list| == |s|
  {
    if |list| > 0 {
      var rest := list[1..];
      assert forall x :: x in rest <==> x in s - {list[0]};
      DistinctCount(rest, s - {list[0]});
    } else {
      assert s == {};
    }
  }
}
