/**
 * Ordered reassembly: the collected chunk results are sorted by index
 * (`sort.SliceStable`) and `mergeChunkedFile` appends each scratch file to
 * the destination in that order, removing it afterwards.
 */
module Merge {
  import opened Types
  import opened Files

  /** `fileForSort`: the 1-based index of a finished chunk and the path of its scratch file. */
  datatype FileForSort = FileForSort(index: int, filePath: string)

  predicate SortedByIndex(s: seq<FileForSort>)
  {
    forall i, j :: 0 <= i < j < |s| ==> s[i].index <= s[j].index
  }

  predicate StrictlyByIndex(s: seq<FileForSort>)
  {
    forall i, j :: 0 <= i < j < |s| ==> s[i].index < s[j].index
  }

  /** Inserts `x` after every element whose index is not larger, which keeps the sort stable. */
  function Insert(x: FileForSort, s: seq<FileForSort>): (r: seq<FileForSort>)
    requires SortedByIndex(s)
    ensures |r| == |s| + 1 && multiset(r) == multiset(s) + multiset{x}
    ensures r[0] == x || (s != [] && r[0] == s[0])
    ensures SortedByIndex(r)
  {
    if s == [] || x.index < s[0].index then
      ConsSorted(x, s);
      [x] + s
    else
      assert s == [s[0]] + s[1..];
      TailSorted(s);
      var t := Insert(x, s[1..]);
      ConsSorted(s[0], t);
      [s[0]] + t
  }

  lemma TailSorted(s: seq<FileForSort>)
    requires s != [] && SortedByIndex(s)
    ensures SortedByIndex(s[1..]) && (|s| > 1 ==> s[0].index <= s[1].index)
  {
    assert forall k :: 0 <= k < |s| - 1 ==> s[1..][k] == s[k + 1];
  }

  lemma ConsSorted(h: FileForSort, t: seq<FileForSort>)
    requires SortedByIndex(t) && (t != [] ==> h.index <= t[0].index)
    ensures SortedByIndex([h] + t)
  {
    var r := [h] + t;
    assert forall j :: 1 <= j < |r| ==> r[j] == t[j - 1];
  }

  /**
   * `sort.SliceStable(filePaths, func(i, j) { index_i < index_j })`, taken
   * as a function of the slice's value: a stable insertion sort.
   */
  function SortByIndex(s: seq<FileForSort>): (r: seq<FileForSort>)
    ensures |r| == |s| && multiset(r) == multiset(s)
    ensures SortedByIndex(r)
  {
    if s == [] then []
    else
      assert s == s[..|s| - 1] + [s[|s| - 1]];
      Insert(s[|s| - 1], SortByIndex(s[..|s| - 1]))
  }

  /**
   * A list whose indices strictly increase is the only list sorted by index
   * with its elements: so sorting any arrangement of it gives it back.
   */
  lemma {:induction false} SortedPermutationUnique(a: seq<FileForSort>, b: seq<FileForSort>)
    requires StrictlyByIndex(a) && SortedByIndex(b) && multiset(a) == multiset(b)
    ensures a == b
    decreases |a|
  {
    if a == [] {
      assert |b| == |multiset(b)| == 0;
    } else {
      SortedHeadsAgree(a, b);
      var ta, tb := a[1..], b[1..];
      TailsAgreeToo(a, b);
      SortedPermutationUnique(ta, tb);
    }
  }

  /** Past equal heads, the tails are again ordered lists with equal multisets. */
  lemma TailsAgreeToo(a: seq<FileForSort>, b: seq<FileForSort>)
    requires StrictlyByIndex(a) && SortedByIndex(b) && multiset(a) == multiset(b)
    requires a != [] && b != [] && a[0] == b[0]
    ensures StrictlyByIndex(a[1..]) && SortedByIndex(b[1..]) && multiset(a[1..]) == multiset(b[1..])
  {
    assert forall k :: 0 <= k < |a| - 1 ==> a[1..][k] == a[k + 1];
    assert forall k :: 0 <= k < |b| - 1 ==> b[1..][k] == b[k + 1];
    MultisetOfTail(a);
    MultisetOfTail(b);
  }

  lemma MultisetOfTail<T>(s: seq<T>)
    requires s != []
    ensures multiset(s[1..]) == multiset(s) - multiset{s[0]}
  {
    assert s == [s[0]] + s[1..];
  }

  lemma SortedHeadsAgree(a: seq<FileForSort>, b: seq<FileForSort>)
    requires StrictlyByIndex(a) && SortedByIndex(b) && multiset(a) == multiset(b)
    requires a != []
    ensures b != [] && a[0] == b[0]
  {
    assert a[0] in multiset(b);
    assert b != [];
    assert b[0] in multiset(a);
    var i :| 0 <= i < |a| && a[i] == b[0];
    var j :| 0 <= j < |b| && b[j] == a[0];
    assert a[0].index <= a[i].index;
    assert b[0].index <= b[j].index;
    assert i == 0;
  }

  /** Sorting an arrangement of a list whose indices strictly increase restores that list. */
  lemma SortRestoresOrder(s: seq<FileForSort>, sorted: seq<FileForSort>)
    requires StrictlyByIndex(sorted) && multiset(s) == multiset(sorted)
    ensures SortByIndex(s) == sorted
  {
    SortedPermutationUnique(sorted, SortByIndex(s));
  }

  /** The scratch paths of a result list, in list order. */
  function Paths(s: seq<FileForSort>): (r: seq<string>)
    ensures |r| == |s| && forall k :: 0 <= k < |s| ==> r[k] == s[k].filePath
  {
    seq(|s|, k requires 0 <= k < |s| => s[k].filePath)
  }

  /**
   * One turn of the merge loop: open the scratch file (a missing file is
   * skipped, the error dropped), copy it onto the end of `dst`, then remove
   * it. A copy that breaks leaves its first bytes in `dst` and returns
   * before the removal, so the scratch file stays; a failed removal leaves
   * it in place too. Neither error reaches the caller.
   */
  function MergeOne(files: FileMap, unremovable: set<string>, copyBreaks: map<string, nat>, dst: string, f: FileForSort): (r: FileMap)
    ensures dst in files && f.filePath != dst ==>
      && dst in r && r[dst] == files[dst] + Copied(files, copyBreaks, f.filePath)
      && (forall p :: p != dst && p != f.filePath ==> (p in r <==> p in files) && (p in files ==> r[p] == files[p]))
      && (f.filePath in r <==> f.filePath in files && (f.filePath in unremovable || f.filePath in copyBreaks))
      && (f.filePath in r ==> r[f.filePath] == files[f.filePath])
  {
    var p := f.filePath;
    if p !in files then files
    else
      var appended := Appended(files, dst, Copied(files, copyBreaks, p));
      if p in copyBreaks || p in unremovable then appended else appended - {p}
  }

  /** The merge loop over `paths`, in order. */
  function MergeAll(files: FileMap, unremovable: set<string>, copyBreaks: map<string, nat>, dst: string, paths: seq<FileForSort>): FileMap
    decreases |paths|
  {
    if paths == [] then files
    else MergeOne(MergeAll(files, unremovable, copyBreaks, dst, paths[..|paths| - 1]), unremovable, copyBreaks, dst, paths[|paths| - 1])
  }

  /** `mergeChunkedFile`: only opening `dst` can fail; then every entry is merged. */
  function MergeOutcome(files: FileMap, unwritable: set<string>, unremovable: set<string>, copyBreaks: map<string, nat>,
                        dst: string, paths: seq<FileForSort>): Outcome
  {
    if dst in unwritable then Outcome(files, Some(OpenFailed(dst)))
    else Outcome(MergeAll(Created(files, dst), unremovable, copyBreaks, dst, paths), None)
  }

  /** What the merge copies out of the listed files, concatenated in list order. */
  function Gather(files: FileMap, copyBreaks: map<string, nat>, paths: seq<FileForSort>): seq<byte>
    decreases |paths|
  {
    if paths == [] then [] else Gather(files, copyBreaks, paths[..|paths| - 1]) + Copied(files, copyBreaks, paths[|paths| - 1].filePath)
  }

  lemma GatherSnoc(files: FileMap, copyBreaks: map<string, nat>, init: seq<FileForSort>, f: FileForSort)
    ensures Gather(files, copyBreaks, init + [f]) == Gather(files, copyBreaks, init) + Copied(files, copyBreaks, f.filePath)
  {
    assert (init + [f])[..|init|] == init;
  }

  /**
   * What merging `paths` into `dst` should leave behind: `dst` holds its old
   * content followed by what was copied out of the listed files, in list
   * order; a listed file that was copied whole and could be removed is
   * gone, the rest keep their content; every other file is untouched.
   */
  ghost predicate MergedAsListed(files: FileMap, unremovable: set<string>, copyBreaks: map<string, nat>, dst: string,
                                 paths: seq<FileForSort>, r: FileMap)
    requires dst in files
  {
    && dst in r && r[dst] == files[dst] + Gather(files, copyBreaks, paths)
    && (forall p :: p != dst && p !in Paths(paths) ==> (p in r <==> p in files) && (p in files ==> r[p] == files[p]))
    && (forall k :: 0 <= k < |paths| ==>
          (paths[k].filePath in r <==> paths[k].filePath in files && (paths[k].filePath in unremovable || paths[k].filePath in copyBreaks))
          && (paths[k].filePath in r ==> r[paths[k].filePath] == files[paths[k].filePath]))
  }

  /** Because `dst` is opened for appending, the merge loop does exactly what `MergedAsListed` says. */
  lemma {:induction false} MergeAllEffect(files: FileMap, unremovable: set<string>, copyBreaks: map<string, nat>,
                                          dst: string, paths: seq<FileForSort>)
    requires dst in files
    requires forall k :: 0 <= k < |paths| ==> paths[k].filePath != dst
    requires forall i, j :: 0 <= i < j < |paths| ==> paths[i].filePath != paths[j].filePath
    ensures MergedAsListed(files, unremovable, copyBreaks, dst, paths, MergeAll(files, unremovable, copyBreaks, dst, paths))
    decreases |paths|
  {
    if paths != [] {
      var n := |paths| - 1;
      var init, f := paths[..n], paths[n];
      assert paths == init + [f];
      assert forall k :: 0 <= k < n ==> init[k] == paths[k];
      MergeAllEffect(files, unremovable, copyBreaks, dst, init);
      assert f.filePath !in Paths(init) by {
        assert forall k :: 0 <= k < n ==> Paths(init)[k] == paths[k].filePath;
      }
      MergeAllStep(files, unremovable, copyBreaks, dst, init, f, MergeAll(files, unremovable, copyBreaks, dst, init));
    }
  }

  /** One more turn of the merge loop keeps `MergedAsListed`. */
  lemma MergeAllStep(files: FileMap, unremovable: set<string>, copyBreaks: map<string, nat>, dst: string,
                     init: seq<FileForSort>, f: FileForSort, r0: FileMap)
    requires dst in files && f.filePath != dst && f.filePath !in Paths(init)
    requires forall k :: 0 <= k < |init| ==> init[k].filePath != dst
    requires MergedAsListed(files, unremovable, copyBreaks, dst, init, r0)
    ensures MergedAsListed(files, unremovable, copyBreaks, dst, init + [f], MergeOne(r0, unremovable, copyBreaks, dst, f))
  {
    assert (f.filePath in r0 <==> f.filePath in files) && Content(r0, f.filePath) == Content(files, f.filePath);
    MergeStepDst(files, unremovable, copyBreaks, dst, init, f, r0);
    MergeStepOthers(files, unremovable, copyBreaks, dst, init, f, r0);
    MergeStepListed(files, unremovable, copyBreaks, dst, init, f, r0);
  }

  /** One more turn appends what it copies out of the next file to `dst`. */
  lemma MergeStepDst(files: FileMap, unremovable: set<string>, copyBreaks: map<string, nat>, dst: string,
                     init: seq<FileForSort>, f: FileForSort, r0: FileMap)
    requires dst in files && f.filePath != dst
    requires dst in r0 && r0[dst] == files[dst] + Gather(files, copyBreaks, init)
    requires Content(r0, f.filePath) == Content(files, f.filePath)
    ensures var r := MergeOne(r0, unremovable, copyBreaks, dst, f);
      dst in r && r[dst] == files[dst] + Gather(files, copyBreaks, init + [f])
  {
    var c := Copied(files, copyBreaks, f.filePath);
    assert Copied(r0, copyBreaks, f.filePath) == c;
    GatherSnoc(files, copyBreaks, init, f);
    assert files[dst] + Gather(files, copyBreaks, init) + c == files[dst] + (Gather(files, copyBreaks, init) + c);
  }

  /** A file that is neither `dst` nor listed is untouched by one more turn. */
  lemma MergeStepOthers(files: FileMap, unremovable: set<string>, copyBreaks: map<string, nat>, dst: string,
                        init: seq<FileForSort>, f: FileForSort, r0: FileMap)
    requires dst in files && f.filePath != dst
    requires MergedAsListed(files, unremovable, copyBreaks, dst, init, r0)
    ensures var r := MergeOne(r0, unremovable, copyBreaks, dst, f);
      forall p :: p != dst && p !in Paths(init + [f]) ==> (p in r <==> p in files) && (p in files ==> r[p] == files[p])
  {
    var r := MergeOne(r0, unremovable, copyBreaks, dst, f);
    assert Paths(init + [f]) == Paths(init) + [f.filePath];
    forall p | p != dst && p !in Paths(init + [f])
      ensures (p in r <==> p in files) && (p in files ==> r[p] == files[p])
    {
      assert p != f.filePath && p !in Paths(init);
    }
  }

  /** Each listed file is removed, or kept with its content, as `MergedAsListed` says. */
  lemma MergeStepListed(files: FileMap, unremovable: set<string>, copyBreaks: map<string, nat>, dst: string,
                        init: seq<FileForSort>, f: FileForSort, r0: FileMap)
    requires dst in files && f.filePath != dst && f.filePath !in Paths(init)
    requires forall k :: 0 <= k < |init| ==> init[k].filePath != dst
    requires MergedAsListed(files, unremovable, copyBreaks, dst, init, r0)
    ensures var r := MergeOne(r0, unremovable, copyBreaks, dst, f);
      forall k :: 0 <= k < |init + [f]| ==>
        ((init + [f])[k].filePath in r <==> (init + [f])[k].filePath in files
                                            && ((init + [f])[k].filePath in unremovable || (init + [f])[k].filePath in copyBreaks))
        && ((init + [f])[k].filePath in r ==> r[(init + [f])[k].filePath] == files[(init + [f])[k].filePath])
  {
    var paths := init + [f];
    var r := MergeOne(r0, unremovable, copyBreaks, dst, f);
    assert (f.filePath in r0 <==> f.filePath in files) && Content(r0, f.filePath) == Content(files, f.filePath);
    forall k | 0 <= k < |paths|
      ensures paths[k].filePath in r <==> paths[k].filePath in files && (paths[k].filePath in unremovable || paths[k].filePath in copyBreaks)
      ensures paths[k].filePath in r ==> r[paths[k].filePath] == files[paths[k].filePath]
    {
      if k < |init| {
        assert paths[k] == init[k];
        assert Paths(init)[k] == init[k].filePath;
        assert init[k].filePath != f.filePath && init[k].filePath != dst;
      } else {
        assert paths[k] == f;
      }
    }
  }

  /**
   * When no listed file breaks, the merge copies each of them whole:
   * `Gather` is the plain concatenation of their contents.
   */
  lemma {:induction false} GatherUnbroken(files: FileMap, copyBreaks: map<string, nat>, paths: seq<FileForSort>)
    requires forall k :: 0 <= k < |paths| ==> paths[k].filePath !in copyBreaks
    ensures Gather(files, copyBreaks, paths) == Gather(files, map[], paths)
    decreases |paths|
  {
    if paths != [] {
      var n := |paths| - 1;
      assert forall k :: 0 <= k < n ==> paths[..n][k] == paths[k];
      GatherUnbroken(files, copyBreaks, paths[..n]);
    }
  }

  /**
   * A copy that breaks before the end of its file makes the merged bytes
   * shorter than the listed files together.
   */
  lemma {:induction false} GatherBrokenShorter(files: FileMap, copyBreaks: map<string, nat>, paths: seq<FileForSort>, j: nat)
    requires j < |paths| && paths[j].filePath in copyBreaks && copyBreaks[paths[j].filePath] < |Content(files, paths[j].filePath)|
    ensures |Gather(files, copyBreaks, paths)| < |Gather(files, map[], paths)|
    decreases |paths|
  {
    var n := |paths| - 1;
    assert paths[..n] + [paths[n]] == paths;
    GatherNotLonger(files, copyBreaks, paths[..n]);
    if j < n {
      assert paths[..n][j] == paths[j];
      GatherBrokenShorter(files, copyBreaks, paths[..n], j);
    }
  }

  /** The merge never copies more than the listed files hold. */
  lemma {:induction false} GatherNotLonger(files: FileMap, copyBreaks: map<string, nat>, paths: seq<FileForSort>)
    ensures |Gather(files, copyBreaks, paths)| <= |Gather(files, map[], paths)|
    decreases |paths|
  {
    if paths != [] {
      GatherNotLonger(files, copyBreaks, paths[..|paths| - 1]);
    }
  }

  /**
   * A scratch file whose copy breaks part-way corrupts `dst` without an
   * error: `mergeChunkedFile` still returns nil, `dst` ends shorter than its
   * old content followed by the listed files, and the broken file stays.
   */
  lemma MergeBreakGoesUnreported(files: FileMap, unwritable: set<string>, unremovable: set<string>, copyBreaks: map<string, nat>,
                                 dst: string, paths: seq<FileForSort>, j: nat)
    requires dst !in unwritable
    requires forall k :: 0 <= k < |paths| ==> paths[k].filePath != dst
    requires forall i, k :: 0 <= i < k < |paths| ==> paths[i].filePath != paths[k].filePath
    requires j < |paths| && paths[j].filePath in files
    requires paths[j].filePath in copyBreaks && copyBreaks[paths[j].filePath] < |files[paths[j].filePath]|
    ensures var out := MergeOutcome(files, unwritable, unremovable, copyBreaks, dst, paths);
      && out.err == None
      && dst in out.files && |out.files[dst]| < |Content(files, dst)| + |Gather(files, map[], paths)|
      && paths[j].filePath in out.files
  {
    var afterOpen := Created(files, dst);
    assert Content(afterOpen, paths[j].filePath) == Content(files, paths[j].filePath);
    MergeAllEffect(afterOpen, unremovable, copyBreaks, dst, paths);
    GatherBrokenShorter(afterOpen, copyBreaks, paths, j);
    SameGatherOffDst(files, afterOpen, dst, paths);
  }

  /** Creating `dst` does not change what the listed files hold. */
  lemma {:induction false} SameGatherOffDst(files: FileMap, afterOpen: FileMap, dst: string, paths: seq<FileForSort>)
    requires forall k :: 0 <= k < |paths| ==> paths[k].filePath != dst
    requires afterOpen == Created(files, dst)
    ensures Gather(afterOpen, map[], paths) == Gather(files, map[], paths)
    decreases |paths|
  {
    if paths != [] {
      var n := |paths| - 1;
      assert forall k :: 0 <= k < n ==> paths[..n][k] == paths[k];
      SameGatherOffDst(files, afterOpen, dst, paths[..n]);
      assert Content(afterOpen, paths[n].filePath) == Content(files, paths[n].filePath);
    }
  }

  /**
   * `mergeChunkedFile`. It returns an error only when `dst` cannot be
   * opened; a scratch file that cannot be opened, copied or removed is
   * skipped, copied in part or left behind, without an error.
   */
  method MergeChunkedFile(fs: FileSystem, dst: string, filePaths: seq<FileForSort>) returns (err: Option<Error>)
    requires forall k :: 0 <= k < |filePaths| ==> filePaths[k].filePath != dst
    modifies fs
    ensures err.Some? <==> dst in fs.unwritable
    ensures Outcome(fs.files, err) == MergeOutcome(old(fs.files), fs.unwritable, fs.unremovable, fs.copyBreaks, dst, filePaths)
  {
    var ok := fs.OpenAppend(dst);
    if !ok {
      return Some(OpenFailed(dst));
    }
    ghost var afterOpen := fs.files;
    for k := 0 to |filePaths|
      invariant fs.files == MergeAll(afterOpen, fs.unremovable, fs.copyBreaks, dst, filePaths[..k])
      invariant dst in fs.files
    {
      var f := filePaths[k];
      assert filePaths[..k + 1][..k] == filePaths[..k];
      var found := fs.Open(f.filePath);
      if found {
        var copied := fs.CopyInto(dst, f.filePath);
        if copied {
          var _ := fs.Remove(f.filePath);
        }
      }
    }
    assert filePaths[..|filePaths|] == filePaths;
    err := None;
  }
}
