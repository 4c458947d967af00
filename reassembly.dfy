/**
 * What the concurrent download leaves on disk, whatever order the chunk
 * goroutines finish in: the properties of `Downloader.ConcurrentOutcome`
 * and of `Downloader.DownloadOutcome`.
 */
module Reassembly {
  import opened Types
  import opened GoInt
  import opened Strconv
  import opened Planner
  import opened Requests
  import opened Files
  import opened Merge
  import opened Downloader

  /** The unit at plan position `pos` succeeds: its scratch file opens and its response arrives whole. */
  predicate Succeeds(unwritable: set<string>, dst: string, chunked: seq<IndexChunk>,
                     fetch: IndexChunk -> FetchOutcome, pos: nat)
    requires pos < |chunked|
  {
    Scratch(dst, pos) !in unwritable && fetch(chunked[pos]).Fetched?
  }

  predicate AllSucceed(unwritable: set<string>, dst: string, chunked: seq<IndexChunk>, fetch: IndexChunk -> FetchOutcome)
  {
    forall pos :: 0 <= pos < |chunked| ==> Succeeds(unwritable, dst, chunked, fetch, pos)
  }

  /** The scratch file of plan position `pos` (chunk index `pos + 1`). */
  function Scratch(dst: string, pos: nat): string
  {
    ScratchPath(dst, pos + 1)
  }

  /** Distinct positions have distinct scratch files, none of them `dst`. */
  lemma ScratchDistinct(dst: string, i: nat, j: nat)
    ensures Scratch(dst, i) == Scratch(dst, j) <==> i == j
    ensures Scratch(dst, i) != dst
  {
    ScratchPathsDistinct(dst, i + 1, j + 1);
  }

  /** The result the unit at plan position `pos` collects: index `pos + 1` and its scratch file. */
  function Entry(dst: string, pos: nat): FileForSort
  {
    FileForSort(pos + 1, Scratch(dst, pos))
  }

  /** The results of all `n` chunks in plan order. */
  function Canonical(dst: string, n: nat): (r: seq<FileForSort>)
    ensures |r| == n && forall k :: 0 <= k < n ==> r[k] == Entry(dst, k)
  {
    seq(n, k requires 0 <= k < n => Entry(dst, k))
  }

  /** The results as collected, in completion order. */
  function Collected(dst: string, order: seq<nat>): (r: seq<FileForSort>)
    ensures |r| == |order| && forall k :: 0 <= k < |order| ==> r[k] == Entry(dst, order[k])
  {
    seq(|order|, k requires 0 <= k < |order| => Entry(dst, order[k]))
  }

  /** The bytes a response put into its scratch file: all of them, or those before the break. */
  function Written(o: FetchOutcome): seq<byte>
  {
    match o
    case Fetched(b) => b
    case FetchFailed(p) => p
  }

  /** What the scratch file of position `pos` holds once its unit has run. */
  function AfterFetch(files: FileMap, dst: string, chunked: seq<IndexChunk>, fetch: IndexChunk -> FetchOutcome, pos: nat): seq<byte>
    requires pos < |chunked|
  {
    Content(files, Scratch(dst, pos)) + Written(fetch(chunked[pos]))
  }

  /** The scratch contents of the first `m` chunks, concatenated in plan order. */
  function PlanBytes(files: FileMap, dst: string, chunked: seq<IndexChunk>, fetch: IndexChunk -> FetchOutcome, m: nat): seq<byte>
    requires m <= |chunked|
  {
    if m == 0 then [] else PlanBytes(files, dst, chunked, fetch, m - 1) + AfterFetch(files, dst, chunked, fetch, m - 1)
  }

  predicate Unchanged(files: FileMap, r: FileMap, p: string)
  {
    (p in r <==> p in files) && (p in files ==> r[p] == files[p])
  }

  /** No scratch file of the first `n` positions breaks when the merge copies it. */
  predicate NoScratchBreaks(copyBreaks: map<string, nat>, dst: string, n: nat)
  {
    forall pos :: 0 <= pos < n ==> Scratch(dst, pos) !in copyBreaks
  }

  /** The plan's scratch paths are pairwise distinct and differ from `dst`. */
  lemma CanonicalPathsDistinct(dst: string, n: nat)
    ensures forall k :: 0 <= k < n ==> Canonical(dst, n)[k].filePath != dst
    ensures forall i, j :: 0 <= i < j < n ==> Canonical(dst, n)[i].filePath != Canonical(dst, n)[j].filePath
    ensures StrictlyByIndex(Canonical(dst, n))
  {
    forall i, j | 0 <= i < n && 0 <= j < n
      ensures Canonical(dst, n)[i].filePath != dst
      ensures i != j ==> Canonical(dst, n)[i].filePath != Canonical(dst, n)[j].filePath
    {
      ScratchDistinct(dst, i, j);
    }
  }

  /** The results collected by the first `|order| - 1` units, then the last one's. */
  lemma CollectedSnoc(dst: string, order: seq<nat>)
    requires order != []
    ensures var last := |order| - 1;
      && Collected(dst, order) == Collected(dst, order[..last]) + [Entry(dst, order[last])]
      && Paths(Collected(dst, order)) == Paths(Collected(dst, order[..last])) + [Scratch(dst, order[last])]
  {
    var last := |order| - 1;
    assert Collected(dst, order) == Collected(dst, order[..last]) + [Entry(dst, order[last])];
  }

  /** A position no earlier unit ran has a scratch path none of them collected. */
  lemma ScratchNotCollected(dst: string, order: seq<nat>, pos: nat)
    requires forall k :: 0 <= k < |order| ==> order[k] != pos
    ensures Scratch(dst, pos) !in Paths(Collected(dst, order))
  {
    forall k | 0 <= k < |order|
      ensures Paths(Collected(dst, order))[k] != Scratch(dst, pos)
    {
      ScratchDistinct(dst, order[k], pos);
    }
  }

  lemma NotInSnoc<T>(s: seq<T>, x: T, p: T)
    requires p !in s + [x]
    ensures p != x && p !in s
  {
    assert (s + [x])[|s|] == x;
    assert forall k :: 0 <= k < |s| ==> (s + [x])[k] == s[k];
  }

  /** Appending to a file not yet on the list leaves everything off the longer list as it was. */
  lemma AppendFrame(files: FileMap, before: FileMap, after: FileMap, path: string, data: seq<byte>, listed: seq<string>)
    requires after == Appended(before, path, data)
    requires forall p :: p !in listed ==> Unchanged(files, before, p)
    ensures forall p :: p !in listed + [path] ==> Unchanged(files, after, p)
  {
    forall p | p !in listed + [path]
      ensures Unchanged(files, after, p)
    {
      NotInSnoc(listed, path, p);
    }
  }

  lemma AppendKeeps(before: FileMap, after: FileMap, path: string, data: seq<byte>, q: string)
    requires after == Appended(before, path, data) && q != path
    ensures Content(after, q) == Content(before, q)
  {
  }

  /** One successful unit: it appends its body to its scratch file and is collected. */
  lemma RunChunkSucceeds(prev: Collection, unwritable: set<string>, dst: string,
                         chunked: seq<IndexChunk>, fetch: IndexChunk -> FetchOutcome, pos: nat)
    requires pos < |chunked| && prev.err == None && Succeeds(unwritable, dst, chunked, fetch, pos)
    ensures var st := RunChunk(prev, unwritable, dst, chunked, fetch, pos);
      && st.err == None
      && st.filePaths == prev.filePaths + [Entry(dst, pos)]
      && st.files == Appended(prev.files, Scratch(dst, pos), Written(fetch(chunked[pos])))
  {
  }

  /**
   * The state after the units of `order` all succeeded: no error, each one
   * collected in completion order, each scratch file holding its old
   * content followed by its chunk, every other file as it was.
   */
  ghost predicate RanAsCollected(files: FileMap, dst: string, chunked: seq<IndexChunk>, fetch: IndexChunk -> FetchOutcome,
                                 order: seq<nat>, run: Collection)
    requires forall k :: 0 <= k < |order| ==> order[k] < |chunked|
  {
    && run.err == None
    && run.filePaths == Collected(dst, order)
    && (forall k :: 0 <= k < |order| ==> Scratch(dst, order[k]) in run.files)
    && (forall k :: 0 <= k < |order| ==> Content(run.files, Scratch(dst, order[k])) == AfterFetch(files, dst, chunked, fetch, order[k]))
    && (forall p :: p !in Paths(Collected(dst, order)) ==> Unchanged(files, run.files, p))
  }

  /** While every unit succeeds, each one extends only its own scratch file and is collected. */
  lemma {:induction false} RunChunksAllSucceed(files: FileMap, unwritable: set<string>, dst: string,
                                               chunked: seq<IndexChunk>, fetch: IndexChunk -> FetchOutcome, order: seq<nat>)
    requires forall k :: 0 <= k < |order| ==> order[k] < |chunked|
    requires forall i, j :: 0 <= i < j < |order| ==> order[i] != order[j]
    requires forall k :: 0 <= k < |order| ==> Succeeds(unwritable, dst, chunked, fetch, order[k])
    ensures RanAsCollected(files, dst, chunked, fetch, order, RunChunks(files, unwritable, dst, chunked, fetch, order))
    decreases |order|
  {
    if order != [] {
      var last := |order| - 1;
      var init, pos := order[..last], order[last];
      var prev := RunChunks(files, unwritable, dst, chunked, fetch, init);
      assert RunChunk(prev, unwritable, dst, chunked, fetch, pos) == RunChunks(files, unwritable, dst, chunked, fetch, order);
      assert order == init + [pos];
      assert forall k :: 0 <= k < last ==> init[k] == order[k];
      RunChunksAllSucceed(files, unwritable, dst, chunked, fetch, init);
      RunChunksStep(files, unwritable, dst, chunked, fetch, init, pos, prev);
    }
  }

  /** One more successful unit, at a position not run before, keeps `RanAsCollected`. */
  lemma RunChunksStep(files: FileMap, unwritable: set<string>, dst: string,
                      chunked: seq<IndexChunk>, fetch: IndexChunk -> FetchOutcome, init: seq<nat>, pos: nat, prev: Collection)
    requires forall k :: 0 <= k < |init| ==> init[k] < |chunked|
    requires pos < |chunked| && forall k :: 0 <= k < |init| ==> init[k] != pos
    requires Succeeds(unwritable, dst, chunked, fetch, pos)
    requires RanAsCollected(files, dst, chunked, fetch, init, prev)
    ensures RanAsCollected(files, dst, chunked, fetch, init + [pos], RunChunk(prev, unwritable, dst, chunked, fetch, pos))
  {
    var order := init + [pos];
    var run := RunChunk(prev, unwritable, dst, chunked, fetch, pos);
    RunChunkSucceeds(prev, unwritable, dst, chunked, fetch, pos);
    assert order[..|init|] == init;
    CollectedSnoc(dst, order);
    ScratchNotCollected(dst, init, pos);
    RunChunksStepContents(files, unwritable, dst, chunked, fetch, init, pos, prev);
    AppendFrame(files, prev.files, run.files, Scratch(dst, pos), Written(fetch(chunked[pos])), Paths(Collected(dst, init)));
  }

  /** After one more successful unit, every unit run so far has its scratch file with its chunk. */
  lemma RunChunksStepContents(files: FileMap, unwritable: set<string>, dst: string,
                              chunked: seq<IndexChunk>, fetch: IndexChunk -> FetchOutcome, init: seq<nat>, pos: nat, prev: Collection)
    requires forall k :: 0 <= k < |init| ==> init[k] < |chunked|
    requires pos < |chunked| && forall k :: 0 <= k < |init| ==> init[k] != pos
    requires Succeeds(unwritable, dst, chunked, fetch, pos)
    requires RanAsCollected(files, dst, chunked, fetch, init, prev)
    ensures var run := RunChunk(prev, unwritable, dst, chunked, fetch, pos);
      forall k :: 0 <= k < |init + [pos]| ==>
        && Scratch(dst, (init + [pos])[k]) in run.files
        && Content(run.files, Scratch(dst, (init + [pos])[k])) == AfterFetch(files, dst, chunked, fetch, (init + [pos])[k])
  {
    var order := init + [pos];
    var run := RunChunk(prev, unwritable, dst, chunked, fetch, pos);
    var path := Scratch(dst, pos);
    RunChunkSucceeds(prev, unwritable, dst, chunked, fetch, pos);
    ScratchNotCollected(dst, init, pos);
    assert Unchanged(files, prev.files, path);
    forall k | 0 <= k < |order|
      ensures Scratch(dst, order[k]) in run.files
      ensures Content(run.files, Scratch(dst, order[k])) == AfterFetch(files, dst, chunked, fetch, order[k])
    {
      var q := Scratch(dst, order[k]);
      if k < |init| {
        assert order[k] == init[k];
        ScratchDistinct(dst, init[k], pos);
        AppendKeeps(prev.files, run.files, path, Written(fetch(chunked[pos])), q);
      } else {
        assert order[k] == pos && q == path;
        assert Content(prev.files, path) == Content(files, path);
      }
    }
  }

  /** The run touches no file but the plan's scratch files. */
  lemma {:induction false} RunChunksOnlyScratch(files: FileMap, unwritable: set<string>, dst: string,
                                                chunked: seq<IndexChunk>, fetch: IndexChunk -> FetchOutcome, order: seq<nat>)
    requires forall k :: 0 <= k < |order| ==> order[k] < |chunked|
    ensures var run := RunChunks(files, unwritable, dst, chunked, fetch, order);
      forall p :: p !in Paths(Canonical(dst, |chunked|)) ==> Unchanged(files, run.files, p)
    decreases |order|
  {
    if order != [] {
      var last := |order| - 1;
      RunChunksOnlyScratch(files, unwritable, dst, chunked, fetch, order[..last]);
      assert Paths(Canonical(dst, |chunked|))[order[last]] == Scratch(dst, order[last]);
    }
  }

  /** The error the unit at plan position `pos` returns when it fails. */
  function FailureError(unwritable: set<string>, dst: string, pos: nat): Error
  {
    if Scratch(dst, pos) in unwritable then OpenFailed(Scratch(dst, pos)) else TransportFailed(pos + 1)
  }

  /** The first place in `order` whose unit fails, or `|order|` when none does. */
  function FirstFailing(unwritable: set<string>, dst: string, chunked: seq<IndexChunk>,
                        fetch: IndexChunk -> FetchOutcome, order: seq<nat>): (j: nat)
    requires forall k :: 0 <= k < |order| ==> order[k] < |chunked|
    ensures j <= |order|
    ensures forall k :: 0 <= k < j ==> Succeeds(unwritable, dst, chunked, fetch, order[k])
    ensures j < |order| ==> !Succeeds(unwritable, dst, chunked, fetch, order[j])
    decreases |order|
  {
    if order == [] || !Succeeds(unwritable, dst, chunked, fetch, order[0]) then 0
    else
      var rest := order[1..];
      assert forall k :: 0 <= k < |rest| ==> rest[k] == order[k + 1];
      1 + FirstFailing(unwritable, dst, chunked, fetch, rest)
  }

  /** While every unit succeeds, no error is recorded. */
  lemma {:induction false} RunChunksNoError(files: FileMap, unwritable: set<string>, dst: string,
                                            chunked: seq<IndexChunk>, fetch: IndexChunk -> FetchOutcome, order: seq<nat>)
    requires forall k :: 0 <= k < |order| ==> order[k] < |chunked|
    requires forall k :: 0 <= k < |order| ==> Succeeds(unwritable, dst, chunked, fetch, order[k])
    ensures RunChunks(files, unwritable, dst, chunked, fetch, order).err == None
    decreases |order|
  {
    if order != [] {
      var last := |order| - 1;
      var init := order[..last];
      var prev := RunChunks(files, unwritable, dst, chunked, fetch, init);
      assert RunChunks(files, unwritable, dst, chunked, fetch, order) == RunChunk(prev, unwritable, dst, chunked, fetch, order[last]);
      assert forall k :: 0 <= k < last ==> init[k] == order[k];
      RunChunksNoError(files, unwritable, dst, chunked, fetch, init);
      RunChunkSucceeds(prev, unwritable, dst, chunked, fetch, order[last]);
    }
  }

  /** A unit that fails before any error records its own error. */
  lemma RunChunkFails(st: Collection, unwritable: set<string>, dst: string,
                      chunked: seq<IndexChunk>, fetch: IndexChunk -> FetchOutcome, pos: nat)
    requires pos < |chunked| && st.err == None && !Succeeds(unwritable, dst, chunked, fetch, pos)
    ensures RunChunk(st, unwritable, dst, chunked, fetch, pos).err == Some(FailureError(unwritable, dst, pos))
  {
  }

  /**
   * The error of the first failing unit is the one the run ends with:
   * it cancels the context, so every later unit returns at once.
   */
  lemma {:induction false} RunChunksFirstError(files: FileMap, unwritable: set<string>, dst: string,
                                               chunked: seq<IndexChunk>, fetch: IndexChunk -> FetchOutcome,
                                               order: seq<nat>, j: nat)
    requires forall k :: 0 <= k < |order| ==> order[k] < |chunked|
    requires j < |order| && !Succeeds(unwritable, dst, chunked, fetch, order[j])
    requires forall k :: 0 <= k < j ==> Succeeds(unwritable, dst, chunked, fetch, order[k])
    ensures RunChunks(files, unwritable, dst, chunked, fetch, order).err == Some(FailureError(unwritable, dst, order[j]))
    decreases |order|
  {
    var last := |order| - 1;
    if j < last {
      var init := order[..last];
      FailingPrefix(unwritable, dst, chunked, fetch, order, j);
      RunChunksFirstError(files, unwritable, dst, chunked, fetch, init, j);
      ErrorSurvivesLast(files, unwritable, dst, chunked, fetch, order, FailureError(unwritable, dst, order[j]));
    } else {
      LastUnitFails(files, unwritable, dst, chunked, fetch, order);
    }
  }

  /** Dropping the last unit keeps a failure that comes before it, and what precedes that failure. */
  lemma FailingPrefix(unwritable: set<string>, dst: string, chunked: seq<IndexChunk>,
                      fetch: IndexChunk -> FetchOutcome, order: seq<nat>, j: nat)
    requires forall k :: 0 <= k < |order| ==> order[k] < |chunked|
    requires j < |order| - 1 && !Succeeds(unwritable, dst, chunked, fetch, order[j])
    requires forall k :: 0 <= k < j ==> Succeeds(unwritable, dst, chunked, fetch, order[k])
    ensures var init := order[..|order| - 1];
      && (forall k :: 0 <= k < |init| ==> init[k] < |chunked|)
      && j < |init| && init[j] == order[j] && !Succeeds(unwritable, dst, chunked, fetch, init[j])
      && (forall k :: 0 <= k < j ==> Succeeds(unwritable, dst, chunked, fetch, init[k]))
  {
  }

  /** An error recorded before the last unit is the run's error. */
  lemma ErrorSurvivesLast(files: FileMap, unwritable: set<string>, dst: string,
                          chunked: seq<IndexChunk>, fetch: IndexChunk -> FetchOutcome, order: seq<nat>, e: Error)
    requires forall k :: 0 <= k < |order| ==> order[k] < |chunked|
    requires order != [] && RunChunks(files, unwritable, dst, chunked, fetch, order[..|order| - 1]).err == Some(e)
    ensures RunChunks(files, unwritable, dst, chunked, fetch, order).err == Some(e)
  {
  }

  /** A last unit that fails after units that all succeeded records its own error. */
  lemma LastUnitFails(files: FileMap, unwritable: set<string>, dst: string,
                      chunked: seq<IndexChunk>, fetch: IndexChunk -> FetchOutcome, order: seq<nat>)
    requires forall k :: 0 <= k < |order| ==> order[k] < |chunked|
    requires order != [] && forall k :: 0 <= k < |order| - 1 ==> Succeeds(unwritable, dst, chunked, fetch, order[k])
    requires !Succeeds(unwritable, dst, chunked, fetch, order[|order| - 1])
    ensures RunChunks(files, unwritable, dst, chunked, fetch, order).err == Some(FailureError(unwritable, dst, order[|order| - 1]))
  {
    var last := |order| - 1;
    var init := order[..last];
    assert forall k :: 0 <= k < last ==> init[k] == order[k];
    RunChunksNoError(files, unwritable, dst, chunked, fetch, init);
    RunChunkFails(RunChunks(files, unwritable, dst, chunked, fetch, order[..last]), unwritable, dst, chunked, fetch, order[last]);
  }

  /**
   * A unit that fails makes the run end with an error: that of the first
   * unit in completion order that failed, as `eg.Wait()` reports it.
   */
  lemma RunChunksReportsFailure(files: FileMap, unwritable: set<string>, dst: string,
                                chunked: seq<IndexChunk>, fetch: IndexChunk -> FetchOutcome,
                                order: seq<nat>, j: nat)
    requires forall k :: 0 <= k < |order| ==> order[k] < |chunked|
    requires j < |order| && !Succeeds(unwritable, dst, chunked, fetch, order[j])
    ensures FirstFailing(unwritable, dst, chunked, fetch, order) <= j
    ensures RunChunks(files, unwritable, dst, chunked, fetch, order).err
         == Some(FailureError(unwritable, dst, order[FirstFailing(unwritable, dst, chunked, fetch, order)]))
  {
    var first := FirstFailing(unwritable, dst, chunked, fetch, order);
    RunChunksFirstError(files, unwritable, dst, chunked, fetch, order, first);
  }

  /** A duplicate-free list has each of its elements exactly once in its multiset. */
  lemma {:induction false} DistinctMultiset(s: seq<FileForSort>, x: FileForSort)
    requires forall i, j :: 0 <= i < j < |s| ==> s[i] != s[j]
    ensures multiset(s)[x] == if x in s then 1 else 0
    decreases |s|
  {
    if s != [] {
      var last := |s| - 1;
      assert s == s[..last] + [s[last]];
      DistinctMultiset(s[..last], x);
    }
  }

  /** Whatever the completion order, sorting the collected results restores plan order. */
  lemma CollectedSortsToPlanOrder(dst: string, order: seq<nat>, n: nat)
    requires IsArrangement(order, n)
    ensures SortByIndex(Collected(dst, order)) == Canonical(dst, n)
  {
    var a, b := Collected(dst, order), Canonical(dst, n);
    CanonicalPathsDistinct(dst, n);
    forall x
      ensures multiset(a)[x] == multiset(b)[x]
    {
      DistinctMultiset(a, x);
      DistinctMultiset(b, x);
      if x in a {
        var k :| 0 <= k < |a| && a[k] == x;
        assert b[order[k]] == x;
      }
      if x in b {
        var p :| 0 <= p < n && b[p] == x;
        assert p in order;
        var k :| 0 <= k < |order| && order[k] == p;
        assert a[k] == x;
      }
    }
    assert multiset(a) == multiset(b);
    SortRestoresOrder(a, b);
  }

  /** Gathering the scratch files in plan order yields the plan's bytes. */
  lemma {:induction false} GatherCanonical(files: FileMap, merged: FileMap, dst: string,
                                           chunked: seq<IndexChunk>, fetch: IndexChunk -> FetchOutcome, m: nat)
    requires m <= |chunked|
    requires forall pos {:trigger AfterFetch(files, dst, chunked, fetch, pos)} :: 0 <= pos < |chunked| ==>
      Content(merged, Scratch(dst, pos)) == AfterFetch(files, dst, chunked, fetch, pos)
    ensures Gather(merged, map[], Canonical(dst, m)) == PlanBytes(files, dst, chunked, fetch, m)
  {
    if m > 0 {
      GatherCanonical(files, merged, dst, chunked, fetch, m - 1);
      assert Content(merged, Scratch(dst, m - 1)) == AfterFetch(files, dst, chunked, fetch, m - 1);
      GatherCanonicalStep(files, merged, dst, chunked, fetch, m);
    }
  }

  /** One more chunk: its scratch content extends both sides alike. */
  lemma GatherCanonicalStep(files: FileMap, merged: FileMap, dst: string,
                            chunked: seq<IndexChunk>, fetch: IndexChunk -> FetchOutcome, m: nat)
    requires 0 < m <= |chunked|
    requires Gather(merged, map[], Canonical(dst, m - 1)) == PlanBytes(files, dst, chunked, fetch, m - 1)
    requires Content(merged, Scratch(dst, m - 1)) == AfterFetch(files, dst, chunked, fetch, m - 1)
    ensures Gather(merged, map[], Canonical(dst, m)) == PlanBytes(files, dst, chunked, fetch, m)
  {
    CanonicalSnoc(dst, m);
    GatherSnoc(merged, map[], Canonical(dst, m - 1), Entry(dst, m - 1));
  }

  lemma CanonicalSnoc(dst: string, m: nat)
    requires m > 0
    ensures Canonical(dst, m) == Canonical(dst, m - 1) + [Entry(dst, m - 1)]
  {
  }

  /**
   * When every unit succeeds, whatever the completion order, the run ends
   * without error, its results sort into plan order, every scratch file
   * holds its chunk, and no other file changed.
   */
  lemma RunArranged(files: FileMap, unwritable: set<string>, dst: string,
                    chunked: seq<IndexChunk>, fetch: IndexChunk -> FetchOutcome, order: seq<nat>)
    requires IsArrangement(order, |chunked|)
    requires AllSucceed(unwritable, dst, chunked, fetch)
    ensures var run := RunChunks(files, unwritable, dst, chunked, fetch, order);
      && run.err == None
      && SortByIndex(run.filePaths) == Canonical(dst, |chunked|)
      && (forall pos :: 0 <= pos < |chunked| ==> Scratch(dst, pos) in run.files)
      && (forall pos :: 0 <= pos < |chunked| ==> run.files[Scratch(dst, pos)] == AfterFetch(files, dst, chunked, fetch, pos))
      && (forall q :: q !in Paths(Canonical(dst, |chunked|)) ==> Unchanged(files, run.files, q))
  {
    var run := RunChunks(files, unwritable, dst, chunked, fetch, order);
    var n := |chunked|;
    forall k | 0 <= k < |order|
      ensures Succeeds(unwritable, dst, chunked, fetch, order[k])
    {
    }
    RunChunksAllSucceed(files, unwritable, dst, chunked, fetch, order);
    CollectedSortsToPlanOrder(dst, order, n);
    EveryPositionRan(files, run.files, dst, chunked, fetch, order);
    CollectedArePlanPaths(dst, order, n);
  }

  lemma EveryPositionRan(files: FileMap, run: FileMap, dst: string,
                         chunked: seq<IndexChunk>, fetch: IndexChunk -> FetchOutcome, order: seq<nat>)
    requires IsArrangement(order, |chunked|)
    requires forall k :: 0 <= k < |order| ==> Scratch(dst, order[k]) in run
    requires forall k :: 0 <= k < |order| ==> Content(run, Scratch(dst, order[k])) == AfterFetch(files, dst, chunked, fetch, order[k])
    ensures forall pos :: 0 <= pos < |chunked| ==> Scratch(dst, pos) in run
    ensures forall pos :: 0 <= pos < |chunked| ==> run[Scratch(dst, pos)] == AfterFetch(files, dst, chunked, fetch, pos)
  {
    forall pos | 0 <= pos < |chunked|
      ensures Scratch(dst, pos) in run && run[Scratch(dst, pos)] == AfterFetch(files, dst, chunked, fetch, pos)
    {
      assert pos in order;
      var k :| 0 <= k < |order| && order[k] == pos;
    }
  }

  lemma CollectedArePlanPaths(dst: string, order: seq<nat>, n: nat)
    requires forall k :: 0 <= k < |order| ==> order[k] < n
    ensures forall q :: q in Paths(Collected(dst, order)) ==> q in Paths(Canonical(dst, n))
  {
    forall q | q in Paths(Collected(dst, order))
      ensures q in Paths(Canonical(dst, n))
    {
      var k :| 0 <= k < |order| && Paths(Collected(dst, order))[k] == q;
      assert Paths(Canonical(dst, n))[order[k]] == q;
    }
  }

  /**
   * The merge of the plan's scratch files (listed in plan order) into a
   * `dst` that opened: `dst` gains the plan's bytes, each scratch file is
   * removed unless it cannot be, and nothing else changes.
   */
  lemma MergePlan(files: FileMap, run: FileMap, unremovable: set<string>, copyBreaks: map<string, nat>, dst: string,
                  chunked: seq<IndexChunk>, fetch: IndexChunk -> FetchOutcome)
    requires forall pos :: 0 <= pos < |chunked| ==> Scratch(dst, pos) in run
    requires forall pos :: 0 <= pos < |chunked| ==> run[Scratch(dst, pos)] == AfterFetch(files, dst, chunked, fetch, pos)
    requires NoScratchBreaks(copyBreaks, dst, |chunked|)
    ensures var r := MergeAll(Created(run, dst), unremovable, copyBreaks, dst, Canonical(dst, |chunked|));
      && dst in r && r[dst] == Content(run, dst) + PlanBytes(files, dst, chunked, fetch, |chunked|)
      && (forall pos :: 0 <= pos < |chunked| ==>
            (Scratch(dst, pos) in r <==> Scratch(dst, pos) in unremovable)
            && (Scratch(dst, pos) in r ==> r[Scratch(dst, pos)] == AfterFetch(files, dst, chunked, fetch, pos)))
      && (forall q :: q != dst && q !in Paths(Canonical(dst, |chunked|)) ==> Unchanged(run, r, q))
  {
    var n := |chunked|;
    var afterOpen := Created(run, dst);
    var canon := Canonical(dst, n);
    CanonicalPathsDistinct(dst, n);
    MergeAllEffect(afterOpen, unremovable, copyBreaks, dst, canon);
    GatherPlanUnbroken(files, afterOpen, copyBreaks, dst, chunked, fetch);
    forall pos | 0 <= pos < n
      ensures canon[pos].filePath == Scratch(dst, pos)
    {
    }
  }

  /** When no scratch file breaks, the merge copies out exactly the plan's bytes. */
  lemma GatherPlanUnbroken(files: FileMap, merged: FileMap, copyBreaks: map<string, nat>, dst: string,
                           chunked: seq<IndexChunk>, fetch: IndexChunk -> FetchOutcome)
    requires NoScratchBreaks(copyBreaks, dst, |chunked|)
    requires forall pos {:trigger AfterFetch(files, dst, chunked, fetch, pos)} :: 0 <= pos < |chunked| ==>
      Content(merged, Scratch(dst, pos)) == AfterFetch(files, dst, chunked, fetch, pos)
    ensures Gather(merged, copyBreaks, Canonical(dst, |chunked|)) == PlanBytes(files, dst, chunked, fetch, |chunked|)
  {
    var canon := Canonical(dst, |chunked|);
    assert forall k :: 0 <= k < |canon| ==> canon[k].filePath == Scratch(dst, k);
    GatherUnbroken(merged, copyBreaks, canon);
    GatherCanonical(files, merged, dst, chunked, fetch, |chunked|);
  }

  /**
   * The reassembly theorem, for any list of chunks. When every unit
   * succeeds and `dst` opens, whatever the completion order: no error is
   * returned, `dst` holds its old content followed by the scratch contents
   * in plan order, a scratch file survives only if it cannot be removed,
   * and nothing else on disk changes.
   */
  lemma RunAndMergeAllSucceed(files: FileMap, unwritable: set<string>, unremovable: set<string>, copyBreaks: map<string, nat>, dst: string,
                              chunked: seq<IndexChunk>, fetch: IndexChunk -> FetchOutcome, order: seq<nat>)
    requires IsArrangement(order, |chunked|)
    requires AllSucceed(unwritable, dst, chunked, fetch) && dst !in unwritable
    requires NoScratchBreaks(copyBreaks, dst, |chunked|)
    ensures var out := RunAndMerge(files, unwritable, unremovable, copyBreaks, dst, chunked, fetch, order);
      && out.err == None
      && dst in out.files && out.files[dst] == Content(files, dst) + PlanBytes(files, dst, chunked, fetch, |chunked|)
      && (forall pos :: 0 <= pos < |chunked| ==> (Scratch(dst, pos) in out.files <==> Scratch(dst, pos) in unremovable))
      && (forall pos :: 0 <= pos < |chunked| ==> Scratch(dst, pos) in out.files ==> out.files[Scratch(dst, pos)] == AfterFetch(files, dst, chunked, fetch, pos))
      && (forall q :: q != dst && q !in Paths(Canonical(dst, |chunked|)) ==> Unchanged(files, out.files, q))
  {
    var run := RunChunks(files, unwritable, dst, chunked, fetch, order);
    RunArranged(files, unwritable, dst, chunked, fetch, order);
    RunAndMergeIsPlanMerge(files, unwritable, unremovable, copyBreaks, dst, chunked, fetch, order);
    DstOutsidePlan(files, run.files, dst, |chunked|);
    MergeAfterRun(files, run.files, unwritable, unremovable, copyBreaks, dst, chunked, fetch);
    MergeAfterRunFrame(files, run.files, unwritable, unremovable, copyBreaks, dst, chunked, fetch);
  }

  /** When every unit succeeds, the run is followed by the merge of the plan's scratch files in plan order. */
  lemma RunAndMergeIsPlanMerge(files: FileMap, unwritable: set<string>, unremovable: set<string>, copyBreaks: map<string, nat>,
                               dst: string, chunked: seq<IndexChunk>, fetch: IndexChunk -> FetchOutcome, order: seq<nat>)
    requires IsArrangement(order, |chunked|)
    requires AllSucceed(unwritable, dst, chunked, fetch)
    ensures RunAndMerge(files, unwritable, unremovable, copyBreaks, dst, chunked, fetch, order)
         == MergeOutcome(RunChunks(files, unwritable, dst, chunked, fetch, order).files, unwritable, unremovable, copyBreaks,
                         dst, Canonical(dst, |chunked|))
  {
    RunArranged(files, unwritable, dst, chunked, fetch, order);
  }

  /** The merge into a `dst` that opens, after a run in which every unit succeeded: what `dst` and the scratch files hold. */
  lemma MergeAfterRun(files: FileMap, run: FileMap, unwritable: set<string>, unremovable: set<string>, copyBreaks: map<string, nat>,
                      dst: string, chunked: seq<IndexChunk>, fetch: IndexChunk -> FetchOutcome)
    requires dst !in unwritable && NoScratchBreaks(copyBreaks, dst, |chunked|)
    requires forall pos :: 0 <= pos < |chunked| ==> Scratch(dst, pos) in run
    requires forall pos :: 0 <= pos < |chunked| ==> run[Scratch(dst, pos)] == AfterFetch(files, dst, chunked, fetch, pos)
    requires Content(run, dst) == Content(files, dst)
    ensures var out := MergeOutcome(run, unwritable, unremovable, copyBreaks, dst, Canonical(dst, |chunked|));
      && out.err == None
      && dst in out.files && out.files[dst] == Content(files, dst) + PlanBytes(files, dst, chunked, fetch, |chunked|)
      && (forall pos :: 0 <= pos < |chunked| ==> (Scratch(dst, pos) in out.files <==> Scratch(dst, pos) in unremovable))
      && (forall pos :: 0 <= pos < |chunked| ==> Scratch(dst, pos) in out.files ==> out.files[Scratch(dst, pos)] == AfterFetch(files, dst, chunked, fetch, pos))
  {
    MergePlan(files, run, unremovable, copyBreaks, dst, chunked, fetch);
  }

  /** The same merge changes no file but `dst` and the plan's scratch files. */
  lemma MergeAfterRunFrame(files: FileMap, run: FileMap, unwritable: set<string>, unremovable: set<string>, copyBreaks: map<string, nat>,
                           dst: string, chunked: seq<IndexChunk>, fetch: IndexChunk -> FetchOutcome)
    requires dst !in unwritable && NoScratchBreaks(copyBreaks, dst, |chunked|)
    requires forall pos :: 0 <= pos < |chunked| ==> Scratch(dst, pos) in run
    requires forall pos :: 0 <= pos < |chunked| ==> run[Scratch(dst, pos)] == AfterFetch(files, dst, chunked, fetch, pos)
    requires forall q :: q !in Paths(Canonical(dst, |chunked|)) ==> Unchanged(files, run, q)
    ensures var out := MergeOutcome(run, unwritable, unremovable, copyBreaks, dst, Canonical(dst, |chunked|));
      forall q :: q != dst && q !in Paths(Canonical(dst, |chunked|)) ==> Unchanged(files, out.files, q)
  {
    var canon := Canonical(dst, |chunked|);
    var r := MergeAll(Created(run, dst), unremovable, copyBreaks, dst, canon);
    MergePlan(files, run, unremovable, copyBreaks, dst, chunked, fetch);
    UnchangedThrough(files, run, r, dst, Paths(canon));
  }

  /** A step that leaves every file outside the plan's scratch files alone leaves `dst` alone. */
  lemma DstOutsidePlan(files: FileMap, r: FileMap, dst: string, n: nat)
    requires forall q :: q !in Paths(Canonical(dst, n)) ==> Unchanged(files, r, q)
    ensures Content(r, dst) == Content(files, dst)
  {
    CanonicalPathsDistinct(dst, n);
    assert dst !in Paths(Canonical(dst, n));
    assert Unchanged(files, r, dst);
  }

  /** Files left alone by two steps in a row are left alone by both. */
  lemma UnchangedThrough(files: FileMap, mid: FileMap, last: FileMap, dst: string, listed: seq<string>)
    requires forall q :: q !in listed ==> Unchanged(files, mid, q)
    requires forall q :: q != dst && q !in listed ==> Unchanged(mid, last, q)
    ensures forall q :: q != dst && q !in listed ==> Unchanged(files, last, q)
  {
  }

  /** The reassembly theorem for `downloadConcurrency`: the plan of `size` bytes in `procs` ways, in any completion order. */
  lemma ConcurrentAllSucceed(files: FileMap, unwritable: set<string>, unremovable: set<string>, copyBreaks: map<string, nat>, dst: string,
                             size: Int64, procs: Int64, fetch: IndexChunk -> FetchOutcome, order: seq<nat>)
    requires ConcurrentReady(size, procs, order)
    requires AllSucceed(unwritable, dst, Plan(size, procs), fetch) && dst !in unwritable
    requires NoScratchBreaks(copyBreaks, dst, |Plan(size, procs)|)
    ensures var out := ConcurrentOutcome(files, unwritable, unremovable, copyBreaks, dst, size, procs, fetch, order);
      var p := Plan(size, procs);
      && out.err == None
      && dst in out.files && out.files[dst] == Content(files, dst) + PlanBytes(files, dst, p, fetch, |p|)
      && (forall pos :: 0 <= pos < |p| ==> (Scratch(dst, pos) in out.files <==> Scratch(dst, pos) in unremovable))
      && (forall pos :: 0 <= pos < |p| ==> Scratch(dst, pos) in out.files ==> out.files[Scratch(dst, pos)] == AfterFetch(files, dst, p, fetch, pos))
      && (forall q :: q != dst && q !in Paths(Canonical(dst, |p|)) ==> Unchanged(files, out.files, q))
  {
    RunAndMergeAllSucceed(files, unwritable, unremovable, copyBreaks, dst, Plan(size, procs), fetch, order);
  }

  /**
   * Every chunk downloads and `dst` opens, but the merge's copy of one
   * scratch file breaks before its end: `downloadConcurrency` still returns
   * no error, yet `dst` ends shorter than its old content followed by the
   * plan's bytes, and that scratch file stays on disk.
   */
  lemma ConcurrentMergeBreakGoesUnreported(files: FileMap, unwritable: set<string>, unremovable: set<string>,
                                           copyBreaks: map<string, nat>, dst: string, size: Int64, procs: Int64,
                                           fetch: IndexChunk -> FetchOutcome, order: seq<nat>, bad: nat)
    requires ConcurrentReady(size, procs, order)
    requires AllSucceed(unwritable, dst, Plan(size, procs), fetch) && dst !in unwritable
    requires bad < |Plan(size, procs)| && Scratch(dst, bad) in copyBreaks
    requires copyBreaks[Scratch(dst, bad)] < |AfterFetch(files, dst, Plan(size, procs), fetch, bad)|
    ensures var out := ConcurrentOutcome(files, unwritable, unremovable, copyBreaks, dst, size, procs, fetch, order);
      var p := Plan(size, procs);
      && out.err == None
      && dst in out.files && |out.files[dst]| < |Content(files, dst) + PlanBytes(files, dst, p, fetch, |p|)|
      && Scratch(dst, bad) in out.files
  {
    var p := Plan(size, procs);
    var run := RunChunks(files, unwritable, dst, p, fetch, order);
    RunArranged(files, unwritable, dst, p, fetch, order);
    RunAndMergeIsPlanMerge(files, unwritable, unremovable, copyBreaks, dst, p, fetch, order);
    DstOutsidePlan(files, run.files, dst, |p|);
    BrokenPlanMerge(files, run.files, unwritable, unremovable, copyBreaks, dst, p, fetch, bad);
  }

  /** The merge of the plan's scratch files, one of which breaks part-way, into a `dst` that opens. */
  lemma BrokenPlanMerge(files: FileMap, run: FileMap, unwritable: set<string>, unremovable: set<string>,
                        copyBreaks: map<string, nat>, dst: string, chunked: seq<IndexChunk>, fetch: IndexChunk -> FetchOutcome, bad: nat)
    requires dst !in unwritable
    requires forall pos :: 0 <= pos < |chunked| ==> Scratch(dst, pos) in run
    requires forall pos :: 0 <= pos < |chunked| ==> run[Scratch(dst, pos)] == AfterFetch(files, dst, chunked, fetch, pos)
    requires bad < |chunked| && Scratch(dst, bad) in copyBreaks
    requires copyBreaks[Scratch(dst, bad)] < |AfterFetch(files, dst, chunked, fetch, bad)|
    ensures var out := MergeOutcome(run, unwritable, unremovable, copyBreaks, dst, Canonical(dst, |chunked|));
      && out.err == None
      && dst in out.files && |out.files[dst]| < |Content(run, dst)| + |PlanBytes(files, dst, chunked, fetch, |chunked|)|
      && Scratch(dst, bad) in out.files
  {
    var canon := Canonical(dst, |chunked|);
    CanonicalPathsDistinct(dst, |chunked|);
    assert canon[bad].filePath == Scratch(dst, bad);
    MergeBreakGoesUnreported(run, unwritable, unremovable, copyBreaks, dst, canon, bad);
    GatherCanonical(files, run, dst, chunked, fetch, |chunked|);
  }

  /**
   * When every unit succeeds but `dst` cannot be opened, the merge never
   * runs: the error names `dst`, every scratch file stays behind holding
   * its chunk, and nothing else changes.
   */
  lemma RunAndMergeDstUnwritable(files: FileMap, unwritable: set<string>, unremovable: set<string>, copyBreaks: map<string, nat>, dst: string,
                                 chunked: seq<IndexChunk>, fetch: IndexChunk -> FetchOutcome, order: seq<nat>)
    requires IsArrangement(order, |chunked|)
    requires AllSucceed(unwritable, dst, chunked, fetch) && dst in unwritable
    ensures var out := RunAndMerge(files, unwritable, unremovable, copyBreaks, dst, chunked, fetch, order);
      && out.err == Some(OpenFailed(dst))
      && (forall pos :: 0 <= pos < |chunked| ==> Scratch(dst, pos) in out.files)
      && (forall pos :: 0 <= pos < |chunked| ==> out.files[Scratch(dst, pos)] == AfterFetch(files, dst, chunked, fetch, pos))
      && (forall q :: q !in Paths(Canonical(dst, |chunked|)) ==> Unchanged(files, out.files, q))
  {
    RunArranged(files, unwritable, dst, chunked, fetch, order);
  }

  /** Completion order does not matter: any two orders leave the same files and the same error. */
  lemma RunAndMergeOrderIndependent(files: FileMap, unwritable: set<string>, unremovable: set<string>, copyBreaks: map<string, nat>, dst: string,
                                    chunked: seq<IndexChunk>, fetch: IndexChunk -> FetchOutcome,
                                    order1: seq<nat>, order2: seq<nat>)
    requires IsArrangement(order1, |chunked|) && IsArrangement(order2, |chunked|)
    requires AllSucceed(unwritable, dst, chunked, fetch)
    ensures RunAndMerge(files, unwritable, unremovable, copyBreaks, dst, chunked, fetch, order1)
         == RunAndMerge(files, unwritable, unremovable, copyBreaks, dst, chunked, fetch, order2)
  {
    var r1 := RunChunks(files, unwritable, dst, chunked, fetch, order1);
    var r2 := RunChunks(files, unwritable, dst, chunked, fetch, order2);
    RunArranged(files, unwritable, dst, chunked, fetch, order1);
    RunArranged(files, unwritable, dst, chunked, fetch, order2);
    SameRunFiles(files, r1.files, r2.files, dst, chunked, fetch);
    RunAndMergeIsPlanMerge(files, unwritable, unremovable, copyBreaks, dst, chunked, fetch, order1);
    RunAndMergeIsPlanMerge(files, unwritable, unremovable, copyBreaks, dst, chunked, fetch, order2);
  }

  /** Two runs in which every unit succeeded leave the same file system. */
  lemma SameRunFiles(files: FileMap, m1: FileMap, m2: FileMap, dst: string,
                     chunked: seq<IndexChunk>, fetch: IndexChunk -> FetchOutcome)
    requires forall pos :: 0 <= pos < |chunked| ==> Scratch(dst, pos) in m1 && Scratch(dst, pos) in m2
    requires forall pos :: 0 <= pos < |chunked| ==> m1[Scratch(dst, pos)] == AfterFetch(files, dst, chunked, fetch, pos)
    requires forall pos :: 0 <= pos < |chunked| ==> m2[Scratch(dst, pos)] == AfterFetch(files, dst, chunked, fetch, pos)
    requires forall q :: q !in Paths(Canonical(dst, |chunked|)) ==> Unchanged(files, m1, q) && Unchanged(files, m2, q)
    ensures m1 == m2
  {
    forall q
      ensures (q in m1 <==> q in m2) && (q in m1 ==> m1[q] == m2[q])
    {
      if q in Paths(Canonical(dst, |chunked|)) {
        var pos :| 0 <= pos < |chunked| && Paths(Canonical(dst, |chunked|))[pos] == q;
        assert q == Scratch(dst, pos);
      }
    }
  }

  /** For `downloadConcurrency`: when every chunk downloads, the goroutines' completion order does not matter. */
  lemma ConcurrentOrderIndependent(files: FileMap, unwritable: set<string>, unremovable: set<string>, copyBreaks: map<string, nat>, dst: string,
                                   size: Int64, procs: Int64, fetch: IndexChunk -> FetchOutcome,
                                   order1: seq<nat>, order2: seq<nat>)
    requires ConcurrentReady(size, procs, order1) && ConcurrentReady(size, procs, order2)
    requires AllSucceed(unwritable, dst, Plan(size, procs), fetch)
    ensures ConcurrentOutcome(files, unwritable, unremovable, copyBreaks, dst, size, procs, fetch, order1)
         == ConcurrentOutcome(files, unwritable, unremovable, copyBreaks, dst, size, procs, fetch, order2)
  {
    RunAndMergeOrderIndependent(files, unwritable, unremovable, copyBreaks, dst, Plan(size, procs), fetch, order1, order2);
  }

  /**
   * If any chunk fails (its scratch file cannot be opened or its transfer
   * breaks), the download returns the error of the first unit, in
   * completion order, that failed, and no file other than the
   * plan's scratch files changes; in particular `dst` is neither created
   * nor written. Scratch files already written stay behind.
   */
  lemma ConcurrentFailureSparesDst(files: FileMap, unwritable: set<string>, unremovable: set<string>, copyBreaks: map<string, nat>, dst: string,
                                   size: Int64, procs: Int64, fetch: IndexChunk -> FetchOutcome, order: seq<nat>, bad: nat)
    requires ConcurrentReady(size, procs, order)
    requires bad < |Plan(size, procs)| && !Succeeds(unwritable, dst, Plan(size, procs), fetch, bad)
    ensures var out := ConcurrentOutcome(files, unwritable, unremovable, copyBreaks, dst, size, procs, fetch, order);
      var first := FirstFailing(unwritable, dst, Plan(size, procs), fetch, order);
      && first < |order|
      && out.err == Some(FailureError(unwritable, dst, order[first]))
      && Unchanged(files, out.files, dst)
      && (forall q :: q !in Paths(Canonical(dst, |Plan(size, procs)|)) ==> Unchanged(files, out.files, q))
  {
    var p := Plan(size, procs);
    assert bad in order;
    var j :| 0 <= j < |order| && order[j] == bad;
    RunChunksReportsFailure(files, unwritable, dst, p, fetch, order, j);
    RunChunksOnlyScratch(files, unwritable, dst, p, fetch, order);
    CanonicalPathsDistinct(dst, |p|);
  }

  /**
   * A file of size 0 (or an absent, unparsable or negative Content-Length)
   * plans no chunk: no request is made and the merge only creates `dst`.
   */
  lemma ConcurrentEmptyPlan(files: FileMap, unwritable: set<string>, unremovable: set<string>, copyBreaks: map<string, nat>, dst: string,
                            size: Int64, procs: Int64, fetch: IndexChunk -> FetchOutcome, order: seq<nat>)
    requires ConcurrentReady(size, procs, order) && size <= 0
    ensures order == []
    ensures ConcurrentOutcome(files, unwritable, unremovable, copyBreaks, dst, size, procs, fetch, order)
         == if dst in unwritable then Outcome(files, Some(OpenFailed(dst))) else Outcome(Created(files, dst), None)
  {
    PlanEmptyIff(size, procs);
  }
}

/**
 * The two Range headers end to end: a server that honours RFC 7233
 * answers each chunk's ranged GET, and the merged `dst` is compared with
 * the body the server holds.
 */
module RangedReassembly {
  import opened Types
  import opened GoInt
  import opened Planner
  import opened Requests
  import opened Files
  import opened Downloader
  import opened Reassembly

  /** A server holding `body`, answering the Range header the source sends. */
  function AsWrittenServer(body: seq<byte>): IndexChunk -> FetchOutcome
  {
    c => Fetched(Serve(body, RangeHeader(c)))
  }

  /** The same server, asked with the inclusive header. */
  function InclusiveServer(body: seq<byte>): IndexChunk -> FetchOutcome
  {
    c => Fetched(Serve(body, InclusiveRangeHeader(c)))
  }

  /** `p` tiles [0, size): starts at 0, consecutive chunks touch, each is non-empty and inside the file. */
  predicate Tiles(p: seq<IndexChunk>, size: int)
  {
    && |p| >= 1
    && p[0].start == 0
    && p[|p| - 1].end == size
    && (forall k :: 0 <= k < |p| - 1 ==> p[k].end == p[k + 1].start)
    && (forall k :: 0 <= k < |p| ==> 0 <= p[k].start < p[k].end <= size)
  }

  lemma PlanTiles(size: Int64, procs: Int64)
    requires 1 <= procs <= size
    ensures Tiles(Plan(size, procs), size)
  {
    PlanCoversFile(size, procs);
  }

  /** A fresh scratch file, after an inclusive ranged GET, holds exactly its chunk of the body. */
  lemma InclusiveChunk(files: FileMap, dst: string, body: seq<byte>, p: seq<IndexChunk>, pos: nat)
    requires pos < |p| && 0 <= p[pos].start < p[pos].end <= |body| && Scratch(dst, pos) !in files
    ensures AfterFetch(files, dst, p, InclusiveServer(body), pos) == body[p[pos].start..p[pos].end]
  {
    InclusiveHeaderServesChunk(body, p[pos]);
  }

  /** With fresh scratch files and inclusive headers, the first `m` chunks give the body's first `p[m-1].end` bytes. */
  lemma {:induction false} InclusivePrefix(files: FileMap, dst: string, body: seq<byte>, p: seq<IndexChunk>, m: nat)
    requires Tiles(p, |body|) && 1 <= m <= |p|
    requires forall pos :: 0 <= pos < |p| ==> Scratch(dst, pos) !in files
    ensures PlanBytes(files, dst, p, InclusiveServer(body), m) == body[..p[m - 1].end]
  {
    InclusiveChunk(files, dst, body, p, m - 1);
    if m > 1 {
      InclusivePrefix(files, dst, body, p, m - 1);
      assert p[m - 2].end == p[m - 1].start;
      InclusivePrefixStep(files, dst, body, p, m);
    } else {
      assert body[..p[0].end] == body[p[0].start..p[0].end];
    }
  }

  /** The next chunk of the body starts where the previous ones ended. */
  lemma InclusivePrefixStep(files: FileMap, dst: string, body: seq<byte>, p: seq<IndexChunk>, m: nat)
    requires 1 < m <= |p| && p[m - 2].end == p[m - 1].start && 0 <= p[m - 1].start <= p[m - 1].end <= |body|
    requires PlanBytes(files, dst, p, InclusiveServer(body), m - 1) == body[..p[m - 2].end]
    requires AfterFetch(files, dst, p, InclusiveServer(body), m - 1) == body[p[m - 1].start..p[m - 1].end]
    ensures PlanBytes(files, dst, p, InclusiveServer(body), m) == body[..p[m - 1].end]
  {
    assert PlanBytes(files, dst, p, InclusiveServer(body), m)
      == PlanBytes(files, dst, p, InclusiveServer(body), m - 1) + AfterFetch(files, dst, p, InclusiveServer(body), m - 1);
    PrefixThenSlice(body, p[m - 1].start, p[m - 1].end);
  }

  lemma PrefixThenSlice<T>(s: seq<T>, a: int, b: int)
    requires 0 <= a <= b <= |s|
    ensures s[..a] + s[a..b] == s[..b]
  {
  }

  /** With the source's header, every chunk but the last brings one byte past its end. */
  lemma {:induction false} AsWrittenLength(files: FileMap, dst: string, body: seq<byte>, p: seq<IndexChunk>, m: nat)
    requires Tiles(p, |body|) && 1 <= m <= |p|
    requires forall pos :: 0 <= pos < |p| ==> Scratch(dst, pos) !in files
    ensures |PlanBytes(files, dst, p, AsWrittenServer(body), m)|
         == if m < |p| then p[m - 1].end + m else |body| + m - 1
  {
    var c := p[m - 1];
    AsWrittenHeaderServesOneByteMore(body, c);
    if m < |p| {
      assert c.end == p[m].start < p[m].end <= |body|;
    }
    if m > 1 {
      AsWrittenLength(files, dst, body, p, m - 1);
    }
  }

  /** A server that always answers makes every unit with an openable scratch file succeed. */
  lemma AnswersEveryChunk(unwritable: set<string>, dst: string, p: seq<IndexChunk>, fetch: IndexChunk -> FetchOutcome)
    requires forall c :: fetch(c).Fetched?
    requires forall pos :: 0 <= pos < |p| ==> Scratch(dst, pos) !in unwritable
    ensures AllSucceed(unwritable, dst, p, fetch)
  {
  }

  /** Over fresh scratch files, inclusive headers gather exactly the body. */
  lemma PlanBodyInclusive(files: FileMap, dst: string, body: seq<byte>, procs: Int64)
    requires |body| <= MaxInt64 && 1 <= procs && (|body| == 0 || |body| >= procs)
    requires forall pos :: 0 <= pos < |Plan(|body|, procs)| ==> Scratch(dst, pos) !in files
    ensures PlanBytes(files, dst, Plan(|body|, procs), InclusiveServer(body), |Plan(|body|, procs)|) == body
  {
    var p := Plan(|body|, procs);
    if |body| == 0 {
      PlanEmptyIff(|body|, procs);
    } else {
      PlanTiles(|body|, procs);
      InclusivePrefix(files, dst, body, p, |p|);
    }
  }

  /** With inclusive Range headers the merged file is exactly the body the server holds. */
  lemma InclusiveRangesReassembleBody(files: FileMap, unwritable: set<string>, unremovable: set<string>, copyBreaks: map<string, nat>, dst: string,
                                      body: seq<byte>, procs: Int64, order: seq<nat>)
    requires |body| <= MaxInt64 && ConcurrentReady(|body|, procs, order)
    requires dst !in unwritable && dst !in files
    requires forall pos :: 0 <= pos < |Plan(|body|, procs)| ==> Scratch(dst, pos) !in unwritable && Scratch(dst, pos) !in files
    requires NoScratchBreaks(copyBreaks, dst, |Plan(|body|, procs)|)
    ensures var out := ConcurrentOutcome(files, unwritable, unremovable, copyBreaks, dst, |body|, procs, InclusiveServer(body), order);
      out.err == None && dst in out.files && out.files[dst] == body
  {
    var p := Plan(|body|, procs);
    AnswersEveryChunk(unwritable, dst, p, InclusiveServer(body));
    ConcurrentAllSucceed(files, unwritable, unremovable, copyBreaks, dst, |body|, procs, InclusiveServer(body), order);
    PlanBodyInclusive(files, dst, body, procs);
  }

  /**
   * With the source's Range header the merged file is longer than the body
   * by one byte per chunk boundary: every boundary byte appears twice.
   */
  lemma AsWrittenRangesDuplicateBoundaries(files: FileMap, unwritable: set<string>, unremovable: set<string>, copyBreaks: map<string, nat>, dst: string,
                                           body: seq<byte>, procs: Int64, order: seq<nat>)
    requires |body| <= MaxInt64 && ConcurrentReady(|body|, procs, order)
    requires dst !in unwritable && dst !in files
    requires forall pos :: 0 <= pos < |Plan(|body|, procs)| ==> Scratch(dst, pos) !in unwritable && Scratch(dst, pos) !in files
    requires NoScratchBreaks(copyBreaks, dst, |Plan(|body|, procs)|)
    ensures var out := ConcurrentOutcome(files, unwritable, unremovable, copyBreaks, dst, |body|, procs, AsWrittenServer(body), order);
      var n := |Plan(|body|, procs)|;
      && out.err == None && dst in out.files
      && (n > 0 ==> |out.files[dst]| == |body| + n - 1)
      && (n > 1 ==> out.files[dst] != body)
  {
    var p := Plan(|body|, procs);
    AnswersEveryChunk(unwritable, dst, p, AsWrittenServer(body));
    ConcurrentAllSucceed(files, unwritable, unremovable, copyBreaks, dst, |body|, procs, AsWrittenServer(body), order);
    if |body| > 0 {
      PlanTiles(|body|, procs);
      AsWrittenLength(files, dst, body, p, |p|);
    }
  }
}
