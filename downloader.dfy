/**
 * `DownloadFile` and the concurrent path behind it, with the network and the
 * goroutines taken out: the response to a chunk's ranged GET is the
 * parameter `fetch`, and the order in which the chunk goroutines run is the
 * parameter `order`, an arrangement of the plan's positions.
 */
module Downloader {
  import opened Types
  import opened GoInt
  import opened Strconv
  import opened Planner
  import opened Requests
  import opened Files
  import opened Merge

  const AcceptRangesHeaderKey: string := "Accept-Ranges"
  const AcceptRangeBytes: string := "bytes"
  const ContentLengthHeaderKey: string := "Content-Length"

  /** Response headers, each name with its values (names already in canonical form). */
  type Header = map<string, seq<string>>

  /**
   * What copying a response body into a file yields: the whole body, or a
   * transport failure after `partial` bytes were written (none when the
   * request itself failed).
   */
  datatype FetchOutcome = Fetched(body: seq<byte>) | FetchFailed(partial: seq<byte>)

  /** The response of the initial `http.Get`. */
  datatype Response = Response(header: Header, body: FetchOutcome)

  datatype Strategy = Concurrent | Single

  /** `res.Header.Get(key)`: the first value, or "" when the header is absent. */
  function HeaderGet(h: Header, key: string): (v: string)
    ensures key !in h ==> v == ""
  {
    if key in h && |h[key]| > 0 then h[key][0] else ""
  }

  /** The `switch` in `DownloadFile`: ranged, concurrent download only for exactly "bytes". */
  function SelectStrategy(acceptRange: string): (s: Strategy)
    ensures s == Concurrent <==> acceptRange == AcceptRangeBytes
  {
    if acceptRange == AcceptRangeBytes then Concurrent else Single
  }

  /** The file size as both download paths read it; the parse error is ignored. */
  function ContentLength(h: Header): Int64
  {
    ParseInt(HeaderGet(h, ContentLengthHeaderKey)).value
  }

  /** `order` names every position 0 .. n - 1 exactly once. */
  predicate IsArrangement(order: seq<nat>, n: nat)
  {
    && |order| == n
    && (forall k :: 0 <= k < |order| ==> order[k] < n)
    && (forall i, j :: 0 <= i < j < |order| ==> order[i] != order[j])
    && (forall p :: 0 <= p < n ==> p in order)
  }

  /** `downloadChunk` for the chunk with 1-based `index`: create or extend its scratch file with the response body. */
  function FetchChunk(files: FileMap, unwritable: set<string>, dst: string,
                      chunk: IndexChunk, index: int, fetch: IndexChunk -> FetchOutcome): Outcome
  {
    var path := ScratchPath(dst, index);
    if path in unwritable then Outcome(files, Some(OpenFailed(path)))
    else match fetch(chunk)
      case Fetched(b) => Outcome(Appended(files, path, b), None)
      case FetchFailed(p) => Outcome(Appended(files, path, p), Some(TransportFailed(index)))
  }

  /** The state the chunk goroutines share: the file system, the collected `filePaths`, the first error. */
  datatype Collection = Collection(files: FileMap, filePaths: seq<FileForSort>, err: Option<Error>)

  /**
   * The goroutine of plan position `pos`: once an error has cancelled the
   * context it returns at once; otherwise it downloads the chunk with index
   * `pos + 1` and, on success, appends its `fileForSort` to `filePaths`.
   */
  function RunChunk(st: Collection, unwritable: set<string>, dst: string,
                    chunked: seq<IndexChunk>, fetch: IndexChunk -> FetchOutcome, pos: nat): (r: Collection)
    requires pos < |chunked|
    ensures st.err.Some? ==> r == st
    ensures st.err.None? ==> (r.err.None? <==> ScratchPath(dst, pos + 1) !in unwritable && fetch(chunked[pos]).Fetched?)
    ensures r.err.None? ==> r.filePaths == st.filePaths + [FileForSort(pos + 1, ScratchPath(dst, pos + 1))]
    ensures r.err.Some? ==> r.filePaths == st.filePaths
  {
    if st.err.Some? then st
    else
      var index := pos + 1;
      var o := FetchChunk(st.files, unwritable, dst, chunked[pos], index, fetch);
      Collection(o.files,
                 if o.err.None? then st.filePaths + [FileForSort(index, ScratchPath(dst, index))] else st.filePaths,
                 o.err)
  }

  /** The goroutines run one after another in `order`. */
  function RunChunks(files: FileMap, unwritable: set<string>, dst: string,
                     chunked: seq<IndexChunk>, fetch: IndexChunk -> FetchOutcome, order: seq<nat>): (r: Collection)
    requires forall k :: 0 <= k < |order| ==> order[k] < |chunked|
    ensures |r.filePaths| <= |order| && (r.err.None? ==> |r.filePaths| == |order|)
    decreases |order|
  {
    if order == [] then Collection(files, [], None)
    else
      var last := |order| - 1;
      RunChunk(RunChunks(files, unwritable, dst, chunked, fetch, order[..last]), unwritable, dst, chunked, fetch, order[last])
  }

  /** What the concurrent path needs: a terminating plan and an arrangement of its positions. */
  predicate ConcurrentReady(size: Int64, procs: Int64, order: seq<nat>)
  {
    1 <= procs && (size <= 0 || size >= procs) && IsArrangement(order, |Plan(size, procs)|)
  }

  /** `downloadConcurrency` once the size is known: plan, run the chunks, and if none failed, sort and merge. */
  function ConcurrentOutcome(files: FileMap, unwritable: set<string>, unremovable: set<string>, copyBreaks: map<string, nat>, dst: string,
                             size: Int64, procs: Int64, fetch: IndexChunk -> FetchOutcome, order: seq<nat>): Outcome
    requires ConcurrentReady(size, procs, order)
  {
    RunAndMerge(files, unwritable, unremovable, copyBreaks, dst, Plan(size, procs), fetch, order)
  }

  /** Run the chunks of `chunked` in `order`; if none failed, sort the results and merge. */
  function RunAndMerge(files: FileMap, unwritable: set<string>, unremovable: set<string>, copyBreaks: map<string, nat>, dst: string,
                       chunked: seq<IndexChunk>, fetch: IndexChunk -> FetchOutcome, order: seq<nat>): Outcome
    requires forall k :: 0 <= k < |order| ==> order[k] < |chunked|
  {
    var run := RunChunks(files, unwritable, dst, chunked, fetch, order);
    if run.err.Some? then Outcome(run.files, run.err)
    else MergeOutcome(run.files, unwritable, unremovable, copyBreaks, dst, SortByIndex(run.filePaths))
  }

  /** `downloadSingle`: append the initial response's body to `dst`. */
  function SingleOutcome(files: FileMap, unwritable: set<string>, dst: string, body: FetchOutcome): Outcome
  {
    if dst in unwritable then Outcome(files, Some(OpenFailed(dst)))
    else match body
      case Fetched(b) => Outcome(Appended(files, dst, b), None)
      case FetchFailed(p) => Outcome(Appended(files, dst, p), Some(TransportFailed(0)))
  }

  /** What `DownloadFile` needs of its inputs: the concurrent path, when taken, must be ready. */
  predicate DownloadReady(res: Option<Response>, procs: Int64, order: seq<nat>)
  {
    && 1 <= procs
    && (res.Some? && SelectStrategy(HeaderGet(res.value.header, AcceptRangesHeaderKey)) == Concurrent
        ==> ConcurrentReady(ContentLength(res.value.header), procs, order))
  }

  /** `DownloadFile`: no response is an error; otherwise Accept-Ranges picks the path. */
  function DownloadOutcome(files: FileMap, unwritable: set<string>, unremovable: set<string>, copyBreaks: map<string, nat>,
                           res: Option<Response>, dst: string, procs: Int64,
                           fetch: IndexChunk -> FetchOutcome, order: seq<nat>): Outcome
    requires DownloadReady(res, procs, order)
  {
    match res
    case None => Outcome(files, Some(GetFailed))
    case Some(r) =>
      if SelectStrategy(HeaderGet(r.header, AcceptRangesHeaderKey)) == Concurrent
      then ConcurrentOutcome(files, unwritable, unremovable, copyBreaks, dst, ContentLength(r.header), procs, fetch, order)
      else SingleOutcome(files, unwritable, dst, r.body)
  }

  /**
   * `downloadChunk`: open the scratch file `dst_<index>` for appending, send
   * the GET whose Range header is `RangeHeader(chunk)` (its response is
   * `fetch(chunk)`), and copy the body into the file.
   */
  method DownloadChunk(fs: FileSystem, dst: string, chunk: IndexChunk, index: int,
                       fetch: IndexChunk -> FetchOutcome) returns (filePath: string, err: Option<Error>)
    modifies fs
    ensures filePath == ScratchPath(dst, index)
    ensures Outcome(fs.files, err) == FetchChunk(old(fs.files), fs.unwritable, dst, chunk, index, fetch)
  {
    filePath := ScratchPath(dst, index);
    var ok := fs.OpenAppend(filePath);
    if !ok {
      return filePath, Some(OpenFailed(filePath));
    }
    match fetch(chunk) {
      case Fetched(b) =>
        fs.Write(filePath, b);
        err := None;
      case FetchFailed(p) =>
        fs.Write(filePath, p);
        err := Some(TransportFailed(index));
    }
  }

  /**
   * `downloadConcurrency`: the chunk goroutines are run in `order`; each
   * first checks whether the group's context was cancelled by an earlier
   * error. `eg.Wait()` reports the first error; otherwise the collected
   * results are sorted by index and merged.
   */
  method DownloadConcurrency(fs: FileSystem, dst: string, header: Header, procs: Int64,
                             fetch: IndexChunk -> FetchOutcome, order: seq<nat>) returns (err: Option<Error>)
    requires ConcurrentReady(ContentLength(header), procs, order)
    modifies fs
    ensures Outcome(fs.files, err) ==
      ConcurrentOutcome(old(fs.files), fs.unwritable, fs.unremovable, fs.copyBreaks, dst, ContentLength(header), procs, fetch, order)
  {
    var size := ParseInt(HeaderGet(header, ContentLengthHeaderKey)).value;
    var chunked := ChunkFileSize(size, procs);
    var filePaths: seq<FileForSort> := [];
    var failure: Option<Error> := None;
    for k := 0 to |order|
      invariant Collection(fs.files, filePaths, failure) ==
        RunChunks(old(fs.files), fs.unwritable, dst, chunked, fetch, order[..k])
    {
      ghost var before := Collection(fs.files, filePaths, failure);
      RunChunksSnoc(old(fs.files), fs.unwritable, dst, chunked, fetch, order, k);
      if failure.None? {
        var index := order[k] + 1;
        var filePath, e := DownloadChunk(fs, dst, chunked[order[k]], index, fetch);
        RunChunkOf(before, fs.unwritable, dst, chunked, fetch, order[k], Outcome(fs.files, e));
        if e.Some? {
          failure := e;
        } else {
          filePaths := filePaths + [FileForSort(index, filePath)];
        }
      }
    }
    assert order[..|order|] == order;
    if failure.Some? {
      return failure;
    }
    var sorted := SortByIndex(filePaths);
    CollectedAreScratchPaths(old(fs.files), fs.unwritable, dst, chunked, fetch, order);
    SortedAvoidsDst(dst, filePaths);
    err := MergeChunkedFile(fs, dst, sorted);
  }

  /** A unit started before any error: the result of its `downloadChunk` decides the new collection. */
  lemma RunChunkOf(st: Collection, unwritable: set<string>, dst: string,
                   chunked: seq<IndexChunk>, fetch: IndexChunk -> FetchOutcome, pos: nat, o: Outcome)
    requires pos < |chunked| && st.err.None?
    requires o == FetchChunk(st.files, unwritable, dst, chunked[pos], pos + 1, fetch)
    ensures RunChunk(st, unwritable, dst, chunked, fetch, pos)
         == Collection(o.files, if o.err.None? then st.filePaths + [FileForSort(pos + 1, ScratchPath(dst, pos + 1))] else st.filePaths, o.err)
  {
  }

  /** The run of the first `k + 1` units is the run of the first `k` followed by unit `k`. */
  lemma RunChunksSnoc(files: FileMap, unwritable: set<string>, dst: string,
                      chunked: seq<IndexChunk>, fetch: IndexChunk -> FetchOutcome, order: seq<nat>, k: nat)
    requires forall j :: 0 <= j < |order| ==> order[j] < |chunked|
    requires k < |order|
    ensures RunChunks(files, unwritable, dst, chunked, fetch, order[..k + 1])
         == RunChunk(RunChunks(files, unwritable, dst, chunked, fetch, order[..k]), unwritable, dst, chunked, fetch, order[k])
  {
    assert order[..k + 1][..k] == order[..k];
  }

  /** No scratch path is `dst`, so neither is any entry of the sorted list. */
  lemma SortedAvoidsDst(dst: string, fp: seq<FileForSort>)
    requires NamesOwnScratch(dst, fp)
    ensures forall k :: 0 <= k < |fp| ==> SortByIndex(fp)[k].filePath != dst
  {
    var sorted := SortByIndex(fp);
    forall k | 0 <= k < |sorted|
      ensures sorted[k].filePath != dst
    {
      assert sorted[k] in multiset(fp);
      var j :| 0 <= j < |fp| && fp[j] == sorted[k];
      ScratchPathsDistinct(dst, fp[j].index, fp[j].index);
    }
  }

  /** Every entry names the scratch file of its own index. */
  predicate NamesOwnScratch(dst: string, fp: seq<FileForSort>)
  {
    forall k :: 0 <= k < |fp| ==> fp[k].filePath == ScratchPath(dst, fp[k].index)
  }

  /** Every collected result names the scratch file of its own index. */
  lemma {:induction false} CollectedAreScratchPaths(files: FileMap, unwritable: set<string>, dst: string,
                                                    chunked: seq<IndexChunk>, fetch: IndexChunk -> FetchOutcome, order: seq<nat>)
    requires forall k :: 0 <= k < |order| ==> order[k] < |chunked|
    ensures NamesOwnScratch(dst, RunChunks(files, unwritable, dst, chunked, fetch, order).filePaths)
    decreases |order|
  {
    if order != [] {
      var last := |order| - 1;
      CollectedAreScratchPaths(files, unwritable, dst, chunked, fetch, order[..last]);
      var prev := RunChunks(files, unwritable, dst, chunked, fetch, order[..last]).filePaths;
      var index := order[last] + 1;
      var fp := RunChunks(files, unwritable, dst, chunked, fetch, order).filePaths;
      var entry := FileForSort(index, ScratchPath(dst, index));
      assert fp == prev || fp == prev + [entry];
    }
  }

  /** `downloadSingle`: open `dst` for appending and copy the response body into it. */
  method DownloadSingle(fs: FileSystem, dst: string, res: Response) returns (err: Option<Error>)
    modifies fs
    ensures Outcome(fs.files, err) == SingleOutcome(old(fs.files), fs.unwritable, dst, res.body)
  {
    var ok := fs.OpenAppend(dst);
    if !ok {
      return Some(OpenFailed(dst));
    }
    match res.body {
      case Fetched(b) =>
        fs.Write(dst, b);
        err := None;
      case FetchFailed(p) =>
        fs.Write(dst, p);
        err := Some(TransportFailed(0));
    }
  }

  /**
   * `DownloadFile`. `res` is the result of the initial `http.Get` (None
   * when it failed) and `procs` stands for `runtime.NumCPU()`.
   */
  method DownloadFile(fs: FileSystem, res: Option<Response>, dst: string, procs: Int64,
                      fetch: IndexChunk -> FetchOutcome, order: seq<nat>) returns (err: Option<Error>)
    requires DownloadReady(res, procs, order)
    modifies fs
    ensures Outcome(fs.files, err) ==
      DownloadOutcome(old(fs.files), fs.unwritable, fs.unremovable, fs.copyBreaks, res, dst, procs, fetch, order)
  {
    if res.None? {
      return Some(GetFailed);
    }
    var r := res.value;
    var acceptRange := HeaderGet(r.header, AcceptRangesHeaderKey);
    match SelectStrategy(acceptRange) {
      case Concurrent =>
        err := DownloadConcurrency(fs, dst, r.header, procs, fetch, order);
      case Single =>
        err := DownloadSingle(fs, dst, r);
    }
  }
}
