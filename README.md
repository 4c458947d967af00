# gownloder's chunked download engine, in Dafny

This project models the download engine in `src/downloder/downloader.go` and proves properties of that model. It covers four parts:

- **Choosing a path.** `DownloadFile` issues one GET. If the response says `Accept-Ranges: bytes`, it takes the concurrent path. Otherwise it streams the body into the destination `dst`.
- **Planning chunks.** The concurrent path reads `Content-Length` and hands it to `chunkFileSize`, which splits `[0, size)` into ranges of `size / procs` bytes. The last range is clamped to `size`.
- **Downloading chunks.** Each range gets the 1-based index `position + 1`. A goroutine downloads it with the header `Range: bytes=<start>-<end>` into the scratch file `dst_<index>`.
- **Reassembly.** The finished chunks arrive in completion order. They are sorted by index with `sort.SliceStable`. `mergeChunkedFile` then appends each scratch file to `dst`, which is opened in append mode, and removes the scratch file.

How the parts are modelled:

- **Files.** The file system is a `map<string, seq<byte>>` inside the class `Files.FileSystem`. Its constants say where the operating system fails: `unwritable` is where `os.OpenFile` fails, `unremovable` is where `os.Remove` fails, and `copyBreaks` maps a file to the number of bytes after which an `io.Copy` out of it breaks. The class's methods `OpenAppend`, `Write`, `Open`, `CopyInto` and `Remove` are the calls the source makes.
- **Imperative operations.** `Merge.MergeChunkedFile`, `Downloader.DownloadChunk`, `Downloader.DownloadConcurrency`, `Downloader.DownloadSingle` and `Downloader.DownloadFile` are methods that change a `FileSystem`. `Planner.ChunkFileSize` is a method with a loop that takes no file system. Each method is proved equal to a reference function:
  - `Planner.Plan`;
  - `Merge.MergeOutcome`;
  - `Downloader.FetchChunk`;
  - `Downloader.ConcurrentOutcome`;
  - `Downloader.SingleOutcome`;
  - `Downloader.DownloadOutcome`.
- **Completion order.** The goroutines are linearised. The parameter `order` says in which order the plan positions run. Every theorem about the concurrent path holds for every arrangement `order` of the positions.
- **Network and CPU count.** The network is the parameter `fetch`, the response to a chunk's ranged GET. `runtime.NumCPU()` is the parameter `procs`.
- **`strconv`.** `strconv.Itoa`, `%d` and `strconv.ParseInt(s, 10, 64)` are modelled in `Strconv`. Go's `int64` and its truncating division are modelled in `GoInt`.

Two theorems carry the main results:

- `Reassembly.ConcurrentAllSucceed` is the reassembly theorem. Whatever order the chunks complete in, `dst` ends as its old content followed by the scratch contents in plan order.
- `RangedReassembly` compares the two Range headers end to end against a server that follows RFC 7233, section 2.1 (byte ranges).

Facts about the code that the model keeps:

- **Zero split.** For `0 < size < procs` the code computes a split of 0, and its loop never ends (`Planner.ZeroSplitNeverAdvances`). `Planner.Plan` and `Planner.ChunkFileSize` require that this case does not occur.
- **Failed chunks.** When a chunk fails, `eg.Wait` returns the first error. The scratch files written so far stay on disk, because nothing deletes them. `dst` is not touched (`Reassembly.ConcurrentFailureSparesDst`).
- **Chunk count.** The number of chunks can exceed the concurrency by more than one. Five bytes at concurrency 3 give five chunks (`Planner.PlanFiveBytesThreeWays`). The bound that holds is `Planner.PlanCountAgainstConcurrency`.
- **No status check.** A chunk's response is copied whatever its HTTP status.
- **One-based names.** The scratch file of plan position `p` is `dst_<p + 1>`.
- **Merge errors are dropped.** Inside `mergeChunkedFile`, the error of each per-file closure is discarded. A scratch file that cannot be opened is skipped. A copy that breaks leaves its first bytes in `dst` and its scratch file on disk. A file that cannot be removed stays. In each case the merge still returns nil (`Merge.MergeBreakGoesUnreported`, `Reassembly.ConcurrentMergeBreakGoesUnreported`).

## Model

| member | source | states |
|---|---|---|
| Planner.ChunkFileSize | src/downloder/downloader.go:208-228 | the loop returns exactly the reference plan `Plan(size, chunkSize)`, for a non-positive size as well (no chunks) |
| Planner.PlanFromShape | src/downloder/downloader.go:215-224 | from offset `i` the chunks start at `i`, touch end to start, end at `size`, are non-empty and at most `split` long, and all but the last are exactly `split` long |
| Planner.PlanFromWithin | src/downloder/downloader.go:215-222 | every chunk from offset `i` on lies inside `[i, size)` and is non-empty |
| Planner.PlanFromCount | src/downloder/downloader.go:212-225 | the number of chunks `n` satisfies `(n - 1) * split < size - i <= n * split`, so it is the ceiling of `(size - i) / split` |
| Planner.PlanEmptyIff | src/downloder/downloader.go:212-215 | the plan is empty if and only if the size is not positive; an unparsed Content-Length of 0 gives no chunks |
| Planner.PlanCoversFile | src/downloder/downloader.go:212-224 | for `1 <= chunkSize <= size`: the chunks tile `[0, size)` contiguously; each is `size / chunkSize` bytes except possibly a shorter last one; their count is the ceiling of `size / split` |
| Planner.PlanCountAgainstConcurrency | src/downloder/downloader.go:212-225 | there are at least `chunkSize` chunks, and at most `chunkSize + 1` when `size / chunkSize >= chunkSize - 1` |
| Planner.PlanTenBytesThreeWays | src/downloder/downloader.go:212-224 | 10 bytes in 3 ways give `[0,3) [3,6) [6,9) [9,10)` |
| Planner.PlanMillionBytesFourWays | src/downloder/downloader.go:212-224 | 1,000,000 bytes in 4 ways give four chunks of 250,000 bytes |
| Planner.PlanFiveBytesThreeWays | src/downloder/downloader.go:212-224 | 5 bytes in 3 ways give five chunks, two more than the concurrency |
| Planner.ZeroSplitNeverAdvances | src/downloder/downloader.go:212-215 | for `0 < size < chunkSize` the split is 0 and the loop step leaves `i` where it was, so the loop never ends |
| Planner.SourceLoopStep | src/downloder/downloader.go:215-224 | one iteration of the source loop in wrapping int64: the chunk starts at `i` and ends at most at `size`; the next `i` is `i + splitSize` without overflow, and negative with it |
| Planner.SourceLoopAgreesWithPlan | src/downloder/downloader.go:215-224 | wherever `i += splitSize` cannot overflow, the source loop yields exactly `Plan` |
| Planner.SourceLoopOverflows | src/downloder/downloader.go:215-222 | with Go's wrapping int64 arithmetic and a size of 2^63 - 1 on two processors, the third chunk's end is negative and `i` wraps below `size`, so the loop goes on |
| GoInt.Quo | src/downloder/downloader.go:212 | truncating division: quotient and remainder bounds for either sign of the dividend |
| Strconv.ItoaInjective | src/downloder/downloader.go:180 | `Itoa` prints two numbers alike if and only if they are equal |
| Strconv.ParseIntItoa | src/downloder/downloader.go:119 | `ParseInt` reads back every int64 that `Itoa` prints, without error |
| Strconv.ParseInt | src/downloder/downloader.go:90 | a syntax error comes with the value 0, and the empty string (an absent header) is a syntax error |
| Requests.ScratchPathsDistinct | src/downloder/downloader.go:129-180 | scratch paths `dst_<i>` and `dst_<j>` are equal if and only if `i == j`, and none is `dst` |
| Requests.ScratchPath | src/downloder/downloader.go:180 | the scratch path is `dst` followed by `_` and the decimal index, so it is longer than `dst` |
| Requests.ScratchPathNamesIndex | src/downloder/downloader.go:180 | the part of the scratch path after `dst_` parses back to the index |
| Requests.RangeHeader | src/downloder/downloader.go:189 | for non-negative bounds, a server reading `bytes=%d-%d` gets back the planned `start` and `end` unchanged |
| Requests.AsWrittenHeaderServesOneByteMore | src/downloder/downloader.go:189 | for the header as written, an RFC 7233 server sends `body[start..end + 1]`, one byte past the chunk, unless the chunk ends the file |
| Requests.InclusiveHeaderServesChunk | src/downloder/downloader.go:189 | for `bytes=start-(end-1)` the server sends exactly `body[start..end]` |
| Merge.SortByIndex | src/downloder/downloader.go:162-164 | the sorted list is a permutation of its input and is ordered by index |
| Merge.SortRestoresOrder | src/downloder/downloader.go:162-164 | sorting any arrangement of a list whose indices strictly increase gives that list back |
| Merge.SortedPermutationUnique | src/downloder/downloader.go:162-164 | a strictly index-ordered list is the only index-sorted list with its elements |
| Merge.MergeOne | src/downloder/downloader.go:242-259 | one turn of the loop: `dst` gains what the copy reads out of the file; the file is removed unless its copy breaks or it cannot be removed, and then it keeps its content; a missing file changes nothing; no other file changes |
| Merge.MergeAllEffect | src/downloder/downloader.go:241-260 | after the loop, `dst` holds its old content followed by what was copied out of the listed files, in list order; each listed file is gone unless its copy broke or it cannot be removed, in which case it keeps its content; no other file changes |
| Merge.GatherUnbroken | src/downloder/downloader.go:249 | when no listed file breaks, the merge copies every listed file whole |
| Merge.MergeBreakGoesUnreported | src/downloder/downloader.go:241-262 | when one listed copy breaks before its end, the merge still returns no error, `dst` ends shorter than its old content followed by the listed files, and the broken file stays |
| Merge.MergeChunkedFile | src/downloder/downloader.go:231-263 | the error is returned if and only if `dst` cannot be opened, and the new file system is `MergeOutcome` of the old one, including the partial copies of files whose copy breaks |
| Files.Copied | src/downloder/downloader.go:249 | the bytes an `io.Copy` reads are a prefix of the file: all of it when the file does not break, else the first `copyBreaks[path]` bytes |
| Files.FileSystem.OpenAppend | src/downloder/downloader.go:235 | the open succeeds exactly when the path is writable, and then the file exists, with its old content if it had one |
| Files.FileSystem.Write | src/downloder/downloader.go:199 | the written bytes go after what the file holds, and nothing else changes |
| Files.FileSystem.Open | src/downloder/downloader.go:243 | opening for reading succeeds exactly when the file exists, and changes nothing |
| Files.FileSystem.CopyInto | src/downloder/downloader.go:249 | `dst` gains the bytes read before any break; the copy fails exactly when the source breaks |
| Files.FileSystem.Remove | src/downloder/downloader.go:254 | the removal succeeds exactly when the file exists and is removable, and then only that file is gone |
| Downloader.SelectStrategy | src/downloder/downloader.go:65-75 | the concurrent path is taken if and only if the Accept-Ranges value is exactly "bytes" |
| Downloader.HeaderGet | src/downloder/downloader.go:65 | an absent header reads as "" |
| Downloader.DownloadChunk | src/downloder/downloader.go:174-205 | the returned path is `dst_<index>`, and the new file system and error are `FetchChunk` of the old file system |
| Downloader.DownloadConcurrency | src/downloder/downloader.go:111-171 | the files and error left behind are `ConcurrentOutcome` for the parsed Content-Length and the given completion order |
| Downloader.DownloadSingle | src/downloder/downloader.go:84-108 | the files and error left behind are `SingleOutcome`: the body appended to `dst`, or the failure to open it |
| Downloader.DownloadFile | src/downloder/downloader.go:52-81 | the files and error left behind are `DownloadOutcome` of the initial response |
| Downloader.CollectedAreScratchPaths | src/downloder/downloader.go:129-151 | every collected `fileForSort` names the scratch file of its own index |
| Reassembly.RunChunksAllSucceed | src/downloder/downloader.go:128-156 | while every unit succeeds, each one is collected in completion order and extends only its own scratch file |
| Downloader.RunChunk | src/downloder/downloader.go:132-155 | a unit after an error leaves the state alone; otherwise it succeeds exactly when its scratch file opens and its chunk downloads, and only then appends its `fileForSort` |
| Downloader.RunChunks | src/downloder/downloader.go:128-158 | at most one result per unit is collected, and exactly one per unit when no error occurs |
| Reassembly.RunChunksNoError | src/downloder/downloader.go:132-158 | while every unit succeeds, the run records no error |
| Reassembly.FirstFailing | src/downloder/downloader.go:158 | the first place in completion order whose unit fails: every earlier unit succeeds and the unit there fails |
| Reassembly.RunChunksReportsFailure | src/downloder/downloader.go:132-158 | if any unit fails, the run ends with the error of the first failing unit in completion order: the failure to open its scratch file, or else its transfer failure |
| Reassembly.RunChunksOnlyScratch | src/downloder/downloader.go:128-156 | the chunk goroutines change no file but the plan's scratch files |
| Reassembly.CollectedSortsToPlanOrder | src/downloder/downloader.go:148-164 | whatever the completion order, sorting the collected results gives the results in plan order |
| Reassembly.RunAndMergeAllSucceed | src/downloder/downloader.go:128-170 | for any chunk list and completion order: when every unit succeeds, `dst` opens and no scratch copy breaks, there is no error; `dst` is its old content followed by the scratch contents in plan order; a scratch file remains exactly when it cannot be removed; nothing else changes |
| Reassembly.ConcurrentAllSucceed | src/downloder/downloader.go:111-171 | the same for the plan of `size` bytes in `procs` ways |
| Reassembly.ConcurrentMergeBreakGoesUnreported | src/downloder/downloader.go:158-170 | when every chunk downloads but the merge's copy of one scratch file breaks, `downloadConcurrency` returns no error, `dst` is shorter than its old content followed by the plan's bytes, and that scratch file stays |
| Reassembly.RunAndMergeDstUnwritable | src/downloder/downloader.go:166-168 | when every unit succeeds but `dst` cannot be opened, the error names `dst` and every scratch file stays behind holding its chunk |
| Reassembly.ConcurrentOrderIndependent | src/downloder/downloader.go:128-170 | when every chunk downloads, any two completion orders leave the same files and the same result |
| Reassembly.ConcurrentFailureSparesDst | src/downloder/downloader.go:143-160 | if any chunk fails, the error of the first failing chunk in completion order is returned, `dst` is neither created nor written, and nothing outside the scratch files changes |
| Reassembly.ConcurrentEmptyPlan | src/downloder/downloader.go:119-123 | a size of 0 or less plans no chunk, and the outcome is `dst` merely created, or the failure to open it |
| RangedReassembly.InclusiveRangesReassembleBody | src/downloder/downloader.go:189 | over fresh scratch files and the inclusive header, the merged `dst` is exactly the body the server holds |
| RangedReassembly.AsWrittenRangesDuplicateBoundaries | src/downloder/downloader.go:189 | with the header as written, the merged `dst` is `|body| + n - 1` bytes for `n` chunks, and it differs from the body when there are two chunks or more |
| RangedReassembly.AsWrittenLength | src/downloder/downloader.go:189 | with the header as written, the first `m` chunks bring one extra byte for each chunk boundary they end at |
| EntryPoint.NoResponseChangesNothing | src/downloder/downloader.go:58-61 | a failed initial GET is reported and changes no file |
| EntryPoint.SinglePathAppendsBody | src/downloder/downloader.go:72-75 | without "Accept-Ranges: bytes", the body is appended to `dst` and nothing else changes; the result is an error exactly when `dst` cannot be opened or the transfer breaks |
| EntryPoint.SinglePathIgnoresChunks | src/downloder/downloader.go:72-75 | the single path's outcome depends on neither the chunk responses nor the completion order |
| EntryPoint.UnreadableLengthDownloadsNothing | src/downloder/downloader.go:118-123 | on a ranged server, an absent or non-numeric Content-Length plans no chunk, and the "download" only creates `dst` |
| EntryPoint.RangedDownloadDeliversBody | src/downloder/downloader.go:52-81 | with the corrected inclusive header, on a ranged server that reports the true length and with no scratch copy breaking, `DownloadFile` leaves exactly the body in a new `dst` and returns no error |
| EntryPoint.RangedDownloadAsWrittenDuplicates | src/downloder/downloader.go:189 | with the header as written and the same server, `DownloadFile` returns no error but leaves `|body| + n - 1` bytes for `n` chunks, which differ from the body when there are two chunks or more |

## Left out

- The HTTP transport (`http.Get`, `client.Do`, status codes, `res.Body.Close`) is left out. A chunk's response is the parameter `fetch`, and the initial response is the parameter `res`.
- Real concurrency is left out: the errgroup, context cancellation timing, and the unsynchronised `append` to `filePaths`, which is a data race. The goroutines run one after another in an arbitrary `order`. An error cancels every unit that starts after it, and units already finished keep their scratch files.
- `runtime.NumCPU()` is the parameter `procs`.
- `fmt.Printf` output, the progress bar (`WriteProgressBar`), `errors.Wrap` and `main.go` are left out. Errors are the three-case datatype `Types.Error`, without the wrapping.
- An `io.Copy` that breaks mid-transfer is modelled by the number of bytes it wrote before the break. For a chunk download that number is part of the response `fetch` gives. For the merge it is `copyBreaks`. Why the transfer breaks is not modelled.
- Header names are taken as already canonical. Go's canonicalisation of header keys is not modelled.
- Merge.SortByIndex: sort stability is not stated, because all indices in the list are distinct, so stability cannot change the result.
- Planner.Plan and Planner.ChunkFileSize require `size <= 0 || size >= chunkSize`. The source loops forever otherwise.
- Merge.MergeChunkedFile requires that no listed path is `dst`. In the source, all listed paths are scratch paths, and those are never `dst` (`Requests.ScratchPathsDistinct`).
- Downloader.ContentLength: the error from `strconv.ParseInt` is ignored, as in the source. A range error keeps the nearest int64 bound.

## Findings

| source | as written | input that shows it | evidently intended | confidence | as-written member | corrected member |
|---|---|---|---|---|---|---|
| src/downloder/downloader.go:215-222 | `i += splitSize` and `end: i + splitSize` in wrapping int64 | Content-Length 9223372036854775807 with 2 processors: the third end is negative and `i` wraps below `size`, so the loop goes on | chunks clamped to `size` without overflow | not executed | Planner.SourceLoopOverflows | Planner.ChunkFileSize |
| src/downloder/downloader.go:189 | `bytes=%d-%d` with the exclusive `end`; RFC 7233 reads the last byte position as inclusive | 10-byte body in 3 ways: each of the 3 boundaries is fetched twice, so `dst` has 13 bytes | `bytes=start-(end-1)` | not executed | RangedReassembly.AsWrittenRangesDuplicateBoundaries | RangedReassembly.InclusiveRangesReassembleBody |
