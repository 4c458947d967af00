/**
 * What `DownloadFile` does as a whole, for each answer the initial GET can
 * bring: no answer, a server without byte ranges, a ranged server whose
 * Content-Length is missing or not a number, and a ranged server that
 * reports the body's true length.
 */
module EntryPoint {
  import opened Types
  import opened GoInt
  import opened Strconv
  import opened Planner
  import opened Requests
  import opened Files
  import opened Downloader
  import opened Reassembly
  import opened RangedReassembly

  /** A failed initial GET is reported and touches no file. */
  lemma NoResponseChangesNothing(files: FileMap, unwritable: set<string>, unremovable: set<string>, copyBreaks: map<string, nat>,
                                 dst: string, procs: Int64, fetch: IndexChunk -> FetchOutcome, order: seq<nat>)
    requires 1 <= procs
    ensures DownloadReady(None, procs, order)
    ensures DownloadOutcome(files, unwritable, unremovable, copyBreaks, None, dst, procs, fetch, order) == Outcome(files, Some(GetFailed))
  {
  }

  /**
   * Without "Accept-Ranges: bytes" the initial response's body is appended
   * to `dst` and nothing else happens: the result is an error exactly when
   * `dst` cannot be opened or the transfer breaks, and no other file changes.
   */
  lemma SinglePathAppendsBody(files: FileMap, unwritable: set<string>, unremovable: set<string>, copyBreaks: map<string, nat>, r: Response,
                              dst: string, procs: Int64, fetch: IndexChunk -> FetchOutcome, order: seq<nat>)
    requires HeaderGet(r.header, AcceptRangesHeaderKey) != AcceptRangeBytes
    requires DownloadReady(Some(r), procs, order)
    ensures var out := DownloadOutcome(files, unwritable, unremovable, copyBreaks, Some(r), dst, procs, fetch, order);
      && (dst in unwritable ==> out == Outcome(files, Some(OpenFailed(dst))))
      && (dst !in unwritable ==> dst in out.files && out.files[dst] == Content(files, dst) + Written(r.body))
      && (dst !in unwritable ==> (out.err == None <==> r.body.Fetched?))
      && (forall q :: q != dst ==> Unchanged(files, out.files, q))
  {
  }

  /** The single path sends no ranged request: its outcome depends on neither chunk responses nor order. */
  lemma SinglePathIgnoresChunks(files: FileMap, unwritable: set<string>, unremovable: set<string>, copyBreaks: map<string, nat>, r: Response,
                                dst: string, procs: Int64,
                                fetch1: IndexChunk -> FetchOutcome, order1: seq<nat>,
                                fetch2: IndexChunk -> FetchOutcome, order2: seq<nat>)
    requires HeaderGet(r.header, AcceptRangesHeaderKey) != AcceptRangeBytes
    requires DownloadReady(Some(r), procs, order1) && DownloadReady(Some(r), procs, order2)
    ensures DownloadOutcome(files, unwritable, unremovable, copyBreaks, Some(r), dst, procs, fetch1, order1)
         == DownloadOutcome(files, unwritable, unremovable, copyBreaks, Some(r), dst, procs, fetch2, order2)
  {
  }

  /**
   * A ranged server whose Content-Length is absent or not a number is taken
   * to have size 0: no chunk is requested and the download "succeeds" with
   * `dst` merely created, whatever the server holds.
   */
  lemma UnreadableLengthDownloadsNothing(files: FileMap, unwritable: set<string>, unremovable: set<string>, copyBreaks: map<string, nat>, r: Response,
                                         dst: string, procs: Int64, fetch: IndexChunk -> FetchOutcome, order: seq<nat>)
    requires HeaderGet(r.header, AcceptRangesHeaderKey) == AcceptRangeBytes
    requires ContentLengthHeaderKey !in r.header || ParseInt(HeaderGet(r.header, ContentLengthHeaderKey)).err == Some(ErrSyntax)
    requires DownloadReady(Some(r), procs, order)
    ensures order == []
    ensures DownloadOutcome(files, unwritable, unremovable, copyBreaks, Some(r), dst, procs, fetch, order)
         == if dst in unwritable then Outcome(files, Some(OpenFailed(dst))) else Outcome(Created(files, dst), None)
  {
    assert ContentLength(r.header) == 0;
    ConcurrentEmptyPlan(files, unwritable, unremovable, copyBreaks, dst, 0, procs, fetch, order);
  }

  /**
   * The corrected program: a ranged server that reports the body's length,
   * answering each chunk as RFC 7233 answers the inclusive header
   * `bytes=start-(end-1)`. `DownloadFile` then leaves exactly the body in a
   * `dst` it created, and returns no error. The header the code sends is
   * `bytes=start-end` (see `RangedDownloadAsWrittenDuplicates`); this lemma
   * describes the program with the evidently intended header.
   */
  lemma RangedDownloadDeliversBody(files: FileMap, unwritable: set<string>, unremovable: set<string>, copyBreaks: map<string, nat>, r: Response,
                                   dst: string, body: seq<byte>, procs: Int64, order: seq<nat>)
    requires HeaderGet(r.header, AcceptRangesHeaderKey) == AcceptRangeBytes
    requires |body| <= MaxInt64 && HeaderGet(r.header, ContentLengthHeaderKey) == Itoa(|body|)
    requires DownloadReady(Some(r), procs, order) && (|body| == 0 || |body| >= procs)
    requires dst !in unwritable && dst !in files
    requires forall pos :: 0 <= pos < |Plan(|body|, procs)| ==> Scratch(dst, pos) !in unwritable && Scratch(dst, pos) !in files
    requires NoScratchBreaks(copyBreaks, dst, |Plan(|body|, procs)|)
    ensures var out := DownloadOutcome(files, unwritable, unremovable, copyBreaks, Some(r), dst, procs, InclusiveServer(body), order);
      out.err == None && dst in out.files && out.files[dst] == body
  {
    ParseIntItoa(|body|);
    assert ContentLength(r.header) == |body|;
    InclusiveRangesReassembleBody(files, unwritable, unremovable, copyBreaks, dst, body, procs, order);
  }

  /**
   * The program as written, against the same server: each chunk is asked
   * for with `bytes=start-end`, so `DownloadFile` reports success yet
   * leaves `|body| + n - 1` bytes for `n` chunks, which differ from the
   * body as soon as there are two chunks.
   */
  lemma RangedDownloadAsWrittenDuplicates(files: FileMap, unwritable: set<string>, unremovable: set<string>, copyBreaks: map<string, nat>,
                                          r: Response, dst: string, body: seq<byte>, procs: Int64, order: seq<nat>)
    requires HeaderGet(r.header, AcceptRangesHeaderKey) == AcceptRangeBytes
    requires |body| <= MaxInt64 && HeaderGet(r.header, ContentLengthHeaderKey) == Itoa(|body|)
    requires DownloadReady(Some(r), procs, order) && (|body| == 0 || |body| >= procs)
    requires dst !in unwritable && dst !in files
    requires forall pos :: 0 <= pos < |Plan(|body|, procs)| ==> Scratch(dst, pos) !in unwritable && Scratch(dst, pos) !in files
    requires NoScratchBreaks(copyBreaks, dst, |Plan(|body|, procs)|)
    ensures var out := DownloadOutcome(files, unwritable, unremovable, copyBreaks, Some(r), dst, procs, AsWrittenServer(body), order);
      var n := |Plan(|body|, procs)|;
      && out.err == None && dst in out.files
      && (n > 0 ==> |out.files[dst]| == |body| + n - 1)
      && (n > 1 ==> out.files[dst] != body)
  {
    ParseIntItoa(|body|);
    assert ContentLength(r.header) == |body|;
    AsWrittenRangesDuplicateBoundaries(files, unwritable, unremovable, copyBreaks, dst, body, procs, order);
  }
}
