/**
 * What `downloadChunk` builds for one chunk: the name of its scratch file
 * and its Range request header; and, to judge that header, how a server
 * following RFC 7233 (section 2.1, byte ranges) answers it.
 */
module Requests {
  import opened Types
  import opened GoInt
  import opened Strconv
  import opened Planner

  /** The scratch file of the chunk with 1-based `index`: `dst + "_" + strconv.Itoa(index)`. */
  function ScratchPath(dst: string, index: int): (r: string)
    ensures |r| > |dst| + 1 && r[..|dst| + 1] == dst + "_" && r[|dst| + 1..] == Itoa(index)
  {
    dst + "_" + Itoa(index)
  }

  /** The name says which chunk it holds: the part after `dst_` parses back to the index. */
  lemma ScratchPathNamesIndex(dst: string, index: Int64)
    ensures ParseInt(ScratchPath(dst, index)[|dst| + 1..]) == Parsed(index, None)
  {
    ParseIntItoa(index);
  }

  /** Scratch paths of distinct indices are distinct, and none is the destination itself. */
  lemma ScratchPathsDistinct(dst: string, i: int, j: int)
    ensures ScratchPath(dst, i) == ScratchPath(dst, j) <==> i == j
    ensures ScratchPath(dst, i) != dst
  {
    var pi, pj := ScratchPath(dst, i), ScratchPath(dst, j);
    if pi == pj {
      assert Itoa(i) == pi[|dst| + 1..] == pj[|dst| + 1..] == Itoa(j);
      ItoaInjective(i, j);
    }
    assert |pi| > |dst|;
  }

  /** The Range header value of a chunk: `fmt.Sprintf("bytes=%d-%d", chunk.start, chunk.end)`. */
  function RangeHeader(c: IndexChunk): (h: string)
    ensures 0 <= c.start && 0 <= c.end ==> ParseRange(h) == Some((c.start as nat, c.end as nat))
  {
    var h := "bytes=" + Itoa(c.start) + "-" + Itoa(c.end);
    if 0 <= c.start && 0 <= c.end then
      assert Itoa(c.start) == FormatNat(c.start) && Itoa(c.end) == FormatNat(c.end);
      ParseRangeOfDigits(c.start, c.end);
      h
    else h
  }

  /** The first position of `ch` in `s`, if any. */
  function IndexOf(s: string, ch: char): (r: Option<nat>)
    ensures r.Some? ==> r.value < |s| && s[r.value] == ch && forall k :: 0 <= k < r.value ==> s[k] != ch
    ensures r.None? ==> forall k :: 0 <= k < |s| ==> s[k] != ch
  {
    if s == [] then None
    else if s[0] == ch then Some(0)
    else match IndexOf(s[1..], ch)
      case None => None
      case Some(j) => Some(j + 1)
  }

  /**
   * A server's reading of a Range header of the form `bytes=first-last`
   * (RFC 7233, section 2.1): the two decimal byte positions, or None for
   * anything else.
   */
  function ParseRange(h: string): Option<(nat, nat)>
  {
    if |h| < 6 || h[..6] != "bytes=" then None
    else
      var spec := h[6..];
      match IndexOf(spec, '-')
      case None => None
      case Some(j) =>
        var first, last := spec[..j], spec[j + 1..];
        if first != [] && last != [] && AllDigits(first) && AllDigits(last)
        then Some((DecimalValue(first), DecimalValue(last)))
        else None
  }

  lemma {:induction false} ParseRangeOfDigits(a: nat, b: nat)
    ensures ParseRange("bytes=" + FormatNat(a) + "-" + FormatNat(b)) == Some((a, b))
  {
    var fa, fb := FormatNat(a), FormatNat(b);
    var h := "bytes=" + fa + "-" + fb;
    assert h[..6] == "bytes=";
    var spec := h[6..];
    assert spec == fa + "-" + fb;
    assert spec[|fa|] == '-';
    assert forall k :: 0 <= k < |fa| ==> spec[k] == fa[k] && IsDigit(spec[k]);
    assert IndexOf(spec, '-') == Some(|fa|);
    assert spec[..|fa|] == fa && spec[|fa| + 1..] == fb;
    DecimalValueOfFormatNat(a);
    DecimalValueOfFormatNat(b);
  }

  /**
   * The body a server following RFC 7233 sends for a request with Range
   * header `h` on a representation `body`: for `bytes=first-last` the bytes
   * `first` to `last` INCLUSIVE, `last` cut to the final byte; an
   * unsatisfiable range gives no representation bytes; an invalid or
   * unrecognised header is ignored and the whole body is sent.
   */
  function Serve(body: seq<byte>, h: string): (r: seq<byte>)
    ensures |r| <= |body|
  {
    match ParseRange(h)
    case None => body
    case Some((first, last)) =>
      if last < first then body
      else if first >= |body| then []
      else body[first..if last < |body| then last + 1 else |body|]
  }

  /**
   * As written, a planned chunk [start, end) is requested as
   * `bytes=start-end`, which a server reads as inclusive: it sends one byte
   * more than planned (the first byte of the next chunk) unless the chunk
   * ends the file.
   */
  lemma AsWrittenHeaderServesOneByteMore(body: seq<byte>, c: IndexChunk)
    requires 0 <= c.start < c.end <= |body|
    ensures Serve(body, RangeHeader(c)) == body[c.start..if c.end < |body| then c.end + 1 else |body|]
  {
    assert ParseRange(RangeHeader(c)) == Some((c.start as nat, c.end as nat));
  }

  /** The evidently intended header: the last byte position is `end - 1`. */
  function InclusiveRangeHeader(c: IndexChunk): string
  {
    "bytes=" + Itoa(c.start) + "-" + Itoa(c.end - 1)
  }

  /** With the inclusive header a server sends exactly the planned bytes [start, end). */
  lemma InclusiveHeaderServesChunk(body: seq<byte>, c: IndexChunk)
    requires 0 <= c.start < c.end <= |body|
    ensures Serve(body, InclusiveRangeHeader(c)) == body[c.start..c.end]
  {
    assert Itoa(c.start) == FormatNat(c.start) && Itoa(c.end - 1) == FormatNat(c.end - 1);
    ParseRangeOfDigits(c.start, c.end - 1);
    assert ParseRange(InclusiveRangeHeader(c)) == Some((c.start as nat, (c.end - 1) as nat));
  }
}
