/**
 * The chunk planner (`chunkFileSize`): it splits the byte offsets
 * [0, size) into consecutive ranges of `size / chunkSize` bytes, the last
 * one clamped to `size`.
 */
module Planner {
  import opened GoInt

  /** A planned byte range of the remote file, from offset `start` to offset `end`. */
  datatype IndexChunk = IndexChunk(start: Int64, end: Int64)

  /**
   * Reference definition of the plan: the chunks from offset `i` on, each
   * `split` bytes long except a last one cut at `size`.
   */
  function PlanFrom(i: Int64, size: Int64, split: Int64): seq<IndexChunk>
    requires 0 <= i && 1 <= split
    decreases size - i
  {
    if i >= size then []
    else
      var e: Int64 := if size - i < split then size else i + split;
      [IndexChunk(i, e)] + PlanFrom(e, size, split)
  }

  /**
   * The plan for a file of `size` bytes and a requested concurrency of
   * `chunkSize`. A non-positive size gives no chunks; for
   * 0 < size < chunkSize the source computes a split of 0 and never
   * finishes (see ZeroSplitNeverAdvances), so those sizes are excluded.
   */
  function Plan(size: Int64, chunkSize: Int64): seq<IndexChunk>
    requires 1 <= chunkSize && (size <= 0 || size >= chunkSize)
  {
    if size <= 0 then [] else PlanFrom(0, size, Quo(size, chunkSize))
  }

  /**
   * `chunkFileSize`. The loop computes each end as the source does, `i +
   * splitSize` clamped to `size`, but compares before it adds and moves on
   * to the clamped end, so no int64 value ever overflows (the variables are
   * of type Int64); for sizes where the source does not overflow this is
   * the same plan (`SourceLoopAgreesWithPlan`).
   */
  method ChunkFileSize(size: Int64, chunkSize: Int64) returns (chunked: seq<IndexChunk>)
    requires 1 <= chunkSize
    requires size <= 0 || size >= chunkSize
    ensures chunked == Plan(size, chunkSize)
  {
    var splitSize: Int64 := Quo(size, chunkSize);
    chunked := [];
    var i: Int64 := 0;
    while i < size
      invariant 0 <= i && (size > 0 ==> i <= size) && (size <= 0 ==> chunked == [])
      invariant size > 0 ==> splitSize >= 1 && chunked + PlanFrom(i, size, splitSize) == Plan(size, chunkSize)
      decreases size - i
    {
      var idx := IndexChunk(i, if size - i < splitSize then size else i + splitSize);
      chunked := chunked + [idx];
      i := idx.end;
    }
    if size > 0 {
      assert PlanFrom(i, size, splitSize) == [];
      assert chunked + [] == chunked;
    }
  }

  /** The plan's chunks are contiguous, end at `size`, and all but the last are `split` bytes long. */
  lemma {:induction false} PlanFromShape(i: Int64, size: Int64, split: Int64)
    requires 0 <= i < size && 1 <= split
    ensures var p := PlanFrom(i, size, split);
      && |p| >= 1
      && p[0].start == i
      && p[|p| - 1].end == size
      && (forall k :: 0 <= k < |p| - 1 ==> p[k].end == p[k + 1].start)
      && (forall k :: 0 <= k < |p| ==> 0 < p[k].end - p[k].start <= split)
      && (forall k :: 0 <= k < |p| - 1 ==> p[k].end - p[k].start == split)
    decreases size - i
  {
    var p := PlanFrom(i, size, split);
    if size - i >= split && i + split < size {
      var e: Int64 := i + split;
      PlanFromShape(e, size, split);
      var q := PlanFrom(e, size, split);
      assert p == [IndexChunk(i, e)] + q;
      forall k | 0 <= k < |p| - 1
        ensures p[k].end == p[k + 1].start
      {
        if k > 0 { assert p[k] == q[k - 1] && p[k + 1] == q[k]; }
      }
      forall k | 0 <= k < |p|
        ensures 0 < p[k].end - p[k].start <= split
        ensures k < |p| - 1 ==> p[k].end - p[k].start == split
      {
        if k > 0 { assert p[k] == q[k - 1]; }
      }
    } else {
      var e: Int64 := if size - i < split then size else i + split;
      assert e == size && PlanFrom(e, size, split) == [];
    }
  }

  /** Every chunk from offset `i` on is a non-empty range inside [i, size). */
  lemma {:induction false} PlanFromWithin(i: Int64, size: Int64, split: Int64)
    requires 0 <= i && 1 <= split
    ensures forall k :: 0 <= k < |PlanFrom(i, size, split)| ==>
      i <= PlanFrom(i, size, split)[k].start < PlanFrom(i, size, split)[k].end <= size
    decreases size - i
  {
    if i < size {
      var e: Int64 := if size - i < split then size else i + split;
      PlanFromWithin(e, size, split);
      var p, q := PlanFrom(i, size, split), PlanFrom(e, size, split);
      assert forall k :: 0 <= k < |q| ==> e <= q[k].start;
      assert p == [IndexChunk(i, e)] + q;
      forall k | 0 <= k < |p|
        ensures i <= p[k].start < p[k].end <= size
      {
        if k > 0 {
          assert p[k] == q[k - 1];
          assert e <= q[k - 1].start < q[k - 1].end <= size;
        } else {
          assert p[k] == IndexChunk(i, e) && i < e <= size;
        }
      }
    }
  }

  /** The number `n` of chunks is the ceiling of `(size - i) / split`: (n - 1) * split < size - i <= n * split. */
  lemma {:induction false} PlanFromCount(i: Int64, size: Int64, split: Int64)
    requires 0 <= i < size && 1 <= split
    ensures var n := |PlanFrom(i, size, split)|;
      (n - 1) * split < size - i <= n * split
    decreases size - i
  {
    if size - i >= split && i + split < size {
      var e: Int64 := i + split;
      PlanFromCount(e, size, split);
      var m := |PlanFrom(e, size, split)|;
      assert |PlanFrom(i, size, split)| == m + 1;
      assert (m + 1) * split == m * split + split;
      assert (m - 1) * split == m * split - split;
    } else {
      var e: Int64 := if size - i < split then size else i + split;
      assert PlanFrom(e, size, split) == [];
    }
  }

  /** No chunks at all exactly when the size is not positive (an empty or unparsable Content-Length). */
  lemma PlanEmptyIff(size: Int64, chunkSize: Int64)
    requires 1 <= chunkSize && (size <= 0 || size >= chunkSize)
    ensures Plan(size, chunkSize) == [] <==> size <= 0
  {
    if size > 0 {
      PlanFromShape(0, size, Quo(size, chunkSize));
    }
  }

  /**
   * For a positive size the plan covers [0, size) with contiguous, non-empty chunks of
   * `size / chunkSize` bytes, only the last one possibly shorter, and their
   * number is the ceiling of size / (size / chunkSize).
   */
  lemma PlanCoversFile(size: Int64, chunkSize: Int64)
    requires 1 <= chunkSize <= size
    ensures var p := Plan(size, chunkSize);
      var split := size / chunkSize;
      && |p| >= 1
      && p[0].start == 0
      && p[|p| - 1].end == size
      && (forall k :: 0 <= k < |p| - 1 ==> p[k].end == p[k + 1].start)
      && (forall k :: 0 <= k < |p| ==> 0 <= p[k].start < p[k].end <= size)
      && (forall k :: 0 <= k < |p| ==> 0 < p[k].end - p[k].start <= split)
      && (forall k :: 0 <= k < |p| - 1 ==> p[k].end - p[k].start == split)
      && (|p| - 1) * split < size <= |p| * split
  {
    var split := Quo(size, chunkSize);
    assert split == size / chunkSize;
    PlanFromShape(0, size, split);
    PlanFromWithin(0, size, split);
    PlanFromCount(0, size, split);
  }

  /**
   * Against the requested concurrency: there are at least `chunkSize`
   * chunks, and at most one more only when `size / chunkSize >= chunkSize - 1`.
   */
  lemma {:induction false} PlanCountAgainstConcurrency(size: Int64, chunkSize: Int64)
    requires 1 <= chunkSize <= size
    ensures |Plan(size, chunkSize)| >= chunkSize
    ensures size / chunkSize >= chunkSize - 1 ==> |Plan(size, chunkSize)| <= chunkSize + 1
  {
    var split := Quo(size, chunkSize);
    var n := |Plan(size, chunkSize)|;
    PlanFromCount(0, size, split);
    assert split * chunkSize <= size < split * chunkSize + chunkSize;
    MulMonotone(n, chunkSize, split);
    if split >= chunkSize - 1 {
      assert size <= (chunkSize + 1) * split by {
        assert (chunkSize + 1) * split == chunkSize * split + split;
      }
      MulMonotone(chunkSize + 1, n - 1 , split);
    }
  }

  /** From a * s >= b * s with s > 0 follows a >= b. */
  lemma MulMonotone(a: int, b: int, s: int)
    requires s > 0 && a * s >= b * s
    ensures a >= b
  {
  }

  /** 10 bytes at concurrency 3: split 3, four chunks, the last of one byte. */
  lemma PlanTenBytesThreeWays()
    ensures Plan(10, 3) == [IndexChunk(0, 3), IndexChunk(3, 6), IndexChunk(6, 9), IndexChunk(9, 10)]
  {
    assert Quo(10, 3) == 3;
    assert PlanFrom(9, 10, 3) == [IndexChunk(9, 10)] + PlanFrom(10, 10, 3);
    assert PlanFrom(6, 10, 3) == [IndexChunk(6, 9)] + PlanFrom(9, 10, 3);
    assert PlanFrom(3, 10, 3) == [IndexChunk(3, 6)] + PlanFrom(6, 10, 3);
  }

  /** 1,000,000 bytes at concurrency 4: four chunks of 250,000 bytes. */
  lemma PlanMillionBytesFourWays()
    ensures Plan(1000000, 4) ==
      [IndexChunk(0, 250000), IndexChunk(250000, 500000), IndexChunk(500000, 750000), IndexChunk(750000, 1000000)]
  {
    assert Quo(1000000, 4) == 250000;
    assert PlanFrom(750000, 1000000, 250000) == [IndexChunk(750000, 1000000)] + PlanFrom(1000000, 1000000, 250000);
    assert PlanFrom(500000, 1000000, 250000) == [IndexChunk(500000, 750000)] + PlanFrom(750000, 1000000, 250000);
    assert PlanFrom(250000, 1000000, 250000) == [IndexChunk(250000, 500000)] + PlanFrom(500000, 1000000, 250000);
  }

  /** 5 bytes at concurrency 3: split 1, so five chunks, two more than requested. */
  lemma PlanFiveBytesThreeWays()
    ensures |Plan(5, 3)| == 5
  {
    assert Quo(5, 3) == 1;
    assert PlanFrom(4, 5, 1) == [IndexChunk(4, 5)] + PlanFrom(5, 5, 1);
    assert PlanFrom(3, 5, 1) == [IndexChunk(3, 4)] + PlanFrom(4, 5, 1);
    assert PlanFrom(2, 5, 1) == [IndexChunk(2, 3)] + PlanFrom(3, 5, 1);
    assert PlanFrom(1, 5, 1) == [IndexChunk(1, 2)] + PlanFrom(2, 5, 1);
  }

  /**
   * One iteration of the loop exactly as the source writes it, in Go's
   * wrapping int64 arithmetic: the chunk `{i, i + splitSize}` with its end
   * clamped to `size`, and the next value of `i`.
   */
  function SourceLoopStep(i: Int64, size: Int64, splitSize: Int64): (r: (IndexChunk, Int64))
    ensures r.0.start == i && r.0.end <= size
    ensures i + splitSize <= MaxInt64 && 0 <= splitSize ==> r.1 == i + splitSize
    ensures i + splitSize > MaxInt64 ==> r.1 < 0
  {
    var end := Wrap64(i + splitSize);
    (IndexChunk(i, if size < end then size else end), Wrap64(i + splitSize))
  }

  /**
   * The source's loop from offset `i`, one `SourceLoopStep` per chunk, for
   * the sizes on which `i + splitSize` never overflows.
   */
  function SourceLoop(i: Int64, size: Int64, splitSize: Int64): seq<IndexChunk>
    requires 0 <= i && (i < size ==> 1 <= splitSize && size <= MaxInt64 - splitSize)
    decreases size - i
  {
    if i >= size then []
    else
      var (c, next) := SourceLoopStep(i, size, splitSize);
      [c] + SourceLoop(next, size, splitSize)
  }

  /** Where nothing overflows, the source's loop from `i` builds the reference chunks from `i`. */
  lemma {:induction false} SourceLoopFromIsPlanFrom(i: Int64, size: Int64, split: Int64)
    requires 0 <= i && 1 <= split && size <= MaxInt64 - split
    ensures SourceLoop(i, size, split) == PlanFrom(i, size, split)
    decreases size - i
  {
    if i < size {
      var next: Int64 := i + split;
      if next < size {
        SourceLoopFromIsPlanFrom(next, size, split);
        assert PlanFrom(i, size, split) == [IndexChunk(i, next)] + PlanFrom(next, size, split);
      } else {
        assert SourceLoop(next, size, split) == [];
        assert PlanFrom(i, size, split) == [IndexChunk(i, size)] + PlanFrom(size, size, split);
      }
    }
  }

  /**
   * For every size on which the source's `i += splitSize` cannot overflow,
   * its loop yields exactly `Plan`, the chunks `ChunkFileSize` returns.
   */
  lemma SourceLoopAgreesWithPlan(size: Int64, chunkSize: Int64)
    requires 1 <= chunkSize && (size <= 0 || size >= chunkSize)
    requires size <= MaxInt64 - Quo(size, chunkSize)
    ensures SourceLoop(0, size, Quo(size, chunkSize)) == Plan(size, chunkSize)
  {
    if size > 0 {
      SourceLoopFromIsPlanFrom(0, size, Quo(size, chunkSize));
    }
  }

  /**
   * With 0 < size < chunkSize the source's split is 0, so its loop never
   * moves `i`: the guard `i < size` stays true and chunks are appended
   * without end.
   */
  lemma ZeroSplitNeverAdvances(size: Int64, chunkSize: Int64)
    requires 0 < size < chunkSize
    ensures Quo(size, chunkSize) == 0
    ensures forall i: Int64 :: SourceLoopStep(i, size, 0).1 == i
  {
    var q := Quo(size, chunkSize);
    if q > 0 {
      MulAtLeast(chunkSize, q);
      assert false;
    }
    forall i: Int64
      ensures SourceLoopStep(i, size, 0).1 == i
    {
      assert Wrap64(i + 0) == i;
    }
  }

  /**
   * As written, the loop overflows for a Content-Length of 2^63 - 1 on two
   * processors: the third chunk gets a negative end, and `i` wraps to a
   * negative value that is still below `size`, so the loop goes on.
   */
  lemma SourceLoopOverflows()
    ensures var size: Int64 := MaxInt64;
      var split: Int64 := Quo(size, 2);
      var (c0, i1) := SourceLoopStep(0, size, split);
      var (c1, i2) := SourceLoopStep(i1, size, split);
      var (c2, i3) := SourceLoopStep(i2, size, split);
      && i1 < size && i2 < size
      && c2.start == i2 && c2.end < 0
      && i3 < 0 && i3 < size
  {
    assert Quo(MaxInt64, 2) == 4611686018427387903;
  }
}
