/** The arithmetic of internal/transfer/upload.go and chunkSizeFor, in int64 with
    wrap-around, against the exact arithmetic it stands for. */
module Chunking {
  import opened Model

  // The code ---------------------------------------------------------------

  function SplitChunks(size: int64, chunkSize: int64): int {
    if size <= 0 || chunkSize <= 0 then 0 else TruncDiv(Wrap64(size + chunkSize - 1), chunkSize)
  }

  function ChunkBounds(size: int64, chunkSize: int64, index: int64): (int64, int64) {
    var start := Wrap64(index * chunkSize);
    if start >= size then (0, 0)
    else
      var end := Wrap64(start + chunkSize);
      (start, if end > size then size else end)
  }

  function ChunkSizeFor(size: int64, chunkSize: int64, index: int): int64 {
    if index < 0 then 0
    else
      var offset := Wrap64(index * chunkSize);
      if offset >= size then 0
      else
        var remaining := Wrap64(size - offset);
        if remaining < chunkSize then remaining else chunkSize
  }

  // The exact arithmetic ---------------------------------------------------

  /** Chunk counts and chunk ends are computed exactly for these parameters. */
  predicate Fits(size: int64, chunkSize: int64) {
    size > 0 && chunkSize > 0 && size + chunkSize - 1 < TWO_63
  }

  lemma Monotone(i: int, j: int, c: int)
    requires i <= j && c >= 0
    ensures i * c <= j * c
  {
  }

  lemma Successor(i: int, c: int)
    ensures (i + 1) * c == i * c + c
  {
  }

  lemma QuotientAt(p: int, c: int, i: int)
    requires 0 <= p && c > 0
    ensures i == p / c <==> i * c <= p < i * c + c
    ensures p / c >= 0
  {
    var q := p / c;
    assert q * c <= p < q * c + c;
    if i < q {
      Monotone(i + 1, q, c);
      Successor(i, c);
    } else if i > q {
      Monotone(q + 1, i, c);
      Successor(q, c);
    }
  }

  /** How many chunks a size needs. */
  function Count(size: int, chunkSize: int): (n: int)
    requires size > 0 && chunkSize > 0
    ensures 1 <= n && n * chunkSize - chunkSize < size <= n * chunkSize
    decreases size
  {
    if size <= chunkSize then 1
    else
      Successor(Count(size - chunkSize, chunkSize), chunkSize);
      1 + Count(size - chunkSize, chunkSize)
  }

  /** Where chunk `i` starts, once clamped to the size. */
  function Edge(size: int, chunkSize: int, i: int): int {
    if i * chunkSize < size then i * chunkSize else size
  }

  /** How many bytes chunk `i` has to carry. */
  function Length(size: int, chunkSize: int, i: int): int {
    if i < 0 then 0 else Edge(size, chunkSize, i + 1) - Edge(size, chunkSize, i)
  }

  lemma IndexInside(size: int, chunkSize: int, i: int)
    requires size > 0 && chunkSize > 0
    ensures i * chunkSize < size <==> i < Count(size, chunkSize)
  {
  }

  lemma LengthFacts(size: int, chunkSize: int, i: int)
    requires size > 0 && chunkSize > 0
    ensures 0 <= Length(size, chunkSize, i) <= chunkSize
    ensures Length(size, chunkSize, i) > 0 <==> 0 <= i < Count(size, chunkSize)
    ensures 0 <= i && i * chunkSize < size ==>
              Length(size, chunkSize, i) == (if size - i * chunkSize < chunkSize then size - i * chunkSize else chunkSize)
  {
    IndexInside(size, chunkSize, i);
    Successor(i, chunkSize);
  }

  // Code against exact arithmetic ------------------------------------------

  /** chunkSizeFor is right except when the offset product wraps to a value
      below the size: then an index outside the upload gets a non-zero size. */
  lemma ChunkSizeForIsExactIff(size: int64, chunkSize: int64, index: int)
    requires size > 0 && chunkSize > 0
    ensures ChunkSizeFor(size, chunkSize, index) == Length(size, chunkSize, index) <==>
            index < 0 || index * chunkSize < TWO_63 || Wrap64(index * chunkSize) >= size
  {
  }

  /** The count is right exactly when `size + chunkSize - 1` does not wrap. */
  lemma SplitChunksIsExactIff(size: int64, chunkSize: int64)
    requires size > 0 && chunkSize > 0
    ensures SplitChunks(size, chunkSize) == Count(size, chunkSize) <==> Fits(size, chunkSize)
  {
    if Fits(size, chunkSize) {
      QuotientAt(size + chunkSize - 1, chunkSize, Count(size, chunkSize));
    }
  }

  /** Beyond that the count is not positive, and it is zero exactly when the sum wraps
      to less than one chunk below zero: an upload that has received nothing then
      passes Complete's count check. */
  lemma WrappedCountIs(size: int64, chunkSize: int64)
    requires size > 0 && chunkSize > 0
    ensures SplitChunks(size, chunkSize) > 0 <==> Fits(size, chunkSize)
    ensures SplitChunks(size, chunkSize) == 0 <==> size + 2 * chunkSize > TWO_64 + 1
  {
    if Fits(size, chunkSize) {
      SplitChunksIsExactIff(size, chunkSize);
    } else {
      var x := size + chunkSize - 1 - TWO_64;
      assert Wrap64(size + chunkSize - 1) == x < 0;
      QuotientAt(-x, chunkSize, 0);
    }
  }

  /** The largest sizes, and a size of four bytes. */
  lemma WrappedCountIsZero()
    ensures SplitChunks(0x7fff_ffff_ffff_ffff, 0x7fff_ffff_ffff_ffff) == 0
    ensures SplitChunks(4, 0x7fff_ffff_ffff_ffff) == 0
  {
    WrappedCountIs(0x7fff_ffff_ffff_ffff, 0x7fff_ffff_ffff_ffff);
    WrappedCountIs(4, 0x7fff_ffff_ffff_ffff);
  }

  /** A client index of 2^62 is accepted as a full chunk of an 8-byte upload. */
  lemma WrappedIndexIsAccepted()
    ensures ChunkSizeFor(8, 4, 0x4000_0000_0000_0000) == 4
    ensures Length(8, 4, 0x4000_0000_0000_0000) == 0
  {
  }

  // Tiling -----------------------------------------------------------------

  lemma BoundsAre(size: int64, chunkSize: int64, i: int64)
    requires Fits(size, chunkSize) && 0 <= i < SplitChunks(size, chunkSize)
    ensures i * chunkSize < size
    ensures ChunkBounds(size, chunkSize, i) ==
            (i * chunkSize, if i * chunkSize + chunkSize > size then size else i * chunkSize + chunkSize)
    ensures i * chunkSize >= 0
  {
    SplitChunksIsExactIff(size, chunkSize);
    IndexInside(size, chunkSize, i);
    Monotone(0, i, chunkSize);
  }

  /** The chunk ranges are non-empty, as long as chunkSizeFor says, and each
      starts where the one before ended; the first starts at 0 and the last
      ends at the size. */
  lemma ChunksTile(size: int64, chunkSize: int64, i: int64)
    requires Fits(size, chunkSize) && 0 <= i < SplitChunks(size, chunkSize)
    ensures var (start, end) := ChunkBounds(size, chunkSize, i);
            && 0 <= start < end <= size
            && end - start == ChunkSizeFor(size, chunkSize, i) <= chunkSize
            && (i == 0 ==> start == 0)
            && (if i == SplitChunks(size, chunkSize) - 1 then end == size
                else end == ChunkBounds(size, chunkSize, i + 1).0)
  {
    SplitChunksIsExactIff(size, chunkSize);
    BoundsAre(size, chunkSize, i);
    IndexInside(size, chunkSize, i + 1);
    Successor(i, chunkSize);
    LengthFacts(size, chunkSize, i);
    ChunkSizeForIsExactIff(size, chunkSize, i);
    if i < SplitChunks(size, chunkSize) - 1 {
      BoundsAre(size, chunkSize, i + 1);
    }
  }

  ghost predicate Covers(size: int64, chunkSize: int64, i: int64, p: int) {
    0 <= i < SplitChunks(size, chunkSize)
    && var (start, end) := ChunkBounds(size, chunkSize, i); start <= p < end
  }

  /** Every byte position lies in exactly one chunk, the one at p / chunkSize. */
  lemma ChunksPartition(size: int64, chunkSize: int64, i: int64, p: int)
    requires Fits(size, chunkSize) && 0 <= p < size
    ensures Covers(size, chunkSize, i, p) <==> i == p / chunkSize
  {
    SplitChunksIsExactIff(size, chunkSize);
    QuotientAt(p, chunkSize, i);
    IndexInside(size, chunkSize, i);
    if 0 <= i < SplitChunks(size, chunkSize) {
      BoundsAre(size, chunkSize, i);
    }
  }

  /** chunkSizeFor is 0 exactly outside the index range. */
  lemma ZeroExactlyOutside(size: int64, chunkSize: int64, i: int64)
    requires Fits(size, chunkSize) && i * chunkSize < TWO_63
    ensures ChunkSizeFor(size, chunkSize, i) == 0 <==> !(0 <= i < SplitChunks(size, chunkSize))
  {
    SplitChunksIsExactIff(size, chunkSize);
    ChunkSizeForIsExactIff(size, chunkSize, i);
    LengthFacts(size, chunkSize, i);
  }
}
