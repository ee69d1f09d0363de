/** One chunked upload on values: the session record and the bytes received so
    far. What UploadChunk, ResumeOffset and Complete compute, and why they agree. */
module Uploads {
  import opened Model
  import opened Chunking
  import opened Sets

  datatype Upload = Upload(session: Session, data: map<int, Bytes>)

  // Accepting chunks (UploadChunk) ------------------------------------------

  /** UploadChunk once the session is found. */
  function AddChunk(env: Env, u: Upload, index: int64, bytes: Bytes): Result<Upload> {
    var s := u.session;
    if !s.state.SessionUploading? then Err(InvalidState)
    else
      var expected := ChunkSizeFor(s.size, s.chunkSize, index);
      if expected == 0 then Err(InvalidArgument)
      else if |bytes| != expected then Err(Conflict)
      else if index in u.data then Err(Conflict)
      else
        var chunk := Chunk(index, Wrap64(index * s.chunkSize), |bytes|, env.digestOf(bytes));
        Ok(Upload(s.(chunks := s.chunks + [chunk], written := s.written + |bytes|), u.data[index := bytes]))
  }

  /** The indexes recorded in the session, which ResumeOffset reads. */
  function Present(s: Session): set<int> {
    set c <- s.chunks :: c.index
  }

  // Resuming (ResumeOffset) -------------------------------------------------

  ghost function From(keys: set<int>, index: int): set<int> {
    set i <- keys | index <= i
  }

  /** The resume loop from a given index and offset. */
  function ResumeFrom(s: Session, index: int, offset: int): int
    requires 0 <= index
    decreases From(Present(s), index)
  {
    if index !in Present(s) then offset
    else
      var size := ChunkSizeFor(s.size, s.chunkSize, index);
      if size == 0 || offset + size >= s.size then offset + size
      else
        assert index in From(Present(s), index) && index !in From(Present(s), index + 1);
        ResumeFrom(s, index + 1, offset + size)
  }

  function ResumePoint(s: Session): int {
    if s.state.SessionCommitted? then s.size else ResumeFrom(s, 0, 0)
  }

  // Assembling (Complete) ---------------------------------------------------

  /** The stored chunks joined in index order. */
  ghost function Assembled(data: map<int, Bytes>): Bytes
    decreases |data|
  {
    if data.Keys == {} then []
    else
      var m := Least(data.Keys);
      data[m] + Assembled(data - {m})
  }

  /** The count Complete compares with, as the code computes it. */
  function ChunkCount(s: Session): int {
    SplitChunks(s.size, s.chunkSize)
  }

  // The invariant of an upload ----------------------------------------------

  ghost predicate InRange(u: Upload)
    requires Fits(u.session.size, u.session.chunkSize)
  {
    var size, chunkSize := u.session.size, u.session.chunkSize;
    forall i <- u.data :: 0 <= i < Count(size, chunkSize) && |u.data[i]| == Length(size, chunkSize, i)
  }

  /** The chunk list describes the stored bytes, one entry for each. */
  ghost predicate Listed(env: Env, u: Upload) {
    && Present(u.session) == u.data.Keys
    && |u.session.chunks| == |u.data|
    && forall c <- u.session.chunks :: c.index in u.data
         && c == Chunk(c.index, c.index * u.session.chunkSize, |u.data[c.index]|, env.digestOf(u.data[c.index]))
  }

  /** Bytes stored at indexes below k. */
  function Filled(data: map<int, Bytes>, k: nat): nat {
    if k == 0 then 0 else Filled(data, k - 1) + if k - 1 in data then |data[k - 1]| else 0
  }

  ghost predicate Tidy(env: Env, u: Upload) {
    var s := u.session;
    && Fits(s.size, s.chunkSize)
    && InRange(u)
    && Listed(env, u)
    && s.written == Filled(u.data, Count(s.size, s.chunkSize))
  }

  /** A session as Create makes it. */
  function Opened(repo: string, name: string, digest: string, size: int64, chunkSize: int64, token: string): Upload {
    Upload(Session(repo, name, digest, SessionUploading, size, chunkSize, [], 0, token), map[])
  }

  lemma {:induction false} FilledNothing(k: nat)
    ensures Filled(map[], k) == 0
  {
    if k == 0 {
    } else {
      FilledNothing(k - 1);
    }
  }

  lemma OpenedIsTidy(env: Env, repo: string, name: string, digest: string, size: int64, chunkSize: int64, token: string)
    requires Fits(size, chunkSize)
    ensures Tidy(env, Opened(repo, name, digest, size, chunkSize, token))
  {
    FilledNothing(Count(size, chunkSize));
  }

  lemma {:induction false} FilledAdd(data: map<int, Bytes>, i: int, b: Bytes, k: nat)
    requires i !in data
    ensures Filled(data[i := b], k) == Filled(data, k) + if 0 <= i < k then |b| else 0
  {
    if k == 0 {
    } else {
      FilledAdd(data, i, b, k - 1);
    }
  }

  /** When a chunk is accepted, without int64 wrap-around: exactly when the
      session is uploading, the index is inside the upload and still missing, and
      the bytes have that chunk's exact length. */
  lemma AcceptedIff(env: Env, u: Upload, index: int64, bytes: Bytes)
    requires Tidy(env, u) && index * u.session.chunkSize < TWO_63
    ensures AddChunk(env, u, index, bytes).Ok? <==>
            && u.session.state.SessionUploading?
            && 0 <= index < Count(u.session.size, u.session.chunkSize)
            && index !in u.data
            && |bytes| == Length(u.session.size, u.session.chunkSize, index)
  {
    ChunkSizeForIsExactIff(u.session.size, u.session.chunkSize, index);
    LengthFacts(u.session.size, u.session.chunkSize, index);
  }

  /** What an accepted chunk leaves behind. */
  lemma AcceptedShape(env: Env, u: Upload, index: int64, bytes: Bytes)
    requires Tidy(env, u) && index * u.session.chunkSize < TWO_63
    requires AddChunk(env, u, index, bytes).Ok?
    ensures var s := u.session;
            var chunk := Chunk(index, index * s.chunkSize, |bytes|, env.digestOf(bytes));
            AddChunk(env, u, index, bytes).value ==
            Upload(s.(chunks := s.chunks + [chunk], written := s.written + |bytes|), u.data[index := bytes])
  {
    AcceptedIff(env, u, index, bytes);
    Monotone(0, index, u.session.chunkSize);
  }

  lemma ListedAdd(env: Env, u: Upload, u': Upload, chunk: Chunk, bytes: Bytes)
    requires Listed(env, u) && chunk.index !in u.data
    requires u'.session.chunks == u.session.chunks + [chunk] && u'.session.chunkSize == u.session.chunkSize
    requires Present(u'.session) == Present(u.session) + {chunk.index}
    requires u'.data == u.data[chunk.index := bytes]
    requires chunk == Chunk(chunk.index, chunk.index * u.session.chunkSize, |bytes|, env.digestOf(bytes))
    ensures Listed(env, u')
  {
    forall c <- u'.session.chunks
      ensures c.index in u'.data
      ensures c == Chunk(c.index, c.index * u.session.chunkSize, |u'.data[c.index]|, env.digestOf(u'.data[c.index]))
    {
      assert c in u.session.chunks || c == chunk;
    }
  }

  lemma TidyAdd(env: Env, u: Upload, index: int, bytes: Bytes)
    requires Tidy(env, u) && index !in u.data
    requires 0 <= index < Count(u.session.size, u.session.chunkSize)
    requires |bytes| == Length(u.session.size, u.session.chunkSize, index)
    ensures var s := u.session;
            var chunk := Chunk(index, index * s.chunkSize, |bytes|, env.digestOf(bytes));
            Tidy(env, Upload(s.(chunks := s.chunks + [chunk], written := s.written + |bytes|), u.data[index := bytes]))
  {
    var s := u.session;
    var chunk := Chunk(index, index * s.chunkSize, |bytes|, env.digestOf(bytes));
    var u' := Upload(s.(chunks := s.chunks + [chunk], written := s.written + |bytes|), u.data[index := bytes]);
    FilledAdd(u.data, index, bytes, Count(s.size, s.chunkSize));
    assert Present(u'.session) == Present(s) + {index} by {
      assert chunk in u'.session.chunks;
      assert forall c <- s.chunks :: c in u'.session.chunks;
    }
    ListedAdd(env, u, u', chunk, bytes);
  }

  /** An accepted chunk keeps the upload tidy and is stored as sent. */
  lemma {:induction false} AddChunkKeepsTidy(env: Env, u: Upload, index: int64, bytes: Bytes)
    requires Tidy(env, u) && index * u.session.chunkSize < TWO_63
    requires AddChunk(env, u, index, bytes).Ok?
    ensures var u' := AddChunk(env, u, index, bytes).value;
            Tidy(env, u') && u'.data == u.data[index := bytes]
  {
    AcceptedIff(env, u, index, bytes);
    AcceptedShape(env, u, index, bytes);
    TidyAdd(env, u, index, bytes);
  }

  /** Exactly when an accepted chunk keeps the upload tidy: when its offset product
      does not leave int64. */
  lemma AcceptedIsTidyIff(env: Env, u: Upload, index: int64, bytes: Bytes)
    requires Tidy(env, u) && AddChunk(env, u, index, bytes).Ok?
    ensures Tidy(env, AddChunk(env, u, index, bytes).value) <==> index * u.session.chunkSize < TWO_63
  {
    if index * u.session.chunkSize < TWO_63 {
      AddChunkKeepsTidy(env, u, index, bytes);
    } else {
      IndexInside(u.session.size, u.session.chunkSize, index);
      var u' := AddChunk(env, u, index, bytes).value;
      assert index in u'.data && !InRange(u');
    }
  }

  // What is stored, against the size ----------------------------------------

  /** The bytes below chunk k never exceed its starting edge, and reach it
      exactly when no chunk below k is missing. */
  lemma {:induction false} FilledToEdge(u: Upload, k: nat)
    requires Fits(u.session.size, u.session.chunkSize) && InRange(u)
    requires k <= Count(u.session.size, u.session.chunkSize)
    ensures Filled(u.data, k) <= Edge(u.session.size, u.session.chunkSize, k)
    ensures Filled(u.data, k) == Edge(u.session.size, u.session.chunkSize, k) <==> forall i | 0 <= i < k :: i in u.data
  {
    var size, chunkSize := u.session.size, u.session.chunkSize;
    if k == 0 {
      assert 0 * chunkSize == 0;
    } else {
      FilledToEdge(u, k - 1);
      LengthFacts(size, chunkSize, k - 1);
    }
  }

  lemma EdgeAtCount(size: int, chunkSize: int)
    requires size > 0 && chunkSize > 0
    ensures Edge(size, chunkSize, Count(size, chunkSize)) == size
  {
  }

  /** Pigeonhole: indexes in range and the right number of them are all of them. */
  lemma CountMeansAll(env: Env, u: Upload)
    requires Tidy(env, u)
    ensures |u.data| == Count(u.session.size, u.session.chunkSize) <==>
            u.data.Keys == Below(Count(u.session.size, u.session.chunkSize))
    ensures |u.data| == |u.data.Keys|
  {
    var n := Count(u.session.size, u.session.chunkSize);
    BelowSize(n);
    if |u.data.Keys| == n {
      SubsetFills(u.data.Keys, Below(n));
    }
  }

  // Resuming ------------------------------------------------------------------

  /** The first chunk from k on that is missing, or n. */
  function FirstMissing(data: map<int, Bytes>, k: nat, n: nat): (r: nat)
    requires k <= n
    ensures k <= r <= n
    ensures forall i | k <= i < r :: i in data
    ensures r < n ==> r !in data
    decreases n - k
  {
    if k == n || k !in data then k else FirstMissing(data, k + 1, n)
  }

  lemma {:induction false} ResumeFromExact(env: Env, u: Upload, k: int)
    requires Tidy(env, u) && 0 <= k < Count(u.session.size, u.session.chunkSize)
    ensures var size, chunkSize := u.session.size, u.session.chunkSize;
            ResumeFrom(u.session, k, Edge(size, chunkSize, k)) ==
            Edge(size, chunkSize, FirstMissing(u.data, k, Count(size, chunkSize)))
    decreases Count(u.session.size, u.session.chunkSize) - k
  {
    var size, chunkSize := u.session.size, u.session.chunkSize;
    var n := Count(size, chunkSize);
    IndexInside(size, chunkSize, k);
    assert 0 <= k * chunkSize;
    ChunkSizeForIsExactIff(size, chunkSize, k);
    LengthFacts(size, chunkSize, k);
    IndexInside(size, chunkSize, k + 1);
    if k in u.data {
      assert Edge(size, chunkSize, k) + Length(size, chunkSize, k) == Edge(size, chunkSize, k + 1);
      if k + 1 < n {
        assert Edge(size, chunkSize, k + 1) == (k + 1) * chunkSize < size;
        ResumeFromExact(env, u, k + 1);
      } else {
        EdgeAtCount(size, chunkSize);
      }
    }
  }

  /** ResumeOffset is the start of the least missing chunk, or the size when
      none is missing: every byte below it is stored and the chunk at it is not. */
  lemma ResumeIsLeastMissing(env: Env, u: Upload)
    requires Tidy(env, u) && !u.session.state.SessionCommitted?
    ensures var size, chunkSize := u.session.size, u.session.chunkSize;
            var n := Count(size, chunkSize);
            exists k: nat | k <= n ::
              && (forall i | 0 <= i < k :: i in u.data)
              && (k < n ==> k !in u.data)
              && ResumePoint(u.session) == Filled(u.data, k) == Edge(size, chunkSize, k)
  {
    var size, chunkSize := u.session.size, u.session.chunkSize;
    var n := Count(size, chunkSize);
    assert 0 * chunkSize == 0;
    ResumeFromExact(env, u, 0);
    var k := FirstMissing(u.data, 0, n);
    FilledToEdge(u, k);
    assert k <= n;
  }

  lemma ResumeIs(env: Env, u: Upload)
    requires Tidy(env, u) && !u.session.state.SessionCommitted?
    ensures var size, chunkSize := u.session.size, u.session.chunkSize;
            ResumePoint(u.session) == Edge(size, chunkSize, FirstMissing(u.data, 0, Count(size, chunkSize)))
  {
    assert 0 * u.session.chunkSize == 0;
    ResumeFromExact(env, u, 0);
  }

  lemma EdgeMonotone(size: int, chunkSize: int, i: int, j: int)
    requires size > 0 && chunkSize > 0 && i <= j
    ensures Edge(size, chunkSize, i) <= Edge(size, chunkSize, j)
    ensures i < j && i < Count(size, chunkSize) ==> Edge(size, chunkSize, i) < Edge(size, chunkSize, j)
  {
  }

  /** Accepting a chunk never moves the resume offset back. */
  lemma ResumeNeverDecreases(env: Env, u: Upload, index: int64, bytes: Bytes)
    requires Tidy(env, u) && index * u.session.chunkSize < TWO_63
    requires AddChunk(env, u, index, bytes).Ok?
    ensures ResumePoint(u.session) <= ResumePoint(AddChunk(env, u, index, bytes).value.session)
  {
    AddChunkKeepsTidy(env, u, index, bytes);
    var u' := AddChunk(env, u, index, bytes).value;
    ResumeIs(env, u);
    ResumeIs(env, u');
    var n := Count(u.session.size, u.session.chunkSize);
    EdgeMonotone(u.session.size, u.session.chunkSize, FirstMissing(u.data, 0, n), FirstMissing(u'.data, 0, n));
  }

  /** Four ways to say that an upload still in progress is full: the written
      counter, the resume offset, the chunk count Complete checks, and every
      chunk being there. The counter never exceeds the size. */
  lemma FullnessAgrees(env: Env, u: Upload)
    requires Tidy(env, u) && !u.session.state.SessionCommitted?
    ensures var s := u.session;
            && 0 <= s.written <= s.size
            && (s.written == s.size <==> u.data.Keys == Below(Count(s.size, s.chunkSize)))
            && (s.written == s.size <==> ResumePoint(s) == s.size)
            && (s.written == s.size <==> |u.data| == ChunkCount(s))
  {
    var s := u.session;
    var n := Count(s.size, s.chunkSize);
    FilledToEdge(u, n);
    EdgeAtCount(s.size, s.chunkSize);
    CountMeansAll(env, u);
    SplitChunksIsExactIff(s.size, s.chunkSize);
    ResumeIs(env, u);
    var k := FirstMissing(u.data, 0, n);
    EdgeMonotone(s.size, s.chunkSize, k, n);
    assert (forall i | 0 <= i < n :: i in u.data) <==> k == n;
    assert (forall i | 0 <= i < n :: i in u.data) <==> u.data.Keys == Below(n);
  }
}
