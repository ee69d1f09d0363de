/** Chunked upload gives back the content: whatever order the chunks of a
    content arrive in, and whatever rejected chunks arrive between them, what
    Complete assembles is the content. */
module RoundTrip {
  import opened Model
  import opened Chunking
  import opened Sets
  import opened Uploads

  /** Chunk i of a content. */
  function Slice(content: Bytes, chunkSize: int, i: int): Bytes
    requires |content| > 0 && chunkSize > 0 && 0 <= i
  {
    Monotone(0, i, chunkSize);
    Monotone(0, i + 1, chunkSize);
    EdgeMonotone(|content|, chunkSize, i, i + 1);
    content[Edge(|content|, chunkSize, i)..Edge(|content|, chunkSize, i + 1)]
  }

  datatype Arrival = Arrival(index: int64, bytes: Bytes)

  /** The upload after some chunks were sent in this order; a rejected chunk
      changes nothing. */
  function Receive(env: Env, u: Upload, arrivals: seq<Arrival>): Upload {
    if arrivals == [] then u
    else
      var before := Receive(env, u, arrivals[..|arrivals| - 1]);
      var last := arrivals[|arrivals| - 1];
      match AddChunk(env, before, last.index, last.bytes)
      case Ok(after) => after
      case Err(_) => before
  }

  ghost predicate Genuine(content: Bytes, chunkSize: int, a: Arrival)
    requires |content| > 0 && chunkSize > 0
  {
    0 <= a.index < Count(|content|, chunkSize) && a.bytes == Slice(content, chunkSize, a.index)
  }

  /** Some genuine arrival before position k had this index. */
  ghost predicate ArrivedBefore(content: Bytes, chunkSize: int, arrivals: seq<Arrival>, k: nat, index: int)
    requires |content| > 0 && chunkSize > 0 && k <= |arrivals|
  {
    exists j | 0 <= j < k :: arrivals[j].index == index && Genuine(content, chunkSize, arrivals[j])
  }

  /** Arrival k is a genuine chunk, or repeats an index that has arrived, or is
      refused for its index or its length. What is left out is a chunk that would be
      accepted without being the content's. */
  ghost predicate Deliverable(content: Bytes, chunkSize: int64, arrivals: seq<Arrival>, k: nat)
    requires 0 < |content| < TWO_63 && chunkSize > 0 && k < |arrivals|
  {
    var expected := ChunkSizeFor(|content|, chunkSize, arrivals[k].index);
    || Genuine(content, chunkSize, arrivals[k])
    || expected == 0
    || |arrivals[k].bytes| != expected
    || ArrivedBefore(content, chunkSize, arrivals, k, arrivals[k].index)
  }

  ghost predicate Delivery(content: Bytes, chunkSize: int64, arrivals: seq<Arrival>)
    requires 0 < |content| < TWO_63 && chunkSize > 0
  {
    forall k | 0 <= k < |arrivals| :: Deliverable(content, chunkSize, arrivals, k)
  }

  /** An open, tidy upload whose chunks are those of the content at the indexes that arrived. */
  ghost predicate Follows(env: Env, content: Bytes, chunkSize: int, u: Upload, arrivals: seq<Arrival>)
    requires |content| > 0 && chunkSize > 0
  {
    && Tidy(env, u)
    && u.session.state.SessionUploading?
    && u.session.size == |content| && u.session.chunkSize == chunkSize
    && (forall i :: i in u.data <==> ArrivedBefore(content, chunkSize, arrivals, |arrivals|, i))
    && (forall i <- u.data :: u.data[i] == Slice(content, chunkSize, i))
  }

  lemma ArrivedStep(content: Bytes, chunkSize: int, arrivals: seq<Arrival>, i: int)
    requires |content| > 0 && chunkSize > 0 && arrivals != []
    ensures var earlier := arrivals[..|arrivals| - 1];
            var last := arrivals[|arrivals| - 1];
            ArrivedBefore(content, chunkSize, arrivals, |arrivals|, i) <==>
            || ArrivedBefore(content, chunkSize, earlier, |earlier|, i)
            || (last.index == i && Genuine(content, chunkSize, last))
  {
  }

  lemma ArrivedPrefix(content: Bytes, chunkSize: int, arrivals: seq<Arrival>, k: nat, index: int)
    requires |content| > 0 && chunkSize > 0 && k <= |arrivals|
    ensures ArrivedBefore(content, chunkSize, arrivals, k, index) <==>
            ArrivedBefore(content, chunkSize, arrivals[..k], k, index)
  {
  }

  lemma DeliveryPrefix(content: Bytes, chunkSize: int64, arrivals: seq<Arrival>)
    requires 0 < |content| < TWO_63 && chunkSize > 0 && arrivals != []
    requires Delivery(content, chunkSize, arrivals)
    ensures Delivery(content, chunkSize, arrivals[..|arrivals| - 1])
  {
    var earlier := arrivals[..|arrivals| - 1];
    forall k | 0 <= k < |earlier| ensures Deliverable(content, chunkSize, earlier, k) {
      assert Deliverable(content, chunkSize, arrivals, k);
      ArrivedPrefix(content, chunkSize, arrivals, k, arrivals[k].index);
      ArrivedPrefix(content, chunkSize, earlier, k, arrivals[k].index);
      assert earlier[..k] == arrivals[..k];
    }
  }

  lemma SliceLength(content: Bytes, chunkSize: int, i: int)
    requires |content| > 0 && chunkSize > 0 && 0 <= i
    ensures |Slice(content, chunkSize, i)| == Length(|content|, chunkSize, i)
  {
  }

  /** The index of a genuine chunk does not wrap. */
  lemma GenuineIndex(content: Bytes, chunkSize: int64, a: Arrival)
    requires 0 < |content| < TWO_63 && chunkSize > 0 && Genuine(content, chunkSize, a)
    ensures a.index * chunkSize < TWO_63 && |a.bytes| == Length(|content|, chunkSize, a.index)
  {
    IndexInside(|content|, chunkSize, a.index);
    SliceLength(content, chunkSize, a.index);
  }

  /** The next arrival of a delivery is accepted exactly when it is genuine and new. */
  lemma {:induction false} NextAccepted(env: Env, content: Bytes, chunkSize: int64, u: Upload, arrivals: seq<Arrival>,
                                        last: Arrival)
    requires 0 < |content| < TWO_63 && chunkSize > 0
    requires Follows(env, content, chunkSize, u, arrivals)
    requires var expected := ChunkSizeFor(|content|, chunkSize, last.index);
             || Genuine(content, chunkSize, last)
             || expected == 0
             || |last.bytes| != expected
             || ArrivedBefore(content, chunkSize, arrivals, |arrivals|, last.index)
    ensures AddChunk(env, u, last.index, last.bytes).Ok? <==> Genuine(content, chunkSize, last) && last.index !in u.data
  {
    if Genuine(content, chunkSize, last) {
      GenuineIndex(content, chunkSize, last);
      AcceptedIff(env, u, last.index, last.bytes);
    }
  }

  lemma FollowsAccepted(env: Env, content: Bytes, chunkSize: int64, u: Upload, arrivals: seq<Arrival>)
    requires 0 < |content| < TWO_63 && chunkSize > 0 && arrivals != []
    requires Follows(env, content, chunkSize, u, arrivals[..|arrivals| - 1])
    requires var last := arrivals[|arrivals| - 1];
             Genuine(content, chunkSize, last) && AddChunk(env, u, last.index, last.bytes).Ok?
    ensures var last := arrivals[|arrivals| - 1];
            Follows(env, content, chunkSize, AddChunk(env, u, last.index, last.bytes).value, arrivals)
  {
    var last := arrivals[|arrivals| - 1];
    GenuineIndex(content, chunkSize, last);
    AddChunkKeepsTidy(env, u, last.index, last.bytes);
    forall i { ArrivedStep(content, chunkSize, arrivals, i); }
  }

  lemma FollowsRejected(env: Env, content: Bytes, chunkSize: int, u: Upload, arrivals: seq<Arrival>)
    requires |content| > 0 && chunkSize > 0 && arrivals != []
    requires Follows(env, content, chunkSize, u, arrivals[..|arrivals| - 1])
    requires var last := arrivals[|arrivals| - 1]; Genuine(content, chunkSize, last) ==> last.index in u.data
    ensures Follows(env, content, chunkSize, u, arrivals)
  {
    forall i { ArrivedStep(content, chunkSize, arrivals, i); }
  }

  /** One more arrival keeps an upload following the content. */
  lemma FollowsStep(env: Env, content: Bytes, chunkSize: int64, u: Upload, arrivals: seq<Arrival>)
    requires 0 < |content| < TWO_63 && chunkSize > 0 && arrivals != []
    requires Deliverable(content, chunkSize, arrivals, |arrivals| - 1)
    requires Follows(env, content, chunkSize, u, arrivals[..|arrivals| - 1])
    ensures var last := arrivals[|arrivals| - 1];
            var r := AddChunk(env, u, last.index, last.bytes);
            Follows(env, content, chunkSize, if r.Ok? then r.value else u, arrivals)
  {
    var k := |arrivals| - 1;
    var last := arrivals[k];
    ArrivedPrefix(content, chunkSize, arrivals, k, last.index);
    NextAccepted(env, content, chunkSize, u, arrivals[..k], last);
    if AddChunk(env, u, last.index, last.bytes).Ok? {
      FollowsAccepted(env, content, chunkSize, u, arrivals);
    } else {
      FollowsRejected(env, content, chunkSize, u, arrivals);
    }
  }

  lemma {:induction false} DeliveryIsFollowed(env: Env, content: Bytes, u: Upload, arrivals: seq<Arrival>)
    requires 0 < |content| < TWO_63 && u.session.chunkSize > 0
    requires Follows(env, content, u.session.chunkSize, u, [])
    requires Delivery(content, u.session.chunkSize, arrivals)
    ensures Follows(env, content, u.session.chunkSize, Receive(env, u, arrivals), arrivals)
  {
    if arrivals == [] {
    } else {
      DeliveryPrefix(content, u.session.chunkSize, arrivals);
      DeliveryIsFollowed(env, content, u, arrivals[..|arrivals| - 1]);
      FollowsStep(env, content, u.session.chunkSize, Receive(env, u, arrivals[..|arrivals| - 1]), arrivals);
    }
  }

  lemma SliceThenRest(content: Bytes, chunkSize: int, k: int)
    requires |content| > 0 && chunkSize > 0 && 0 <= k
    ensures 0 <= Edge(|content|, chunkSize, k) <= Edge(|content|, chunkSize, k + 1) <= |content|
    ensures content[Edge(|content|, chunkSize, k)..] ==
            Slice(content, chunkSize, k) + content[Edge(|content|, chunkSize, k + 1)..]
  {
  }

  /** Chunks k, k+1, ... of a content, joined by increasing index, are its end. */
  lemma {:induction false} AssembledSlices(content: Bytes, chunkSize: int, data: map<int, Bytes>, k: int)
    requires |content| > 0 && chunkSize > 0 && 0 <= k <= Count(|content|, chunkSize)
    requires forall i :: i in data <==> k <= i < Count(|content|, chunkSize)
    requires forall i <- data :: data[i] == Slice(content, chunkSize, i)
    requires 0 <= Edge(|content|, chunkSize, k) <= |content|
    ensures Assembled(data) == content[Edge(|content|, chunkSize, k)..]
    decreases Count(|content|, chunkSize) - k
  {
    var n := Count(|content|, chunkSize);
    EdgeAtCount(|content|, chunkSize);
    if k < n {
      assert Least(data.Keys) == k by { assert k in data; }
      SliceThenRest(content, chunkSize, k);
      AssembledSlices(content, chunkSize, data - {k}, k + 1);
    } else if data.Keys != {} {
      assert Pick(data.Keys) in data;
    }
  }

  lemma FullCount(env: Env, u: Upload)
    requires Tidy(env, u)
    requires forall i | 0 <= i < Count(u.session.size, u.session.chunkSize) :: i in u.data
    ensures |u.data| == ChunkCount(u.session)
  {
    assert u.data.Keys == Below(Count(u.session.size, u.session.chunkSize));
    CountMeansAll(env, u);
    SplitChunksIsExactIff(u.session.size, u.session.chunkSize);
  }

  lemma EverythingArrived(env: Env, content: Bytes, chunkSize: int64, u: Upload, arrivals: seq<Arrival>)
    requires 0 < |content| < TWO_63 && Fits(|content|, chunkSize)
    requires Follows(env, content, chunkSize, u, arrivals)
    requires forall i | 0 <= i < Count(|content|, chunkSize) :: ArrivedBefore(content, chunkSize, arrivals, |arrivals|, i)
    ensures |u.data| == ChunkCount(u.session)
    ensures Assembled(u.data) == content
  {
    var n := Count(|content|, chunkSize);
    assert forall i :: i in u.data <==> 0 <= i < n by {
      assert InRange(u);
    }
    FullCount(env, u);
    Monotone(0, 0, chunkSize);
    AssembledSlices(content, chunkSize, u.data, 0);
  }

  /** The round trip. A session opened for a content's size, sent chunks of that
      content in any order until each index has arrived, passes Complete's count
      check and assembles exactly the content. */
  lemma {:induction false} ChunkedRoundTrip(env: Env, repo: string, name: string, digest: string, chunkSize: int64,
                                            token: string, content: Bytes, arrivals: seq<Arrival>)
    requires 0 < |content| < TWO_63 && Fits(|content|, chunkSize)
    requires Delivery(content, chunkSize, arrivals)
    requires forall i | 0 <= i < Count(|content|, chunkSize) :: ArrivedBefore(content, chunkSize, arrivals, |arrivals|, i)
    ensures var u := Receive(env, Opened(repo, name, digest, |content|, chunkSize, token), arrivals);
            && u.session.state.SessionUploading?
            && u.session.chunkSize == chunkSize
            && |u.data| == ChunkCount(u.session)
            && Assembled(u.data) == content
  {
    var u0 := Opened(repo, name, digest, |content|, chunkSize, token);
    OpenedIsTidy(env, repo, name, digest, |content|, chunkSize, token);
    DeliveryIsFollowed(env, content, u0, arrivals);
    EverythingArrived(env, content, chunkSize, Receive(env, u0, arrivals), arrivals);
  }

  /** Any full tidy upload assembles to as many bytes as were announced. */
  lemma {:induction false} AssembledSize(u: Upload, data: map<int, Bytes>, k: int)
    requires Fits(u.session.size, u.session.chunkSize)
    requires 0 <= k <= Count(u.session.size, u.session.chunkSize)
    requires forall i :: i in data <==> k <= i < Count(u.session.size, u.session.chunkSize)
    requires forall i <- data :: |data[i]| == Length(u.session.size, u.session.chunkSize, i)
    ensures |Assembled(data)| == u.session.size - Edge(u.session.size, u.session.chunkSize, k)
    decreases Count(u.session.size, u.session.chunkSize) - k
  {
    var n := Count(u.session.size, u.session.chunkSize);
    EdgeAtCount(u.session.size, u.session.chunkSize);
    if k < n {
      assert Least(data.Keys) == k by { assert k in data; }
      AssembledSize(u, data - {k}, k + 1);
    } else if data.Keys != {} {
      assert Pick(data.Keys) in data;
    }
  }

  /** What goes wrong beyond int64: an 8-byte upload in chunks of 4 accepts index
      2^62 as a chunk. It then counts as full and passes Complete's count check
      while its second chunk is missing and its resume offset is 4. */
  lemma WrappedChunkFillsUpload(env: Env, first: Bytes, stray: Bytes)
    requires |first| == 4 && |stray| == 4
    ensures var u := Receive(env, Opened("repo", "name", "", 8, 4, "token"),
                             [Arrival(0, first), Arrival(0x4000_0000_0000_0000, stray)]);
            && u.session.written == u.session.size && |u.data| == ChunkCount(u.session)
            && 1 !in u.data && ResumePoint(u.session) == 4
  {
    var u0 := Opened("repo", "name", "", 8, 4, "token");
    var u1 := AddChunk(env, u0, 0, first).value;
    var u2 := AddChunk(env, u1, 0x4000_0000_0000_0000, stray).value;
    var arrivals := [Arrival(0, first), Arrival(0x4000_0000_0000_0000, stray)];
    assert arrivals[..1] == [Arrival(0, first)] && arrivals[..1][..0] == [];
    assert Receive(env, u0, arrivals[..1]) == u1;
    assert Receive(env, u0, arrivals) == u2;
    assert u2.session.chunks[0].index == 0;
    assert Present(u2.session) == {0, 0x4000_0000_0000_0000} by {
      assert u2.session.chunks[1].index == 0x4000_0000_0000_0000;
    }
    assert ResumeFrom(u2.session, 0, 0) == ResumeFrom(u2.session, 1, 4) == 4;
  }
}
