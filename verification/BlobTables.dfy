/** The content-addressed blob layer as one flat table per kind of entry: what
    the sharded store means, and the invariant that makes it trustworthy. */
module BlobTables {
  import opened Model

  /** Metadata records and stored bytes, both keyed by repository and digest. */
  datatype BlobTable = BlobTable(recs: map<Key, Blob>, data: map<Key, Bytes>)
  {
    predicate Committed(repo: string, digest: string) {
      (repo, digest) in recs && recs[(repo, digest)].state.BlobCommitted?
    }

    function RefCount(repo: string, digest: string): nat {
      if (repo, digest) in recs then recs[(repo, digest)].refCount else 0
    }

    /** Bytes that are not there read as unfinished when a record is. */
    function Get(repo: string, digest: string): Result<Bytes> {
      if (repo, digest) in data then Ok(data[(repo, digest)])
      else if (repo, digest) in recs then Err(Unfinished)
      else Err(NotFound)
    }

    function Digests(repo: string): set<string> {
      set k <- recs | k.0 == repo :: k.1
    }

    // Updates ------------------------------------------------------------------

    function Stage(repo: string, digest: string, size: int): (BlobTable, Result<()>) {
      if digest == "" || size < 0 then (this, Err(InvalidArgument))
      else if (repo, digest) in recs then (this, Err(AlreadyExists))
      else (this.(recs := recs[(repo, digest) := Blob(digest, size, BlobVerifying, 0)]), Ok(()))
    }

    /** A known digest becomes committed, keeps its recorded size and gains a
        reference; a new one starts committed with one reference. */
    function Put(env: Env, repo: string, bytes: Bytes): (BlobTable, Result<Blob>) {
      if bytes == [] then (this, Err(InvalidArgument))
      else
        var digest := env.digestOf(bytes);
        var k := (repo, digest);
        var rec :=
          if k in recs then recs[k].(state := BlobCommitted, refCount := recs[k].refCount + 1)
          else Blob(digest, |bytes|, BlobCommitted, 1);
        (BlobTable(recs[k := rec], data[k := bytes]), Ok(rec))
    }

    function IncRef(repo: string, digest: string): (BlobTable, Result<()>) {
      var k := (repo, digest);
      if k !in recs then (this, Err(NotFound))
      else (this.(recs := recs[k := recs[k].(refCount := recs[k].refCount + 1)]), Ok(()))
    }

    /** Releasing a reference that is not held does nothing. */
    function DecRef(repo: string, digest: string): (BlobTable, Result<()>) {
      var k := (repo, digest);
      if k !in recs then (this, Err(NotFound))
      else if recs[k].refCount == 0 then (this, Ok(()))
      else (this.(recs := recs[k := recs[k].(refCount := recs[k].refCount - 1)]), Ok(()))
    }

    function Delete(repo: string, digest: string): (BlobTable, Result<()>) {
      var k := (repo, digest);
      if k !in recs then (this, Err(NotFound))
      else if recs[k].refCount > 0 then (this, Err(Conflict))
      else (BlobTable(recs - {k}, data - {k}), Ok(()))
    }

    /** What a sweep removes: everything unreachable that nobody holds. */
    function Unreferenced(repo: string, reachable: set<string>): set<Key> {
      set k <- recs | k.0 == repo && k.1 !in reachable && recs[k].refCount == 0
    }

    function Without(gone: set<Key>): BlobTable {
      BlobTable(recs - gone, data - gone)
    }

    function Sweep(repo: string, reachable: set<string>): BlobTable {
      Without(Unreferenced(repo, reachable))
    }
  }

  lemma WithoutMore(t: BlobTable, gone: set<Key>, k: Key)
    ensures t.Without(gone).Without({k}) == t.Without(gone + {k})
  {
  }

  /** Bytes are present exactly for committed records, and they have the digest
      they are stored under. */
  ghost predicate Sound(env: Env, t: BlobTable) {
    && (forall k :: k in t.data <==> k in t.recs && t.recs[k].state.BlobCommitted?)
    && (forall k <- t.data :: env.digestOf(t.data[k]) == k.1)
    && (forall k <- t.recs :: t.recs[k].digest == k.1)
  }

  lemma StageKeepsSound(env: Env, t: BlobTable, repo: string, digest: string, size: int)
    requires Sound(env, t)
    ensures Sound(env, t.Stage(repo, digest, size).0)
  {
  }

  lemma PutKeepsSound(env: Env, t: BlobTable, repo: string, bytes: Bytes)
    requires Sound(env, t)
    ensures Sound(env, t.Put(env, repo, bytes).0)
  {
  }

  lemma RefsKeepSound(env: Env, t: BlobTable, repo: string, digest: string)
    requires Sound(env, t)
    ensures Sound(env, t.IncRef(repo, digest).0)
    ensures Sound(env, t.DecRef(repo, digest).0)
  {
  }

  /** In a sound table, committed is the same as readable, and what is read has
      the digest asked for. */
  lemma CommittedIffReadable(env: Env, t: BlobTable, repo: string, digest: string)
    requires Sound(env, t)
    ensures t.Committed(repo, digest) <==> t.Get(repo, digest).Ok?
    ensures t.Get(repo, digest).Ok? ==> env.digestOf(t.Get(repo, digest).value) == digest
  {
  }

  /** A stored content is read back; with a collision-free digest nothing else
      can ever be read under its digest. */
  lemma PutThenGet(env: Env, t: BlobTable, repo: string, bytes: Bytes)
    requires bytes != []
    ensures t.Put(env, repo, bytes).0.Get(repo, env.digestOf(bytes)) == Ok(bytes)
  {
  }

  lemma OnlyItsContent(env: Env, t: BlobTable, repo: string, bytes: Bytes)
    requires Sound(env, t) && CollisionFree(env)
    ensures var r := t.Get(repo, env.digestOf(bytes)); r.Ok? ==> r.value == bytes
  {
  }

  // What the operations answer ----------------------------------------------------------------

  /** Put answers the record that is now stored under the digest of the bytes:
      committed, with one reference more, and of the size it was staged with. */
  lemma PutAnswers(env: Env, t: BlobTable, repo: string, bytes: Bytes)
    ensures var (t', r) := t.Put(env, repo, bytes);
            if bytes == [] then t' == t && r == Err(InvalidArgument)
            else
              var k := (repo, env.digestOf(bytes));
              && k in t'.recs && r == Ok(t'.recs[k])
              && t'.recs == t.recs[k := r.value] && t'.data == t.data[k := bytes]
              && r.value.state.BlobCommitted? && r.value.refCount == t.RefCount(k.0, k.1) + 1
              && r.value.digest == (if k in t.recs then t.recs[k].digest else k.1)
              && r.value.size == (if k in t.recs then t.recs[k].size else |bytes|)
  {
  }

  /** A reservation has no bytes and no reference, and touches nothing else. */
  lemma StageAnswers(env: Env, t: BlobTable, repo: string, digest: string, size: int)
    requires Sound(env, t)
    ensures var (t', r) := t.Stage(repo, digest, size);
            if digest == "" || size < 0 then t' == t && r == Err(InvalidArgument)
            else if (repo, digest) in t.recs then t' == t && r == Err(AlreadyExists)
            else
              && r == Ok(()) && t'.data == t.data
              && t'.recs == t.recs[(repo, digest) := Blob(digest, size, BlobVerifying, 0)]
              && t'.Get(repo, digest) == Err(Unfinished)
  {
  }

  /** What a read answers in a sound store. */
  lemma GetAnswers(env: Env, t: BlobTable, repo: string, digest: string)
    requires Sound(env, t)
    ensures var k := (repo, digest);
            t.Get(repo, digest) ==
            if k !in t.recs then Err(NotFound)
            else if t.recs[k].state != BlobCommitted then Err(Unfinished)
            else Ok(t.data[k])
  {
  }

  /** Taking and releasing a reference change one count by one, and nothing else; a
      count of zero stays. */
  lemma ReferenceAnswers(t: BlobTable, repo: string, digest: string)
    ensures var k := (repo, digest);
            if k !in t.recs then t.IncRef(repo, digest) == t.DecRef(repo, digest) == (t, Err(NotFound))
            else
              var rec := t.recs[k];
              && t.IncRef(repo, digest) == (t.(recs := t.recs[k := rec.(refCount := rec.refCount + 1)]), Ok(()))
              && t.DecRef(repo, digest) ==
                 (if rec.refCount == 0 then t else t.(recs := t.recs[k := rec.(refCount := rec.refCount - 1)]), Ok(()))
  {
  }

  /** An entry goes exactly when nobody holds it, record and bytes, and no other goes. */
  lemma DeleteAnswers(t: BlobTable, repo: string, digest: string)
    ensures var (t', r) := t.Delete(repo, digest);
            if (repo, digest) !in t.recs then t' == t && r == Err(NotFound)
            else if t.recs[(repo, digest)].refCount != 0 then t' == t && r == Err(Conflict)
            else r == Ok(()) && t'.recs == t.recs - {(repo, digest)} && t'.data == t.data - {(repo, digest)}
  {
  }
}
