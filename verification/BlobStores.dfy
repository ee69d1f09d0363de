/** internal/blob/store.go: the blob store, split over shard tables. Every
    operation acts on the flat table the shards represent. */
module BlobStores {
  import opened Model
  import opened NestedMaps
  import opened Sets
  import opened Sorting
  import opened BlobTables

  function Shard(env: Env, digest: string, buckets: int): nat {
    env.hash64(digest) % (if buckets <= 0 then 1 else buckets)
  }

  function Sharding(env: Env, buckets: int): string -> nat {
    d => Shard(env, d, buckets)
  }

  ghost function DigestsIn(keys: set<Key>): set<string> {
    set k <- keys :: k.1
  }

  lemma RemovedMore(repo: string, keys: set<Key>, removed: seq<string>, digest: string)
    requires forall k <- keys :: k.0 == repo
    requires (repo, digest) !in keys && multiset(removed) == multiset(DigestsIn(keys))
    ensures multiset(removed + [digest]) == multiset(DigestsIn(keys + {(repo, digest)}))
  {
  }

  lemma UnreferencedAt(start: BlobTable, gone: set<Key>, repo: string, reachable: set<string>, digest: string)
    requires (repo, digest) in start.Without(gone).recs
    ensures (repo, digest) !in gone
    ensures (repo, digest) in start.Unreferenced(repo, reachable) <==>
            digest !in reachable && start.Without(gone).recs[(repo, digest)].refCount == 0
  {
  }

  class BlobStore {
    const env: Env
    const shards: int
    var blobs: map<string, map<nat, map<string, Blob>>>
    var data: map<string, map<nat, map<string, Bytes>>>

    ghost var table: BlobTable

    /** The shards hold the flat table, each entry in the shard of its digest. */
    ghost predicate Valid()
      reads this
    {
      && Represents(blobs, Sharding(env, shards), table.recs)
      && Represents(data, Sharding(env, shards), table.data)
    }

    constructor (env: Env, shards: int)
      ensures Valid() && table == BlobTable(map[], map[])
      ensures this.env == env && this.shards >= 1 && (shards >= 1 ==> this.shards == shards)
    {
      this.env := env;
      this.shards := if shards < 1 then 1 else shards;
      blobs := map[];
      data := map[];
      table := BlobTable(map[], map[]);
    }

    function ShardKey(digest: string): nat {
      Sharding(env, shards)(digest)
    }

    // Single entries of the two nested maps ------------------------------------

    method FindRecord(repo: string, digest: string) returns (r: Option<Blob>)
      requires Valid()
      ensures r.Some? <==> (repo, digest) in table.recs
      ensures r.Some? ==> r.value == table.recs[(repo, digest)]
    {
      var shardBlobs := AtShard(blobs, repo, ShardKey(digest));
      r := if digest in shardBlobs then Some(shardBlobs[digest]) else None;
    }

    method FindBytes(repo: string, digest: string) returns (r: Option<Bytes>)
      requires Valid()
      ensures r.Some? <==> (repo, digest) in table.data
      ensures r.Some? ==> r.value == table.data[(repo, digest)]
    {
      var shardData := AtShard(data, repo, ShardKey(digest));
      r := if digest in shardData then Some(shardData[digest]) else None;
    }

    method SetRecord(repo: string, digest: string, rec: Blob)
      requires Valid()
      modifies this`blobs, this`table
      ensures Valid() && table == old(table).(recs := old(table).recs[(repo, digest) := rec])
    {
      var shard := ShardKey(digest);
      ShardPut(blobs, Sharding(env, shards), table.recs, repo, digest, rec);
      blobs := WithShard(blobs, repo, shard, AtShard(blobs, repo, shard)[digest := rec]);
      table := table.(recs := table.recs[(repo, digest) := rec]);
    }

    method SetBytes(repo: string, digest: string, bytes: Bytes)
      requires Valid()
      modifies this`data, this`table
      ensures Valid() && table == old(table).(data := old(table).data[(repo, digest) := bytes])
    {
      var shard := ShardKey(digest);
      ShardPut(data, Sharding(env, shards), table.data, repo, digest, bytes);
      data := WithShard(data, repo, shard, AtShard(data, repo, shard)[digest := bytes]);
      table := table.(data := table.data[(repo, digest) := bytes]);
    }

    method Remove(repo: string, digest: string)
      requires Valid()
      modifies this
      ensures Valid() && table == old(table).Without({(repo, digest)})
    {
      var shard := ShardKey(digest);
      ShardDrop(blobs, Sharding(env, shards), table.recs, repo, digest);
      ShardDrop(data, Sharding(env, shards), table.data, repo, digest);
      blobs := WithShard(blobs, repo, shard, AtShard(blobs, repo, shard) - {digest});
      data := WithShard(data, repo, shard, AtShard(data, repo, shard) - {digest});
      table := table.Without({(repo, digest)});
    }

    // Reading -------------------------------------------------------------------

    method Get(repo: string, digest: string) returns (r: Result<Bytes>)
      requires Valid()
      ensures r == table.Get(repo, digest)
    {
      var bytes := FindBytes(repo, digest);
      var rec := FindRecord(repo, digest);
      if bytes.None? && rec.Some? {
        return Err(Unfinished);
      }
      if bytes.None? {
        return Err(NotFound);
      }
      return Ok(bytes.value);
    }

    method Exists(repo: string, digest: string) returns (r: bool)
      requires Valid()
      ensures r <==> (repo, digest) in table.recs
    {
      var rec := FindRecord(repo, digest);
      r := rec.Some?;
    }

    method Committed(repo: string, digest: string) returns (r: bool)
      requires Valid()
      ensures r <==> table.Committed(repo, digest)
    {
      var rec := FindRecord(repo, digest);
      r := rec.Some? && rec.value.state.BlobCommitted?;
    }

    method RefCount(repo: string, digest: string) returns (n: nat)
      requires Valid()
      ensures n == table.RefCount(repo, digest)
    {
      var rec := FindRecord(repo, digest);
      n := if rec.Some? then rec.value.refCount else 0;
    }

    /** The digests of a repository, sorted, each once. */
    method List(repo: string) returns (out: seq<string>)
      requires Valid()
      ensures Sorted(LexLe, out)
      ensures multiset(out) == multiset(table.Digests(repo))
    {
      out := [];
      var todo := At(blobs, repo).Keys;
      ghost var listed: set<string> := {};
      while todo != {}
        invariant todo <= At(blobs, repo).Keys
        invariant multiset(out) == multiset(listed)
        invariant forall d :: d in listed <==> d in AtShard(blobs, repo, ShardKey(d)) && ShardKey(d) !in todo
      {
        var shard := PickAny(todo);
        var digests := AtShard(blobs, repo, shard).Keys;
        ghost var before := listed;
        while digests != {}
          invariant digests <= AtShard(blobs, repo, shard).Keys
          invariant multiset(out) == multiset(listed)
          invariant forall d :: d in listed <==> d in before || (d in AtShard(blobs, repo, shard) && d !in digests)
        {
          var digest := PickAny(digests);
          assert ShardKey(digest) == shard;
          out := out + [digest];
          listed := listed + {digest};
          digests := digests - {digest};
        }
        todo := todo - {shard};
      }
      assert listed == table.Digests(repo) by { DigestsOf(repo, listed); }
      LexOrder();
      SortSorts(LexLe, out);
      out := Sort(LexLe, out);
    }

    lemma InShards(repo: string)
      requires Valid()
      ensures forall d :: (repo, d) in table.recs <==> d in AtShard(blobs, repo, ShardKey(d))
    {
    }

    lemma DigestsOf(repo: string, listed: set<string>)
      requires Valid()
      requires forall d :: d in listed <==> d in AtShard(blobs, repo, ShardKey(d))
      ensures listed == table.Digests(repo)
    {
    }

    // Updating ------------------------------------------------------------------

    method Put(repo: string, bytes: Bytes) returns (r: Result<Blob>)
      requires Valid()
      modifies this
      ensures Valid() && (table, r) == old(table).Put(env, repo, bytes)
    {
      if |bytes| == 0 {
        return Err(InvalidArgument);
      }
      var digest := env.digestOf(bytes);
      var existing := FindRecord(repo, digest);
      var rec;
      if existing.Some? {
        rec := existing.value.(state := BlobCommitted, refCount := existing.value.refCount + 1);
      } else {
        rec := Blob(digest, |bytes|, BlobCommitted, 1);
      }
      SetRecord(repo, digest, rec);
      SetBytes(repo, digest, bytes);
      return Ok(rec);
    }

    method Stage(repo: string, digest: string, size: int) returns (r: Result<()>)
      requires Valid()
      modifies this`blobs, this`table
      ensures Valid() && (table, r) == old(table).Stage(repo, digest, size)
    {
      if digest == "" || size < 0 {
        return Err(InvalidArgument);
      }
      var existing := FindRecord(repo, digest);
      if existing.Some? {
        return Err(AlreadyExists);
      }
      SetRecord(repo, digest, Blob(digest, size, BlobVerifying, 0));
      return Ok(());
    }

    method IncRef(repo: string, digest: string) returns (r: Result<()>)
      requires Valid()
      modifies this`blobs, this`table
      ensures Valid() && table == old(table).IncRef(repo, digest).0
      ensures r == old(table).IncRef(repo, digest).1
    {
      var b := FindRecord(repo, digest);
      if b.None? {
        return Err(NotFound);
      }
      ghost var before := table;
      SetRecord(repo, digest, b.value.(refCount := b.value.refCount + 1));
      assert table == before.IncRef(repo, digest).0;
      return Ok(());
    }

    method DecRef(repo: string, digest: string) returns (r: Result<()>)
      requires Valid()
      modifies this`blobs, this`table
      ensures Valid() && (table, r) == old(table).DecRef(repo, digest)
    {
      var b := FindRecord(repo, digest);
      if b.None? {
        return Err(NotFound);
      }
      if b.value.refCount > 0 {
        SetRecord(repo, digest, b.value.(refCount := b.value.refCount - 1));
      }
      return Ok(());
    }

    method Delete(repo: string, digest: string) returns (r: Result<()>)
      requires Valid()
      modifies this
      ensures Valid() && (table, r) == old(table).Delete(repo, digest)
    {
      var b := FindRecord(repo, digest);
      if b.None? {
        return Err(NotFound);
      }
      if b.value.refCount > 0 {
        return Err(Conflict);
      }
      Remove(repo, digest);
      return Ok(());
    }

    /** The scan over the shard tables removes what the flat table would: every
        unreachable record nobody holds, with its bytes, whatever the order. */
    method SweepUnreferenced(repo: string, reachable: set<string>) returns (removed: seq<string>)
      requires Valid()
      modifies this
      ensures Valid() && table == old(table).Sweep(repo, reachable)
      ensures Sorted(LexLe, removed)
      ensures multiset(removed) == multiset(DigestsIn(old(table).Unreferenced(repo, reachable)))
    {
      ghost var start := table;
      ghost var doomed := table.Unreferenced(repo, reachable);
      ghost var gone: set<Key> := {};
      removed := [];
      var todo := At(blobs, repo).Keys;
      InShards(repo);
      while todo != {}
        invariant Valid() && table == start.Without(gone)
        invariant gone <= doomed
        invariant forall k <- doomed :: k in gone || ShardKey(k.1) in todo
        invariant multiset(removed) == multiset(DigestsIn(gone))
      {
        var shard := PickAny(todo);
        gone, removed := SweepShard(repo, reachable, shard, start, gone, removed);
        todo := todo - {shard};
      }
      assert gone == doomed;
      LexOrder();
      SortSorts(LexLe, removed);
      removed := Sort(LexLe, removed);
    }

    /** The inner loop: one shard table. */
    method SweepShard(repo: string, reachable: set<string>, shard: nat, ghost start: BlobTable,
                      ghost goneBefore: set<Key>, removedBefore: seq<string>)
      returns (ghost gone: set<Key>, removed: seq<string>)
      requires Valid() && table == start.Without(goneBefore)
      requires goneBefore <= start.Unreferenced(repo, reachable)
      requires multiset(removedBefore) == multiset(DigestsIn(goneBefore))
      modifies this
      ensures Valid() && table == start.Without(gone)
      ensures goneBefore <= gone <= start.Unreferenced(repo, reachable)
      ensures forall k <- start.Unreferenced(repo, reachable) :: k in gone || ShardKey(k.1) != shard
      ensures multiset(removed) == multiset(DigestsIn(gone))
    {
      gone, removed := goneBefore, removedBefore;
      var digests := AtShard(blobs, repo, shard).Keys;
      InShards(repo);
      ghost var doomed := start.Unreferenced(repo, reachable);
      while digests != {}
        invariant Valid() && table == start.Without(gone)
        invariant goneBefore <= gone <= doomed
        invariant forall d <- digests :: (repo, d) in table.recs
        invariant forall k <- doomed :: k in gone || ShardKey(k.1) != shard || k.1 in digests
        invariant multiset(removed) == multiset(DigestsIn(gone))
      {
        var digest := PickAny(digests);
        digests := digests - {digest};
        UnreferencedAt(start, gone, repo, reachable, digest);
        var swept := SweepRecord(repo, reachable, digest);
        if swept {
          WithoutMore(start, gone, (repo, digest));
          RemovedMore(repo, gone, removed, digest);
          gone := gone + {(repo, digest)};
          removed := removed + [digest];
        }
      }
    }

    /** One record: removed when it is unreachable and nobody holds it. */
    method SweepRecord(repo: string, reachable: set<string>, digest: string) returns (swept: bool)
      requires Valid() && (repo, digest) in table.recs
      modifies this
      ensures Valid()
      ensures swept <==> digest !in reachable && old(table).recs[(repo, digest)].refCount == 0
      ensures table == if swept then old(table).Without({(repo, digest)}) else old(table)
    {
      var b := FindRecord(repo, digest);
      swept := digest !in reachable && b.value.refCount == 0;
      if swept {
        Remove(repo, digest);
      }
    }
  }
}
