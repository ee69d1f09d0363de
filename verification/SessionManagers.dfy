/** internal/transfer/session.go and chunk.go: the session manager. */
module SessionManagers {
  import opened Model
  import opened NestedMaps
  import opened Sets
  import opened Sorting
  import opened Chunking
  import opened Uploads
  import opened BlobStores
  import opened Repos
  import opened Auth
  import opened Transfers

  lemma NextLeast(indexes: seq<int>, keys: set<int>)
    requires indexes != [] && Sorted(IntLe, indexes) && multiset(indexes) == multiset(keys)
    ensures keys != {} && Least(keys) == indexes[0]
    ensures multiset(indexes[1..]) == multiset(keys - {indexes[0]})
  {
    assert indexes == [indexes[0]] + indexes[1..];
    assert indexes[0] in multiset(indexes);
    assert indexes[0] in keys;
    forall k <- keys ensures indexes[0] <= k {
      assert k in multiset(keys);
      assert k in indexes;
    }
    assert multiset(keys - {indexes[0]}) == multiset(keys) - multiset{indexes[0]};
  }

  class SessionManager {
    const env: Env
    const blobs: BlobStore
    const auth: AuthStore
    const repos: RepoStore
    var sessions: map<string, Session>
    var chunkData: map<string, map<int, Bytes>>
    var releases: map<string, nat>
    ghost var issued: set<string>

    ghost predicate Valid()
      reads this, blobs, repos
    {
      && blobs.env == env && blobs.Valid()
      && (forall id <- sessions :: sessions[id].size > 0 && sessions[id].chunkSize > 0)
      && (forall id <- releases :: releases[id] < |repos.tickets|)
    }

    ghost function Table(): SessionTable
      reads this
    {
      SessionTable(sessions, chunkData, releases, issued)
    }

    ghost function View(): Transfer
      reads this, blobs, repos, auth
    {
      Transfer(blobs.table, repos.View(), auth.View(), Table())
    }

    constructor (blobs: BlobStore, auth: AuthStore, repos: RepoStore)
      requires blobs.Valid()
      ensures Valid() && this.blobs == blobs && this.auth == auth && this.repos == repos && env == blobs.env
      ensures Table() == SessionTable(map[], map[], map[], {})
    {
      this.env := blobs.env;
      this.blobs := blobs;
      this.auth := auth;
      this.repos := repos;
      sessions := map[];
      chunkData := map[];
      releases := map[];
      issued := {};
    }

    method Reserve(repo: string, digest: string, size: int) returns (r: Result<()>)
      requires Valid()
      modifies blobs
      ensures Valid() && (blobs.table, r) == Transfers.Reserve(old(blobs.table), repo, digest, size)
    {
      r := Ok(());
      if digest != "" {
        var staged := blobs.Stage(repo, digest, size);
        if staged.Err? && staged.error != AlreadyExists {
          return staged;
        }
      }
    }

    method Register(token: string, id: string, session: Session, ticket: nat) returns (r: Result<Session>)
      requires Valid() && ticket < |repos.tickets| && session.size > 0 && session.chunkSize > 0
      modifies this, repos, auth
      ensures Valid() && (View(), r) == Transfers.Register(old(View()), token, id, session, ticket)
    {
      sessions := sessions[id := session];
      chunkData := chunkData[id := map[]];
      releases := releases[id := ticket];
      issued := issued + {id};
      var bound := auth.Bind(token, id);
      if bound.Err? {
        sessions := sessions - {id};
        chunkData := chunkData - {id};
        releases := releases - {id};
        repos.Release(ticket);
        return Err(bound.error);
      }
      return Ok(session);
    }

    /** `id` is the random draw of sessionID(). */
    method Create(token: string, repo: string, name: string, size: int64, chunkSize: int64, digest: string, id: string)
      returns (r: Result<Session>)
      requires Valid()
      modifies this, blobs, repos, auth
      ensures Valid() && (View(), r) == Transfers.Create(old(View()), token, repo, name, size, chunkSize, digest, id)
    {
      var valid := auth.Validate(token);
      if valid.Err? {
        return Err(valid.error);
      }
      var alive := repos.Alive(repo);
      if !alive {
        return Err(NotFound);
      }
      var ticket := repos.Enter(repo);  // the namespace is alive, so Enter accepts it
      if name == "" || size <= 0 || chunkSize <= 0 {
        repos.Release(ticket.value);
        return Err(InvalidArgument);
      }
      var reserved := Reserve(repo, digest, size);
      if reserved.Err? {
        repos.Release(ticket.value);
        return Err(reserved.error);
      }
      var session := Session(repo, name, digest, SessionUploading, size, chunkSize, [], 0, token);
      r := Register(token, id, session, ticket.value);
    }

    method Get(token: string, id: string) returns (r: Result<Session>)
      ensures r == GetSession(View(), token, id)
    {
      var valid := auth.ValidateForSession(token, id);
      if valid.Err? {
        return Err(valid.error);
      }
      if id !in sessions {
        return Err(NotFound);
      }
      return Ok(sessions[id]);
    }

    method FireRelease(id: string)
      requires Valid()
      modifies this`releases, repos
      ensures Valid() && repos.View() == Fired(old(View()), id) && releases == old(releases) - {id}
    {
      if id in releases {
        var ticket := releases[id];
        releases := releases - {id};
        repos.Release(ticket);
      }
    }

    method Abort(token: string, id: string) returns (r: Result<()>)
      requires Valid()
      modifies this, repos
      ensures Valid() && (View(), r) == Transfers.Abort(old(View()), token, id)
    {
      var valid := auth.ValidateForSession(token, id);
      if valid.Err? {
        return Err(valid.error);
      }
      if id !in sessions {
        return Err(NotFound);
      }
      sessions := sessions - {id};
      chunkData := chunkData - {id};
      FireRelease(id);
      return Ok(());
    }

    method IsDigestUploading(repo: string, digest: string) returns (r: bool)
      ensures r <==> Table().IsDigestUploading(repo, digest)
    {
      var todo := sessions.Keys;
      while todo != {}
        invariant todo <= sessions.Keys
        invariant forall id <- sessions.Keys - todo ::
          sessions[id].repo != repo || sessions[id].digest != digest || sessions[id].state.SessionCommitted?
      {
        var id := PickAny(todo);
        var s := sessions[id];
        if s.repo == repo && s.digest == digest && !s.state.SessionCommitted? {
          return true;
        }
        todo := todo - {id};
      }
      return false;
    }

    method UploadChunk(token: string, id: string, index: int64, bytes: Bytes) returns (r: Result<()>)
      requires Valid()
      modifies this
      ensures Valid() && (View(), r) == Transfers.UploadChunk(env, old(View()), token, id, index, bytes)
    {
      var valid := auth.ValidateForSession(token, id);
      if valid.Err? {
        return Err(valid.error);
      }
      if |bytes| == 0 {
        return Err(InvalidArgument);
      }
      if id !in sessions {
        return Err(NotFound);
      }
      var s := sessions[id];
      if !s.state.SessionUploading? {
        return Err(InvalidState);
      }
      var expected := ChunkSizeFor(s.size, s.chunkSize, index);
      if expected == 0 {
        return Err(InvalidArgument);
      }
      if |bytes| != expected {
        return Err(Conflict);
      }
      var data := At(chunkData, id);
      if index in data {
        return Err(Conflict);
      }
      chunkData := chunkData[id := data[index := bytes]];
      var chunk := Chunk(index, Wrap64(index * s.chunkSize), |bytes|, env.digestOf(bytes));
      sessions := sessions[id := s.(chunks := s.chunks + [chunk], written := s.written + |bytes|)];
      return Ok(());
    }

    method ResumeOffset(token: string, id: string) returns (r: Result<int>)
      requires Valid()
      ensures r == Transfers.ResumeOffset(View(), token, id)
    {
      var valid := auth.ValidateForSession(token, id);
      if valid.Err? {
        return Err(valid.error);
      }
      if id !in sessions {
        return Err(NotFound);
      }
      var s := sessions[id];
      if s.state.SessionCommitted? {
        return Ok(s.size);
      }
      var present: set<int> := {};
      for k := 0 to |s.chunks|
        invariant present == set j | 0 <= j < k :: s.chunks[j].index
      {
        present := present + {s.chunks[k].index};
      }
      assert present == Present(s);
      var offset, index := 0, 0;
      while index in present
        invariant 0 <= index
        invariant ResumeFrom(s, index, offset) == ResumeFrom(s, 0, 0)
        decreases From(present, index)
      {
        var size := ChunkSizeFor(s.size, s.chunkSize, index);
        if size == 0 {
          break;
        }
        offset := offset + size;
        if offset >= s.size {
          break;
        }
        assert index in From(present, index) && index !in From(present, index + 1);
        index := index + 1;
      }
      return Ok(offset);
    }

    /** The indexes of the stored chunks, in increasing order. */
    method SortedIndexes(data: map<int, Bytes>) returns (indexes: seq<int>)
      ensures Sorted(IntLe, indexes) && multiset(indexes) == multiset(data.Keys)
    {
      indexes := [];
      var todo := data.Keys;
      while todo != {}
        invariant todo <= data.Keys
        invariant multiset(indexes) == multiset(data.Keys - todo)
      {
        var index := PickAny(todo);
        indexes := indexes + [index];
        assert data.Keys - (todo - {index}) == (data.Keys - todo) + {index};
        todo := todo - {index};
      }
      assert data.Keys - {} == data.Keys;
      IntOrder();
      SortSorts(IntLe, indexes);
      indexes := Sort(IntLe, indexes);
    }

    /** Every chunk of a session joined in index order. */
    method Assemble(data: map<int, Bytes>) returns (assembled: Bytes)
      ensures assembled == Assembled(data)
    {
      var indexes := SortedIndexes(data);
      assembled := [];
      ghost var rest := data;
      assert indexes[0..] == indexes;
      for k := 0 to |indexes|
        invariant Sorted(IntLe, indexes[k..]) && multiset(indexes[k..]) == multiset(rest.Keys)
        invariant rest.Keys <= data.Keys && forall i <- rest :: rest[i] == data[i]
        invariant assembled + Assembled(rest) == Assembled(data)
      {
        NextLeast(indexes[k..], rest.Keys);
        assert indexes[k..][1..] == indexes[k + 1..];
        assert assembled + (rest[indexes[k]] + Assembled(rest - {indexes[k]})) == Assembled(data);
        assembled := assembled + data[indexes[k]];
        rest := rest - {indexes[k]};
      }
      assert |multiset(rest.Keys)| == 0;
    }

    /** Complete up to the point where it puts the blob. Its call of Verify works on
        a copy of a session that is uploading, so it cannot fail. */
    method Begin(token: string, id: string) returns (r: Result<Completion>)
      requires Valid()
      ensures r == Transfers.Begin(env, View(), token, id)
      ensures r.Ok? ==> id in sessions
    {
      var valid := auth.ValidateForSession(token, id);
      if valid.Err? {
        return Err(valid.error);
      }
      if id !in sessions {
        return Err(NotFound);
      }
      var s := sessions[id];
      if !s.state.SessionUploading? {
        return Err(InvalidState);
      }
      var chunkCount := TruncDiv(Wrap64(s.size + s.chunkSize - 1), s.chunkSize);
      var data := At(chunkData, id);
      if |data| != chunkCount {
        return Err(Unfinished);
      }
      var assembled := Assemble(data);
      if s.digest != "" && env.digestOf(assembled) != s.digest {
        return Err(Corrupt);
      }
      return Ok(Completion(id, s.repo, assembled));
    }

    /** Complete from the point where it locks again. */
    method Finish(id: string) returns (r: Result<()>)
      requires Valid()
      modifies this, repos
      ensures Valid() && (View(), r) == Transfers.Finish(old(View()), id)
    {
      if id !in sessions {
        return Err(NotFound);
      }
      sessions := sessions[id := sessions[id].(state := SessionCommitted)];
      FireRelease(id);
      return Ok(());
    }

    method Complete(token: string, id: string) returns (r: Result<Blob>)
      requires Valid()
      modifies this, blobs, repos
      ensures Valid() && (View(), r) == Transfers.Complete(env, old(View()), token, id)
    {
      var c := Begin(token, id);
      if c.Err? {
        return Err(c.error);
      }
      r := blobs.Put(c.value.repo, c.value.bytes);
      if r.Err? {
        return;
      }
      var _ := Finish(id);
    }
  }
}
