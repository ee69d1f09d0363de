/** What the session operations answer and what they leave, from the fields of the
    tables alone: who is let through, which chunk is taken, where to resume, what is
    gone after an Abort and what a Complete stores. */
module SessionAnswers {
  import opened Model
  import opened Chunking
  import opened Sets
  import opened Uploads
  import opened RoundTrip
  import opened BlobTables
  import opened Auth
  import opened Transfers
  import opened Inflight
  import opened Pipeline

  /** The token is known, has not expired, and is bound to the session. */
  ghost predicate Authorized(auth: AuthTable, token: string, id: string) {
    id != "" && token in auth.tokens && auth.now <= auth.tokens[token].expiresAt && auth.tokens[token].session == id
  }

  /** Families agree, and no session is nameless. */
  ghost predicate Proper(auth: AuthTable) {
    FamiliesAgree(auth) && "" !in auth.sessions
  }

  lemma AuthorizedIff(auth: AuthTable, token: string, id: string)
    requires Proper(auth)
    ensures auth.ValidateForSession(token, id) == if Authorized(auth, token, id) then Ok(()) else Err(Unauthorized)
  {
    if id != "" { SessionTokenIff(auth, token, id); }
  }

  // Reading a session ---------------------------------------------------------------------------

  /** A session is shown exactly to an authorized token, as it is in the table. */
  lemma GetAnswers(t: Transfer, token: string, id: string)
    requires Proper(t.auth)
    ensures GetSession(t, token, id) ==
            if !Authorized(t.auth, token, id) then Err(Unauthorized)
            else if id !in t.sessions.sessions then Err(NotFound)
            else Ok(t.sessions.sessions[id])
  {
    AuthorizedIff(t.auth, token, id);
  }

  /** Without such a token every operation on a session is refused and changes nothing. */
  lemma UnauthorizedChangesNothing(env: Env, w: World, token: string, id: string, index: int64, bytes: Bytes)
    requires Proper(w.auth) && !Authorized(w.auth, token, id)
    ensures GetSession(w.Transfer(), token, id) == Err(Unauthorized)
    ensures ResumeOffset(w.Transfer(), token, id) == Err(Unauthorized)
    ensures UploadChunk(env, w.Transfer(), token, id, index, bytes) == (w.Transfer(), Err(Unauthorized))
    ensures Abort(w.Transfer(), token, id) == (w.Transfer(), Err(Unauthorized))
    ensures Begin(env, w.Transfer(), token, id) == Err(Unauthorized)
    ensures Complete(env, w.Transfer(), token, id) == (w.Transfer(), Err(Unauthorized))
    ensures CompleteSession(env, w, token, id) == (w, Err(Unauthorized))
  {
    AuthorizedIff(w.auth, token, id);
    GetAnswers(w.Transfer(), token, id);
  }

  /** A session that is not in the table is not found by any operation, and stays so. */
  lemma AbsentIsNotFound(env: Env, w: World, token: string, id: string, index: int64, bytes: Bytes)
    requires Proper(w.auth) && Authorized(w.auth, token, id) && id !in w.sessions.sessions
    ensures GetSession(w.Transfer(), token, id) == Err(NotFound)
    ensures ResumeOffset(w.Transfer(), token, id) == Err(NotFound)
    ensures UploadChunk(env, w.Transfer(), token, id, index, bytes) ==
            (w.Transfer(), Err(if bytes == [] then InvalidArgument else NotFound))
    ensures Abort(w.Transfer(), token, id) == (w.Transfer(), Err(NotFound))
    ensures Begin(env, w.Transfer(), token, id) == Err(NotFound)
    ensures Complete(env, w.Transfer(), token, id) == (w.Transfer(), Err(NotFound))
    ensures CompleteSession(env, w, token, id) == (w, Err(NotFound))
  {
    AuthorizedIff(w.auth, token, id);
    GetAnswers(w.Transfer(), token, id);
  }

  // Chunks --------------------------------------------------------------------------------------

  /** The answer to a chunk for a tidy upload, in exact arithmetic. */
  lemma AddChunkAnswers(env: Env, u: Upload, index: int64, bytes: Bytes)
    requires Tidy(env, u) && index * u.session.chunkSize < TWO_63
    ensures var r := AddChunk(env, u, index, bytes);
            if !u.session.state.SessionUploading? then r == Err(InvalidState)
            else if !(0 <= index < Count(u.session.size, u.session.chunkSize)) then r == Err(InvalidArgument)
            else if |bytes| != Length(u.session.size, u.session.chunkSize, index) || index in u.data then r == Err(Conflict)
            else r.Ok?
  {
    AcceptedIff(env, u, index, bytes);
    ChunkSizeForIsExactIff(u.session.size, u.session.chunkSize, index);
    LengthFacts(u.session.size, u.session.chunkSize, index);
  }

  /** UploadChunk answers Ok exactly when it stores the chunk: the token is
      authorized, there are bytes, the session is uploading, the index is inside the
      upload and missing, and the length is that chunk's. Every refusal has its error. */
  lemma {:induction false} UploadAnswers(env: Env, t: Transfer, token: string, id: string, index: int64, bytes: Bytes)
    requires Proper(t.auth)
    requires id in t.sessions.sessions ==>
               Tidy(env, t.sessions.UploadOf(id)) && index * t.sessions.sessions[id].chunkSize < TWO_63
    ensures UploadChunk(env, t, token, id, index, bytes).1 ==
            if !Authorized(t.auth, token, id) then Err(Unauthorized)
            else if bytes == [] then Err(InvalidArgument)
            else if id !in t.sessions.sessions then Err(NotFound)
            else
              var s := t.sessions.sessions[id];
              if !s.state.SessionUploading? then Err(InvalidState)
              else if !(0 <= index < Count(s.size, s.chunkSize)) then Err(InvalidArgument)
              else if |bytes| != Length(s.size, s.chunkSize, index) then Err(Conflict)
              else if index in t.sessions.UploadOf(id).data then Err(Conflict)
              else Ok(())
  {
    AuthorizedIff(t.auth, token, id);
    if id in t.sessions.sessions { AddChunkAnswers(env, t.sessions.UploadOf(id), index, bytes); }
  }

  /** A refused chunk changes nothing; an accepted one is stored as sent, listed, and
      changes nothing else. */
  lemma {:induction false} UploadStores(env: Env, t: Transfer, token: string, id: string, index: int64, bytes: Bytes)
    ensures var (t', r) := UploadChunk(env, t, token, id, index, bytes);
            && (r.Err? ==> t' == t)
            && (r.Ok? ==>
                  && id in t.sessions.sessions && id in t'.sessions.sessions
                  && var u, u' := t.sessions.UploadOf(id), t'.sessions.UploadOf(id);
                     && u'.data == u.data[index := bytes] && index !in u.data
                     && u'.session.written == u.session.written + |bytes|
                     && u'.session.chunks == u.session.chunks +
                          [Chunk(index, Wrap64(index * u.session.chunkSize), |bytes|, env.digestOf(bytes))]
                     && u'.session == u.session.(chunks := u'.session.chunks, written := u'.session.written)
                     && t' == t.(sessions := t'.sessions)
                     && t'.sessions.releases == t.sessions.releases && t'.sessions.issued == t.sessions.issued
                     && t'.sessions.sessions == t.sessions.sessions[id := u'.session]
                     && t'.sessions.chunks == t.sessions.chunks[id := u'.data])
  {
  }

  // Resuming ------------------------------------------------------------------------------------

  /** Chunk k is the first one missing, or k is their number and all are there. */
  ghost predicate FirstGap(u: Upload, k: int) {
    && u.session.size > 0 && u.session.chunkSize > 0
    && 0 <= k <= Count(u.session.size, u.session.chunkSize)
    && (forall i | 0 <= i < k :: i in u.data)
    && (k < Count(u.session.size, u.session.chunkSize) ==> k !in u.data)
  }

  lemma FirstGapExists(env: Env, u: Upload)
    requires Tidy(env, u)
    ensures exists k :: FirstGap(u, k)
  {
    assert FirstGap(u, FirstMissing(u.data, 0, Count(u.session.size, u.session.chunkSize)));
  }

  lemma ResumePointIs(env: Env, u: Upload, k: int)
    requires Tidy(env, u) && !u.session.state.SessionCommitted? && FirstGap(u, k)
    ensures ResumePoint(u.session) == Edge(u.session.size, u.session.chunkSize, k)
  {
    var n := Count(u.session.size, u.session.chunkSize);
    ResumeIs(env, u);
    assert FirstMissing(u.data, 0, n) == k;
  }

  /** ResumeOffset answers an authorized token with the byte at which the first
      missing chunk starts, the size when none is missing, and the size once the
      session has committed. */
  lemma ResumeAnswers(env: Env, t: Transfer, token: string, id: string, k: int)
    requires Proper(t.auth) && Authorized(t.auth, token, id) && id in t.sessions.sessions
    requires var u := t.sessions.UploadOf(id);
             !u.session.state.SessionCommitted? ==> Tidy(env, u) && FirstGap(u, k)
    ensures var u := t.sessions.UploadOf(id);
            && ResumeOffset(t, token, id) ==
               Ok(if u.session.state.SessionCommitted? then u.session.size else Edge(u.session.size, u.session.chunkSize, k))
            && (!u.session.state.SessionCommitted? && k == Count(u.session.size, u.session.chunkSize) ==>
                  ResumeOffset(t, token, id) == Ok(u.session.size))
  {
    GetAnswers(t, token, id);
    var u := t.sessions.UploadOf(id);
    if !u.session.state.SessionCommitted? {
      ResumePointIs(env, u, k);
      EdgeAtCount(u.session.size, u.session.chunkSize);
    }
  }

  // Aborting ------------------------------------------------------------------------------------

  /** Abort takes the session out of every table, and touches no other session, no
      blob and no token; its namespace has one push less in flight, if it was uploading. */
  lemma {:induction false} AbortAnswers(t: Transfer, token: string, id: string)
    requires Proper(t.auth) && Accounted(t.repos, t.sessions)
    ensures var (t', r) := Abort(t, token, id);
            && r == (if !Authorized(t.auth, token, id) then Err(Unauthorized)
                     else if id !in t.sessions.sessions then Err(NotFound)
                     else Ok(()))
            && (r.Err? ==> t' == t)
            && (r.Ok? ==>
                  && t'.sessions.sessions == t.sessions.sessions - {id}
                  && t'.sessions.chunks == t.sessions.chunks - {id}
                  && t'.sessions.releases == t.sessions.releases - {id}
                  && t'.sessions.issued == t.sessions.issued
                  && t'.blobs == t.blobs && t'.auth == t.auth
                  && t'.repos.repos == t.repos.repos && t'.repos.orphans == t.repos.orphans
                  && forall repo ::
                       t'.repos.Count(repo) == t.repos.Count(repo) - if id in Open(t.sessions, repo) then 1 else 0)
  {
    AuthorizedIff(t.auth, token, id);
    if id in t.sessions.releases { FiringCounts(t, id); }
  }

  // Completing ----------------------------------------------------------------------------------

  /** Every chunk of the upload is there. */
  ghost predicate Full(u: Upload) {
    && u.session.size > 0 && u.session.chunkSize > 0
    && forall i | 0 <= i < Count(u.session.size, u.session.chunkSize) :: i in u.data
  }

  lemma FullIff(env: Env, u: Upload)
    requires Tidy(env, u)
    ensures |u.data| == ChunkCount(u.session) <==> Full(u)
    ensures Full(u) ==> |Assembled(u.data)| == u.session.size
  {
    var n := Count(u.session.size, u.session.chunkSize);
    CountMeansAll(env, u);
    SplitChunksIsExactIff(u.session.size, u.session.chunkSize);
    if Full(u) {
      assert u.data.Keys == Below(n);
      assert forall i :: i in u.data <==> 0 <= i < n;
      assert 0 * u.session.chunkSize == 0;
      AssembledSize(u, u.data, 0);
    }
  }

  /** Complete's answer: who may complete, when, and with which error not. */
  lemma {:induction false} CompleteAnswers(env: Env, t: Transfer, token: string, id: string)
    requires Proper(t.auth) && (id in t.sessions.sessions ==> Tidy(env, t.sessions.UploadOf(id)))
    ensures var (t', r) := Complete(env, t, token, id);
            if !Authorized(t.auth, token, id) then t' == t && r == Err(Unauthorized)
            else if id !in t.sessions.sessions then t' == t && r == Err(NotFound)
            else
              var u := t.sessions.UploadOf(id);
              if !u.session.state.SessionUploading? then t' == t && r == Err(InvalidState)
              else if !Full(u) then t' == t && r == Err(Unfinished)
              else if u.session.digest != "" && env.digestOf(Assembled(u.data)) != u.session.digest then
                t' == t && r == Err(Corrupt)
              else r.Ok?
  {
    GetAnswers(t, token, id);
    if id in t.sessions.sessions { FullIff(env, t.sessions.UploadOf(id)); }
  }

  /** What a Complete that succeeds leaves: the joined bytes under their digest, with
      the record it answers; the session committed and otherwise as it was; no release
      of it; and every other session, token and blob as before. */
  lemma {:induction false} CompleteLeaves(env: Env, t: Transfer, token: string, id: string)
    requires Complete(env, t, token, id).1.Ok?
    ensures id in t.sessions.sessions
    ensures var (t', r) := Complete(env, t, token, id);
            var s := t.sessions.sessions[id];
            var content := Assembled(t.sessions.UploadOf(id).data);
            var k := (s.repo, env.digestOf(content));
            && k in t'.blobs.recs && r.value == t'.blobs.recs[k] && r.value.state.BlobCommitted?
            && r.value.refCount == t.blobs.RefCount(k.0, k.1) + 1
            && t'.blobs.data == t.blobs.data[k := content]
            && t'.blobs.recs == t.blobs.recs[k := r.value]
            && t'.sessions.sessions == t.sessions.sessions[id := s.(state := SessionCommitted)]
            && t'.sessions.chunks == t.sessions.chunks && t'.sessions.issued == t.sessions.issued
            && t'.sessions.releases == t.sessions.releases - {id}
            && t'.auth == t.auth && t'.repos == Fired(t, id)
  {
  }

  lemma CompletedDigest(env: Env, t: Transfer, token: string, id: string)
    requires Sound(env, t.blobs) && Complete(env, t, token, id).1.Ok?
    ensures id in t.sessions.sessions
    ensures Complete(env, t, token, id).1.value.state.BlobCommitted?
    ensures Complete(env, t, token, id).1.value.digest == env.digestOf(Assembled(t.sessions.UploadOf(id).data))
  {
    CompleteLeaves(env, t, token, id);
    var content := Assembled(t.sessions.UploadOf(id).data);
    PutAnswers(env, t.blobs, t.sessions.sessions[id].repo, content);
  }

  /** CompleteSession refuses a deleted namespace, and aborts the session there. */
  lemma {:induction false} CompleteSessionAnswers(env: Env, w: World, token: string, id: string)
    requires Proper(w.auth)
    ensures var (w', r) := CompleteSession(env, w, token, id);
            if !Authorized(w.auth, token, id) then w' == w && r == Err(Unauthorized)
            else if id !in w.sessions.sessions then w' == w && r == Err(NotFound)
            else
              var repo := w.sessions.sessions[id].repo;
              if repo !in w.repos.repos || w.repos.repos[repo] then
                && r == Err(NotFound)
                && w' == w.WithTransfer(Abort(w.Transfer(), token, id).0)
                && w'.blobs == w.blobs
                && id !in w'.sessions.sessions && id !in w'.sessions.chunks && id !in w'.sessions.releases
              else
                && w' == w.WithTransfer(Complete(env, w.Transfer(), token, id).0)
                && r == Complete(env, w.Transfer(), token, id).1
  {
    GetAnswers(w.Transfer(), token, id);
    AuthorizedIff(w.auth, token, id);
  }

  // Creating ------------------------------------------------------------------------------------

  /** Whether Create lets a session in. */
  lemma {:induction false} CreateAnswers(t: Transfer, token: string, repo: string, name: string, size: int64,
                                         chunkSize: int64, digest: string, id: string)
    ensures Create(t, token, repo, name, size, chunkSize, digest, id).1 ==
            if token !in t.auth.tokens || t.auth.now > t.auth.tokens[token].expiresAt then Err(Unauthorized)
            else if repo !in t.repos.repos || t.repos.repos[repo] then Err(NotFound)
            else if name == "" || size <= 0 || chunkSize <= 0 then Err(InvalidArgument)
            else Ok(Session(repo, name, digest, SessionUploading, size, chunkSize, [], 0, token))
  {
  }

  /** A refused Create leaves blobs, tokens and sessions as they are, and every count
      of pushes in flight. */
  lemma {:induction false} RefusedCreate(t: Transfer, token: string, repo: string, name: string, size: int64,
                                         chunkSize: int64, digest: string, id: string)
    requires Accounted(t.repos, t.sessions)
    requires Create(t, token, repo, name, size, chunkSize, digest, id).1.Err?
    ensures var t' := Create(t, token, repo, name, size, chunkSize, digest, id).0;
            && t'.blobs == t.blobs && t'.auth == t.auth && t'.sessions == t.sessions
            && t'.repos.repos == t.repos.repos && t'.repos.orphans == t.repos.orphans
            && forall r :: t'.repos.Count(r) == t.repos.Count(r)
  {
    assert t.repos.Count(repo) == |Open(t.sessions, repo)|;
  }

  /** An accepted Create: the session is in the table with no chunk, its token works
      for it and for nothing else, the namespace counts one push more, and the
      expected digest has a record, reserved if it was unknown. */
  lemma {:induction false} AcceptedCreate(t: Transfer, token: string, repo: string, name: string, size: int64,
                                          chunkSize: int64, digest: string, id: string)
    requires Create(t, token, repo, name, size, chunkSize, digest, id).1.Ok?
    ensures token in t.auth.tokens
    ensures var (t', r) := Create(t, token, repo, name, size, chunkSize, digest, id);
            && t'.sessions.sessions == t.sessions.sessions[id := r.value]
            && t'.sessions.chunks == t.sessions.chunks[id := map[]]
            && t'.sessions.issued == t.sessions.issued + {id}
            && t'.auth.now == t.auth.now
            && t'.auth.tokens == t.auth.tokens[token := t.auth.tokens[token].(session := id)]
            && t'.auth.sessions == t.auth.sessions[id := t.auth.tokens[token].family]
            && t'.repos.repos == t.repos.repos && t'.repos.orphans == t.repos.orphans
            && (forall x :: t'.repos.Count(x) == t.repos.Count(x) + if x == repo then 1 else 0)
  {
  }

  /** The reservation of an accepted Create. */
  lemma {:induction false} CreateReserves(t: Transfer, token: string, repo: string, name: string, size: int64,
                                          chunkSize: int64, digest: string, id: string)
    requires Create(t, token, repo, name, size, chunkSize, digest, id).1.Ok?
    ensures var t' := Create(t, token, repo, name, size, chunkSize, digest, id).0;
            && t'.blobs.data == t.blobs.data
            && (if digest == "" || (repo, digest) in t.blobs.recs then t'.blobs == t.blobs
                else t'.blobs.recs == t.blobs.recs[(repo, digest) := Blob(digest, size, BlobVerifying, 0)])
  {
  }
}
