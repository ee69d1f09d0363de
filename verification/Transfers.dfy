/** What the session manager of internal/transfer does, on values: sessions,
    their chunks and releases, and the stores they touch. */
module Transfers {
  import opened Model
  import opened Uploads
  import opened BlobTables
  import opened Repos
  import opened Auth

  /** `issued` remembers every session identifier ever drawn; drawing is random,
      so a new identifier is not among them. */
  datatype SessionTable = SessionTable(
    sessions: map<string, Session>, chunks: map<string, map<int, Bytes>>,
    releases: map<string, nat>, issued: set<string>)
  {
    function UploadOf(id: string): Upload
      requires id in sessions
    {
      Upload(sessions[id], if id in chunks then chunks[id] else map[])
    }

    /** Some session that has not committed expects this digest. */
    predicate IsDigestUploading(repo: string, digest: string) {
      exists id <- sessions ::
        sessions[id].repo == repo && sessions[id].digest == digest && !sessions[id].state.SessionCommitted?
    }

    function With(id: string, u: Upload): SessionTable {
      this.(sessions := sessions[id := u.session], chunks := chunks[id := u.data])
    }

    function Without(id: string): SessionTable {
      this.(sessions := sessions - {id}, chunks := chunks - {id}, releases := releases - {id})
    }
  }

  datatype Transfer = Transfer(blobs: BlobTable, repos: RepoTable, auth: AuthTable, sessions: SessionTable)

  /** What Complete carries across its lock gap. */
  datatype Completion = Completion(id: string, repo: string, bytes: Bytes)

  // Create -----------------------------------------------------------------------

  /** The expected digest is staged; one that is known already is fine. */
  function Reserve(blobs: BlobTable, repo: string, digest: string, size: int): (BlobTable, Result<()>) {
    if digest == "" then (blobs, Ok(()))
    else
      var (staged, r) := blobs.Stage(repo, digest, size);
      (staged, if r == Err(AlreadyExists) then Ok(()) else r)
  }

  /** The session is entered and its token bound to it, or nothing stays. */
  function Register(t: Transfer, token: string, id: string, session: Session, ticket: nat): (Transfer, Result<Session>) {
    var entered := t.sessions.With(id, Upload(session, map[])).(
      releases := t.sessions.releases[id := ticket], issued := t.sessions.issued + {id});
    var (auth, bound) := t.auth.Bind(token, id);
    match bound
    case Err(e) => (t.(repos := t.repos.Release(ticket), auth := auth, sessions := entered.Without(id)), Err(e))
    case Ok(_) => (t.(auth := auth, sessions := entered), Ok(session))
  }

  function Create(t: Transfer, token: string, repo: string, name: string, size: int64, chunkSize: int64,
                  digest: string, id: string): (Transfer, Result<Session>)
  {
    match t.auth.Validate(token)
    case Err(e) => (t, Err(e))
    case Ok(_) =>
      var (entered, ticket) := t.repos.Enter(repo);
      if ticket.Err? then (t, Err(ticket.error))
      else if name == "" || size <= 0 || chunkSize <= 0 then
        (t.(repos := entered.Release(ticket.value)), Err(InvalidArgument))
      else
        var (staged, r) := Reserve(t.blobs, repo, digest, size);
        if r.Err? then (t.(repos := entered.Release(ticket.value), blobs := staged), Err(r.error))
        else
          Register(t.(blobs := staged, repos := entered), token, id,
                   Opened(repo, name, digest, size, chunkSize, token).session, ticket.value)
  }

  // Chunks -------------------------------------------------------------------------

  function UploadChunk(env: Env, t: Transfer, token: string, id: string, index: int64, bytes: Bytes):
      (Transfer, Result<()>)
  {
    match t.auth.ValidateForSession(token, id)
    case Err(e) => (t, Err(e))
    case Ok(_) =>
      if bytes == [] then (t, Err(InvalidArgument))
      else if id !in t.sessions.sessions then (t, Err(NotFound))
      else
        match AddChunk(env, t.sessions.UploadOf(id), index, bytes)
        case Err(e) => (t, Err(e))
        case Ok(u) => (t.(sessions := t.sessions.With(id, u)), Ok(()))
  }

  function GetSession(t: Transfer, token: string, id: string): Result<Session> {
    match t.auth.ValidateForSession(token, id)
    case Err(e) => Err(e)
    case Ok(_) => if id in t.sessions.sessions then Ok(t.sessions.sessions[id]) else Err(NotFound)
  }

  function ResumeOffset(t: Transfer, token: string, id: string): Result<int> {
    match GetSession(t, token, id)
    case Err(e) => Err(e)
    case Ok(s) => Ok(ResumePoint(s))
  }

  // Leaving --------------------------------------------------------------------------

  /** Firing the release of a session, if it still has one. */
  function Fired(t: Transfer, id: string): RepoTable {
    if id in t.sessions.releases then t.repos.Release(t.sessions.releases[id]) else t.repos
  }

  function Abort(t: Transfer, token: string, id: string): (Transfer, Result<()>) {
    match t.auth.ValidateForSession(token, id)
    case Err(e) => (t, Err(e))
    case Ok(_) =>
      if id !in t.sessions.sessions then (t, Err(NotFound))
      else (t.(repos := Fired(t, id), sessions := t.sessions.Without(id)), Ok(()))
  }

  /** Complete's checks on the session it found, and the chunks joined. */
  ghost function Check(env: Env, id: string, u: Upload): Result<Completion> {
    var s := u.session;
    if !s.state.SessionUploading? then Err(InvalidState)
    else if |u.data| != ChunkCount(s) then Err(Unfinished)
    else if s.digest != "" && env.digestOf(Assembled(u.data)) != s.digest then Err(Corrupt)
    else Ok(Completion(id, s.repo, Assembled(u.data)))
  }

  /** Complete up to its lock gap. */
  ghost function Begin(env: Env, t: Transfer, token: string, id: string): Result<Completion> {
    match GetSession(t, token, id)
    case Err(e) => Err(e)
    case Ok(_) => Check(env, id, t.sessions.UploadOf(id))
  }

  /** Complete in its lock gap: the blob is stored. */
  function Store(env: Env, t: Transfer, c: Completion): (Transfer, Result<Blob>) {
    var (blobs, r) := t.blobs.Put(env, c.repo, c.bytes);
    (t.(blobs := blobs), r)
  }

  /** Complete after its lock gap: the session commits and its release fires. */
  function Finish(t: Transfer, id: string): (Transfer, Result<()>) {
    if id !in t.sessions.sessions then (t, Err(NotFound))
    else
      var committed := t.sessions.sessions[id].(state := SessionCommitted);
      (t.(repos := Fired(t, id),
          sessions := t.sessions.(sessions := t.sessions.sessions[id := committed], releases := t.sessions.releases - {id})),
       Ok(()))
  }

  /** Complete with nothing happening in its lock gap. */
  ghost function Complete(env: Env, t: Transfer, token: string, id: string): (Transfer, Result<Blob>) {
    match Begin(env, t, token, id)
    case Err(e) => (t, Err(e))
    case Ok(c) =>
      var (stored, r) := Store(env, t, c);
      if r.Err? then (stored, r)
      else
        var (finished, f) := Finish(stored, id);
        (finished, if f.Ok? then r else Err(f.error))
  }
}
