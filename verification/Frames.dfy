/** What the steps of the state machine leave alone. */
module Frames {
  import opened Model
  import opened Uploads
  import opened Transfers
  import opened Pipeline
  import opened Systems

  // Operations --------------------------------------------------------------------------------

  /** A push of a manifest leaves sessions, namespaces and tokens alone. */
  lemma PushManifestFrame(env: Env, w: World, token: string, repo: string, raw: Bytes, ref: string)
    ensures var w' := PushManifest(env, w, token, repo, raw, ref).0;
            w'.repos == w.repos && w'.auth == w.auth && w'.sessions == w.sessions
  {
  }

  /** A chunk changes one session, and neither its namespace nor its state. */
  lemma UploadFrame(env: Env, t: Transfer, token: string, id: string, index: int64, bytes: Bytes)
    ensures var t' := UploadChunk(env, t, token, id, index, bytes).0;
            && t'.blobs == t.blobs && t'.repos == t.repos && t'.auth == t.auth
            && t'.sessions.issued == t.sessions.issued && t'.sessions.sessions.Keys == t.sessions.sessions.Keys
            && (forall x <- t'.sessions.sessions ::
                  && t'.sessions.sessions[x].repo == t.sessions.sessions[x].repo
                  && t'.sessions.sessions[x].state == t.sessions.sessions[x].state)
  {
  }

  lemma PushBlobFrame(env: Env, w: World, token: string, repo: string, bytes: Bytes)
    ensures var w' := PushBlob(env, w, token, repo, bytes).0; w' == w.(blobs := w'.blobs)
  {
  }

  lemma AbortFrame(t: Transfer, token: string, id: string)
    ensures var t' := Abort(t, token, id).0; t'.auth == t.auth && t'.blobs == t.blobs
  {
  }

  lemma CreateLeaves(t: Transfer, token: string, repo: string, name: string, size: int64, chunkSize: int64,
                     digest: string, id: string)
    ensures var rt := Create(t, token, repo, name, size, chunkSize, digest, id).0.repos;
            rt.repos == t.repos.repos && rt.orphans == t.repos.orphans
  {
  }

  lemma FiredKeepsRepos(t: Transfer, id: string)
    ensures Fired(t, id).repos == t.repos.repos && Fired(t, id).orphans == t.repos.orphans
  {
  }

  // Steps ---------------------------------------------------------------------------------------

  /** The parts of Complete and of a collection. */
  predicate Phase(op: Op) {
    op.BeginComplete? || op.StoreComplete? || op.FinishComplete? || op.MarkRepo? || op.SweepMark?
  }

  /** Every other step is one change of the world. */
  lemma WholeStep(env: Env, s: System, op: Op)
    requires !Phase(op)
    ensures Step(env, s, op) == if Fresh(s.world, op) then s.(world := WorldStep(env, s.world, op)) else s
  {
  }

  lemma PhaseFrame(env: Env, s: System, op: Op)
    requires Phase(op)
    ensures var w, w' := s.world, Step(env, s, op).world;
            && w'.auth == w.auth
            && w'.tags == w.tags && w'.index == w.index
            && (!op.FinishComplete? ==> w'.repos == w.repos && w'.sessions == w.sessions)
            && (!op.StoreComplete? && !op.SweepMark? ==> w'.blobs == w.blobs)
  {
    match op {
      case BeginComplete(token, id) =>
      case StoreComplete(k) =>
      case FinishComplete(k) =>
      case MarkRepo(repo) =>
      case SweepMark(k) =>
    }
  }

  /** The steps that are not about sessions at all. */
  predicate Elsewhere(op: Op) {
    !op.CreateSession? && !op.UploadOp? && !op.AbortSession? && !op.FinishComplete?
  }

  predicate TouchesRepos(op: Op) {
    op.CreateRepo? || op.DeleteRepo? || op.CreateSession? || op.AbortSession? || op.FinishComplete?
  }

  predicate TouchesTokens(op: Op) {
    op.IssueToken? || op.RenewToken? || op.CreateSession?
  }

  predicate TouchesTags(op: Op) {
    op.PushManifestOp? || op.RemoveTag?
  }

  lemma WorldKeepsPushes(env: Env, w: World, op: Op)
    ensures var w' := WorldStep(env, w, op);
            (Elsewhere(op) ==> w'.sessions == w.sessions) && (!TouchesRepos(op) ==> w'.repos == w.repos)
  {
    match op {
      case PushBlobOp(token, repo, bytes) => PushBlobFrame(env, w, token, repo, bytes);
      case PushManifestOp(token, repo, raw, ref) => PushManifestFrame(env, w, token, repo, raw, ref);
      case UploadOp(token, id, index, bytes) => UploadFrame(env, w.Transfer(), token, id, index, bytes);
      case _ =>
    }
  }

  lemma WorldKeepsNames(env: Env, w: World, op: Op)
    ensures var w' := WorldStep(env, w, op);
            && (!TouchesTokens(op) ==> w'.auth.tokens == w.auth.tokens)
            && (!TouchesTags(op) ==> w'.tags == w.tags && w'.index == w.index)
  {
    match op {
      case PushBlobOp(token, repo, bytes) => PushBlobFrame(env, w, token, repo, bytes);
      case PushManifestOp(token, repo, raw, ref) => PushManifestFrame(env, w, token, repo, raw, ref);
      case UploadOp(token, id, index, bytes) => UploadFrame(env, w.Transfer(), token, id, index, bytes);
      case AbortSession(token, id) => AbortFrame(w.Transfer(), token, id);
      case _ =>
    }
  }

  /** Sessions, namespaces, tokens and tags change by few steps only. */
  lemma StepFrame(env: Env, s: System, op: Op)
    ensures var w, w' := s.world, Step(env, s, op).world;
            && (Elsewhere(op) ==> w'.sessions == w.sessions)
            && (!TouchesRepos(op) ==> w'.repos == w.repos)
            && (!TouchesTokens(op) ==> w'.auth.tokens == w.auth.tokens)
            && (!TouchesTags(op) ==> w'.tags == w.tags && w'.index == w.index)
  {
    if Phase(op) {
      PhaseFrame(env, s, op);
    } else {
      WholeStep(env, s, op);
      WorldKeepsPushes(env, s.world, op);
      WorldKeepsNames(env, s.world, op);
    }
  }

  // Sessions ------------------------------------------------------------------------------------

  /** The session table after a step. */
  ghost function SessionsAfter(env: Env, s: System, op: Op): SessionTable {
    var t := s.world.Transfer();
    if !Fresh(s.world, op) then t.sessions
    else
      match op
      case CreateSession(token, repo, name, size, chunkSize, digest, id) =>
        Create(t, token, repo, name, size, chunkSize, digest, id).0.sessions
      case UploadOp(token, id, index, bytes) => UploadChunk(env, t, token, id, index, bytes).0.sessions
      case AbortSession(token, id) => Abort(t, token, id).0.sessions
      case FinishComplete(k) =>
        if k < |s.completions| && s.completions[k].stage.Stored? then Finish(t, s.completions[k].completion.id).0.sessions
        else t.sessions
      case _ => t.sessions
  }

  lemma SessionsStep(env: Env, s: System, op: Op)
    ensures Step(env, s, op).world.sessions == SessionsAfter(env, s, op)
  {
    StepFrame(env, s, op);
    if !Phase(op) { WholeStep(env, s, op); }
  }

  /** What Create does to sessions and chunks: nothing, or the new session is
      there, or it came and went. */
  lemma CreateSessions(t: Transfer, token: string, repo: string, name: string, size: int64, chunkSize: int64,
                       digest: string, id: string)
    ensures var st, st' := t.sessions, Create(t, token, repo, name, size, chunkSize, digest, id).0.sessions;
            var withNew := st.With(id, Opened(repo, name, digest, size, chunkSize, token));
            && st.issued <= st'.issued
            && (|| (st'.sessions == st.sessions && st'.chunks == st.chunks)
                || (Create(t, token, repo, name, size, chunkSize, digest, id).1.Ok? && size > 0 && chunkSize > 0
                    && st'.sessions == withNew.sessions && st'.chunks == withNew.chunks)
                || (st'.sessions == withNew.Without(id).sessions && st'.chunks == withNew.Without(id).chunks))
  {
  }
}
