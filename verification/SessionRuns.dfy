/** The answers of the session operations in every state a run can reach. */
module SessionRuns {
  import opened Model
  import opened Chunking
  import opened Uploads
  import opened Transfers
  import opened Inflight
  import opened Pipeline
  import opened Systems
  import opened Frames
  import opened Invariants
  import opened Theorems
  import opened UploadRuns
  import opened SessionAnswers

  lemma {:induction false} ReachableProper(env: Env, ops: seq<Op>)
    ensures var w := Execute(env, INITIAL, ops).world; Proper(w.auth) && Accounted(w.repos, w.sessions)
  {
    ReachableInv(env, ops);
  }

  /** In every reachable state a session is shown exactly to a token that is known,
      unexpired and bound to it; without one, no operation on the session answers
      anything else than Unauthorized, or changes anything. */
  lemma {:induction false} SessionsAreGuarded(env: Env, ops: seq<Op>, token: string, id: string, index: int64, bytes: Bytes)
    ensures var w := Execute(env, INITIAL, ops).world;
            var t := w.Transfer();
            && GetSession(t, token, id) ==
               (if !Authorized(w.auth, token, id) then Err(Unauthorized)
                else if id !in w.sessions.sessions then Err(NotFound)
                else Ok(w.sessions.sessions[id]))
            && (!Authorized(w.auth, token, id) ==>
                  && ResumeOffset(t, token, id) == Err(Unauthorized)
                  && UploadChunk(env, t, token, id, index, bytes) == (t, Err(Unauthorized))
                  && Abort(t, token, id) == (t, Err(Unauthorized))
                  && Begin(env, t, token, id) == Err(Unauthorized)
                  && Complete(env, t, token, id) == (t, Err(Unauthorized))
                  && CompleteSession(env, w, token, id) == (w, Err(Unauthorized)))
  {
    ReachableProper(env, ops);
    var w := Execute(env, INITIAL, ops).world;
    GetAnswers(w.Transfer(), token, id);
    if !Authorized(w.auth, token, id) { UnauthorizedChangesNothing(env, w, token, id, index, bytes); }
  }

  /** In every state of a run in which nothing wraps that the session gets accepted: a
      chunk whose own product does not wrap is answered Ok exactly when it belongs to
      the upload and is missing, and each refusal has its error. */
  lemma {:induction false} ChunkAnswersInRuns(env: Env, ops: seq<Op>, token: string, id: string, index: int64, bytes: Bytes)
    requires ExactRun(env, ops, id)
    requires var st := Execute(env, INITIAL, ops).world.sessions;
             id in st.sessions ==> index * st.sessions[id].chunkSize < TWO_63
    ensures var w := Execute(env, INITIAL, ops).world;
            UploadChunk(env, w.Transfer(), token, id, index, bytes).1 ==
            if !Authorized(w.auth, token, id) then Err(Unauthorized)
            else if bytes == [] then Err(InvalidArgument)
            else if id !in w.sessions.sessions then Err(NotFound)
            else
              var s := w.sessions.sessions[id];
              assert Fits(s.size, s.chunkSize) by { SessionsStayTidy(env, ops, id); }
              if !s.state.SessionUploading? then Err(InvalidState)
              else if !(0 <= index < Count(s.size, s.chunkSize)) then Err(InvalidArgument)
              else if |bytes| != Length(s.size, s.chunkSize, index) then Err(Conflict)
              else if index in w.sessions.UploadOf(id).data then Err(Conflict)
              else Ok(())
  {
    ReachableProper(env, ops);
    SessionsStayTidy(env, ops, id);
    UploadAnswers(env, Execute(env, INITIAL, ops).world.Transfer(), token, id, index, bytes);
  }

  /** In every such state an authorized token is told to resume where the first
      missing chunk starts, and at the size when none is missing. */
  lemma {:induction false} ResumeInRuns(env: Env, ops: seq<Op>, token: string, id: string)
    requires ExactRun(env, ops, id)
    requires var w := Execute(env, INITIAL, ops).world;
             && Authorized(w.auth, token, id)
             && id in w.sessions.sessions && w.sessions.sessions[id].state.SessionUploading?
    ensures var w := Execute(env, INITIAL, ops).world;
            var u := w.sessions.UploadOf(id);
            && (exists k :: FirstGap(u, k))
            && (forall k | FirstGap(u, k) ::
                  && ResumeOffset(w.Transfer(), token, id) == Ok(Edge(u.session.size, u.session.chunkSize, k))
                  && (k == Count(u.session.size, u.session.chunkSize) ==>
                        ResumeOffset(w.Transfer(), token, id) == Ok(u.session.size)))
  {
    ReachableProper(env, ops);
    SessionsStayTidy(env, ops, id);
    var w := Execute(env, INITIAL, ops).world;
    FirstGapExists(env, w.sessions.UploadOf(id));
    forall k | FirstGap(w.sessions.UploadOf(id), k) { ResumeAnswers(env, w.Transfer(), token, id, k); }
  }

  /** Complete in every such state: who may, when, and with which error not. */
  lemma {:induction false} CompleteInRuns(env: Env, ops: seq<Op>, token: string, id: string)
    requires ExactRun(env, ops, id)
    requires var w := Execute(env, INITIAL, ops).world;
             Authorized(w.auth, token, id) && id in w.sessions.sessions
    ensures var w := Execute(env, INITIAL, ops).world;
            var (t', r) := Complete(env, w.Transfer(), token, id);
            var u := w.sessions.UploadOf(id);
            if u.session.state.SessionCommitted? then t' == w.Transfer() && r == Err(InvalidState)
            else if !Full(u) then t' == w.Transfer() && r == Err(Unfinished)
            else if u.session.digest != "" && env.digestOf(Assembled(u.data)) != u.session.digest then
              t' == w.Transfer() && r == Err(Corrupt)
            else r.Ok? && r.value.digest == env.digestOf(Assembled(u.data)) && r.value.state.BlobCommitted?
  {
    ReachableProper(env, ops);
    ReachableInv(env, ops);
    SessionsStayTidy(env, ops, id);
    NeverVerifying(env, ops);
    var w := Execute(env, INITIAL, ops).world;
    CompleteAnswers(env, w.Transfer(), token, id);
    if Complete(env, w.Transfer(), token, id).1.Ok? { CompletedDigest(env, w.Transfer(), token, id); }
  }

  // Aborted sessions ------------------------------------------------------------------------------

  /** The session was issued, and nothing of it is left. */
  ghost predicate Gone(st: SessionTable, id: string) {
    id in st.issued && id !in st.sessions && id !in st.chunks && id !in st.releases
  }

  lemma CreateKeepsGone(t: Transfer, token: string, repo: string, name: string, size: int64, chunkSize: int64,
                        digest: string, x: string, id: string)
    requires Gone(t.sessions, id) && x != id
    ensures Gone(Create(t, token, repo, name, size, chunkSize, digest, x).0.sessions, id)
  {
  }

  lemma GoneStep(env: Env, s: System, op: Op, id: string)
    requires Gone(s.world.sessions, id)
    ensures Gone(Step(env, s, op).world.sessions, id)
  {
    SessionsStep(env, s, op);
    match op {
      case CreateSession(token, repo, name, size, chunkSize, digest, x) =>
        if x != id { CreateKeepsGone(s.world.Transfer(), token, repo, name, size, chunkSize, digest, x, id); }
      case UploadOp(token, x, index, bytes) => UploadStores(env, s.world.Transfer(), token, x, index, bytes);
      case AbortSession(token, x) =>
      case FinishComplete(k) =>
      case _ =>
    }
  }

  lemma {:induction false} GoneForGood(env: Env, s: System, ops: seq<Op>, id: string)
    requires Gone(s.world.sessions, id)
    ensures Gone(Execute(env, s, ops).world.sessions, id)
  {
    if ops == [] {
    } else {
      GoneForGood(env, s, ops[..|ops| - 1], id);
      GoneStep(env, Execute(env, s, ops[..|ops| - 1]), ops[|ops| - 1], id);
    }
  }

  lemma AbortLeavesNothing(env: Env, s: System, token: string, id: string)
    requires Inv(env, s) && Abort(s.world.Transfer(), token, id).1.Ok?
    ensures Gone(Step(env, s, AbortSession(token, id)).world.sessions, id)
  {
    SessionsStep(env, s, AbortSession(token, id));
    AbortAnswers(s.world.Transfer(), token, id);
  }

  /** After an Abort that is let through, and after any run from there, no table holds
      anything of the session. Every operation on it is answered NotFound for a token
      that is still good for it, Unauthorized for any other, and changes nothing. */
  lemma {:induction false} AbortedIsGone(env: Env, before: seq<Op>, aborter: string, id: string, after: seq<Op>,
                                         token: string, index: int64, bytes: Bytes)
    requires Abort(Execute(env, INITIAL, before).world.Transfer(), aborter, id).1.Ok?
    ensures var w := Execute(env, INITIAL, before + [AbortSession(aborter, id)] + after).world;
            var t := w.Transfer();
            var e := if Authorized(w.auth, token, id) then NotFound else Unauthorized;
            && id !in w.sessions.sessions && id !in w.sessions.chunks && id !in w.sessions.releases
            && GetSession(t, token, id) == Err(e)
            && ResumeOffset(t, token, id) == Err(e)
            && (bytes != [] ==> UploadChunk(env, t, token, id, index, bytes) == (t, Err(e)))
            && Abort(t, token, id) == (t, Err(e))
            && Complete(env, t, token, id) == (t, Err(e))
            && CompleteSession(env, w, token, id) == (w, Err(e))
  {
    var s := Execute(env, INITIAL, before);
    var aborted := Step(env, s, AbortSession(aborter, id));
    ReachableInv(env, before);
    AbortLeavesNothing(env, s, aborter, id);
    GoneForGood(env, aborted, after, id);
    ExecuteThen(env, INITIAL, before, AbortSession(aborter, id));
    ExecuteAppend(env, INITIAL, before + [AbortSession(aborter, id)], after);
    var ops := before + [AbortSession(aborter, id)] + after;
    ReachableProper(env, ops);
    var w := Execute(env, INITIAL, ops).world;
    if Authorized(w.auth, token, id) {
      AbsentIsNotFound(env, w, token, id, index, bytes);
    } else {
      UnauthorizedChangesNothing(env, w, token, id, index, bytes);
    }
  }

  // Committed sessions ----------------------------------------------------------------------------

  /** A committed session never changes again; it may be aborted. */
  ghost predicate Settles(st: SessionTable, id: string, session: Session) {
    id in st.issued && (id in st.sessions ==> st.sessions[id] == session)
  }

  lemma SettlesStep(env: Env, s: System, op: Op, id: string, session: Session)
    requires Settles(s.world.sessions, id, session) && session.state.SessionCommitted?
    ensures Settles(Step(env, s, op).world.sessions, id, session)
  {
    SessionsStep(env, s, op);
    var t := s.world.Transfer();
    match op {
      case CreateSession(token, repo, name, size, chunkSize, digest, x) =>
        CreateSessions(t, token, repo, name, size, chunkSize, digest, x);
      case UploadOp(token, x, index, bytes) =>
      case AbortSession(token, x) =>
      case FinishComplete(k) =>
      case _ =>
    }
  }

  lemma {:induction false} RunSettles(env: Env, s: System, ops: seq<Op>, id: string, session: Session)
    requires Settles(s.world.sessions, id, session) && session.state.SessionCommitted?
    ensures Settles(Execute(env, s, ops).world.sessions, id, session)
  {
    if ops == [] {
    } else {
      RunSettles(env, s, ops[..|ops| - 1], id, session);
      SettlesStep(env, Execute(env, s, ops[..|ops| - 1]), ops[|ops| - 1], id, session);
    }
  }

  /** Once committed, a session is committed in every later state in which it is there:
      an authorized token is shown the same session and its full size, and chunks and
      further Completes are refused. */
  lemma {:induction false} CommittedForGood(env: Env, before: seq<Op>, id: string, after: seq<Op>, token: string,
                                            index: int64, bytes: Bytes)
    requires var st := Execute(env, INITIAL, before).world.sessions;
             id in st.sessions && st.sessions[id].state.SessionCommitted?
    requires var w := Execute(env, INITIAL, before + after).world;
             id in w.sessions.sessions && Authorized(w.auth, token, id) && bytes != []
    ensures var session := Execute(env, INITIAL, before).world.sessions.sessions[id];
            var t := Execute(env, INITIAL, before + after).world.Transfer();
            && GetSession(t, token, id) == Ok(session)
            && ResumeOffset(t, token, id) == Ok(session.size)
            && UploadChunk(env, t, token, id, index, bytes) == (t, Err(InvalidState))
            && Complete(env, t, token, id) == (t, Err(InvalidState))
  {
    var s := Execute(env, INITIAL, before);
    ReachableInv(env, before);
    RunSettles(env, s, after, id, s.world.sessions.sessions[id]);
    ExecuteAppend(env, INITIAL, before, after);
    ReachableProper(env, before + after);
    var t := Execute(env, INITIAL, before + after).world.Transfer();
    GetAnswers(t, token, id);
    AuthorizedIff(t.auth, token, id);
    ResumeAnswers(env, t, token, id, 0);
  }
}
