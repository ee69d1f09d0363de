/** Chunked uploads inside whole runs: what other steps leave alone, and the
    round trip with everything else going on. */
module UploadRuns {
  import opened Model
  import opened Chunking
  import opened Uploads
  import opened RoundTrip
  import opened BlobTables
  import opened Transfers
  import opened Pipeline
  import opened Systems
  import opened Frames
  import opened Invariants
  import opened Theorems
  import opened Facades
  import opened Holding

  // Sessions in a run -------------------------------------------------------------------

  /** The step neither aborts the session nor begins to complete it; one that is
      refused does not. */
  ghost predicate LeavesOpen(env: Env, w: World, op: Op, id: string) {
    match op
    case AbortSession(token, x) => x == id ==> w.auth.ValidateForSession(token, id).Err?
    case BeginComplete(token, x) => x == id ==> Begin(env, w.Transfer(), token, id).Err?
    case _ => true
  }

  ghost predicate StaysOpen(env: Env, s: System, ops: seq<Op>, id: string) {
    ops == []
    || (&& StaysOpen(env, s, ops[..|ops| - 1], id)
        && LeavesOpen(env, Execute(env, s, ops[..|ops| - 1]).world, ops[|ops| - 1], id))
  }

  /** The session exists and no completion of it is on its way. */
  ghost predicate Undisturbed(s: System, id: string) {
    && id in s.world.sessions.sessions && id in s.world.sessions.issued
    && forall i | 0 <= i < |s.completions| :: s.completions[i].completion.id != id
  }

  /** The chunk an upload step offers to the session, if it gets that far. */
  function Offered(w: World, op: Op, id: string): seq<Arrival> {
    match op
    case UploadOp(token, x, index, bytes) =>
      if x == id && bytes != [] && w.auth.ValidateForSession(token, id).Ok? then [Arrival(index, bytes)] else []
    case _ => []
  }

  /** Every chunk offered to the session along a run, in order. */
  ghost function Sent(env: Env, s: System, ops: seq<Op>, id: string): seq<Arrival> {
    if ops == [] then []
    else
      var earlier := ops[..|ops| - 1];
      Sent(env, s, earlier, id) + Offered(Execute(env, s, earlier).world, ops[|ops| - 1], id)
  }

  lemma OfferedStep(env: Env, s: System, op: Op, id: string)
    requires Undisturbed(s, id) && op.UploadOp?
    ensures Undisturbed(Step(env, s, op), id)
    ensures Step(env, s, op).world.sessions.UploadOf(id) ==
            Receive(env, s.world.sessions.UploadOf(id), Offered(s.world, op, id))
  {
    var u := s.world.sessions.UploadOf(id);
    var offered := Offered(s.world, op, id);
    if op.id == id && offered != [] {
      assert offered[..0] == [];
      assert Receive(env, u, offered) == match AddChunk(env, u, op.index, op.bytes) case Ok(after) => after case Err(_) => u;
    }
  }

  lemma TransferFrame(t: Transfer, id: string, x: string)
    requires x != id && id in t.sessions.sessions
    ensures id in t.sessions.Without(x).sessions && t.sessions.Without(x).UploadOf(id) == t.sessions.UploadOf(id)
    ensures id in Finish(t, x).0.sessions.sessions && Finish(t, x).0.sessions.UploadOf(id) == t.sessions.UploadOf(id)
  {
  }

  lemma CreateFrame(t: Transfer, token: string, repo: string, name: string, size: int64, chunkSize: int64,
                    digest: string, x: string, id: string)
    requires x != id && id in t.sessions.sessions && id in t.sessions.issued
    ensures var st := Create(t, token, repo, name, size, chunkSize, digest, x).0.sessions;
            id in st.sessions && id in st.issued && st.UploadOf(id) == t.sessions.UploadOf(id)
  {
  }

  lemma ElsewhereCompletions(env: Env, s: System, op: Op, id: string)
    requires Undisturbed(s, id) && LeavesOpen(env, s.world, op, id) && Elsewhere(op)
    ensures Undisturbed(Step(env, s, op), id)
  {
    StepFrame(env, s, op);
    match op {
      case BeginComplete(token, x) =>
      case StoreComplete(k) =>
      case _ =>
    }
  }

  /** Every other step, a collection's included, leaves the session and its chunks
      as they are. */
  lemma OtherStep(env: Env, s: System, op: Op, id: string)
    requires Undisturbed(s, id) && LeavesOpen(env, s.world, op, id) && !op.UploadOp?
    ensures Undisturbed(Step(env, s, op), id)
    ensures Step(env, s, op).world.sessions.UploadOf(id) == s.world.sessions.UploadOf(id)
  {
    var t := s.world.Transfer();
    if Elsewhere(op) {
      StepFrame(env, s, op);
      ElsewhereCompletions(env, s, op, id);
    } else {
      match op {
        case CreateSession(token, repo, name, size, chunkSize, digest, x) =>
          if Fresh(s.world, op) { CreateFrame(t, token, repo, name, size, chunkSize, digest, x, id); }
        case AbortSession(token, x) => if x != id { TransferFrame(t, id, x); }
        case FinishComplete(k) =>
          if k < |s.completions| { TransferFrame(t, id, s.completions[k].completion.id); }
      }
    }
  }

  lemma {:induction false} ReceiveAppend(env: Env, u: Upload, a: seq<Arrival>, b: seq<Arrival>)
    requires |b| <= 1
    ensures Receive(env, u, a + b) == Receive(env, Receive(env, u, a), b)
  {
    if b == [] {
      assert a + b == a;
    } else {
      assert (a + b)[..|a + b| - 1] == a;
      assert b[..|b| - 1] == [];
    }
  }

  /** Through any run that neither aborts nor completes it, a session is changed
      by the chunks offered to it and by nothing else. */
  lemma {:induction false} RunOnlyReceives(env: Env, s: System, ops: seq<Op>, id: string)
    requires Undisturbed(s, id) && StaysOpen(env, s, ops, id)
    ensures Undisturbed(Execute(env, s, ops), id)
    ensures Execute(env, s, ops).world.sessions.UploadOf(id) ==
            Receive(env, s.world.sessions.UploadOf(id), Sent(env, s, ops, id))
  {
    if ops == [] {
    } else {
      var earlier, op := ops[..|ops| - 1], ops[|ops| - 1];
      RunOnlyReceives(env, s, earlier, id);
      var mid := Execute(env, s, earlier);
      ReceiveAppend(env, s.world.sessions.UploadOf(id), Sent(env, s, earlier, id), Offered(mid.world, op, id));
      if op.UploadOp? {
        OfferedStep(env, mid, op, id);
      } else {
        OtherStep(env, mid, op, id);
      }
    }
  }

  /** Nor does the step add a chunk to the session. */
  ghost predicate LeavesAlone(env: Env, w: World, op: Op, id: string) {
    && LeavesOpen(env, w, op, id)
    && (op.UploadOp? && op.id == id ==> UploadChunk(env, w.Transfer(), op.token, op.id, op.index, op.bytes).1.Err?)
  }

  ghost predicate StaysAlone(env: Env, s: System, ops: seq<Op>, id: string) {
    ops == []
    || (&& StaysAlone(env, s, ops[..|ops| - 1], id)
        && LeavesAlone(env, Execute(env, s, ops[..|ops| - 1]).world, ops[|ops| - 1], id))
  }

  lemma AloneStep(env: Env, s: System, op: Op, id: string)
    requires Undisturbed(s, id) && LeavesAlone(env, s.world, op, id)
    ensures Undisturbed(Step(env, s, op), id)
    ensures Step(env, s, op).world.sessions.UploadOf(id) == s.world.sessions.UploadOf(id)
  {
    if op.UploadOp? {
      OfferedStep(env, s, op, id);
    } else {
      OtherStep(env, s, op, id);
    }
  }

  lemma {:induction false} RunLeavesUpload(env: Env, s: System, ops: seq<Op>, id: string)
    requires Undisturbed(s, id) && StaysAlone(env, s, ops, id)
    ensures Undisturbed(Execute(env, s, ops), id)
    ensures Execute(env, s, ops).world.sessions.UploadOf(id) == s.world.sessions.UploadOf(id)
  {
    if ops == [] {
    } else {
      var earlier := ops[..|ops| - 1];
      RunLeavesUpload(env, s, earlier, id);
      AloneStep(env, Execute(env, s, earlier), ops[|ops| - 1], id);
    }
  }

  /** Collections, other sessions and refused calls change nothing that the session
      will see: its chunks, its resume offset, what Complete would store, and that
      its expected digest counts as uploading. */
  lemma {:induction false} OthersLeaveSessionAlone(env: Env, s: System, ops: seq<Op>, id: string)
    requires Undisturbed(s, id) && StaysAlone(env, s, ops, id)
    requires s.world.sessions.sessions[id].state.SessionUploading?
    ensures id in Execute(env, s, ops).world.sessions.sessions
    ensures var before, after := s.world.sessions.UploadOf(id), Execute(env, s, ops).world.sessions.UploadOf(id);
            && after == before
            && ResumePoint(after.session) == ResumePoint(before.session)
            && Check(env, id, after) == Check(env, id, before)
            && Execute(env, s, ops).world.sessions.IsDigestUploading(before.session.repo, before.session.digest)
  {
    RunLeavesUpload(env, s, ops, id);
    assert id in Execute(env, s, ops).world.sessions.sessions;
  }

  // The round trip in a run ---------------------------------------------------------------

  /** Complete on a session that holds all of a content: it stores the content,
      and pulling its digest gives the content back. */
  lemma CompleteStores(env: Env, w: World, token: string, id: string, content: Bytes)
    requires content != [] && id in w.sessions.sessions && w.auth.ValidateForSession(token, id).Ok?
    requires var u := w.sessions.UploadOf(id);
             && u.session.state.SessionUploading? && |u.data| == ChunkCount(u.session) && Assembled(u.data) == content
             && (u.session.digest == "" || u.session.digest == env.digestOf(content))
    ensures var (t, r) := Complete(env, w.Transfer(), token, id);
            && r.Ok?
            && t.sessions.sessions[id].state.SessionCommitted?
            && PullBlob(env, w.WithTransfer(t), token, w.sessions.sessions[id].repo, env.digestOf(content)) == Ok(content)
  {
  }

  /** Complete on a session that has received nothing always fails; with a wrapped
      count it gets past the count check first. */
  lemma {:induction false} EmptyNeverCompletes(env: Env, t: Transfer, token: string, id: string)
    requires id in t.sessions.sessions && t.auth.ValidateForSession(token, id).Ok?
    requires var u := t.sessions.UploadOf(id);
             u.session.state.SessionUploading? && u.data == map[] && u.session.size > 0 && u.session.chunkSize > 0
    ensures var s := t.sessions.sessions[id];
            Complete(env, t, token, id) ==
            (t, Err(if s.size + 2 * s.chunkSize <= TWO_64 + 1 then Unfinished
                    else if s.digest != "" && env.digestOf([]) != s.digest then Corrupt
                    else InvalidArgument))
  {
    var u := t.sessions.UploadOf(id);
    WrappedCountIs(u.session.size, u.session.chunkSize);
    assert Assembled(u.data) == [];
  }

  /** A session whose count wraps can never be completed. */
  lemma OnlyFittingCompletes(env: Env, t: Transfer, token: string, id: string)
    requires Complete(env, t, token, id).1.Ok?
    ensures id in t.sessions.sessions && Fits(t.sessions.sessions[id].size, t.sessions.sessions[id].chunkSize)
  {
    var u := t.sessions.UploadOf(id);
    if u.session.size > 0 && u.session.chunkSize > 0 {
      WrappedCountIs(u.session.size, u.session.chunkSize);
    }
  }

  /** A completed session that expected a digest has committed bytes with exactly
      that digest: its reservation is fulfilled, whether or not it was still there. */
  lemma CompleteFulfilsReservation(env: Env, w: World, token: string, id: string)
    requires id in w.sessions.sessions && w.sessions.sessions[id].digest != ""
    requires Complete(env, w.Transfer(), token, id).1.Ok?
    ensures var s := w.sessions.sessions[id];
            var blobs := Complete(env, w.Transfer(), token, id).0.blobs;
            && blobs.Committed(s.repo, s.digest) && blobs.Get(s.repo, s.digest).Ok?
            && env.digestOf(blobs.Get(s.repo, s.digest).value) == s.digest
  {
    var c := Begin(env, w.Transfer(), token, id).value;
    assert env.digestOf(c.bytes) == w.sessions.sessions[id].digest;
    PutThenGet(env, w.blobs, c.repo, c.bytes);
  }

  lemma {:induction false} ReceiveKeepsNames(env: Env, u: Upload, arrivals: seq<Arrival>)
    ensures var u' := Receive(env, u, arrivals);
            u'.session.repo == u.session.repo && u'.session.digest == u.session.digest
  {
    if arrivals == [] {
    } else {
      ReceiveKeepsNames(env, u, arrivals[..|arrivals| - 1]);
    }
  }

  /** An accepted CreateSession step leaves its session open, empty and undisturbed. */
  lemma CreatedIsUndisturbed(env: Env, s: System, op: Op)
    requires Inv(env, s) && op.CreateSession? && Fresh(s.world, op)
    requires Create(s.world.Transfer(), op.token, op.repo, op.name, op.size, op.chunkSize, op.digest, op.id).1.Ok?
    ensures var s' := Step(env, s, op);
            && Undisturbed(s', op.id)
            && s'.world.sessions.UploadOf(op.id) == Opened(op.repo, op.name, op.digest, op.size, op.chunkSize, op.token)
  {
    SessionsStep(env, s, op);
  }

  /** A completion waits until it is stored. */
  lemma StillWaiting(env: Env, s: System, op: Op, k: nat)
    requires k < |s.completions| && s.completions[k].stage.Waiting? && op != StoreComplete(k)
    ensures k < |Step(env, s, op).completions| && Step(env, s, op).completions[k] == s.completions[k]
  {
    match op {
      case BeginComplete(token, id) =>
      case StoreComplete(j) =>
      case FinishComplete(j) =>
      case SweepMark(j) =>
      case _ =>
    }
  }

  lemma {:induction false} WaitsThroughout(env: Env, s: System, ops: seq<Op>, k: nat)
    requires k < |s.completions| && s.completions[k].stage.Waiting? && StoreComplete(k) !in ops
    ensures k < |Execute(env, s, ops).completions| && Execute(env, s, ops).completions[k] == s.completions[k]
  {
    if ops == [] {
    } else {
      WaitsThroughout(env, s, ops[..|ops| - 1], k);
      StillWaiting(env, Execute(env, s, ops[..|ops| - 1]), ops[|ops| - 1], k);
    }
  }

  /** Complete's Put holds the content for its uploader. */
  lemma StoredIsHeld(env: Env, s: System, k: nat, id: string, repo: string, content: Bytes)
    requires k < |s.completions| && s.completions[k] == Pending(Completion(id, repo, content), Waiting) && content != []
    ensures var w := Step(env, s, StoreComplete(k)).world;
            Held(w, repo, env.digestOf(content)) && w.blobs.data[(repo, env.digestOf(content))] == content
  {
  }

  lemma PullIsOk(env: Env, w: World, token: string, repo: string, content: Bytes)
    requires CollisionFree(env) && Sound(env, w.blobs) && w.auth.Live(token)
    requires (repo, env.digestOf(content)) in w.blobs.data
    ensures PullBlob(env, w, token, repo, env.digestOf(content)) == Ok(content)
  {
    OnlyItsContent(env, w.blobs, repo, content);
  }

  /** A completion in its lock gap stores, and its blob is held from then on. */
  lemma StoredThenHeld(env: Env, s: System, k: nat, between: seq<Op>, after: seq<Op>, id: string, repo: string,
                       content: Bytes)
    requires content != []
    requires k < |s.completions| && s.completions[k] == Pending(Completion(id, repo, content), Waiting)
    requires StoreComplete(k) !in between
    requires NeverReleases(env, Step(env, Execute(env, s, between), StoreComplete(k)), after, repo, env.digestOf(content))
    ensures var stored := Step(env, Execute(env, s, between), StoreComplete(k));
            (repo, env.digestOf(content)) in Execute(env, stored, after).world.blobs.data
  {
    WaitsThroughout(env, s, between, k);
    StoredIsHeld(env, Execute(env, s, between), k, id, repo, content);
    HeldThroughout(env, Step(env, Execute(env, s, between), StoreComplete(k)), after, repo, env.digestOf(content));
  }

  /** From a completion in its lock gap to a later pull. */
  lemma {:induction false} StoredThenPulled(env: Env, s: System, k: nat, between: seq<Op>, after: seq<Op>,
                                            id: string, repo: string, content: Bytes, puller: string)
    requires CollisionFree(env) && Inv(env, s) && content != []
    requires k < |s.completions| && s.completions[k] == Pending(Completion(id, repo, content), Waiting)
    requires StoreComplete(k) !in between
    requires NeverReleases(env, Step(env, Execute(env, s, between), StoreComplete(k)), after, repo, env.digestOf(content))
    requires Execute(env, Step(env, Execute(env, s, between), StoreComplete(k)), after).world.auth.Live(puller)
    ensures var w := Execute(env, Step(env, Execute(env, s, between), StoreComplete(k)), after).world;
            PullBlob(env, w, puller, repo, env.digestOf(content)) == Ok(content)
  {
    StoredThenHeld(env, s, k, between, after, id, repo, content);
    RunKeepsInv(env, s, between);
    StepKeepsInv(env, Execute(env, s, between), StoreComplete(k));
    var stored := Step(env, Execute(env, s, between), StoreComplete(k));
    RunKeepsInv(env, stored, after);
    PullIsOk(env, Execute(env, stored, after).world, puller, repo, content);
  }

  /** A session that was sent a delivery of a content can be completed, and it is
      the content that Complete carries across its lock gap. */
  lemma {:induction false} DeliveredBegins(env: Env, s: System, upload: seq<Op>, id: string, token: string,
                                           content: Bytes, repo: string, name: string, digest: string, chunkSize: int64,
                                           opener: string)
    requires 0 < |content| < TWO_63 && Fits(|content|, chunkSize)
    requires digest == "" || digest == env.digestOf(content)
    requires Undisturbed(s, id) && s.world.sessions.UploadOf(id) == Opened(repo, name, digest, |content|, chunkSize, opener)
    requires StaysOpen(env, s, upload, id) && Delivery(content, chunkSize, Sent(env, s, upload, id))
    requires forall i | 0 <= i < Count(|content|, chunkSize) ::
               ArrivedBefore(content, chunkSize, Sent(env, s, upload, id), |Sent(env, s, upload, id)|, i)
    requires Execute(env, s, upload).world.auth.ValidateForSession(token, id).Ok?
    ensures Begin(env, Execute(env, s, upload).world.Transfer(), token, id) == Ok(Completion(id, repo, content))
  {
    RunOnlyReceives(env, s, upload, id);
    ChunkedRoundTrip(env, repo, name, digest, chunkSize, opener, content, Sent(env, s, upload, id));
    ReceiveKeepsNames(env, Opened(repo, name, digest, |content|, chunkSize, opener), Sent(env, s, upload, id));
  }

  /** The round trip with everything else going on. A session has just been opened
      for a content's size. Any run goes by that neither aborts nor completes it,
      and whose chunks for it are a delivery of the content with every chunk
      arriving; a Complete begins; anything happens in its lock gap, an Abort of the
      session included; it puts its blob; and any run goes by that does not release
      that blob. Then pulling the content's digest gives back the content. */
  lemma {:induction false} RoundTripInRuns(env: Env, s: System, upload: seq<Op>, between: seq<Op>, after: seq<Op>,
                                           id: string, token: string, content: Bytes, repo: string, name: string,
                                           digest: string, chunkSize: int64, opener: string, puller: string)
    requires CollisionFree(env) && Inv(env, s)
    requires 0 < |content| < TWO_63 && Fits(|content|, chunkSize)
    requires digest == "" || digest == env.digestOf(content)
    requires Undisturbed(s, id) && s.world.sessions.UploadOf(id) == Opened(repo, name, digest, |content|, chunkSize, opener)
    requires StaysOpen(env, s, upload, id) && Delivery(content, chunkSize, Sent(env, s, upload, id))
    requires forall i | 0 <= i < Count(|content|, chunkSize) ::
               ArrivedBefore(content, chunkSize, Sent(env, s, upload, id), |Sent(env, s, upload, id)|, i)
    requires Execute(env, s, upload).world.auth.ValidateForSession(token, id).Ok?
    requires StoreComplete(|Execute(env, s, upload).completions|) !in between
    requires var full := Execute(env, s, upload);
             var gap := Execute(env, Step(env, full, BeginComplete(token, id)), between);
             var stored := Step(env, gap, StoreComplete(|full.completions|));
             && NeverReleases(env, stored, after, repo, env.digestOf(content))
             && Execute(env, stored, after).world.auth.Live(puller)
    ensures var full := Execute(env, s, upload);
            var gap := Execute(env, Step(env, full, BeginComplete(token, id)), between);
            var stored := Step(env, gap, StoreComplete(|full.completions|));
            PullBlob(env, Execute(env, stored, after).world, puller, repo, env.digestOf(content)) == Ok(content)
  {
    var full := Execute(env, s, upload);
    DeliveredBegins(env, s, upload, id, token, content, repo, name, digest, chunkSize, opener);
    BeginIsAStep(env, full, token, id);
    RunKeepsInv(env, s, upload);
    StepKeepsInv(env, full, BeginComplete(token, id));
    StoredThenPulled(env, Step(env, full, BeginComplete(token, id)), |full.completions|, between, after,
                     id, repo, content, puller);
  }

  // Tidy uploads in a run -------------------------------------------------------------------

  /** The int64 products and sums of what the step gets accepted for the session do
      not wrap. */
  ghost predicate Exact(env: Env, w: World, op: Op, id: string) {
    match op
    case UploadOp(token, x, index, bytes) =>
      x == id && UploadChunk(env, w.Transfer(), token, x, index, bytes).1.Ok? ==>
        index * w.sessions.sessions[x].chunkSize < TWO_63
    case CreateSession(token, repo, name, size, chunkSize, digest, x) =>
      x == id && Create(w.Transfer(), token, repo, name, size, chunkSize, digest, x).1.Ok? ==> Fits(size, chunkSize)
    case _ => true
  }

  /** So it is with every step of the run. */
  ghost predicate ExactRun(env: Env, ops: seq<Op>, id: string) {
    ops == []
    || (&& ExactRun(env, ops[..|ops| - 1], id)
        && Exact(env, Execute(env, INITIAL, ops[..|ops| - 1]).world, ops[|ops| - 1], id))
  }

  ghost predicate TidyAt(env: Env, st: SessionTable, id: string) {
    id in st.sessions ==> Tidy(env, st.UploadOf(id))
  }

  /** What makes an upload tidy does not depend on the session's state. */
  lemma TidyInAnyState(env: Env, u: Upload, state: SessionState)
    requires Tidy(env, u)
    ensures Tidy(env, u.(session := u.session.(state := state)))
  {
  }

  lemma LeavingKeepsTidy(env: Env, t: Transfer, token: string, x: string, id: string)
    requires TidyAt(env, t.sessions, id)
    ensures TidyAt(env, Abort(t, token, x).0.sessions, id)
    ensures TidyAt(env, Finish(t, x).0.sessions, id)
  {
    if id in t.sessions.sessions { TidyInAnyState(env, t.sessions.UploadOf(id), SessionCommitted); }
  }

  lemma CreateKeepsTidy(env: Env, t: Transfer, token: string, repo: string, name: string, size: int64, chunkSize: int64,
                        digest: string, x: string, id: string)
    requires TidyAt(env, t.sessions, id) && x !in t.sessions.sessions
    requires x == id && Create(t, token, repo, name, size, chunkSize, digest, x).1.Ok? ==> Fits(size, chunkSize)
    ensures TidyAt(env, Create(t, token, repo, name, size, chunkSize, digest, x).0.sessions, id)
  {
    CreateSessions(t, token, repo, name, size, chunkSize, digest, x);
    if x == id && Create(t, token, repo, name, size, chunkSize, digest, x).1.Ok? {
      OpenedIsTidy(env, repo, name, digest, size, chunkSize, token);
    }
  }

  lemma UploadKeepsTidy(env: Env, t: Transfer, token: string, x: string, index: int64, bytes: Bytes, id: string)
    requires TidyAt(env, t.sessions, id)
    requires x == id && UploadChunk(env, t, token, x, index, bytes).1.Ok? ==>
               index * t.sessions.sessions[x].chunkSize < TWO_63
    ensures TidyAt(env, UploadChunk(env, t, token, x, index, bytes).0.sessions, id)
  {
    if x == id && UploadChunk(env, t, token, x, index, bytes).1.Ok? {
      AddChunkKeepsTidy(env, t.sessions.UploadOf(id), index, bytes);
    }
  }

  lemma StepKeepsTidy(env: Env, s: System, op: Op, id: string)
    requires TidyAt(env, s.world.sessions, id) && Exact(env, s.world, op, id)
    requires forall x <- s.world.sessions.sessions :: x in s.world.sessions.issued
    ensures TidyAt(env, Step(env, s, op).world.sessions, id)
  {
    SessionsStep(env, s, op);
    var t := s.world.Transfer();
    match op {
      case CreateSession(token, repo, name, size, chunkSize, digest, x) =>
        if Fresh(s.world, op) { CreateKeepsTidy(env, t, token, repo, name, size, chunkSize, digest, x, id); }
      case UploadOp(token, x, index, bytes) => UploadKeepsTidy(env, t, token, x, index, bytes, id);
      case AbortSession(token, x) => LeavingKeepsTidy(env, t, token, x, id);
      case FinishComplete(k) =>
        if k < |s.completions| { LeavingKeepsTidy(env, t, "", s.completions[k].completion.id, id); }
      case _ =>
    }
  }

  /** In every state of a run whose int64 arithmetic does not wrap for a session,
      the session is tidy; so while it is uploading, its written counter, its resume
      offset and Complete's count check agree on whether it is full. */
  lemma {:induction false} SessionsStayTidy(env: Env, ops: seq<Op>, id: string)
    requires ExactRun(env, ops, id)
    ensures TidyAt(env, Execute(env, INITIAL, ops).world.sessions, id)
  {
    if ops == [] {
    } else {
      var earlier := ops[..|ops| - 1];
      SessionsStayTidy(env, earlier, id);
      ReachableInv(env, earlier);
      StepKeepsTidy(env, Execute(env, INITIAL, earlier), ops[|ops| - 1], id);
    }
  }

  lemma {:induction false} FullnessInRuns(env: Env, ops: seq<Op>, id: string)
    requires ExactRun(env, ops, id)
    requires id in Execute(env, INITIAL, ops).world.sessions.sessions
    requires Execute(env, INITIAL, ops).world.sessions.sessions[id].state.SessionUploading?
    ensures var u := Execute(env, INITIAL, ops).world.sessions.UploadOf(id);
            && 0 <= u.session.written <= u.session.size
            && (u.session.written == u.session.size <==> ResumePoint(u.session) == u.session.size)
            && (u.session.written == u.session.size <==> |u.data| == ChunkCount(u.session))
            && (u.session.written == u.session.size <==> Check(env, id, u) != Err(Unfinished))
  {
    SessionsStayTidy(env, ops, id);
    FullnessAgrees(env, Execute(env, INITIAL, ops).world.sessions.UploadOf(id));
  }

  // States of sessions ------------------------------------------------------------------------

  ghost predicate NoneVerifying(st: SessionTable) {
    forall id <- st.sessions :: !st.sessions[id].state.SessionVerifying?
  }

  lemma StepNeverVerifies(env: Env, s: System, op: Op)
    requires NoneVerifying(s.world.sessions)
    ensures NoneVerifying(Step(env, s, op).world.sessions)
  {
    SessionsStep(env, s, op);
    var t := s.world.Transfer();
    match op {
      case CreateSession(token, repo, name, size, chunkSize, digest, x) =>
        CreateSessions(t, token, repo, name, size, chunkSize, digest, x);
      case UploadOp(token, x, index, bytes) => UploadFrame(env, t, token, x, index, bytes);
      case _ =>
    }
  }

  /** No session in the table is ever verifying: the middle state of the session
      lifecycle is never reached. */
  lemma {:induction false} NeverVerifying(env: Env, ops: seq<Op>)
    ensures NoneVerifying(Execute(env, INITIAL, ops).world.sessions)
  {
    if ops == [] {
    } else {
      NeverVerifying(env, ops[..|ops| - 1]);
      StepNeverVerifies(env, Execute(env, INITIAL, ops[..|ops| - 1]), ops[|ops| - 1]);
    }
  }
}
