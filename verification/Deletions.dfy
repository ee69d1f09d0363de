/** Deleted namespaces: they never come back, and which blobs put into them late
    the collector still finds. */
module Deletions {
  import opened Model
  import opened BlobTables
  import opened Transfers
  import opened Inflight
  import opened Pipeline
  import opened Systems
  import opened Frames
  import opened Invariants
  import opened Theorems
  import opened Facades

  lemma StepKeepsDeleted(env: Env, s: System, op: Op, repo: string)
    requires s.world.repos.Deleted(repo)
    ensures Step(env, s, op).world.repos.Deleted(repo)
    ensures s.world.repos.orphans <= Step(env, s, op).world.repos.orphans
  {
    var t := s.world.Transfer();
    if !TouchesRepos(op) {
      StepFrame(env, s, op);
    } else if op.CreateSession? {
      CreateLeaves(t, op.token, op.repo, op.name, op.size, op.chunkSize, op.digest, op.id);
    } else if op.AbortSession? {
      FiredKeepsRepos(t, op.id);
    } else if op.FinishComplete? {
      if op.pending < |s.completions| { FiredKeepsRepos(t, s.completions[op.pending].completion.id); }
    }
  }

  /** A deleted namespace never comes back, and an orphan stays one. */
  lemma {:induction false} DeletionIsPermanent(env: Env, s: System, ops: seq<Op>, repo: string)
    requires s.world.repos.Deleted(repo)
    ensures var rt := Execute(env, s, ops).world.repos;
            rt.Deleted(repo) && !rt.Alive(repo) && rt.Create(repo).1.Err? && rt.Enter(repo).1.Err?
            && s.world.repos.orphans <= rt.orphans
  {
    if ops == [] {
    } else {
      DeletionIsPermanent(env, s, ops[..|ops| - 1], repo);
      StepKeepsDeleted(env, Execute(env, s, ops[..|ops| - 1]), ops[|ops| - 1], repo);
    }
  }

  // Which namespaces live ----------------------------------------------------------------------

  /** The run creates the namespace. */
  predicate Creates(ops: seq<Op>, name: string) {
    CreateRepo(name) in ops
  }

  /** The run creates the namespace and deletes it later. */
  predicate CreatesThenDeletes(ops: seq<Op>, name: string) {
    exists i, j | 0 <= i < j < |ops| :: ops[i] == CreateRepo(name) && ops[j] == DeleteRepo(name)
  }

  lemma OneMore(ops: seq<Op>, name: string)
    requires ops != []
    ensures var earlier, op := ops[..|ops| - 1], ops[|ops| - 1];
            && (Creates(ops, name) <==> Creates(earlier, name) || op == CreateRepo(name))
            && (CreatesThenDeletes(ops, name) <==>
                  CreatesThenDeletes(earlier, name) || (Creates(earlier, name) && op == DeleteRepo(name)))
  {
    var earlier, op := ops[..|ops| - 1], ops[|ops| - 1];
    assert ops == earlier + [op];
    if CreatesThenDeletes(ops, name) {
      var i, j :| 0 <= i < j < |ops| && ops[i] == CreateRepo(name) && ops[j] == DeleteRepo(name);
      assert earlier[i] == CreateRepo(name);
      if j < |earlier| { assert earlier[j] == DeleteRepo(name); }
    }
    if Creates(earlier, name) && op == DeleteRepo(name) {
      var i :| 0 <= i < |earlier| && earlier[i] == CreateRepo(name);
      assert ops[i] == CreateRepo(name) && ops[|earlier|] == DeleteRepo(name);
    }
    if CreatesThenDeletes(earlier, name) {
      var i, j :| 0 <= i < j < |earlier| && earlier[i] == CreateRepo(name) && earlier[j] == DeleteRepo(name);
      assert ops[i] == CreateRepo(name) && ops[j] == DeleteRepo(name);
    }
  }

  lemma NamesStep(env: Env, s: System, op: Op)
    ensures Step(env, s, op).world.repos.repos ==
            match op
            case CreateRepo(name) => s.world.repos.Create(name).0.repos
            case DeleteRepo(name) => s.world.repos.Delete(name).0.repos
            case _ => s.world.repos.repos
  {
    var t := s.world.Transfer();
    if !TouchesRepos(op) {
      StepFrame(env, s, op);
    } else if op.CreateSession? {
      CreateLeaves(t, op.token, op.repo, op.name, op.size, op.chunkSize, op.digest, op.id);
    } else if op.AbortSession? {
      FiredKeepsRepos(t, op.id);
    } else if op.FinishComplete? {
      if op.pending < |s.completions| { FiredKeepsRepos(t, s.completions[op.pending].completion.id); }
    }
  }

  /** A namespace is known exactly when it was created, and alive exactly when it was
      created and no deletion came after that, whatever else happened. */
  lemma {:induction false} AliveIff(env: Env, ops: seq<Op>, name: string)
    ensures var repos := Execute(env, INITIAL, ops).world.repos.repos;
            && (name in repos <==> name != "" && Creates(ops, name))
            && (name in repos ==> (repos[name] <==> CreatesThenDeletes(ops, name)))
  {
    if ops == [] {
    } else {
      var s, op := Execute(env, INITIAL, ops[..|ops| - 1]), ops[|ops| - 1];
      AliveIff(env, ops[..|ops| - 1], name);
      OneMore(ops, name);
      NamesStep(env, s, op);
      match op {
        case CreateRepo(x) => Repos.NamespaceAnswers(s.world.repos, x);
        case DeleteRepo(x) => Repos.NamespaceAnswers(s.world.repos, x);
        case _ =>
      }
      assert CreatesThenDeletes(ops[..|ops| - 1], name) ==> Creates(ops[..|ops| - 1], name);
    }
  }

  // Orphans ----------------------------------------------------------------------------------

  lemma CreateOpens(t: Transfer, token: string, repo: string, name: string, size: int64, chunkSize: int64,
                    digest: string, id: string, deleted: string)
    requires t.repos.Deleted(deleted)
    ensures Open(Create(t, token, repo, name, size, chunkSize, digest, id).0.sessions, deleted) <= Open(t.sessions, deleted)
  {
  }

  lemma UploadOpens(env: Env, t: Transfer, token: string, id: string, index: int64, bytes: Bytes, repo: string)
    ensures Open(UploadChunk(env, t, token, id, index, bytes).0.sessions, repo) == Open(t.sessions, repo)
  {
    UploadFrame(env, t, token, id, index, bytes);
  }

  lemma LeavingOpens(t: Transfer, token: string, id: string, repo: string)
    ensures Open(Abort(t, token, id).0.sessions, repo) <= Open(t.sessions, repo)
    ensures Open(Finish(t, id).0.sessions, repo) <= Open(t.sessions, repo)
  {
  }

  /** In a deleted namespace no session is opened any more. */
  lemma OpenOnlyShrinks(env: Env, s: System, op: Op, repo: string)
    requires s.world.repos.Deleted(repo)
    ensures Open(Step(env, s, op).world.sessions, repo) <= Open(s.world.sessions, repo)
  {
    SessionsStep(env, s, op);
    var t := s.world.Transfer();
    match op {
      case FinishComplete(k) =>
        if k < |s.completions| { LeavingOpens(t, "", s.completions[k].completion.id, repo); }
      case AbortSession(token, id) => LeavingOpens(t, token, id, repo);
      case UploadOp(token, id, index, bytes) => UploadOpens(env, t, token, id, index, bytes, repo);
      case CreateSession(token, r, name, size, chunkSize, digest, id) =>
        CreateOpens(t, token, r, name, size, chunkSize, digest, id, repo);
      case _ =>
    }
  }

  /** A deleted namespace that is no orphan, with no session open. */
  ghost predicate Settled(w: World, repo: string) {
    w.repos.Deleted(repo) && repo !in w.repos.orphans && Open(w.sessions, repo) == {}
  }

  lemma StepKeepsOrphans(env: Env, s: System, op: Op, repo: string)
    requires repo !in s.world.repos.orphans && s.world.repos.Count(repo) == 0
    ensures repo !in Step(env, s, op).world.repos.orphans
  {
    var t := s.world.Transfer();
    if !TouchesRepos(op) {
      StepFrame(env, s, op);
    } else if op.CreateSession? {
      CreateLeaves(t, op.token, op.repo, op.name, op.size, op.chunkSize, op.digest, op.id);
    } else if op.AbortSession? {
      FiredKeepsRepos(t, op.id);
    } else if op.FinishComplete? {
      if op.pending < |s.completions| { FiredKeepsRepos(t, s.completions[op.pending].completion.id); }
    }
  }

  lemma StepKeepsSettled(env: Env, s: System, op: Op, repo: string)
    requires Inv(env, s) && Settled(s.world, repo)
    ensures Settled(Step(env, s, op).world, repo)
  {
    assert s.world.repos.Count(repo) == |Open(s.world.sessions, repo)|;
    StepKeepsDeleted(env, s, op, repo);
    OpenOnlyShrinks(env, s, op, repo);
    StepKeepsOrphans(env, s, op, repo);
  }

  lemma {:induction false} RunKeepsSettled(env: Env, s: System, ops: seq<Op>, repo: string)
    requires Inv(env, s) && Settled(s.world, repo)
    ensures Settled(Execute(env, s, ops).world, repo)
  {
    if ops == [] {
    } else {
      RunKeepsSettled(env, s, ops[..|ops| - 1], repo);
      RunKeepsInv(env, s, ops[..|ops| - 1]);
      StepKeepsSettled(env, Execute(env, s, ops[..|ops| - 1]), ops[|ops| - 1], repo);
    }
  }

  /** Whether a deleted namespace is an orphan is settled when it is deleted, for
      good: exactly when some session there is uploading at that moment. */
  lemma {:induction false} OrphanIsSettledAtDeletion(env: Env, s: System, repo: string, ops: seq<Op>)
    requires Inv(env, s) && s.world.repos.Alive(repo)
    ensures var rt := Execute(env, Step(env, s, DeleteRepo(repo)), ops).world.repos;
            rt.Deleted(repo) && (repo in rt.orphans <==> Open(s.world.sessions, repo) != {})
  {
    assert s.world.repos.Count(repo) == |Open(s.world.sessions, repo)|;
    var deleted := Step(env, s, DeleteRepo(repo));
    assert deleted == s.(world := s.world.(repos := s.world.repos.Delete(repo).0));
    StepKeepsInv(env, s, DeleteRepo(repo));
    DeletionIsPermanent(env, deleted, ops, repo);
    if Open(s.world.sessions, repo) == {} {
      RunKeepsSettled(env, deleted, ops, repo);
    }
  }

  // Late blobs -----------------------------------------------------------------------------

  /** A completion in its lock gap stores into a namespace deleted at any earlier
      moment of the run. The blob is then in a namespace RunGC scans exactly when
      some session there was uploading when the namespace was deleted; what
      happened between the deletion and the Put, and what happens later, does not
      matter. */
  lemma {:induction false} LateBlobInOrphanIff(env: Env, before: seq<Op>, repo: string, between: seq<Op>, k: nat,
                                               after: seq<Op>)
    requires Execute(env, INITIAL, before).world.repos.Alive(repo)
    requires var s := Execute(env, Step(env, Execute(env, INITIAL, before), DeleteRepo(repo)), between);
             && k < |s.completions| && s.completions[k].stage.Waiting?
             && s.completions[k].completion.repo == repo && s.completions[k].completion.bytes != []
    ensures var open := Open(Execute(env, INITIAL, before).world.sessions, repo);
            var s := Execute(env, Step(env, Execute(env, INITIAL, before), DeleteRepo(repo)), between);
            var bytes := s.completions[k].completion.bytes;
            var stored := Step(env, s, StoreComplete(k));
            && s.world.repos.Deleted(repo)
            && stored.world.blobs.Get(repo, env.digestOf(bytes)) == Ok(bytes)
            && (repo in stored.world.repos.orphans <==> open != {})
            && (repo in Execute(env, stored, after).world.repos.orphans <==> open != {})
  {
    var s0 := Execute(env, INITIAL, before);
    var s1 := Step(env, s0, DeleteRepo(repo));
    var s := Execute(env, s1, between);
    ReachableInv(env, before);
    OrphanIsSettledAtDeletion(env, s0, repo, between);
    OrphanIsSettledAtDeletion(env, s0, repo, between + [StoreComplete(k)]);
    OrphanIsSettledAtDeletion(env, s0, repo, between + [StoreComplete(k)] + after);
    ExecuteThen(env, s1, between, StoreComplete(k));
    ExecuteAppend(env, s1, between + [StoreComplete(k)], after);
    PutThenGet(env, s.world.blobs, repo, s.completions[k].completion.bytes);
  }

  /** The steps that end an upload: an Abort that is let through, and the last step
      of a Complete of that session. */
  ghost predicate Ends(s: System, op: Op, id: string) {
    match op
    case AbortSession(token, x) => x == id && s.world.auth.ValidateForSession(token, id).Ok?
    case FinishComplete(k) => k < |s.completions| && s.completions[k].stage.Stored? && s.completions[k].completion.id == id
    case _ => false
  }

  ghost predicate NeverEnds(env: Env, s: System, ops: seq<Op>, id: string) {
    ops == []
    || (NeverEnds(env, s, ops[..|ops| - 1], id) && !Ends(Execute(env, s, ops[..|ops| - 1]), ops[|ops| - 1], id))
  }

  ghost predicate Uploading(w: World, id: string, repo: string) {
    id in Open(w.sessions, repo)
  }

  lemma LeavingUploads(t: Transfer, token: string, x: string, id: string, repo: string)
    requires id in Open(t.sessions, repo)
    ensures id in Open(Abort(t, token, x).0.sessions, repo) <==> x != id || t.auth.ValidateForSession(token, x).Err?
    ensures id in Open(Finish(t, x).0.sessions, repo) <==> x != id
  {
  }

  lemma CreateUploads(t: Transfer, token: string, repo: string, name: string, size: int64, chunkSize: int64,
                      digest: string, x: string, id: string, r: string)
    requires id in Open(t.sessions, r) && x != id
    ensures id in Open(Create(t, token, repo, name, size, chunkSize, digest, x).0.sessions, r)
  {
    CreateSessions(t, token, repo, name, size, chunkSize, digest, x);
  }

  lemma FinishedIff(env: Env, s: System, k: nat, id: string, repo: string)
    requires id in Open(s.world.sessions, repo)
    ensures id in Open(SessionsAfter(env, s, FinishComplete(k)), repo) <==> !Ends(s, FinishComplete(k), id)
  {
    if k < |s.completions| { LeavingUploads(s.world.Transfer(), "", s.completions[k].completion.id, id, repo); }
  }

  lemma AbortedIff(env: Env, s: System, token: string, x: string, id: string, repo: string)
    requires id in Open(s.world.sessions, repo)
    ensures id in Open(SessionsAfter(env, s, AbortSession(token, x)), repo) <==> !Ends(s, AbortSession(token, x), id)
  {
    LeavingUploads(s.world.Transfer(), token, x, id, repo);
  }

  lemma OtherwiseOpen(env: Env, s: System, op: Op, id: string, repo: string)
    requires id in Open(s.world.sessions, repo) && id in s.world.sessions.issued
    requires !op.FinishComplete? && !op.AbortSession?
    ensures id in Open(SessionsAfter(env, s, op), repo)
  {
    var t := s.world.Transfer();
    if op.UploadOp? {
      UploadOpens(env, t, op.token, op.id, op.index, op.bytes, repo);
    } else if op.CreateSession? && op.id != id {
      CreateUploads(t, op.token, op.repo, op.name, op.size, op.chunkSize, op.digest, op.id, id, repo);
    }
  }

  /** A session stops uploading exactly by such a step. */
  lemma StillUploadingIff(env: Env, s: System, op: Op, id: string, repo: string)
    requires Uploading(s.world, id, repo) && id in s.world.sessions.issued
    ensures Uploading(Step(env, s, op).world, id, repo) <==> !Ends(s, op, id)
  {
    SessionsStep(env, s, op);
    match op {
      case FinishComplete(k) => FinishedIff(env, s, k, id, repo);
      case AbortSession(token, x) => AbortedIff(env, s, token, x, id, repo);
      case _ => OtherwiseOpen(env, s, op, id, repo);
    }
  }

  lemma {:induction false} UploadingThroughout(env: Env, s: System, ops: seq<Op>, id: string, repo: string)
    requires Inv(env, s) && Uploading(s.world, id, repo) && NeverEnds(env, s, ops, id)
    ensures Uploading(Execute(env, s, ops).world, id, repo)
  {
    if ops == [] {
    } else {
      var earlier := ops[..|ops| - 1];
      UploadingThroughout(env, s, earlier, id, repo);
      RunKeepsInv(env, s, earlier);
      StillUploadingIff(env, Execute(env, s, earlier), ops[|ops| - 1], id, repo);
    }
  }

  /** With at most one Complete or Abort of a session on its way, its blob is never
      lost: a Complete begins, anything else happens that does not end the upload,
      and its Put lands in a namespace deleted by then; that namespace is an orphan
      from then on. */
  lemma {:induction false} LateBlobIsInOrphan(env: Env, before: seq<Op>, token: string, id: string, between: seq<Op>,
                                              after: seq<Op>)
    requires Begin(env, Execute(env, INITIAL, before).world.Transfer(), token, id).Ok?
    requires NeverEnds(env, Step(env, Execute(env, INITIAL, before), BeginComplete(token, id)), between, id)
    ensures var s := Execute(env, INITIAL, before);
            var c := Begin(env, s.world.Transfer(), token, id).value;
            var gap := Execute(env, Step(env, s, BeginComplete(token, id)), between);
            var stored := Step(env, gap, StoreComplete(|s.completions|));
            gap.world.repos.Deleted(c.repo) ==>
              c.repo in stored.world.repos.orphans && c.repo in Execute(env, stored, after).world.repos.orphans
  {
    var s := Execute(env, INITIAL, before);
    var c := Begin(env, s.world.Transfer(), token, id).value;
    var begun := Step(env, s, BeginComplete(token, id));
    var gap := Execute(env, begun, between);
    var stored := Step(env, gap, StoreComplete(|s.completions|));
    ReachableInv(env, before);
    BeginIsAStep(env, s, token, id);
    StepKeepsInv(env, s, BeginComplete(token, id));
    assert Uploading(begun.world, id, c.repo);
    UploadingThroughout(env, begun, between, id, c.repo);
    RunKeepsInv(env, begun, between);
    if gap.world.repos.Deleted(c.repo) {
      assert gap.world.sessions.sessions[id].repo == c.repo;
      StepKeepsDeleted(env, gap, StoreComplete(|s.completions|), c.repo);
      DeletionIsPermanent(env, stored, after, c.repo);
    }
  }
}
