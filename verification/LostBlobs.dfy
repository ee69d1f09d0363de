/** Two runs that leave a blob in a deleted namespace that is no orphan. */
module LostBlobs {
  import opened Model
  import opened Repos
  import opened Auth
  import opened Uploads
  import opened Chunking
  import opened Sets
  import opened Transfers
  import opened Inflight
  import opened Pipeline
  import opened Systems
  import opened Samples
  import opened Facades
  import opened Deletions

  // An upload in the lock gaps of two Completes ----------------------------------------------

  const FIRST: seq<Op> := READY + [CreateSession("t", "r", "n", 1, 1, "", "s")]

  /** A one-byte upload is open. */
  function OpenWorld(data: map<int, Bytes>, chunks: seq<Chunk>, written: int): World {
    EMPTY.(
      repos := RepoTable(map["r" := false], map["r" := 1], {}, [Ticket("r", false)]),
      auth := AuthTable(map["t" := Token("s", "f", 1)], map["s" := "f"], 0),
      sessions := SessionTable(
        map["s" := Session("r", "n", "", SessionUploading, 1, 1, chunks, written, "t")],
        map["s" := data], map["s" := 0], {"s"}))
  }

  lemma OpenCreated()
    ensures Create(ReadyWorld().Transfer(), "t", "r", "n", 1, 1, "", "s").0 == OpenWorld(map[], [], 0).Transfer()
  {
  }

  lemma OpenRun(env: Env)
    ensures Execute(env, INITIAL, FIRST) == System(OpenWorld(map[], [], 0), [], [])
  {
    ReadyRun(env);
    OpenCreated();
    ExecuteThen(env, INITIAL, READY, CreateSession("t", "r", "n", 1, 1, "", "s"));
  }

  function FullWorld(env: Env): World {
    OpenWorld(map[0 := [0]], [Chunk(0, 0, 1, env.digestOf([0]))], 1)
  }

  lemma FullUpload(env: Env)
    ensures Step(env, System(OpenWorld(map[], [], 0), [], []), UploadOp("t", "s", 0, [0])) == System(FullWorld(env), [], [])
  {
    var t := OpenWorld(map[], [], 0).Transfer();
    assert t.auth.ValidateForSession("t", "s").Ok?;
    assert ChunkSizeFor(1, 1, 0) == 1;
    var full := FullWorld(env).sessions.UploadOf("s");
    var u := t.sessions.UploadOf("s");
    assert u == Opened("r", "n", "", 1, 1, "t");
    assert Wrap64(0 * u.session.chunkSize) == 0;
    assert AddChunk(env, u, 0, [0]).Ok?;
    assert u.session.chunks + [Chunk(0, 0, 1, env.digestOf([0]))] == full.session.chunks;
    assert u.data[0 := [0]] == full.data;
    assert AddChunk(env, u, 0, [0]) == Ok(full);
    assert t.sessions.With("s", full) == FullWorld(env).sessions;
  }

  /** The full upload can be completed, any number of times over. */
  lemma FullBegins(env: Env)
    ensures Begin(env, FullWorld(env).Transfer(), "t", "s") == Ok(Completion("s", "r", [0]))
  {
    var data: map<int, Bytes> := map[0 := [0]];
    assert data.Keys == {0};
    assert Assembled(data) == [0] by {
      assert Least(data.Keys) == 0;
      assert (data - {0}).Keys == {};
    }
    assert ChunkCount(FullWorld(env).sessions.sessions["s"]) == 1;
  }

  const FULL: seq<Op> := FIRST + [UploadOp("t", "s", 0, [0])]
  const BEGUN: seq<Op> := FULL + [BeginComplete("t", "s")]
  const GAP: seq<Op> := BEGUN + [BeginComplete("t", "s")]

  const WAITING: Pending := Pending(Completion("s", "r", [0]), Waiting)

  /** A Complete that begins twice. */
  lemma TwoBegins(env: Env, s: System, token: string, id: string, c: Completion)
    requires s.completions == [] && Begin(env, s.world.Transfer(), token, id) == Ok(c)
    ensures Step(env, Step(env, s, BeginComplete(token, id)), BeginComplete(token, id)) ==
            System(s.world, s.marks, [Pending(c, Waiting), Pending(c, Waiting)])
  {
    BeginIsAStep(env, s, token, id);
    BeginIsAStep(env, s.(completions := [Pending(c, Waiting)]), token, id);
  }

  lemma FullRun(env: Env)
    ensures Execute(env, INITIAL, FULL) == System(FullWorld(env), [], [])
  {
    OpenRun(env);
    FullUpload(env);
    ExecuteThen(env, INITIAL, FIRST, UploadOp("t", "s", 0, [0]));
  }

  /** Two Completes of the upload are in their lock gaps. */
  lemma GapRun(env: Env)
    ensures Execute(env, INITIAL, GAP) == System(FullWorld(env), [], [WAITING, WAITING])
  {
    FullRun(env);
    FullBegins(env);
    TwoBegins(env, Execute(env, INITIAL, FULL), "t", "s", WAITING.completion);
    ExecuteThen(env, INITIAL, FULL, BeginComplete("t", "s"));
    ExecuteThen(env, INITIAL, BEGUN, BeginComplete("t", "s"));
  }

  /** The namespace lives, nothing is open in it, and a Complete is in its gap. */
  ghost predicate Exposed(s: System) {
    s.world.repos.Alive("r") && Open(s.world.sessions, "r") == {} && |s.completions| > 0 && s.completions[0] == WAITING
  }

  // An Abort in the gap ----------------------------------------------------------------------

  const ABORTED: seq<Op> := GAP + [AbortSession("t", "s")]

  lemma AbortStep(env: Env)
    ensures Exposed(Step(env, System(FullWorld(env), [], [WAITING, WAITING]), AbortSession("t", "s")))
  {
  }

  lemma AbortedRun(env: Env)
    ensures Exposed(Execute(env, INITIAL, ABORTED))
  {
    GapRun(env);
    AbortStep(env);
    ExecuteThen(env, INITIAL, GAP, AbortSession("t", "s"));
  }

  /** A session is aborted in the lock gap of its Complete, the namespace is deleted
      with nothing in flight, and the Put goes through. Its bytes are committed in a
      deleted namespace that never becomes an orphan, whatever happens later: RunGC
      scans it only when it is asked for by name. */
  lemma AbortInGapLosesBlob(env: Env, after: seq<Op>)
    ensures var s := Step(env, Step(env, Execute(env, INITIAL, ABORTED), DeleteRepo("r")), StoreComplete(0));
            && s.world.repos.Deleted("r")
            && s.world.blobs.Get("r", env.digestOf([0])) == Ok([0])
            && "r" !in Execute(env, s, after).world.repos.orphans
  {
    AbortedRun(env);
    LateBlobInOrphanIff(env, ABORTED, "r", [], 0, after);
  }

  // A second Complete in the gap -------------------------------------------------------------

  const SECOND: seq<Op> := GAP + [StoreComplete(1)]
  const COMPLETED: seq<Op> := SECOND + [FinishComplete(1)]

  /** The second Complete has stored. */
  function StoredState(env: Env): System {
    System(
      FullWorld(env).(blobs := FullWorld(env).blobs.Put(env, "r", [0]).0), [],
      [WAITING, Pending(Completion("s", "r", [0]), Stored)])
  }

  lemma SecondStore(env: Env)
    ensures Step(env, System(FullWorld(env), [], [WAITING, WAITING]), StoreComplete(1)) == StoredState(env)
  {
  }

  lemma SecondFinish(env: Env)
    ensures Exposed(Step(env, StoredState(env), FinishComplete(1)))
  {
  }

  lemma CompletedRun(env: Env)
    ensures Exposed(Execute(env, INITIAL, COMPLETED))
  {
    GapRun(env);
    SecondStore(env);
    ExecuteThen(env, INITIAL, GAP, StoreComplete(1));
    SecondFinish(env);
    ExecuteThen(env, INITIAL, SECOND, FinishComplete(1));
  }

  /** The same when a second Complete of the session finishes in the gap. */
  lemma CompleteInGapLosesBlob(env: Env, after: seq<Op>)
    ensures var s := Step(env, Step(env, Execute(env, INITIAL, COMPLETED), DeleteRepo("r")), StoreComplete(0));
            && s.world.repos.Deleted("r")
            && s.world.blobs.Get("r", env.digestOf([0])) == Ok([0])
            && "r" !in Execute(env, s, after).world.repos.orphans
  {
    CompletedRun(env);
    LateBlobInOrphanIff(env, COMPLETED, "r", [], 0, after);
  }
}
