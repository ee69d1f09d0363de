/** What holds in every reachable state of the registry. */
module Theorems {
  import opened Model
  import opened BlobTables
  import opened TagTables
  import opened Repos
  import opened Index
  import opened Transfers
  import opened Collection
  import opened Safety
  import opened Inflight
  import opened Pipeline
  import opened Systems
  import opened Frames
  import opened Invariants

  lemma {:induction false} ReachableInv(env: Env, ops: seq<Op>)
    ensures Inv(env, Execute(env, INITIAL, ops))
  {
    InitialInv(env);
    RunKeepsInv(env, INITIAL, ops);
  }

  // Content --------------------------------------------------------------------------------

  /** After any run, with marks of any age swept at any time, every tag points at
      a stored manifest of that very digest and the ledger is exact. No property of
      the digest function is needed for this. */
  lemma EveryTagResolves(env: Env, ops: seq<Op>)
    ensures var w := Execute(env, INITIAL, ops).world;
            && LedgerExact(w.tags)
            && (forall k <- w.tags.tags ::
                  (k.0, w.tags.tags[k]) in w.manifests && w.manifests[(k.0, w.tags.tags[k])].digest == w.tags.tags[k])
  {
    ReachableInv(env, ops);
    var c := Execute(env, INITIAL, ops).world.Content();
    forall k <- c.tags.tags
      ensures (k.0, c.tags.tags[k]) in c.manifests && c.manifests[(k.0, c.tags.tags[k])].digest == c.tags.tags[k]
    {
    }
  }

  /** After any run, with marks of any age swept at any time: every tag resolves,
      every descriptor of every stored manifest names a committed blob whose bytes
      have that digest, and every tag can be fetched with a live token. */
  lemma {:induction false} EveryTagCanBeFetched(env: Env, ops: seq<Op>, token: string, repo: string, ref: string)
    requires CollisionFree(env)
    ensures var w := Execute(env, INITIAL, ops).world;
            && (forall k <- w.tags.tags :: (k.0, w.tags.tags[k]) in w.manifests)
            && (forall k <- w.manifests, d <- w.manifests[k].Digests() ::
                  w.blobs.Committed(k.0, d) && (k.0, d) in w.blobs.data && env.digestOf(w.blobs.data[(k.0, d)]) == d)
            && ((repo, ref) in w.tags.tags && w.auth.Live(token) ==>
                  var r := FetchArtifact(env, w, token, repo, ref);
                  r.Ok? && r.value.Keys == w.manifests[(repo, w.tags.tags[(repo, ref)])].Digests()
                  && forall d <- r.value :: env.digestOf(r.value[d]) == d)
  {
    ReachableInv(env, ops);
    var w := Execute(env, INITIAL, ops).world;
    var c := w.Content();
    assert forall k <- c.manifests, d <- c.manifests[k].Digests() :: (k.0, d) in c.blobs.data;
    assert forall k <- c.tags.tags :: (k.0, c.tags.tags[k]) in c.manifests;
    if (repo, ref) in w.tags.tags && w.auth.Live(token) {
      TagsCanBeFetched(env, w, token, repo, ref);
    }
  }

  /** A sweep with any mark left by an earlier step deletes no manifest tagged
      when it starts, and every manifest it leaves has all its bytes. */
  lemma StaleSweepIsSafe(env: Env, ops: seq<Op>, k: nat)
    requires CollisionFree(env) && k < |Execute(env, INITIAL, ops).marks|
    ensures var s := Execute(env, INITIAL, ops);
            var before, after := s.world.Content(), SweepStep(s, k).world.Content();
            && (forall x <- before.manifests | before.Tagged(x.0, x.1) ::
                  x in after.manifests && after.manifests[x] == before.manifests[x])
            && (forall x <- after.manifests, d <- after.manifests[x].Digests() :: (x.0, d) in after.blobs.data)
  {
    ReachableInv(env, ops);
    var s := Execute(env, INITIAL, ops);
    SweepStepKeeps(env, s, k);
    forall x <- s.world.Content().manifests | s.world.Content().Tagged(x.0, x.1)
      ensures x in Sweep(s.world.Content(), s.marks[k]).manifests
    {
      SweepKeepsTagged(s.world.Content(), s.marks[k], x.0, x.1);
    }
  }

  /** In every reachable state the two admission checks agree. */
  lemma {:induction false} AdmissionAgrees(env: Env, ops: seq<Op>, repo: string, m: Manifest)
    ensures var w := Execute(env, INITIAL, ops).world;
            Admission.Validate(w.blobs, w.sessions, repo, m).Ok? <==> Admission.Verify(env, w.blobs, repo, m) == Ok(true)
  {
    ReachableInv(env, ops);
    var w := Execute(env, INITIAL, ops).world;
    Admission.ValidateIffVerify(env, w.blobs, w.sessions, repo, m);
  }

  // The published index ----------------------------------------------------------------------

  /** The index lists exactly the tags, under their names and with their digests, all
      published. */
  ghost predicate IndexMatches(w: World) {
    && (forall k :: k in w.index <==> k in w.tags.tags)
    && (forall k <- w.index :: w.index[k] == Artifact(k.0, k.1, w.tags.tags[k], ArtifactPublished))
  }

  lemma PublishKeepsIndex(env: Env, w: World, repo: string, m: Manifest, ref: string)
    requires IndexMatches(w) && Admission.Verify(env, w.blobs, repo, m) == Ok(true)
    ensures IndexMatches(Publish(env, w, repo, m, ref).0)
  {
    var tagged := w.tags.Set(repo, ref, m.digest);
    if Admission.Put(w.blobs, w.sessions, w.manifests, repo, m).1.Ok? && tagged.1.Ok? {
      var (index, added) := AddArtifact(w.index, repo, ref, m.digest, true);
      assert added.Ok?;
      assert index[(repo, ref)].digest == m.digest && index[(repo, ref)].state.ArtifactPublished?;
    }
  }

  /** Verification cannot be pending once a manifest was admitted, so the tag and
      the index move together. */
  lemma PushKeepsIndex(env: Env, w: World, token: string, repo: string, raw: Bytes, ref: string)
    requires Sound(env, w.blobs) && IndexMatches(w)
    ensures IndexMatches(PushManifest(env, w, token, repo, raw, ref).0)
  {
    if w.auth.Validate(token).Ok? && Parse(env, raw).Ok? {
      var m := Parse(env, raw).value;
      if Admission.Validate(w.blobs, w.sessions, repo, m).Ok? {
        Admission.ValidateIffVerify(env, w.blobs, w.sessions, repo, m);
        PublishKeepsIndex(env, w, repo, m, ref);
      }
    }
  }

  lemma StepKeepsIndex(env: Env, s: System, op: Op)
    requires Inv(env, s) && IndexMatches(s.world) && !op.RemoveTag?
    ensures IndexMatches(Step(env, s, op).world)
  {
    if op.PushManifestOp? {
      PushKeepsIndex(env, s.world, op.token, op.repo, op.raw, op.ref);
    } else {
      StepFrame(env, s, op);
    }
  }

  /** As long as no tag is removed behind the registry's back, the published index
      and the tag table agree after any run. */
  lemma {:induction false} IndexAgreesWithTags(env: Env, ops: seq<Op>)
    requires forall op <- ops :: !op.RemoveTag?
    ensures IndexMatches(Execute(env, INITIAL, ops).world)
  {
    if ops == [] {
    } else {
      IndexAgreesWithTags(env, ops[..|ops| - 1]);
      ReachableInv(env, ops[..|ops| - 1]);
      StepKeepsIndex(env, Execute(env, INITIAL, ops[..|ops| - 1]), ops[|ops| - 1]);
    }
  }

  // In-flight pushes -------------------------------------------------------------------------

  lemma {:induction false} InjectiveSize(m: map<string, nat>, ks: set<string>)
    requires ks <= m.Keys
    requires forall a <- ks, b <- ks :: m[a] == m[b] ==> a == b
    ensures |set k <- ks :: m[k]| == |ks|
  {
    if ks == {} {
    } else {
      var x := Sets.Pick(ks);
      InjectiveSize(m, ks - {x});
      assert (set k <- ks :: m[k]) == (set k <- ks - {x} :: m[k]) + {m[x]};
    }
  }

  lemma ReleasesAreOpen(rt: RepoTable, st: SessionTable)
    requires ReleasesMatch(st) && TicketsMatch(rt, st)
    ensures st.releases.Keys == (set id <- st.sessions | st.sessions[id].state.SessionUploading?)
    ensures st.releases.Values == (set k | 0 <= k < |rt.tickets| && !rt.tickets[k].fired)
    ensures |st.releases.Values| == |st.releases.Keys|
  {
    InjectiveSize(st.releases, st.releases.Keys);
    assert st.releases.Values == set id <- st.releases.Keys :: st.releases[id];
  }

  /** After any run, interleaved with completions in any stage: a namespace counts
      exactly its uploading sessions; each of those holds its own unfired release,
      and no other release is unfired; and a namespace deleted with sessions still
      uploading is an orphan. */
  lemma {:induction false} InflightIsExact(env: Env, ops: seq<Op>, repo: string)
    ensures var w := Execute(env, INITIAL, ops).world;
            && w.repos.Count(repo) == |Open(w.sessions, repo)|
            && w.sessions.releases.Keys == (set id <- w.sessions.sessions | w.sessions.sessions[id].state.SessionUploading?)
            && w.sessions.releases.Values == (set k | 0 <= k < |w.repos.tickets| && !w.repos.tickets[k].fired)
            && |w.sessions.releases.Values| == |w.sessions.releases.Keys|
            && (w.repos.Deleted(repo) && w.repos.Count(repo) > 0 ==> repo in w.repos.orphans)
  {
    ReachableInv(env, ops);
    var w := Execute(env, INITIAL, ops).world;
    assert w.repos.Count(repo) == |Open(w.sessions, repo)|;
    ReleasesAreOpen(w.repos, w.sessions);
    if w.repos.Count(repo) > 0 {
      var id := Sets.Pick(Open(w.sessions, repo));
      assert w.sessions.sessions[id].repo == repo;
    }
  }
}
