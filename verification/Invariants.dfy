/** What every step of the registry keeps, and so every run. */
module Invariants {
  import opened Model
  import opened BlobTables
  import opened TagTables
  import opened Auth
  import opened Uploads
  import opened Transfers
  import opened Collection
  import opened Safety
  import opened Inflight
  import opened Pipeline
  import opened Systems
  import opened Frames

  /** Sessions and tokens: accounts balance, families agree, bound sessions were
      issued, and the empty identifier was not. */
  ghost predicate Orderly(w: World) {
    && Accounted(w.repos, w.sessions)
    && FamiliesAgree(w.auth)
    && (forall id <- w.auth.sessions :: id in w.sessions.issued)
    && "" !in w.sessions.issued
  }

  /** A completion remembers the namespace of its session. */
  ghost predicate Remembers(st: SessionTable, c: Completion) {
    c.id in st.issued && (c.id in st.sessions ==> st.sessions[c.id].repo == c.repo)
  }

  ghost predicate Inv(env: Env, s: System) {
    && Intact(env, s.world.Content())
    && Orderly(s.world)
    && (CollisionFree(env) ==> forall i | 0 <= i < |s.marks| :: Covers(env, s.marks[i]))
    && (forall i | 0 <= i < |s.completions| :: Remembers(s.world.sessions, s.completions[i].completion))
  }

  // Content ------------------------------------------------------------------------------

  /** New or changed records do no harm while they are sound and no bytes go. */
  lemma GrowingBlobsKeepIntact(env: Env, c: Content, blobs: BlobTable)
    requires Intact(env, c) && Sound(env, blobs) && c.blobs.data.Keys <= blobs.data.Keys
    ensures Intact(env, c.(blobs := blobs))
  {
  }

  lemma PutKeepsIntact(env: Env, c: Content, repo: string, bytes: Bytes)
    requires Intact(env, c)
    ensures Intact(env, c.(blobs := c.blobs.Put(env, repo, bytes).0))
  {
    PutKeepsSound(env, c.blobs, repo, bytes);
    GrowingBlobsKeepIntact(env, c, c.blobs.Put(env, repo, bytes).0);
  }

  lemma RemoveTagKeepsIntact(env: Env, c: Content, repo: string, name: string)
    requires Intact(env, c)
    ensures Intact(env, c.(tags := c.tags.Delete(repo, name).0))
  {
    DeleteKeepsLedger(c.tags, repo, name);
  }

  lemma StoredBacked(c: Content, repo: string, m: Manifest)
    requires Backed(c) && forall d <- m.Digests() :: (repo, d) in c.blobs.data
    ensures Backed(c.(manifests := c.manifests[(repo, m.digest) := m]))
  {
  }

  /** An admitted manifest has all its bytes, so storing it keeps every promise. */
  lemma StoreKeepsIntact(env: Env, w: World, repo: string, m: Manifest)
    requires Intact(env, w.Content()) && Parsed(env, m)
    requires Admission.Put(w.blobs, w.sessions, w.manifests, repo, m).1.Ok?
    ensures Intact(env, w.Content().(manifests := w.manifests[(repo, m.digest) := m]))
  {
    Admission.AdmitIff(w.blobs, w.sessions, repo, m.Descriptors());
    forall d <- m.Digests() ensures (repo, d) in w.blobs.data {
      var x :| x in m.Descriptors() && x.digest == d;
      assert w.blobs.Committed(repo, x.digest);
    }
    if CollisionFree(env) { StoredBacked(w.Content(), repo, m); }
  }

  /** Setting a tag keeps the registry intact exactly when the manifest it is to
      point at is stored, or Set refuses. */
  lemma TagKeepsIntactIff(env: Env, c: Content, repo: string, ref: string, digest: string)
    requires Intact(env, c)
    ensures var c' := c.(tags := c.tags.Set(repo, ref, digest).0);
            && (Intact(env, c') <==> ref == "" || digest == "" || (repo, digest) in c.manifests)
            && (Resolved(c') <==> ref == "" || digest == "" || (repo, digest) in c.manifests)
  {
    SetKeepsLedger(c.tags, repo, ref, digest);
    var c' := c.(tags := c.tags.Set(repo, ref, digest).0);
    if ref == "" || digest == "" {
      assert c' == c;
    } else {
      assert c'.tags.tags == c.tags.tags[(repo, ref) := digest];
      assert c'.tags.tags[(repo, ref)] == digest;
      if (repo, digest) in c.manifests {
        forall k <- c'.tags.tags ensures c'.tags.tags[k] != "" && (k.0, c'.tags.tags[k]) in c'.manifests {
          if k != (repo, ref) { assert k in c.tags.tags; }
        }
      }
    }
  }

  lemma AnnounceKeepsIntact(env: Env, w: World, repo: string, m: Manifest, ref: string)
    requires Intact(env, w.Content())
    ensures Intact(env, Announce(env, w, repo, m, ref).0.Content())
  {
    var released := w.blobs.(recs := ReleaseAll(w.blobs.recs, repo, References(m.Descriptors())));
    ReleaseKeepsSound(env, w.blobs, repo, References(m.Descriptors()));
    GrowingBlobsKeepIntact(env, w.Content(), released);
  }

  lemma PushManifestKeepsIntact(env: Env, w: World, token: string, repo: string, raw: Bytes, ref: string)
    requires Intact(env, w.Content())
    ensures Intact(env, PushManifest(env, w, token, repo, raw, ref).0.Content())
  {
    if w.auth.Validate(token).Ok? && Parse(env, raw).Ok? {
      var m := Parse(env, raw).value;
      assert Parsed(env, m);
      var (manifests, stored) := Admission.Put(w.blobs, w.sessions, w.manifests, repo, m);
      if stored.Ok? {
        StoreKeepsIntact(env, w, repo, m);
        TagKeepsIntactIff(env, w.Content().(manifests := manifests), repo, ref, m.digest);
        var recorded := w.(manifests := manifests, tags := w.tags.Set(repo, ref, m.digest).0);
        assert recorded.Content() == w.Content().(manifests := manifests, tags := recorded.tags);
        AnnounceKeepsIntact(env, recorded, repo, m, ref);
      }
    }
  }

  lemma ReserveEffects(env: Env, blobs: BlobTable, repo: string, digest: string, size: int)
    requires Sound(env, blobs)
    ensures Sound(env, Reserve(blobs, repo, digest, size).0)
    ensures Reserve(blobs, repo, digest, size).0.data == blobs.data
  {
  }

  /** At most `id` is issued, and sessions other than `id` stay as they are. */
  ghost predicate OnlyAdds(st: SessionTable, st': SessionTable, id: string) {
    && st.issued <= st'.issued <= st.issued + {id}
    && (forall x | x != id ::
          (x in st'.sessions <==> x in st.sessions) && (x in st.sessions ==> st'.sessions[x] == st.sessions[x]))
  }

  lemma RegisterEffects(t: Transfer, token: string, id: string, session: Session, ticket: nat)
    requires FamiliesAgree(t.auth) && id !in t.auth.sessions
    ensures var t' := Register(t, token, id, session, ticket).0;
            && t'.blobs == t.blobs
            && FamiliesAgree(t'.auth)
            && (forall x <- t'.auth.sessions :: x in t.auth.sessions || x == id)
            && id in t'.sessions.issued && OnlyAdds(t.sessions, t'.sessions, id)
  {
  }

  /** Create touches the blobs by staging at most. */
  lemma CreateBlobs(env: Env, t: Transfer, token: string, repo: string, name: string, size: int64, chunkSize: int64,
                    digest: string, id: string)
    requires Sound(env, t.blobs)
    ensures var t' := Create(t, token, repo, name, size, chunkSize, digest, id).0;
            Sound(env, t'.blobs) && t'.blobs.data == t.blobs.data
  {
    ReserveEffects(env, t.blobs, repo, digest, size);
  }

  /** Create touches the tokens by binding at most, and adds at most its session. */
  lemma CreateBinds(t: Transfer, token: string, repo: string, name: string, size: int64, chunkSize: int64,
                    digest: string, id: string)
    requires FamiliesAgree(t.auth) && id !in t.auth.sessions
    ensures var t' := Create(t, token, repo, name, size, chunkSize, digest, id).0;
            && FamiliesAgree(t'.auth)
            && (forall x <- t'.auth.sessions :: x in t.auth.sessions || (x == id && id in t'.sessions.issued))
            && OnlyAdds(t.sessions, t'.sessions, id)
  {
    var (entered, ticket) := t.repos.Enter(repo);
    if ticket.Ok? {
      var staged := Reserve(t.blobs, repo, digest, size).0;
      RegisterEffects(t.(blobs := staged, repos := entered), token, id,
                      Opened(repo, name, digest, size, chunkSize, token).session, ticket.value);
    }
  }

  // Steps --------------------------------------------------------------------------------

  lemma CreateStep(env: Env, s: System, op: Op)
    requires Inv(env, s) && op.CreateSession? && Fresh(s.world, op)
    ensures Inv(env, Step(env, s, op))
  {
    var w, t := s.world, s.world.Transfer();
    CreateBlobs(env, t, op.token, op.repo, op.name, op.size, op.chunkSize, op.digest, op.id);
    CreateBinds(t, op.token, op.repo, op.name, op.size, op.chunkSize, op.digest, op.id);
    CreateKeepsAccounts(t, op.token, op.repo, op.name, op.size, op.chunkSize, op.digest, op.id);
    var w' := WorldStep(env, w, op);
    GrowingBlobsKeepIntact(env, w.Content(), w'.blobs);
    assert w'.Content() == w.Content().(blobs := w'.blobs);
  }

  /** A step that leaves sessions, namespaces and tokens alone. */
  lemma ContentStep(env: Env, s: System, w: World)
    requires Inv(env, s) && Intact(env, w.Content())
    requires w.repos == s.world.repos && w.auth == s.world.auth && w.sessions == s.world.sessions
    ensures Inv(env, s.(world := w))
  {
  }

  /** A step that leaves the content alone and drops or changes sessions. */
  lemma TransferStep(env: Env, s: System, w: World)
    requires Inv(env, s) && w.Content() == s.world.Content()
    requires Accounted(w.repos, w.sessions) && w.auth == s.world.auth && w.sessions.issued == s.world.sessions.issued
    requires forall id <- w.sessions.sessions ::
               id in s.world.sessions.sessions && w.sessions.sessions[id].repo == s.world.sessions.sessions[id].repo
    ensures Inv(env, s.(world := w))
  {
  }

  lemma UploadStep(env: Env, s: System, op: Op)
    requires Inv(env, s) && op.UploadOp?
    ensures Inv(env, Step(env, s, op))
  {
    var t := s.world.Transfer();
    UploadKeepsAccounts(env, t, op.token, op.id, op.index, op.bytes);
    UploadFrame(env, t, op.token, op.id, op.index, op.bytes);
    TransferStep(env, s, s.world.WithTransfer(UploadChunk(env, t, op.token, op.id, op.index, op.bytes).0));
  }

  lemma AbortStep(env: Env, s: System, op: Op)
    requires Inv(env, s) && op.AbortSession?
    ensures Inv(env, Step(env, s, op))
  {
    AbortKeepsAccounts(s.world.Transfer(), op.token, op.id);
    TransferStep(env, s, WorldStep(env, s.world, op));
  }

  lemma PushBlobKeeps(env: Env, s: System, token: string, repo: string, bytes: Bytes)
    requires Inv(env, s)
    ensures Inv(env, s.(world := PushBlob(env, s.world, token, repo, bytes).0))
  {
    var w := s.world;
    PutKeepsIntact(env, w.Content(), repo, bytes);
    var put := w.(blobs := w.blobs.Put(env, repo, bytes).0);
    assert put.Content() == w.Content().(blobs := put.blobs);
    ContentStep(env, s, put);
  }

  lemma PushManifestKeeps(env: Env, s: System, token: string, repo: string, raw: Bytes, ref: string)
    requires Inv(env, s)
    ensures Inv(env, s.(world := PushManifest(env, s.world, token, repo, raw, ref).0))
  {
    PushManifestKeepsIntact(env, s.world, token, repo, raw, ref);
    PushManifestFrame(env, s.world, token, repo, raw, ref);
    ContentStep(env, s, PushManifest(env, s.world, token, repo, raw, ref).0);
  }

  lemma RemoveTagKeeps(env: Env, s: System, repo: string, name: string)
    requires Inv(env, s)
    ensures Inv(env, s.(world := s.world.(tags := s.world.tags.Delete(repo, name).0)))
  {
    var w := s.world.(tags := s.world.tags.Delete(repo, name).0);
    RemoveTagKeepsIntact(env, s.world.Content(), repo, name);
    assert w.Content() == s.world.Content().(tags := w.tags);
    ContentStep(env, s, w);
  }

  lemma ReferencesKeep(env: Env, s: System, repo: string, digest: string)
    requires Inv(env, s)
    ensures Inv(env, s.(world := s.world.(blobs := s.world.blobs.IncRef(repo, digest).0)))
    ensures Inv(env, s.(world := s.world.(blobs := s.world.blobs.DecRef(repo, digest).0)))
  {
    var c := s.world.Content();
    RefsKeepSound(env, c.blobs, repo, digest);
    GrowingBlobsKeepIntact(env, c, c.blobs.IncRef(repo, digest).0);
    GrowingBlobsKeepIntact(env, c, c.blobs.DecRef(repo, digest).0);
    ContentStep(env, s, s.world.(blobs := c.blobs.IncRef(repo, digest).0));
    ContentStep(env, s, s.world.(blobs := c.blobs.DecRef(repo, digest).0));
  }

  lemma RepoStep(env: Env, s: System, op: Op)
    requires Inv(env, s) && Fresh(s.world, op)
    requires op.CreateRepo? || op.DeleteRepo? || op.IssueToken? || op.RenewToken? || op.Tick?
    ensures Inv(env, Step(env, s, op))
  {
    var w := s.world;
    match op
    case CreateRepo(name) => CreateRepoKeepsAccounts(w.repos, w.sessions, name);
    case DeleteRepo(name) => DeleteKeepsAccounts(w.repos, w.sessions, name);
    case IssueToken(ttl, id, family) => BindingsKeepFamilies(w.auth, "", "", ttl, id, family);
    case RenewToken(token, ttl, id) => BindingsKeepFamilies(w.auth, token, "", ttl, id, "");
    case Tick(_) =>
  }

  lemma BegunKeeps(env: Env, s: System, c: Completion)
    requires Inv(env, s) && Remembers(s.world.sessions, c)
    ensures Inv(env, s.(completions := s.completions + [Pending(c, Waiting)]))
  {
  }

  lemma BeginStep(env: Env, s: System, op: Op)
    requires Inv(env, s) && op.BeginComplete?
    ensures Inv(env, Step(env, s, op))
  {
    var begun := Begin(env, s.world.Transfer(), op.token, op.id);
    if begun.Ok? { BegunKeeps(env, s, begun.value); }
  }

  lemma StoreStepKeeps(env: Env, s: System, k: nat)
    requires Inv(env, s)
    ensures Inv(env, StoreStep(env, s, k))
  {
    if k < |s.completions| && s.completions[k].stage.Waiting? {
      var c := s.completions[k].completion;
      PutKeepsIntact(env, s.world.Content(), c.repo, c.bytes);
      var w := s.world.WithTransfer(Store(env, s.world.Transfer(), c).0);
      assert w.Content() == s.world.Content().(blobs := w.blobs);
      ContentStep(env, s, w);
    }
  }

  lemma FinishStepKeeps(env: Env, s: System, k: nat)
    requires Inv(env, s)
    ensures Inv(env, FinishStep(s, k))
  {
    if k < |s.completions| && s.completions[k].stage.Stored? {
      var id := s.completions[k].completion.id;
      FinishKeepsAccounts(s.world.Transfer(), id);
      TransferStep(env, s, s.world.WithTransfer(Finish(s.world.Transfer(), id).0));
    }
  }

  lemma MarkStep(env: Env, s: System, op: Op)
    requires Inv(env, s) && op.MarkRepo?
    ensures Inv(env, Step(env, s, op))
  {
    if CollisionFree(env) { MarkCovers(env, s.world.Content(), op.repo); }
  }

  lemma SweepStepKeeps(env: Env, s: System, k: nat)
    requires Inv(env, s)
    ensures Inv(env, SweepStep(s, k))
  {
    if k < |s.marks| {
      var c := s.world.Content();
      var mark := s.marks[k];
      SweepKeepsIntact(env, c, mark);
      var w := s.world.WithContent(Sweep(c, mark));
      assert w.Content() == Sweep(c, mark);
      ContentStep(env, s, w);
      assert Covers(env, mark) ==> Covers(env, mark.(blobs := Reach(c, mark)));
    }
  }

  lemma PhaseKeepsInv(env: Env, s: System, op: Op)
    requires Inv(env, s) && Phase(op)
    ensures Inv(env, Step(env, s, op))
  {
    match op {
      case BeginComplete(_, _) => BeginStep(env, s, op);
      case StoreComplete(k) => StoreStepKeeps(env, s, k);
      case FinishComplete(k) => FinishStepKeeps(env, s, k);
      case MarkRepo(_) => MarkStep(env, s, op);
      case SweepMark(k) => SweepStepKeeps(env, s, k);
    }
  }

  /** Steps on the content alone. */
  lemma PushKeepsInv(env: Env, s: System, op: Op)
    requires Inv(env, s) && (op.PushBlobOp? || op.PushManifestOp?)
    ensures Inv(env, Step(env, s, op))
  {
    WholeStep(env, s, op);
    if op.PushBlobOp? {
      PushBlobKeeps(env, s, op.token, op.repo, op.bytes);
    } else {
      PushManifestKeeps(env, s, op.token, op.repo, op.raw, op.ref);
    }
  }

  lemma StoreOpKeepsInv(env: Env, s: System, op: Op)
    requires Inv(env, s) && (op.RemoveTag? || op.AddReference? || op.DropReference?)
    ensures Inv(env, Step(env, s, op))
  {
    WholeStep(env, s, op);
    if op.RemoveTag? {
      RemoveTagKeeps(env, s, op.repo, op.name);
    } else {
      ReferencesKeep(env, s, op.repo, op.digest);
    }
  }

  /** Every step keeps the invariant. */
  lemma {:induction false} StepKeepsInv(env: Env, s: System, op: Op)
    requires Inv(env, s)
    ensures Inv(env, Step(env, s, op))
  {
    if !Fresh(s.world, op) {
    } else if Phase(op) {
      PhaseKeepsInv(env, s, op);
    } else if op.CreateSession? {
      CreateStep(env, s, op);
    } else if op.UploadOp? {
      UploadStep(env, s, op);
    } else if op.AbortSession? {
      AbortStep(env, s, op);
    } else if op.CreateRepo? || op.DeleteRepo? || op.IssueToken? || op.RenewToken? || op.Tick? {
      RepoStep(env, s, op);
    } else if op.PushBlobOp? || op.PushManifestOp? {
      PushKeepsInv(env, s, op);
    } else {
      StoreOpKeepsInv(env, s, op);
    }
  }

  lemma InitialInv(env: Env)
    ensures Inv(env, INITIAL)
  {
  }

  lemma {:induction false} RunKeepsInv(env: Env, s: System, ops: seq<Op>)
    requires Inv(env, s)
    ensures Inv(env, Execute(env, s, ops))
  {
    if ops == [] {
    } else {
      RunKeepsInv(env, s, ops[..|ops| - 1]);
      StepKeepsInv(env, Execute(env, s, ops[..|ops| - 1]), ops[|ops| - 1]);
    }
  }
}
