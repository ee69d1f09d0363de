/** What reference counts promise, and what they do not: when a push leaves them
    as it found them, when a sweep does, and which steps take a reference away. */
module Holding {
  import opened Model
  import opened BlobTables
  import opened Transfers
  import opened Collection
  import opened Pipeline
  import opened Systems
  import opened Frames
  import opened Invariants

  // Counting references --------------------------------------------------------------------

  lemma {:induction false} ReferencesAre(ds: seq<Descriptor>, digest: string)
    ensures digest in References(ds) <==> digest in DigestSet(ds)
  {
    if ds == [] {
    } else {
      var earlier, last := ds[..|ds| - 1], ds[|ds| - 1];
      ReferencesAre(earlier, digest);
      assert ds == earlier + [last];
      assert DigestSet(ds) == DigestSet(earlier) + {last.digest};
    }
  }

  /** Some of the manifests names the digest. */
  ghost predicate Named(manifests: map<Key, Manifest>, ks: set<Key>, digest: string)
    requires ks <= manifests.Keys
  {
    exists k <- ks :: digest in manifests[k].Digests()
  }

  lemma {:induction false} OccurrencesAre(manifests: map<Key, Manifest>, ks: set<Key>, digest: string)
    requires ks <= manifests.Keys
    ensures digest in Occurrences(manifests, ks) <==> Named(manifests, ks, digest)
  {
    if ks == {} {
    } else {
      var k := Sets.Pick(ks);
      OccurrencesAre(manifests, ks - {k}, digest);
      ReferencesAre(manifests[k].Descriptors(), digest);
      assert forall x <- ks :: x == k || x in ks - {k};
    }
  }

  // A push ---------------------------------------------------------------------------------

  /** One PushBlob after another. */
  function PushAll(env: Env, w: World, token: string, repo: string, contents: seq<Bytes>): World {
    if contents == [] then w
    else PushBlob(env, PushAll(env, w, token, repo, contents[..|contents| - 1]), token, repo, contents[|contents| - 1]).0
  }

  /** Contents to upload: none empty, and no two with the same digest. */
  ghost predicate Distinct(env: Env, contents: seq<Bytes>) {
    && (forall i | 0 <= i < |contents| :: contents[i] != [])
    && (forall i, j | 0 <= i < j < |contents| :: env.digestOf(contents[i]) != env.digestOf(contents[j]))
  }

  function Addresses(env: Env, contents: seq<Bytes>): set<string> {
    set bytes <- contents :: env.digestOf(bytes)
  }

  lemma PushBlobCount(env: Env, w: World, token: string, repo: string, bytes: Bytes, digest: string)
    requires w.auth.Live(token) && w.repos.Alive(repo) && bytes != []
    ensures var w' := PushBlob(env, w, token, repo, bytes).0;
            && w' == w.(blobs := w'.blobs)
            && w'.blobs.RefCount(repo, digest) ==
               w.blobs.RefCount(repo, digest) + if digest == env.digestOf(bytes) then 1 else 0
  {
  }

  lemma AddressesMore(env: Env, contents: seq<Bytes>)
    requires contents != [] && Distinct(env, contents)
    ensures var earlier, last := contents[..|contents| - 1], contents[|contents| - 1];
            && Distinct(env, earlier) && last != []
            && Addresses(env, contents) == Addresses(env, earlier) + {env.digestOf(last)}
            && env.digestOf(last) !in Addresses(env, earlier)
  {
    assert contents == contents[..|contents| - 1] + [contents[|contents| - 1]];
  }

  lemma {:induction false} PushAllCounts(env: Env, w: World, token: string, repo: string, contents: seq<Bytes>,
                                         digest: string)
    requires w.auth.Live(token) && w.repos.Alive(repo) && Distinct(env, contents)
    ensures var w' := PushAll(env, w, token, repo, contents);
            && w' == w.(blobs := w'.blobs)
            && w'.blobs.RefCount(repo, digest) ==
               w.blobs.RefCount(repo, digest) + if digest in Addresses(env, contents) then 1 else 0
  {
    if contents == [] {
    } else {
      var earlier, last := contents[..|contents| - 1], contents[|contents| - 1];
      AddressesMore(env, contents);
      PushAllCounts(env, w, token, repo, earlier, digest);
      PushBlobCount(env, PushAll(env, w, token, repo, earlier), token, repo, last, digest);
    }
  }

  lemma ReleasedCount(recs: map<Key, Blob>, data: map<Key, Bytes>, repo: string, released: multiset<string>, digest: string)
    ensures BlobTable(ReleaseAll(recs, repo, released), data).RefCount(repo, digest) ==
            Minus(BlobTable(recs, data).RefCount(repo, digest), released[digest])
  {
  }

  lemma PushManifestCount(env: Env, w: World, token: string, repo: string, raw: Bytes, ref: string, digest: string)
    requires PushManifest(env, w, token, repo, raw, ref).1.Ok?
    ensures Parse(env, raw).Ok?
    ensures var references := References(Parse(env, raw).value.Descriptors());
            && PushManifest(env, w, token, repo, raw, ref).0.blobs ==
               w.blobs.(recs := ReleaseAll(w.blobs.recs, repo, references))
            && PushManifest(env, w, token, repo, raw, ref).0.blobs.RefCount(repo, digest) ==
               Minus(w.blobs.RefCount(repo, digest), references[digest])
  {
    ReleasedCount(w.blobs.recs, w.blobs.data, repo, References(Parse(env, raw).value.Descriptors()), digest);
  }

  /** One upload for every digest of a manifest and then the manifest: the count of
      a digest ends as it started exactly when the manifest names it once, or
      nobody held it before. Otherwise references of others are released. */
  lemma {:induction false} PushBalancesIff(env: Env, w: World, token: string, repo: string, contents: seq<Bytes>,
                                           raw: Bytes, ref: string, digest: string)
    requires w.auth.Live(token) && w.repos.Alive(repo) && Distinct(env, contents)
    requires PushManifest(env, PushAll(env, w, token, repo, contents), token, repo, raw, ref).1.Ok?
    requires Parse(env, raw).Ok? && Parse(env, raw).value.Digests() == Addresses(env, contents)
    requires digest in Addresses(env, contents)
    ensures var before := w.blobs.RefCount(repo, digest);
            var w' := PushManifest(env, PushAll(env, w, token, repo, contents), token, repo, raw, ref).0;
            && w'.blobs.RefCount(repo, digest) <= before
            && (w'.blobs.RefCount(repo, digest) == before <==>
                  before == 0 || References(Parse(env, raw).value.Descriptors())[digest] == 1)
  {
    var w1 := PushAll(env, w, token, repo, contents);
    PushAllCounts(env, w, token, repo, contents, digest);
    PushManifestCount(env, w1, token, repo, raw, ref, digest);
    ReferencesAre(Parse(env, raw).value.Descriptors(), digest);
  }

  // A sweep ----------------------------------------------------------------------------------

  lemma SweepCount(c: Content, mark: Marked, k: Key)
    requires k in c.blobs.recs
    ensures var count := c.blobs.recs[k].refCount;
            var released := Occurrences(c.manifests, Doomed(c, mark))[k.1];
            var left := if k.0 == mark.repo then Minus(count, released) else count;
            && (k in Sweep(c, mark).blobs.recs <==> k.0 != mark.repo || k.1 in Reach(c, mark) || left > 0)
            && Sweep(c, mark).blobs.RefCount(k.0, k.1) == if k in Sweep(c, mark).blobs.recs then left else 0
  {
    assert (k.0, k.1) == k;
  }

  /** A sweep leaves the count of a record as it is exactly when nobody held it, it
      is another namespace's, or no manifest the sweep deletes names it. */
  lemma SweepKeepsCountIff(c: Content, mark: Marked, k: Key)
    requires k in c.blobs.recs
    ensures Sweep(c, mark).blobs.RefCount(k.0, k.1) <= c.blobs.RefCount(k.0, k.1)
    ensures Sweep(c, mark).blobs.RefCount(k.0, k.1) == c.blobs.RefCount(k.0, k.1) <==>
            || c.blobs.recs[k].refCount == 0
            || k.0 != mark.repo
            || !Named(c.manifests, Doomed(c, mark), k.1)
  {
    assert (k.0, k.1) == k;
    SweepCount(c, mark, k);
    OccurrencesAre(c.manifests, Doomed(c, mark), k.1);
  }

  // Runs ---------------------------------------------------------------------------------------

  /** The steps that release a digest. */
  ghost predicate Releases(env: Env, s: System, op: Op, repo: string, digest: string) {
    match op
    case DropReference(r, d) => r == repo && d == digest
    case PushManifestOp(token, r, raw, ref) =>
      r == repo && PushManifest(env, s.world, token, r, raw, ref).1.Ok?
      && Parse(env, raw).Ok? && digest in Parse(env, raw).value.Digests()
    case SweepMark(k) =>
      k < |s.marks| && s.marks[k].repo == repo
      && Named(s.world.manifests, Doomed(s.world.Content(), s.marks[k]), digest)
    case _ => false
  }

  ghost predicate Held(w: World, repo: string, digest: string) {
    w.blobs.RefCount(repo, digest) > 0
  }

  lemma RefusedKeepsBlobs(env: Env, w: World, token: string, repo: string, raw: Bytes, ref: string)
    requires PushManifest(env, w, token, repo, raw, ref).1.Err?
    ensures PushManifest(env, w, token, repo, raw, ref).0.blobs == w.blobs
  {
  }

  lemma PushManifestReleasesIff(env: Env, w: World, token: string, r: string, raw: Bytes, ref: string,
                                repo: string, digest: string)
    requires Held(w, repo, digest)
    ensures var (w', result) := PushManifest(env, w, token, r, raw, ref);
            var n, n' := w.blobs.RefCount(repo, digest), w'.blobs.RefCount(repo, digest);
            && w'.blobs.data == w.blobs.data && n' <= n
            && (n' < n <==> r == repo && result.Ok? && Parse(env, raw).Ok? && digest in Parse(env, raw).value.Digests())
  {
    if PushManifest(env, w, token, r, raw, ref).1.Ok? {
      PushManifestCount(env, w, token, r, raw, ref, digest);
      ReferencesAre(Parse(env, raw).value.Descriptors(), digest);
    } else {
      RefusedKeepsBlobs(env, w, token, r, raw, ref);
    }
  }

  lemma SweepReleasesIff(env: Env, s: System, k: nat, repo: string, digest: string)
    requires Held(s.world, repo, digest)
    ensures var n, n' := s.world.blobs.RefCount(repo, digest), SweepStep(s, k).world.blobs.RefCount(repo, digest);
            && n' <= n && (n' < n <==> Releases(env, s, SweepMark(k), repo, digest))
            && (n' > 0 && (repo, digest) in s.world.blobs.data ==>
                  && (repo, digest) in SweepStep(s, k).world.blobs.data
                  && SweepStep(s, k).world.blobs.data[(repo, digest)] == s.world.blobs.data[(repo, digest)])
  {
    if k < |s.marks| {
      var c := s.world.Content();
      SweepKeepsCountIff(c, s.marks[k], (repo, digest));
      SweepCount(c, s.marks[k], (repo, digest));
    }
  }

  lemma PutHolds(env: Env, t: BlobTable, repo: string, bytes: Bytes, k: Key)
    ensures t.Put(env, repo, bytes).0.RefCount(k.0, k.1) >= t.RefCount(k.0, k.1)
    ensures k in t.data ==> k in t.Put(env, repo, bytes).0.data
  {
  }

  lemma CreateHolds(t: Transfer, token: string, repo: string, name: string, size: int64, chunkSize: int64,
                    digest: string, id: string, k: Key)
    ensures var t' := Create(t, token, repo, name, size, chunkSize, digest, id).0;
            t'.blobs.RefCount(k.0, k.1) == t.blobs.RefCount(k.0, k.1) && t'.blobs.data == t.blobs.data
  {
  }

  lemma DropReleasesIff(t: BlobTable, repo: string, digest: string, k: Key)
    requires t.RefCount(k.0, k.1) > 0
    ensures var t' := t.DecRef(repo, digest).0;
            && t'.data == t.data
            && t'.RefCount(k.0, k.1) <= t.RefCount(k.0, k.1)
            && (t'.RefCount(k.0, k.1) < t.RefCount(k.0, k.1) <==> k == (repo, digest))
  {
  }

  /** Steps of the world that neither publish nor drop a reference. */
  lemma WorldStepHolds(env: Env, w: World, op: Op, k: Key)
    requires !op.PushManifestOp? && !op.DropReference?
    ensures WorldStep(env, w, op).blobs.RefCount(k.0, k.1) >= w.blobs.RefCount(k.0, k.1)
    ensures k in w.blobs.data ==> k in WorldStep(env, w, op).blobs.data
  {
    match op {
      case CreateSession(token, r, name, size, chunkSize, d, id) =>
        CreateHolds(w.Transfer(), token, r, name, size, chunkSize, d, id, k);
      case PushBlobOp(token, r, bytes) => PutHolds(env, w.blobs, r, bytes, k);
      case UploadOp(token, id, index, bytes) => UploadFrame(env, w.Transfer(), token, id, index, bytes);
      case AddReference(r, d) =>
      case _ =>
    }
  }

  lemma StoreHolds(env: Env, s: System, i: nat, k: Key)
    ensures StoreStep(env, s, i).world.blobs.RefCount(k.0, k.1) >= s.world.blobs.RefCount(k.0, k.1)
    ensures k in s.world.blobs.data ==> k in StoreStep(env, s, i).world.blobs.data
  {
    if i < |s.completions| {
      PutHolds(env, s.world.blobs, s.completions[i].completion.repo, s.completions[i].completion.bytes, k);
    }
  }

  /** Steps that neither sweep, publish nor drop a reference. */
  lemma OtherStepHolds(env: Env, s: System, op: Op, k: Key)
    requires !op.PushManifestOp? && !op.SweepMark? && !op.DropReference?
    ensures Step(env, s, op).world.blobs.RefCount(k.0, k.1) >= s.world.blobs.RefCount(k.0, k.1)
    ensures k in s.world.blobs.data ==> k in Step(env, s, op).world.blobs.data
  {
    if op.StoreComplete? {
      StoreHolds(env, s, op.pending, k);
    } else if Phase(op) {
      PhaseFrame(env, s, op);
    } else {
      WholeStep(env, s, op);
      WorldStepHolds(env, s.world, op, k);
    }
  }

  /** A held blob loses a reference exactly by a step that releases it, and its
      bytes stay while somebody holds it. */
  lemma {:induction false} CountDropsIff(env: Env, s: System, op: Op, repo: string, digest: string)
    requires Held(s.world, repo, digest)
    ensures var n, n' := s.world.blobs.RefCount(repo, digest), Step(env, s, op).world.blobs.RefCount(repo, digest);
            && (n' < n <==> Releases(env, s, op, repo, digest))
            && (n' > 0 && (repo, digest) in s.world.blobs.data ==> (repo, digest) in Step(env, s, op).world.blobs.data)
  {
    var k := (repo, digest);
    if op.PushManifestOp? {
      PushManifestReleasesIff(env, s.world, op.token, op.repo, op.raw, op.ref, repo, digest);
    } else if op.SweepMark? {
      SweepReleasesIff(env, s, op.mark, repo, digest);
    } else if op.DropReference? {
      DropReleasesIff(s.world.blobs, op.repo, op.digest, k);
    } else {
      OtherStepHolds(env, s, op, k);
    }
  }

  ghost predicate NeverReleases(env: Env, s: System, ops: seq<Op>, repo: string, digest: string) {
    ops == []
    || (&& NeverReleases(env, s, ops[..|ops| - 1], repo, digest)
        && !Releases(env, Execute(env, s, ops[..|ops| - 1]), ops[|ops| - 1], repo, digest))
  }

  lemma {:induction false} HeldThroughout(env: Env, s: System, ops: seq<Op>, repo: string, digest: string)
    requires Held(s.world, repo, digest) && (repo, digest) in s.world.blobs.data
    requires NeverReleases(env, s, ops, repo, digest)
    ensures var w := Execute(env, s, ops).world;
            w.blobs.RefCount(repo, digest) >= s.world.blobs.RefCount(repo, digest) && (repo, digest) in w.blobs.data
  {
    if ops == [] {
    } else {
      var earlier := ops[..|ops| - 1];
      HeldThroughout(env, s, earlier, repo, digest);
      CountDropsIff(env, Execute(env, s, earlier), ops[|ops| - 1], repo, digest);
    }
  }

  /** What a client may rely on: a blob it holds keeps its bytes and its references
      through every run, collections included, whose steps do not release it. */
  lemma {:induction false} HeldBlobStays(env: Env, before: seq<Op>, ops: seq<Op>, repo: string, digest: string)
    requires CollisionFree(env)
    requires var s := Execute(env, INITIAL, before);
             Held(s.world, repo, digest) && s.world.blobs.Get(repo, digest).Ok? && NeverReleases(env, s, ops, repo, digest)
    ensures var w := Execute(env, INITIAL, before).world;
            var w' := Execute(env, INITIAL, before + ops).world;
            && w'.blobs.RefCount(repo, digest) >= w.blobs.RefCount(repo, digest)
            && w'.blobs.Get(repo, digest) == w.blobs.Get(repo, digest)
  {
    var s := Execute(env, INITIAL, before);
    HeldThroughout(env, s, ops, repo, digest);
    ExecuteAppend(env, INITIAL, before, ops);
    InitialInv(env);
    RunKeepsInv(env, INITIAL, before);
    RunKeepsInv(env, s, ops);
    var bytes := s.world.blobs.data[(repo, digest)];
    assert env.digestOf(bytes) == digest;
    OnlyItsContent(env, Execute(env, s, ops).world.blobs, repo, bytes);
  }
}
