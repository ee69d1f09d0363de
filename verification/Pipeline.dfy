/** The push and pull pipeline of internal/transfer on values: the whole
    registry state, and what each facade operation does to it. */
module Pipeline {
  import opened Model
  import opened BlobTables
  import opened TagTables
  import opened Repos
  import opened Auth
  import opened Index
  import opened Transfers
  import Admission
  import opened Collection
  import opened Safety

  datatype World = World(
    blobs: BlobTable, repos: RepoTable, auth: AuthTable, sessions: SessionTable,
    manifests: map<Key, Manifest>, tags: TagTable, index: map<Key, Artifact>)
  {
    function Transfer(): Transfer {
      Transfers.Transfer.Transfer(blobs, repos, auth, sessions)
    }

    function WithTransfer(t: Transfer): World {
      this.(blobs := t.blobs, repos := t.repos, auth := t.auth, sessions := t.sessions)
    }

    function Content(): Content {
      Collection.Content.Content(blobs, manifests, tags)
    }

    function WithContent(c: Content): World {
      this.(blobs := c.blobs, manifests := c.manifests, tags := c.tags)
    }
  }

  const EMPTY: World :=
    World(BlobTable(map[], map[]), RepoTable(map[], map[], {}, []), AuthTable(map[], map[], 0),
          SessionTable(map[], map[], map[], {}), map[], TagTable(map[], map[], map[]), map[])

  // Push -------------------------------------------------------------------------------

  function PushBlob(env: Env, w: World, token: string, repo: string, bytes: Bytes): (World, Result<Blob>) {
    match w.auth.Validate(token)
    case Err(e) => (w, Err(e))
    case Ok(_) =>
      if !w.repos.Alive(repo) then (w, Err(NotFound))
      else
        var (blobs, r) := w.blobs.Put(env, repo, bytes);
        (w.(blobs := blobs), r)
  }

  /** Verify, publish and release: the end of a push. */
  function Announce(env: Env, w: World, repo: string, m: Manifest, ref: string): (World, Result<()>) {
    match Admission.Verify(env, w.blobs, repo, m)
    case Err(e) => (w, Err(e))
    case Ok(ready) =>
      var (index, added) := AddArtifact(w.index, repo, ref, m.digest, ready);
      if added.Err? then (w.(index := index), added)
      else
        var released := w.blobs.(recs := ReleaseAll(w.blobs.recs, repo, References(m.Descriptors())));
        (w.(index := index, blobs := released), Ok(()))
  }

  /** Admit, store and tag a parsed manifest, then announce it. */
  function Publish(env: Env, w: World, repo: string, m: Manifest, ref: string): (World, Result<()>) {
    var (manifests, stored) := Admission.Put(w.blobs, w.sessions, w.manifests, repo, m);
    if stored.Err? then (w, stored)
    else
      var (tags, tagged) := w.tags.Set(repo, ref, m.digest);
      var recorded := w.(manifests := manifests, tags := tags);
      if tagged.Err? then (recorded, tagged) else Announce(env, recorded, repo, m, ref)
  }

  function PushManifest(env: Env, w: World, token: string, repo: string, raw: Bytes, ref: string): (World, Result<()>) {
    match w.auth.Validate(token)
    case Err(e) => (w, Err(e))
    case Ok(_) =>
      match Parse(env, raw)
      case Err(e) => (w, Err(e))
      case Ok(m) =>
        var valid := Admission.Validate(w.blobs, w.sessions, repo, m);
        if valid.Err? then (w, valid) else Publish(env, w, repo, m, ref)
  }

  /** A session of a deleted repository is aborted; any other is completed. */
  ghost function CompleteSession(env: Env, w: World, token: string, id: string): (World, Result<Blob>) {
    match GetSession(w.Transfer(), token, id)
    case Err(e) => (w, Err(e))
    case Ok(s) =>
      if !w.repos.Alive(s.repo) then (w.WithTransfer(Abort(w.Transfer(), token, id).0), Err(NotFound))
      else
        var (t, r) := Complete(env, w.Transfer(), token, id);
        (w.WithTransfer(t), r)
  }

  // Pull -------------------------------------------------------------------------------

  function PullManifest(w: World, token: string, repo: string, ref: string): Result<Manifest> {
    match w.auth.Validate(token)
    case Err(e) => Err(e)
    case Ok(_) =>
      match w.tags.Get(repo, ref)
      case Err(e) => Err(e)
      case Ok(digest) =>
        if (repo, digest) in w.manifests then Ok(w.manifests[(repo, digest)]) else Err(NotFound)
  }

  function PullBlob(env: Env, w: World, token: string, repo: string, digest: string): Result<Bytes> {
    match w.auth.Validate(token)
    case Err(e) => Err(e)
    case Ok(_) =>
      match w.blobs.Get(repo, digest)
      case Err(e) => Err(e)
      case Ok(bytes) => if env.digestOf(bytes) != digest then Err(Corrupt) else Ok(bytes)
  }

  /** The layers still to fetch, added to those fetched. */
  function FetchFrom(env: Env, w: World, token: string, repo: string, ds: seq<Descriptor>, out: map<string, Bytes>):
      Result<map<string, Bytes>>
    decreases |ds|
  {
    if ds == [] then Ok(out)
    else
      match PullBlob(env, w, token, repo, ds[0].digest)
      case Err(e) => Err(e)
      case Ok(bytes) => FetchFrom(env, w, token, repo, ds[1..], out[ds[0].digest := bytes])
  }

  function FetchArtifact(env: Env, w: World, token: string, repo: string, ref: string): Result<map<string, Bytes>> {
    match PullManifest(w, token, repo, ref)
    case Err(e) => Err(e)
    case Ok(m) => FetchFrom(env, w, token, repo, m.Descriptors(), map[])
  }

  lemma {:induction false} FetchFromSucceeds(env: Env, w: World, token: string, repo: string, ds: seq<Descriptor>,
                                             out: map<string, Bytes>)
    requires Sound(env, w.blobs) && w.auth.Live(token)
    requires forall d <- ds :: (repo, d.digest) in w.blobs.data
    requires forall d <- out :: env.digestOf(out[d]) == d
    ensures var r := FetchFrom(env, w, token, repo, ds, out);
            && r.Ok?
            && r.value.Keys == out.Keys + DigestSet(ds)
            && (forall d <- r.value :: env.digestOf(r.value[d]) == d)
    decreases |ds|
  {
    if ds == [] {
    } else {
      var bytes := w.blobs.data[(repo, ds[0].digest)];
      var out' := out[ds[0].digest := bytes];
      FetchFromSucceeds(env, w, token, repo, ds[1..], out');
      assert DigestSet(ds) == {ds[0].digest} + DigestSet(ds[1..]) by {
        assert ds == [ds[0]] + ds[1..];
      }
    }
  }

  /** In an intact registry every tag can be fetched in full: one body for each
      digest the manifest names, no other, each with its own digest. */
  lemma TagsCanBeFetched(env: Env, w: World, token: string, repo: string, ref: string)
    requires CollisionFree(env) && Intact(env, w.Content()) && w.auth.Live(token)
    requires (repo, ref) in w.tags.tags
    ensures var r := FetchArtifact(env, w, token, repo, ref);
            && PullManifest(w, token, repo, ref).Ok?
            && r.Ok?
            && r.value.Keys == PullManifest(w, token, repo, ref).value.Digests()
            && (forall d <- r.value :: env.digestOf(r.value[d]) == d)
  {
    var digest := w.tags.tags[(repo, ref)];
    var c := w.Content();
    assert (repo, digest) in c.manifests;
    var m := w.manifests[(repo, digest)];
    assert m == c.manifests[(repo, digest)];
    forall d <- m.Descriptors() ensures (repo, d.digest) in w.blobs.data {
      assert d.digest in m.Digests();
    }
    FetchFromSucceeds(env, w, token, repo, m.Descriptors(), map[]);
  }
}
