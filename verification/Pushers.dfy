/** internal/transfer/push.go and download.go: the pipeline over the stores. */
module Pushers {
  import opened Model
  import opened BlobStores
  import opened TagStores
  import opened Repos
  import opened Auth
  import opened Index
  import opened SessionManagers
  import opened Manifests
  import opened Collectors
  import Pipeline

  class Pusher {
    const env: Env
    const auth: AuthStore
    const blobs: BlobStore
    const manifests: ManifestStore
    const tags: TagStore
    const index: IndexStore
    const sessions: SessionManager
    const repos: RepoStore

    /** The components are wired to each other as the registry wires them. */
    ghost predicate Wired() {
      && blobs.env == env && manifests.env == env && sessions.env == env
      && manifests.blobs == blobs && manifests.uploads == sessions
      && sessions.blobs == blobs && sessions.auth == auth && sessions.repos == repos
    }

    ghost predicate Valid()
      reads blobs, manifests, tags, index, sessions, repos
    {
      Wired() && blobs.Valid() && manifests.Valid() && tags.Valid() && index.Valid() && sessions.Valid()
    }

    ghost function View(): Pipeline.World
      reads auth, blobs, manifests, tags, index, sessions, repos
    {
      Pipeline.World(blobs.table, repos.View(), auth.View(), sessions.Table(), manifests.table, tags.table, index.table)
    }

    constructor (auth: AuthStore, blobs: BlobStore, manifests: ManifestStore, tags: TagStore, index: IndexStore,
                 sessions: SessionManager, repos: RepoStore)
      requires blobs.Valid() && manifests.Valid() && tags.Valid() && index.Valid() && sessions.Valid()
      requires manifests.blobs == blobs && manifests.uploads == sessions
      requires sessions.blobs == blobs && sessions.auth == auth && sessions.repos == repos
      ensures Valid() && env == blobs.env
      ensures this.auth == auth && this.blobs == blobs && this.manifests == manifests && this.tags == tags
      ensures this.index == index && this.sessions == sessions && this.repos == repos
    {
      this.env := blobs.env;
      this.auth := auth;
      this.blobs := blobs;
      this.manifests := manifests;
      this.tags := tags;
      this.index := index;
      this.sessions := sessions;
      this.repos := repos;
    }

    method PushBlob(token: string, repo: string, bytes: Bytes) returns (r: Result<Blob>)
      requires Valid()
      modifies blobs
      ensures Valid() && (View(), r) == Pipeline.PushBlob(env, old(View()), token, repo, bytes)
    {
      var valid := auth.Validate(token);
      if valid.Err? {
        return Err(valid.error);
      }
      var alive := repos.Alive(repo);
      if !alive {
        return Err(NotFound);
      }
      r := blobs.Put(repo, bytes);
    }

    method PushManifest(token: string, repo: string, raw: Bytes, ref: string) returns (r: Result<()>)
      requires Valid()
      modifies blobs, manifests, tags, index
      ensures Valid() && (View(), r) == Pipeline.PushManifest(env, old(View()), token, repo, raw, ref)
    {
      var valid := auth.Validate(token);
      if valid.Err? {
        return Err(valid.error);
      }
      var parsed := Parse(env, raw);
      if parsed.Err? {
        return Err(parsed.error);
      }
      var admitted := manifests.Validate(repo, parsed.value);
      if admitted.Err? {
        return admitted;
      }
      r := Publish(repo, parsed.value, ref);
    }

    method Publish(repo: string, m: Manifest, ref: string) returns (r: Result<()>)
      requires Valid()
      modifies blobs, manifests, tags, index
      ensures Valid() && (View(), r) == Pipeline.Publish(env, old(View()), repo, m, ref)
    {
      r := manifests.Store(repo, m);
      if r.Err? {
        return;
      }
      r := tags.Set(repo, ref, m.digest);
      if r.Err? {
        return;
      }
      r := Announce(repo, m, ref);
    }

    method Announce(repo: string, m: Manifest, ref: string) returns (r: Result<()>)
      requires Valid()
      modifies blobs, index
      ensures Valid() && (View(), r) == Pipeline.Announce(env, old(View()), repo, m, ref)
    {
      var ready := manifests.Verify(repo, m);
      if ready.Err? {
        return Err(ready.error);
      }
      r := index.Add(repo, ref, m.digest, ready.value);
      if r.Err? {
        return;
      }
      ReleaseDescriptors(blobs, repo, m.Descriptors());
    }

    method CompleteSession(token: string, id: string) returns (r: Result<Blob>)
      requires Valid()
      modifies sessions, blobs, repos
      ensures Valid() && (View(), r) == Pipeline.CompleteSession(env, old(View()), token, id)
    {
      var session := sessions.Get(token, id);
      if session.Err? {
        return Err(session.error);
      }
      var alive := repos.Alive(session.value.repo);
      if !alive {
        var _ := sessions.Abort(token, id);
        return Err(NotFound);
      }
      r := sessions.Complete(token, id);
    }

    method PullManifest(token: string, repo: string, ref: string) returns (r: Result<Manifest>)
      requires Valid()
      ensures r == Pipeline.PullManifest(View(), token, repo, ref)
    {
      var valid := auth.Validate(token);
      if valid.Err? {
        return Err(valid.error);
      }
      var digest := tags.Get(repo, ref);
      if digest.Err? {
        return Err(digest.error);
      }
      r := manifests.Get(repo, digest.value);
    }

    method PullBlob(token: string, repo: string, digest: string) returns (r: Result<Bytes>)
      requires Valid()
      ensures r == Pipeline.PullBlob(env, View(), token, repo, digest)
    {
      var valid := auth.Validate(token);
      if valid.Err? {
        return Err(valid.error);
      }
      r := blobs.Get(repo, digest);
      if r.Ok? && env.digestOf(r.value) != digest {
        return Err(Corrupt);
      }
    }

    method FetchArtifact(token: string, repo: string, ref: string) returns (r: Result<map<string, Bytes>>)
      requires Valid()
      ensures r == Pipeline.FetchArtifact(env, View(), token, repo, ref)
    {
      var m := PullManifest(token, repo, ref);
      if m.Err? {
        return Err(m.error);
      }
      var out := map[];
      var ds := m.value.Descriptors();
      assert ds[0..] == ds;
      for k := 0 to |ds|
        invariant Pipeline.FetchFrom(env, View(), token, repo, ds, map[]) ==
                  Pipeline.FetchFrom(env, View(), token, repo, ds[k..], out)
      {
        assert ds[k..][0] == ds[k] && ds[k..][1..] == ds[k + 1..];
        var bytes := PullBlob(token, repo, ds[k].digest);
        if bytes.Err? {
          return Err(bytes.error);
        }
        out := out[ds[k].digest := bytes.value];
      }
      return Ok(out);
    }
  }
}
