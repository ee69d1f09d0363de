/** internal/manifest/manifest.go: the manifest store. */
module Manifests {
  import opened Model
  import opened NestedMaps
  import opened Sets
  import opened BlobStores
  import opened SessionManagers
  import opened Admission

  class ManifestStore {
    const env: Env
    const blobs: BlobStore
    const uploads: SessionManager
    var manifests: map<string, map<string, Manifest>>
    ghost var table: map<Key, Manifest>

    ghost predicate Valid()
      reads this, blobs
    {
      blobs.Valid() && blobs.env == env && Nests(manifests, table)
    }

    constructor (blobs: BlobStore, uploads: SessionManager)
      requires blobs.Valid()
      ensures Valid() && this.blobs == blobs && this.uploads == uploads && env == blobs.env
      ensures table == map[]
    {
      this.env := blobs.env;
      this.blobs := blobs;
      this.uploads := uploads;
      manifests := map[];
      table := map[];
    }

    method Validate(repo: string, m: Manifest) returns (r: Result<()>)
      requires Valid()
      ensures r == Admission.Validate(blobs.table, uploads.Table(), repo, m)
    {
      if !m.WellFormed() {
        return Err(InvalidArgument);
      }
      var ds := m.Descriptors();
      assert ds[0..] == ds;
      for k := 0 to |ds|
        invariant Admit(blobs.table, uploads.Table(), repo, ds) == Admit(blobs.table, uploads.Table(), repo, ds[k..])
      {
        var committed := blobs.Committed(repo, ds[k].digest);
        assert ds[k..][0] == ds[k] && ds[k..][1..] == ds[k + 1..];
        if !committed {
          var uploading := uploads.IsDigestUploading(repo, ds[k].digest);
          return Err(if uploading then Unfinished else NotFound);
        }
      }
      return Ok(());
    }

    method Verify(repo: string, m: Manifest) returns (r: Result<bool>)
      requires Valid()
      ensures r == Admission.Verify(env, blobs.table, repo, m)
    {
      if !m.WellFormed() {
        return Err(InvalidArgument);
      }
      var ds := m.Descriptors();
      for k := 0 to |ds|
        invariant forall j | 0 <= j < k :: Readable(env, blobs.table, repo, ds[j])
      {
        var bytes := blobs.Get(repo, ds[k].digest);
        if bytes.Err? || env.digestOf(bytes.value) != ds[k].digest {
          assert !Readable(env, blobs.table, repo, ds[k]);
          return Ok(false);
        }
      }
      return Ok(true);
    }

    method Store(repo: string, m: Manifest) returns (r: Result<()>)
      requires Valid()
      modifies this
      ensures Valid() && (table, r) == Admission.Put(blobs.table, uploads.Table(), old(table), repo, m)
    {
      if m.digest == "" {
        return Err(InvalidArgument);
      }
      r := Validate(repo, m);
      if r.Err? {
        return;
      }
      EntryPut(manifests, table, repo, m.digest, m);
      manifests := WithEntry(manifests, repo, m.digest, m);
      table := table[(repo, m.digest) := m];
    }

    method Get(repo: string, digest: string) returns (r: Result<Manifest>)
      requires Valid()
      ensures r == if (repo, digest) in table then Ok(table[(repo, digest)]) else Err(NotFound)
    {
      var entry := Find(manifests, repo, digest);
      assert entry == Lookup(table, repo, digest);
      r := if entry.Some? then Ok(entry.value) else Err(NotFound);
    }

    method Delete(repo: string, digest: string) returns (r: Result<()>)
      requires Valid()
      modifies this
      ensures Valid() && table == old(table) - {(repo, digest)}
      ensures r == if (repo, digest) in old(table) then Ok(()) else Err(NotFound)
    {
      var entry := Find(manifests, repo, digest);
      assert entry == Lookup(table, repo, digest);
      if entry.None? {
        return Err(NotFound);
      }
      EntryDrop(manifests, table, repo, digest);
      manifests := WithoutEntry(manifests, repo, digest);
      table := table - {(repo, digest)};
      return Ok(());
    }

    /** The digests of a repository's manifests, each once, in any order. */
    method List(repo: string) returns (out: seq<string>)
      requires Valid()
      ensures forall i, j | 0 <= i < j < |out| :: out[i] != out[j]
      ensures forall d :: d in out <==> (repo, d) in table
    {
      InnerSlices(manifests, table, repo);
      out := [];
      var todo := At(manifests, repo).Keys;
      while todo != {}
        invariant todo <= At(manifests, repo).Keys
        invariant forall i, j | 0 <= i < j < |out| :: out[i] != out[j]
        invariant forall d :: d in out <==> d in At(manifests, repo) && d !in todo
      {
        var d := PickAny(todo);
        out := out + [d];
        todo := todo - {d};
      }
    }
  }
}
