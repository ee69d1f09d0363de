/** internal/manifest/validate.go: which manifests are admitted. */
module Admission {
  import opened Model
  import opened BlobTables
  import opened Transfers

  // Admission -------------------------------------------------------------------

  /** The first descriptor that is not committed decides the error. */
  function Admit(blobs: BlobTable, sessions: SessionTable, repo: string, ds: seq<Descriptor>): Result<()> {
    if ds == [] then Ok(())
    else if blobs.Committed(repo, ds[0].digest) then Admit(blobs, sessions, repo, ds[1..])
    else if sessions.IsDigestUploading(repo, ds[0].digest) then Err(Unfinished)
    else Err(NotFound)
  }

  function Validate(blobs: BlobTable, sessions: SessionTable, repo: string, m: Manifest): Result<()> {
    if !m.WellFormed() then Err(InvalidArgument) else Admit(blobs, sessions, repo, m.Descriptors())
  }

  predicate Readable(env: Env, blobs: BlobTable, repo: string, d: Descriptor) {
    var bytes := blobs.Get(repo, d.digest);
    bytes.Ok? && env.digestOf(bytes.value) == d.digest
  }

  function Verify(env: Env, blobs: BlobTable, repo: string, m: Manifest): Result<bool> {
    if !m.WellFormed() then Err(InvalidArgument)
    else Ok(forall d <- m.Descriptors() :: Readable(env, blobs, repo, d))
  }

  function Put(blobs: BlobTable, sessions: SessionTable, manifests: map<Key, Manifest>, repo: string, m: Manifest):
      (map<Key, Manifest>, Result<()>)
  {
    if m.digest == "" then (manifests, Err(InvalidArgument))
    else
      var r := Validate(blobs, sessions, repo, m);
      if r.Err? then (manifests, r) else (manifests[(repo, m.digest) := m], r)
  }

  lemma {:induction false} AdmitIff(blobs: BlobTable, sessions: SessionTable, repo: string, ds: seq<Descriptor>)
    ensures Admit(blobs, sessions, repo, ds).Ok? <==> forall d <- ds :: blobs.Committed(repo, d.digest)
    ensures Admit(blobs, sessions, repo, ds).Ok? ==> Admit(blobs, sessions, repo, ds) == Ok(())
  {
    if ds == [] {
    } else {
      AdmitIff(blobs, sessions, repo, ds[1..]);
      assert ds == [ds[0]] + ds[1..];
    }
  }

  /** A manifest is admitted as unfinished exactly when its first uncommitted
      descriptor is still being uploaded. */
  lemma {:induction false} AdmitError(blobs: BlobTable, sessions: SessionTable, repo: string, ds: seq<Descriptor>, i: nat)
    requires i < |ds| && !blobs.Committed(repo, ds[i].digest)
    requires forall j | 0 <= j < i :: blobs.Committed(repo, ds[j].digest)
    ensures Admit(blobs, sessions, repo, ds) ==
            Err(if sessions.IsDigestUploading(repo, ds[i].digest) then Unfinished else NotFound)
  {
    if i == 0 {
    } else {
      forall j | 0 <= j < i - 1 ensures blobs.Committed(repo, ds[1..][j].digest) {
        assert ds[1..][j] == ds[j + 1];
      }
      AdmitError(blobs, sessions, repo, ds[1..], i - 1);
    }
  }

  /** Where stored bytes and committed records agree, the check before a
      manifest is stored and the check before it is published agree. */
  lemma ValidateIffVerify(env: Env, blobs: BlobTable, sessions: SessionTable, repo: string, m: Manifest)
    requires Sound(env, blobs)
    ensures Validate(blobs, sessions, repo, m).Ok? <==> Verify(env, blobs, repo, m) == Ok(true)
  {
    AdmitIff(blobs, sessions, repo, m.Descriptors());
    forall d <- m.Descriptors()
      ensures blobs.Committed(repo, d.digest) <==> Readable(env, blobs, repo, d)
    {
      CommittedIffReadable(env, blobs, repo, d.digest);
    }
  }
}
