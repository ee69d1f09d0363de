/** Collection never breaks what tags promise: every tag resolves to a stored
    manifest and every descriptor of a stored manifest to committed bytes. */
module Safety {
  import opened Model
  import opened BlobTables
  import opened TagTables
  import opened Collection

  /** Every stored manifest is the parse of its payload, under its own digest. */
  ghost predicate Addressed(env: Env, c: Content) {
    forall k <- c.manifests :: Parsed(env, c.manifests[k]) && c.manifests[k].digest == k.1
  }

  /** Every descriptor of a stored manifest has its bytes. */
  ghost predicate Backed(c: Content) {
    forall k <- c.manifests, d <- c.manifests[k].Digests() :: (k.0, d) in c.blobs.data
  }

  /** Every tag points at a stored manifest. */
  ghost predicate Resolved(c: Content) {
    forall k <- c.tags.tags :: c.tags.tags[k] != "" && (k.0, c.tags.tags[k]) in c.manifests
  }

  /** Only that manifests keep their bytes rests on the digest being collision-free. */
  ghost predicate Intact(env: Env, c: Content) {
    Sound(env, c.blobs) && LedgerExact(c.tags) && Addressed(env, c) && Resolved(c) && (CollisionFree(env) ==> Backed(c))
  }

  /** A Mark result, however old, covers the blobs of the manifests it names. */
  ghost predicate Covers(env: Env, mark: Marked) {
    forall m {:trigger Parsed(env, m)} :: Parsed(env, m) && m.digest in mark.manifests ==> m.Digests() <= mark.blobs
  }

  /** What Mark returns covers its manifests for good, because a digest
      determines its manifest. */
  lemma MarkCovers(env: Env, c: Content, repo: string)
    requires CollisionFree(env) && Addressed(env, c)
    ensures Covers(env, Mark(c, repo))
  {
  }

  /** The re-marking branch is taken for every tagged manifest, since its ledger
      entry is exact. */
  lemma TaggedIsReached(env: Env, c: Content, mark: Marked, k: Key)
    requires LedgerExact(c.tags) && Addressed(env, c)
    requires k in c.manifests && k.0 == mark.repo && c.Tagged(mark.repo, k.1)
    ensures c.manifests[k].Digests() <= Reach(c, mark)
  {
  }

  lemma SurvivorIsReached(env: Env, c: Content, mark: Marked, k: Key)
    requires LedgerExact(c.tags) && Addressed(env, c) && Covers(env, mark)
    requires k in Sweep(c, mark).manifests && k.0 == mark.repo
    ensures c.manifests[k].Digests() <= Reach(c, mark)
  {
    if c.Tagged(mark.repo, k.1) {
      TaggedIsReached(env, c, mark, k);
    } else {
      assert k.1 in mark.manifests;
    }
  }

  /** Sweep keeps bytes that are reached, and every other repository's bytes. */
  lemma SweepKeepsBytes(c: Content, mark: Marked, k: Key)
    requires k in c.blobs.data && (k.0 == mark.repo ==> k.1 in Reach(c, mark))
    ensures k in Sweep(c, mark).blobs.data && Sweep(c, mark).blobs.data[k] == c.blobs.data[k]
  {
  }

  /** Sweep deletes no manifest that is tagged when it starts. */
  lemma SweepKeepsTagged(c: Content, mark: Marked, repo: string, digest: string)
    requires (repo, digest) in c.manifests && c.Tagged(repo, digest)
    ensures (repo, digest) in Sweep(c, mark).manifests
    ensures Sweep(c, mark).manifests[(repo, digest)] == c.manifests[(repo, digest)]
  {
  }

  lemma SweepKeepsBacked(env: Env, c: Content, mark: Marked)
    requires LedgerExact(c.tags) && Addressed(env, c) && Backed(c) && Covers(env, mark)
    ensures Backed(Sweep(c, mark))
  {
    var c' := Sweep(c, mark);
    forall k <- c'.manifests, d <- c'.manifests[k].Digests() ensures (k.0, d) in c'.blobs.data {
      if k.0 == mark.repo { SurvivorIsReached(env, c, mark, k); }
      SweepKeepsBytes(c, mark, (k.0, d));
    }
  }

  lemma SweepKeepsSound(env: Env, c: Content, mark: Marked)
    requires Sound(env, c.blobs)
    ensures Sound(env, Sweep(c, mark).blobs)
  {
  }

  /** Sweeping with a mark of any age leaves the registry intact. */
  lemma SweepKeepsIntact(env: Env, c: Content, mark: Marked)
    requires Intact(env, c) && (CollisionFree(env) ==> Covers(env, mark))
    ensures Intact(env, Sweep(c, mark))
  {
    var c' := Sweep(c, mark);
    SweepKeepsSound(env, c, mark);
    if CollisionFree(env) {
      SweepKeepsBacked(env, c, mark);
    }
    forall k <- c'.tags.tags ensures (k.0, c'.tags.tags[k]) in c'.manifests {
      TaggedMeans(c, k.0, c.tags.tags[k]);
      SweepKeepsTagged(c, mark, k.0, c.tags.tags[k]);
    }
  }

  /** The ledger is only a second opinion: when the tags of the repository are
      the same at Sweep as they were at Mark, no tagged manifest and none of its
      blobs is collected, whatever the ledger says. Other operations may have
      changed everything else in between. */
  lemma LedgerIndependence(env: Env, c0: Content, c: Content, repo: string, digest: string)
    requires CollisionFree(env)
    requires Addressed(env, c0) && Resolved(c0)
    requires Addressed(env, c) && Backed(c) && Resolved(c)
    requires forall k: Key | k.0 == repo ::
               && (k in c0.tags.tags <==> k in c.tags.tags)
               && (k in c.tags.tags ==> c0.tags.tags[k] == c.tags.tags[k])
    requires c.Tagged(repo, digest)
    ensures var c' := Sweep(c, Mark(c0, repo));
            && (repo, digest) in c'.manifests && c'.manifests[(repo, digest)] == c.manifests[(repo, digest)]
            && forall d <- c.manifests[(repo, digest)].Digests() :: (repo, d) in c'.blobs.data
  {
    TaggedMeans(c, repo, digest);
    TaggedMeans(c0, repo, digest);
    var mark := Mark(c0, repo);
    var k := (repo, digest);
    assert digest in mark.manifests;
    MarkCovers(env, c0, repo);
    SweepKeepsTagged(c, mark, repo, digest);
    forall d <- c.manifests[k].Digests() ensures (repo, d) in Sweep(c, mark).blobs.data {
      SweepKeepsBytes(c, mark, (repo, d));
    }
  }
}
