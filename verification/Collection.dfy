/** Garbage collection on values: what Mark and Sweep compute. */
module Collection {
  import opened Model
  import opened NestedMaps
  import opened Sets
  import opened BlobTables
  import opened TagTables

  /** The part of the registry the collector reads and changes. */
  datatype Content = Content(blobs: BlobTable, manifests: map<Key, Manifest>, tags: TagTable)
  {
    predicate Tagged(repo: string, digest: string) {
      TagCount(tags.tags, repo, digest) > 0
    }
  }

  /** What Mark hands to Sweep. */
  datatype Marked = Marked(repo: string, manifests: set<string>, blobs: set<string>)

  /** The blobs that some of a repository's manifests refer to. */
  function BlobsOf(manifests: map<Key, Manifest>, repo: string, digests: set<string>): set<string> {
    set k <- manifests, d <- manifests[k].Digests() | k.0 == repo && k.1 in digests :: d
  }

  function Mark(c: Content, repo: string): Marked {
    var found := set k <- c.manifests | k.0 == repo && k.1 != "" && c.Tagged(repo, k.1) :: k.1;
    Marked(repo, found, BlobsOf(c.manifests, repo, found))
  }

  // Reference counts ---------------------------------------------------------------

  function Minus(x: nat, y: nat): nat {
    if x > y then x - y else 0
  }

  /** Releasing a multiset of digests of one repository, never below zero. */
  function ReleaseAll(recs: map<Key, Blob>, repo: string, released: multiset<string>): map<Key, Blob> {
    map k | k in recs :: if k.0 == repo then recs[k].(refCount := Minus(recs[k].refCount, released[k.1])) else recs[k]
  }

  /** The digest of every descriptor, as often as it occurs. */
  function References(ds: seq<Descriptor>): multiset<string> {
    if ds == [] then multiset{} else References(ds[..|ds| - 1]) + multiset{ds[|ds| - 1].digest}
  }

  /** The references of several manifests together. */
  ghost function Occurrences(manifests: map<Key, Manifest>, ks: set<Key>): multiset<string>
    requires ks <= manifests.Keys
  {
    if ks == {} then multiset{}
    else
      var k := Pick(ks);
      References(manifests[k].Descriptors()) + Occurrences(manifests, ks - {k})
  }

  // Sweep -----------------------------------------------------------------------------

  /** The manifests Sweep deletes: no tag points at them now, and none did at Mark. */
  function Doomed(c: Content, mark: Marked): set<Key> {
    set k <- c.manifests | k.0 == mark.repo && !c.Tagged(mark.repo, k.1) && k.1 !in mark.manifests
  }

  /** The tagged manifests whose ledger entry agrees with the tag table. */
  function Agreeing(c: Content, repo: string): set<string> {
    set k <- c.manifests
      | k.0 == repo && c.Tagged(repo, k.1) && Get0(c.tags.refs, (repo, k.1)) == TagCount(c.tags.tags, repo, k.1) :: k.1
  }

  function Reach(c: Content, mark: Marked): set<string> {
    mark.blobs + (BlobsOf(c.manifests, mark.repo, Agreeing(c, mark.repo)) - {""})
  }

  ghost function Sweep(c: Content, mark: Marked): Content {
    var doomed := Doomed(c, mark);
    var released := BlobTable(ReleaseAll(c.blobs.recs, mark.repo, Occurrences(c.manifests, doomed)), c.blobs.data);
    Content(released.Sweep(mark.repo, Reach(c, mark)), c.manifests - doomed, c.tags)
  }

  ghost function Run(c: Content, repo: string): Content {
    Sweep(c, Mark(c, repo))
  }

  // Facts about tags and reach ------------------------------------------------------------

  lemma TaggedMeans(c: Content, repo: string, digest: string)
    ensures c.Tagged(repo, digest) <==> exists k :: k in c.tags.tags && k.0 == repo && c.tags.tags[k] == digest
  {
    if c.Tagged(repo, digest) {
      assert Pick(Pointing(c.tags.tags, repo, digest)) in c.tags.tags;
    }
    if k :| k in c.tags.tags && k.0 == repo && c.tags.tags[k] == digest {
      assert k in Pointing(c.tags.tags, repo, digest);
    }
  }

  lemma BlobsOfMore(manifests: map<Key, Manifest>, repo: string, digests: set<string>, digest: string)
    requires (repo, digest) in manifests
    ensures BlobsOf(manifests, repo, digests + {digest}) ==
            BlobsOf(manifests, repo, digests) + manifests[(repo, digest)].Digests()
  {
  }

  // Facts about counting ----------------------------------------------------------------

  lemma {:induction false} OccurrencesPeel(manifests: map<Key, Manifest>, ks: set<Key>, k: Key)
    requires ks <= manifests.Keys && k in ks
    ensures Occurrences(manifests, ks) == References(manifests[k].Descriptors()) + Occurrences(manifests, ks - {k})
  {
    var p := Pick(ks);
    if p != k {
      OccurrencesPeel(manifests, ks - {p}, k);
      OccurrencesPeel(manifests, ks - {k}, p);
      assert ks - {p} - {k} == ks - {k} - {p};
    }
  }

  lemma {:induction false} OccurrencesAgree(m: map<Key, Manifest>, m': map<Key, Manifest>, ks: set<Key>)
    requires ks <= m.Keys && ks <= m'.Keys
    requires forall k <- ks :: m[k] == m'[k]
    ensures Occurrences(m, ks) == Occurrences(m', ks)
  {
    if ks == {} {
    } else {
      OccurrencesAgree(m, m', ks - {Pick(ks)});
    }
  }

  lemma ReleaseTwice(recs: map<Key, Blob>, repo: string, a: multiset<string>, b: multiset<string>)
    ensures ReleaseAll(ReleaseAll(recs, repo, a), repo, b) == ReleaseAll(recs, repo, a + b)
  {
  }

  lemma ReleaseNothing(recs: map<Key, Blob>, repo: string)
    ensures ReleaseAll(recs, repo, multiset{}) == recs
  {
  }

  /** DecRef on the flat table releases one reference, or nothing. */
  lemma DecRefReleases(t: BlobTable, repo: string, digest: string)
    ensures t.DecRef(repo, digest).0 == t.(recs := ReleaseAll(t.recs, repo, multiset{digest}))
  {
  }

  lemma ReleaseKeepsSound(env: Env, t: BlobTable, repo: string, released: multiset<string>)
    requires Sound(env, t)
    ensures Sound(env, t.(recs := ReleaseAll(t.recs, repo, released)))
  {
  }

}
