/** What an uninterrupted collection leaves, exactly; that it does not depend on
    order or repetition; and that other namespaces are not touched. */
module Exactness {
  import opened Model
  import opened BlobTables
  import opened Collection

  // Collecting a set of namespaces at once --------------------------------------------

  /** A namespace's manifests with no tag. */
  function Untagged(c: Content, repo: string): set<Key> {
    set k <- c.manifests | k.0 == repo && !c.Tagged(repo, k.1)
  }

  /** The blobs of a namespace's tagged manifests. */
  function Live(c: Content, repo: string): set<string> {
    set k <- c.manifests, d <- c.manifests[k].Digests() | k.0 == repo && c.Tagged(repo, k.1) :: d
  }

  /** The count a blob keeps once its untagged manifests let go of it. */
  ghost function Left(c: Content, k: Key): nat
    requires k in c.blobs.recs
  {
    Minus(c.blobs.recs[k].refCount, Occurrences(c.manifests, Untagged(c, k.0))[k.1])
  }

  ghost predicate Survives(c: Content, repos: set<string>, k: Key)
    requires k in c.blobs.recs
  {
    k.0 in repos ==> k.1 in Live(c, k.0) || Left(c, k) > 0
  }

  ghost function CollectedRecs(c: Content, repos: set<string>): map<Key, Blob> {
    map k | k in c.blobs.recs && Survives(c, repos, k) ::
      if k.0 in repos then c.blobs.recs[k].(refCount := Left(c, k)) else c.blobs.recs[k]
  }

  function CollectedManifests(c: Content, repos: set<string>): map<Key, Manifest> {
    map k | k in c.manifests && (k.0 in repos ==> c.Tagged(k.0, k.1)) :: c.manifests[k]
  }

  /** In the given namespaces: exactly the tagged manifests stay, and exactly the
      blobs that are live or whose remaining count is positive. */
  ghost function Collect(c: Content, repos: set<string>): Content {
    var recs := CollectedRecs(c, repos);
    Content(
      BlobTable(recs, c.blobs.data - (c.blobs.recs.Keys - recs.Keys)),
      CollectedManifests(c, repos),
      c.tags)
  }

  // One uninterrupted run ---------------------------------------------------------------

  lemma RunReachesLive(c: Content, repo: string)
    requires c.tags.NoEmptyTags()
    ensures Reach(c, Mark(c, repo)) == Live(c, repo)
    ensures Doomed(c, Mark(c, repo)) == Untagged(c, repo)
  {
  }

  lemma UnreferencedAreCollected(c: Content, repo: string)
    ensures var occ := Occurrences(c.manifests, Untagged(c, repo));
            var released := BlobTable(ReleaseAll(c.blobs.recs, repo, occ), c.blobs.data);
            && released.Unreferenced(repo, Live(c, repo)) == c.blobs.recs.Keys - CollectedRecs(c, {repo}).Keys
            && released.recs - released.Unreferenced(repo, Live(c, repo)) == CollectedRecs(c, {repo})
  {
    var occ := Occurrences(c.manifests, Untagged(c, repo));
    var released := BlobTable(ReleaseAll(c.blobs.recs, repo, occ), c.blobs.data);
    var gone := released.Unreferenced(repo, Live(c, repo));
    forall k <- c.blobs.recs
      ensures k in gone <==> !Survives(c, {repo}, k)
      ensures released.recs[k] == if k.0 in {repo} then c.blobs.recs[k].(refCount := Left(c, k)) else c.blobs.recs[k]
    {
    }
  }

  /** Mark and Sweep with nothing in between is Collect on the one namespace,
      whatever the ledger holds. */
  lemma RunIsCollect(c: Content, repo: string)
    requires c.tags.NoEmptyTags()
    ensures Run(c, repo) == Collect(c, {repo})
  {
    RunReachesLive(c, repo);
    UnreferencedAreCollected(c, repo);
    assert c.manifests - Untagged(c, repo) == CollectedManifests(c, {repo});
  }

  // Repeating and reordering ----------------------------------------------------------

  lemma CollectKeepsTagged(c: Content, repos: set<string>, repo: string)
    ensures Live(Collect(c, repos), repo) == Live(c, repo)
    ensures Untagged(Collect(c, repos), repo) == if repo in repos then {} else Untagged(c, repo)
  {
    var c' := Collect(c, repos);
    forall d ensures d in Live(c', repo) <==> d in Live(c, repo) {
      if d in Live(c, repo) {
        var k :| k in c.manifests && d in c.manifests[k].Digests() && k.0 == repo && c.Tagged(repo, k.1);
        assert k in c'.manifests && c'.manifests[k] == c.manifests[k];
      }
      if d in Live(c', repo) {
        var k :| k in c'.manifests && d in c'.manifests[k].Digests() && k.0 == repo && c'.Tagged(repo, k.1);
        assert k in c.manifests;
      }
    }
  }

  lemma CollectLeft(c: Content, repos: set<string>, k: Key)
    requires k in Collect(c, repos).blobs.recs
    ensures k in c.blobs.recs
    ensures Left(Collect(c, repos), k) == Left(c, k)
  {
    var c' := Collect(c, repos);
    CollectKeepsTagged(c, repos, k.0);
    if k.0 !in repos {
      OccurrencesAgree(c.manifests, c'.manifests, Untagged(c, k.0));
    }
  }

  lemma CollectComposeAt(c: Content, a: set<string>, b: set<string>, k: Key)
    requires k in c.blobs.recs
    ensures k in CollectedRecs(Collect(c, a), b) <==> k in CollectedRecs(c, a + b)
    ensures k in CollectedRecs(c, a + b) ==> CollectedRecs(Collect(c, a), b)[k] == CollectedRecs(c, a + b)[k]
  {
    CollectKeepsTagged(c, a, k.0);
    if k in CollectedRecs(c, a) { CollectLeft(c, a, k); }
  }

  lemma MinusTwice<V>(data: map<Key, V>, all: set<Key>, first: set<Key>, second: set<Key>)
    requires second <= first <= all
    ensures data - (all - first) - (first - second) == data - (all - second)
  {
  }

  /** Collecting some namespaces and then others is collecting them all at once:
      the order does not matter and collecting twice adds nothing. */
  lemma CollectCompose(c: Content, a: set<string>, b: set<string>)
    ensures Collect(Collect(c, a), b) == Collect(c, a + b)
  {
    forall k <- c.blobs.recs { CollectComposeAt(c, a, b, k); }
    assert CollectedRecs(Collect(c, a), b) == CollectedRecs(c, a + b);
    MinusTwice(c.blobs.data, c.blobs.recs.Keys, CollectedRecs(c, a).Keys, CollectedRecs(c, a + b).Keys);
    assert CollectedManifests(Collect(c, a), b) == CollectedManifests(c, a + b);
  }

  /** An uninterrupted run leaves exactly the tagged manifests and exactly the
      blobs that are live or still held, and a second run changes nothing. */
  lemma RunExactly(c: Content, repo: string)
    requires c.tags.NoEmptyTags()
    ensures var c' := Run(c, repo);
            && (forall d :: (repo, d) in c'.manifests <==> (repo, d) in c.manifests && c.Tagged(repo, d))
            && (forall d :: (repo, d) in c'.blobs.recs <==>
                  (repo, d) in c.blobs.recs && (d in Live(c, repo) || Left(c, (repo, d)) > 0))
            && c'.tags == c.tags
    ensures Run(Run(c, repo), repo) == Run(c, repo)
  {
    RunIsCollect(c, repo);
    RunIsCollect(Run(c, repo), repo);
    CollectCompose(c, {repo}, {repo});
    assert {repo} + {repo} == {repo};
  }

  // RunGC -------------------------------------------------------------------------------

  /** One run per namespace in the list. */
  ghost function RunAll(c: Content, namespaces: seq<string>): Content
    decreases |namespaces|
  {
    if namespaces == [] then c else RunAll(Run(c, namespaces[0]), namespaces[1..])
  }

  lemma ListedCons(namespaces: seq<string>)
    requires namespaces != []
    ensures (set ns <- namespaces) == {namespaces[0]} + set ns <- namespaces[1..]
  {
    assert namespaces == [namespaces[0]] + namespaces[1..];
  }

  lemma CollectNothing(c: Content)
    ensures Collect(c, {}) == c
  {
  }

  /** A list of namespaces is collected as the set of them. */
  lemma {:induction false} RunAllIsCollect(c: Content, namespaces: seq<string>)
    requires c.tags.NoEmptyTags()
    ensures RunAll(c, namespaces) == Collect(c, set ns <- namespaces)
    decreases |namespaces|
  {
    if namespaces == [] {
      assert (set ns <- namespaces) == {};
      CollectNothing(c);
    } else {
      var rest := namespaces[1..];
      RunIsCollect(c, namespaces[0]);
      RunAllIsCollect(Collect(c, {namespaces[0]}), rest);
      CollectCompose(c, {namespaces[0]}, set ns <- rest);
      ListedCons(namespaces);
    }
  }

  /** Order and duplicates in the list do not matter. */
  lemma RunAllOrderIrrelevant(c: Content, xs: seq<string>, ys: seq<string>)
    requires c.tags.NoEmptyTags()
    requires (set ns <- xs) == (set ns <- ys)
    ensures RunAll(c, xs) == RunAll(c, ys)
  {
    RunAllIsCollect(c, xs);
    RunAllIsCollect(c, ys);
  }

  /** Namespaces outside the list keep their manifests, blobs and bytes. */
  lemma {:induction false} RunAllLeavesOthers(c: Content, namespaces: seq<string>, k: Key)
    requires c.tags.NoEmptyTags() && k.0 !in namespaces
    requires forall x <- c.blobs.data :: x in c.blobs.recs
    ensures var c' := RunAll(c, namespaces);
            && (k in c'.manifests <==> k in c.manifests) && (k in c.manifests ==> c'.manifests[k] == c.manifests[k])
            && (k in c'.blobs.recs <==> k in c.blobs.recs) && (k in c.blobs.recs ==> c'.blobs.recs[k] == c.blobs.recs[k])
            && (k in c'.blobs.data <==> k in c.blobs.data) && (k in c.blobs.data ==> c'.blobs.data[k] == c.blobs.data[k])
            && c'.tags == c.tags
  {
    RunAllIsCollect(c, namespaces);
  }
}
