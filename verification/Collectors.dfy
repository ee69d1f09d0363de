/** internal/gc: the collector, over the stores. */
module Collectors {
  import opened Model
  import opened NestedMaps
  import opened Sets
  import opened BlobStores
  import opened TagTables
  import opened TagStores
  import opened Manifests
  import opened Collection

  /** The tags among `names` that point at a digest, as keys of the flat table. */
  function KeysAt(repo: string, list: map<string, string>, names: set<string>, digest: string): set<Key> {
    set n <- names | n in list && list[n] == digest :: (repo, n)
  }

  lemma KeysAtMore(repo: string, list: map<string, string>, names: set<string>, name: string, digest: string)
    requires name in list && name !in names
    ensures |KeysAt(repo, list, names + {name}, digest)| ==
            |KeysAt(repo, list, names, digest)| + if list[name] == digest then 1 else 0
  {
    var before := KeysAt(repo, list, names, digest);
    assert (repo, name) !in before;
    assert KeysAt(repo, list, names + {name}, digest) == before + if list[name] == digest then {(repo, name)} else {};
  }

  function DoomedIn(c: Content, mark: Marked, handled: seq<string>): set<Key> {
    set k <- Doomed(c, mark) | k.1 in handled
  }

  function AgreeingIn(c: Content, repo: string, handled: seq<string>): set<string> {
    set d <- Agreeing(c, repo) | d in handled
  }

  function ReachIn(c: Content, mark: Marked, handled: seq<string>): set<string> {
    mark.blobs + (BlobsOf(c.manifests, mark.repo, AgreeingIn(c, mark.repo, handled)) - {""})
  }

  /** Where Sweep is once it has handled some of the listed manifests. */
  ghost predicate Swept(c: Content, mark: Marked, handled: seq<string>, manifests: map<Key, Manifest>,
                        recs: map<Key, Blob>, reached: set<string>)
  {
    && manifests == c.manifests - DoomedIn(c, mark, handled)
    && recs == ReleaseAll(c.blobs.recs, mark.repo, Occurrences(c.manifests, DoomedIn(c, mark, handled)))
    && reached == ReachIn(c, mark, handled)
  }

  lemma SweptNone(c: Content, mark: Marked)
    ensures Swept(c, mark, [], c.manifests, c.blobs.recs, mark.blobs)
  {
  }

  lemma SweptAll(c: Content, mark: Marked, handled: seq<string>, manifests: map<Key, Manifest>,
                 recs: map<Key, Blob>, reached: set<string>)
    requires Swept(c, mark, handled, manifests, recs, reached)
    requires forall d :: d in handled <==> (mark.repo, d) in c.manifests
    ensures manifests == c.manifests - Doomed(c, mark)
    ensures recs == ReleaseAll(c.blobs.recs, mark.repo, Occurrences(c.manifests, Doomed(c, mark)))
    ensures reached == Reach(c, mark)
  {
    assert DoomedIn(c, mark, handled) == Doomed(c, mark) by {
      forall k <- Doomed(c, mark) ensures k.1 in handled { assert (mark.repo, k.1) == k; }
    }
    assert AgreeingIn(c, mark.repo, handled) == Agreeing(c, mark.repo);
  }

  lemma DoomedInMore(c: Content, mark: Marked, handled: seq<string>, digest: string)
    ensures DoomedIn(c, mark, handled + [digest]) ==
            DoomedIn(c, mark, handled) + if (mark.repo, digest) in Doomed(c, mark) then {(mark.repo, digest)} else {}
  {
  }

  lemma ReachInMore(c: Content, mark: Marked, handled: seq<string>, digest: string)
    requires (mark.repo, digest) in c.manifests
    ensures ReachIn(c, mark, handled + [digest]) ==
            ReachIn(c, mark, handled)
            + if digest in Agreeing(c, mark.repo) then c.manifests[(mark.repo, digest)].Digests() - {""} else {}
  {
  }

  lemma NotBefore(list: seq<string>, i: nat)
    requires i < |list| && forall j, k | 0 <= j < k < |list| :: list[j] != list[k]
    ensures list[i] !in list[..i] && list[..i + 1] == list[..i] + [list[i]]
  {
  }

  lemma AgreeingAt(c: Content, repo: string, digest: string)
    requires (repo, digest) in c.manifests
    ensures digest in Agreeing(c, repo) <==>
            c.Tagged(repo, digest) && Get0(c.tags.refs, (repo, digest)) == TagCount(c.tags.tags, repo, digest)
  {
  }

  lemma MinusMore<V>(m: map<Key, V>, gone: set<Key>, k: Key)
    ensures m - gone - {k} == m - (gone + {k})
  {
  }

  lemma DoomedMore(c: Content, repo: string, doomed: set<Key>, digest: string)
    requires doomed <= c.manifests.Keys && (repo, digest) in c.manifests && (repo, digest) !in doomed
    ensures ReleaseAll(ReleaseAll(c.blobs.recs, repo, Occurrences(c.manifests, doomed)), repo,
                       References(c.manifests[(repo, digest)].Descriptors()))
         == ReleaseAll(c.blobs.recs, repo, Occurrences(c.manifests, doomed + {(repo, digest)}))
  {
    var references := References(c.manifests[(repo, digest)].Descriptors());
    ReleaseTwice(c.blobs.recs, repo, Occurrences(c.manifests, doomed), references);
    OccurrencesPeel(c.manifests, doomed + {(repo, digest)}, (repo, digest));
    assert doomed + {(repo, digest)} - {(repo, digest)} == doomed;
    assert Occurrences(c.manifests, doomed) + references == references + Occurrences(c.manifests, doomed);
  }

  /** A deleted manifest: its references are released and nothing is reached. */
  lemma SweptDeleted(c: Content, mark: Marked, handled: seq<string>, manifests: map<Key, Manifest>,
                     recs: map<Key, Blob>, reached: set<string>, digest: string)
    requires Swept(c, mark, handled, manifests, recs, reached)
    requires (mark.repo, digest) in Doomed(c, mark) && digest !in handled
    ensures Swept(c, mark, handled + [digest], manifests - {(mark.repo, digest)},
                  ReleaseAll(recs, mark.repo, References(c.manifests[(mark.repo, digest)].Descriptors())), reached)
  {
    DoomedInMore(c, mark, handled, digest);
    ReachInMore(c, mark, handled, digest);
    AgreeingAt(c, mark.repo, digest);
    MinusMore(c.manifests, DoomedIn(c, mark, handled), (mark.repo, digest));
    DoomedMore(c, mark.repo, DoomedIn(c, mark, handled), digest);
  }

  /** A kept manifest: it is reached when it is tagged and the ledger agrees. */
  lemma SweptKept(c: Content, mark: Marked, handled: seq<string>, manifests: map<Key, Manifest>,
                  recs: map<Key, Blob>, reached: set<string>, digest: string)
    requires Swept(c, mark, handled, manifests, recs, reached)
    requires (mark.repo, digest) in c.manifests && (mark.repo, digest) !in Doomed(c, mark)
    ensures Swept(c, mark, handled + [digest], manifests, recs, reached +
                  if digest in Agreeing(c, mark.repo) then c.manifests[(mark.repo, digest)].Digests() - {""} else {})
  {
    DoomedInMore(c, mark, handled, digest);
    ReachInMore(c, mark, handled, digest);
    assert DoomedIn(c, mark, handled + [digest]) == DoomedIn(c, mark, handled);
  }

  /** What handling one more manifest has to do to the tables and the reached set. */
  lemma SweptStep(c: Content, mark: Marked, handled: seq<string>, manifests: map<Key, Manifest>,
                  recs: map<Key, Blob>, reached: set<string>, digest: string)
    requires Swept(c, mark, handled, manifests, recs, reached)
    requires (mark.repo, digest) in c.manifests && digest !in handled
    ensures (mark.repo, digest) in manifests && manifests[(mark.repo, digest)] == c.manifests[(mark.repo, digest)]
    ensures var k := (mark.repo, digest);
            var m := c.manifests[k];
            var count := TagCount(c.tags.tags, mark.repo, digest);
            if count == 0 && digest !in mark.manifests then
              Swept(c, mark, handled + [digest], manifests - {k},
                    ReleaseAll(recs, mark.repo, References(m.Descriptors())), reached)
            else
              Swept(c, mark, handled + [digest], manifests, recs,
                    reached + if count != 0 && Get0(c.tags.refs, k) == count then m.Digests() - {""} else {})
  {
    AgreeingAt(c, mark.repo, digest);
    if (mark.repo, digest) in Doomed(c, mark) {
      SweptDeleted(c, mark, handled, manifests, recs, reached, digest);
    } else {
      SweptKept(c, mark, handled, manifests, recs, reached, digest);
    }
  }

  /** The DecRef loop over a manifest's descriptors. */
  method ReleaseDescriptors(blobs: BlobStore, repo: string, ds: seq<Descriptor>)
    requires blobs.Valid()
    modifies blobs`blobs, blobs`table
    ensures blobs.Valid()
    ensures blobs.table == old(blobs.table).(recs := ReleaseAll(old(blobs.table.recs), repo, References(ds)))
  {
    ghost var start := blobs.table;
    ReleaseNothing(start.recs, repo);
    for k := 0 to |ds|
      invariant blobs.Valid()
      invariant blobs.table == start.(recs := ReleaseAll(start.recs, repo, References(ds[..k])))
    {
      DecRefReleases(blobs.table, repo, ds[k].digest);
      ReleaseTwice(start.recs, repo, References(ds[..k]), multiset{ds[k].digest});
      assert ds[..k + 1][..k] == ds[..k];
      var _ := blobs.DecRef(repo, ds[k].digest);
    }
    assert ds[..|ds|] == ds;
  }

  class GC {
    const tags: TagStore
    const manifests: ManifestStore
    const blobs: BlobStore

    ghost predicate Valid()
      reads tags, manifests, blobs
    {
      tags.Valid() && manifests.blobs == blobs && manifests.Valid()
    }

    ghost function View(): Content
      reads tags, manifests, blobs
    {
      Content(blobs.table, manifests.table, tags.table)
    }

    constructor (tags: TagStore, manifests: ManifestStore, blobs: BlobStore)
      requires tags.Valid() && manifests.Valid() && manifests.blobs == blobs
      ensures Valid() && this.tags == tags && this.manifests == manifests && this.blobs == blobs
    {
      this.tags := tags;
      this.manifests := manifests;
      this.blobs := blobs;
    }

    /** Every manifest some tag points at, and every blob it refers to. */
    method Mark(repo: string) returns (reachableBlobs: set<string>, reachableManifests: set<string>)
      requires Valid()
      ensures Marked(repo, reachableManifests, reachableBlobs) == Collection.Mark(View(), repo)
    {
      reachableBlobs, reachableManifests := {}, {};
      var list := tags.List(repo);
      var todo := list.Keys;
      while todo != {}
        invariant todo <= list.Keys
        invariant forall d <- reachableManifests :: d != "" && (repo, d) in manifests.table && d in list.Values
        invariant forall n <- list.Keys - todo ::
          list[n] in reachableManifests || list[n] == "" || (repo, list[n]) !in manifests.table
        invariant reachableBlobs == BlobsOf(manifests.table, repo, reachableManifests)
      {
        var name := PickAny(todo);
        todo := todo - {name};
        var digest := list[name];
        if digest != "" {
          var m := manifests.Get(repo, digest);
          if m.Ok? {
            BlobsOfMore(manifests.table, repo, reachableManifests, digest);
            reachableManifests := reachableManifests + {digest};
            reachableBlobs := AddDigests(m.value, reachableBlobs, true);
          }
        }
      }
      MarkedAll(repo, list, reachableManifests);
    }

    lemma MarkedAll(repo: string, list: map<string, string>, found: set<string>)
      requires Slices(tags.table.tags, repo, list)
      requires forall d <- found :: d != "" && (repo, d) in manifests.table && d in list.Values
      requires forall n <- list :: list[n] in found || list[n] == "" || (repo, list[n]) !in manifests.table
      ensures found == Collection.Mark(View(), repo).manifests
    {
      forall d ensures d in found <==> d in Collection.Mark(View(), repo).manifests {
        TaggedMeans(View(), repo, d);
        if d in found {
          var n :| n in list && list[n] == d;
          assert (repo, n) in tags.table.tags;
          assert (repo, d).1 == d;
        }
        if d in Collection.Mark(View(), repo).manifests {
          var k :| k in tags.table.tags && k.0 == repo && tags.table.tags[k] == d;
          assert k.1 in list;
        }
      }
    }

    /** Adding a manifest's digests to a reachable set; Mark adds them all and
        markBlob leaves out an empty one. */
    method AddDigests(m: Manifest, reachable: set<string>, allowEmpty: bool) returns (grown: set<string>)
      ensures grown == reachable + if allowEmpty then m.Digests() else m.Digests() - {""}
    {
      grown := reachable;
      var ds := m.Descriptors();
      for k := 0 to |ds|
        invariant grown == reachable + set j | 0 <= j < k && (allowEmpty || ds[j].digest != "") :: ds[j].digest
      {
        if allowEmpty || ds[k].digest != "" {
          grown := grown + {ds[k].digest};
        }
      }
    }

    /** The tag table counted by digest, and the ledger. */
    method ReachableManifests(repo: string) returns (counts: map<string, int>, ledger: map<string, int>)
      requires Valid()
      ensures forall d :: Get0(counts, d) == TagCount(tags.table.tags, repo, d)
      ensures forall d :: Get0(ledger, d) == Get0(tags.table.refs, (repo, d))
    {
      var list := tags.List(repo);
      counts := Counted(repo, list);
      forall d ensures KeysAt(repo, list, list.Keys, d) == Pointing(tags.table.tags, repo, d) {
        forall k: Key ensures k in KeysAt(repo, list, list.Keys, d) <==> k in Pointing(tags.table.tags, repo, d) {
          if k.0 == repo { assert k.1 in list <==> (repo, k.1) in tags.table.tags; }
        }
      }
      ledger := tags.Refs(repo);
    }

    method Counted(ghost repo: string, list: map<string, string>) returns (counts: map<string, int>)
      ensures forall d :: Get0(counts, d) == |KeysAt(repo, list, list.Keys, d)|
    {
      counts := map[];
      var todo := list.Keys;
      while todo != {}
        invariant todo <= list.Keys
        invariant forall d :: Get0(counts, d) == |KeysAt(repo, list, list.Keys - todo, d)|
      {
        var name := PickAny(todo);
        var digest := list[name];
        assert list.Keys - (todo - {name}) == (list.Keys - todo) + {name};
        forall d { KeysAtMore(repo, list, list.Keys - todo, name, d); }
        counts := counts[digest := Get0(counts, digest) + 1];
        todo := todo - {name};
      }
      assert list.Keys - {} == list.Keys;
    }

    /** A manifest goes, and each of its descriptors releases one reference. */
    method DeleteManifest(repo: string, digest: string)
      requires Valid()
      modifies manifests, blobs
      ensures Valid()
      ensures manifests.table == old(manifests.table) - {(repo, digest)}
      ensures blobs.table == old(blobs.table).(recs := ReleaseAll(old(blobs.table.recs), repo,
                if (repo, digest) in old(manifests.table)
                then References(old(manifests.table)[(repo, digest)].Descriptors()) else multiset{}))
    {
      ReleaseNothing(blobs.table.recs, repo);
      var m := manifests.Get(repo, digest);
      if m.Err? {
        return;
      }
      ReleaseDescriptors(blobs, repo, m.value.Descriptors());
      var _ := manifests.Delete(repo, digest);
    }

    /** What Sweep does to one listed manifest. */
    method SweepManifest(repo: string, digest: string, tagCount: int, ledgerCount: int,
                         reachableBlobs: set<string>, reachableManifests: set<string>) returns (grown: set<string>)
      requires Valid() && (repo, digest) in manifests.table
      modifies manifests, blobs
      ensures Valid()
      ensures var m := old(manifests.table)[(repo, digest)];
              if tagCount == 0 && digest !in reachableManifests then
                && manifests.table == old(manifests.table) - {(repo, digest)}
                && blobs.table == old(blobs.table).(
                     recs := ReleaseAll(old(blobs.table.recs), repo, References(m.Descriptors())))
                && grown == reachableBlobs
              else
                && manifests.table == old(manifests.table) && blobs.table == old(blobs.table)
                && grown == reachableBlobs + if tagCount != 0 && ledgerCount == tagCount then m.Digests() - {""} else {}
    {
      grown := reachableBlobs;
      if tagCount == 0 {
        if digest in reachableManifests {
          return;
        }
        DeleteManifest(repo, digest);
        return;
      }
      if ledgerCount != tagCount {
        return;
      }
      var m := manifests.Get(repo, digest);
      grown := AddDigests(m.value, grown, false);
    }

    /** Sweep, with the marks of any earlier moment. Go grows the caller's map of
        reachable blobs; here the grown set is returned. */
    method Sweep(repo: string, reachableBlobs: set<string>, reachableManifests: set<string>) returns (grown: set<string>)
      requires Valid()
      modifies manifests, blobs
      ensures Valid()
      ensures View() == Collection.Sweep(old(View()), Marked(repo, reachableManifests, reachableBlobs))
      ensures grown == Reach(old(View()), Marked(repo, reachableManifests, reachableBlobs))
    {
      ghost var c := View();
      ghost var mark := Marked(repo, reachableManifests, reachableBlobs);
      var counts, ledger := ReachableManifests(repo);
      grown := reachableBlobs;
      var list := manifests.List(repo);
      SweptNone(c, mark);
      for i := 0 to |list|
        invariant Valid() && tags.table == c.tags && blobs.table.data == c.blobs.data
        invariant Swept(c, mark, list[..i], manifests.table, blobs.table.recs, grown)
      {
        var digest := list[i];
        NotBefore(list, i);
        SweptStep(c, mark, list[..i], manifests.table, blobs.table.recs, grown, digest);
        grown := SweepManifest(repo, digest, Get0(counts, digest), Get0(ledger, digest), grown, reachableManifests);
      }
      assert list[..|list|] == list;
      SweptAll(c, mark, list, manifests.table, blobs.table.recs, grown);
      var _ := blobs.SweepUnreferenced(repo, grown);
    }

    method Run(repo: string)
      requires Valid()
      modifies manifests, blobs
      ensures Valid() && View() == Collection.Run(old(View()), repo)
    {
      var reachableBlobs, reachableManifests := Mark(repo);
      var _ := Sweep(repo, reachableBlobs, reachableManifests);
    }
  }
}
