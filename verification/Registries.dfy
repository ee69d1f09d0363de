/** internal/registry/registry.go: the wiring of the stores, and RunGC. */
module Registries {
  import opened Model
  import opened Sorting
  import opened BlobStores
  import opened TagStores
  import opened Repos
  import opened Auth
  import opened Index
  import opened SessionManagers
  import opened Manifests
  import opened Exactness
  import opened Collectors
  import opened Pushers
  import Facades

  lemma SetOfList(first: string, list: seq<string>, elements: set<string>)
    requires multiset(list) == multiset(elements)
    ensures (set x <- [first] + list) == {first} + elements
  {
    forall x ensures x in list <==> x in elements {
      assert x in list <==> x in multiset(list);
    }
  }

  class Registry {
    const repos: RepoStore
    const pusher: Pusher
    const gc: GC

    ghost predicate Valid()
      reads pusher.blobs, pusher.manifests, pusher.tags, pusher.index, pusher.sessions, pusher.repos
    {
      && pusher.Valid() && pusher.repos == repos
      && gc.blobs == pusher.blobs && gc.manifests == pusher.manifests && gc.tags == pusher.tags
    }

    ghost function View(): Pipeline.World
      reads pusher.auth, pusher.blobs, pusher.manifests, pusher.tags, pusher.index, pusher.sessions, pusher.repos
    {
      pusher.View()
    }

    /** A registry over fresh stores starts empty. */
    constructor (env: Env, shards: int)
      ensures Valid() && View() == Pipeline.EMPTY
    {
      var repos := new RepoStore();
      var blobs := new BlobStore(env, shards);
      var auth := new AuthStore();
      var sessions := new SessionManager(blobs, auth, repos);
      var manifests := new ManifestStore(blobs, sessions);
      var tags := new TagStore();
      var index := new IndexStore();
      this.repos := repos;
      pusher := new Pusher(auth, blobs, manifests, tags, index, sessions, repos);
      gc := new GC(tags, manifests, blobs);
    }

    /** One collection after another. */
    method CollectEach(namespaces: seq<string>)
      requires Valid()
      modifies pusher.manifests, pusher.blobs
      ensures Valid() && View() == old(View()).WithContent(RunAll(old(gc.View()), namespaces))
    {
      ghost var c := gc.View();
      assert namespaces[0..] == namespaces;
      for k := 0 to |namespaces|
        invariant Valid() && View() == old(View()).WithContent(gc.View())
        invariant RunAll(c, namespaces) == RunAll(gc.View(), namespaces[k..])
      {
        assert namespaces[k..][0] == namespaces[k] && namespaces[k..][1..] == namespaces[k + 1..];
        gc.Run(namespaces[k]);
      }
    }

    /** A collection of the requested repository and then one of every orphan, in
        sorted order: exactly these namespaces are collected, and no other is
        touched. A reachable registry stays one. */
    method RunGC(repo: string) returns (namespaces: seq<string>)
      requires Valid()
      modifies pusher.manifests, pusher.blobs
      ensures Valid()
      ensures namespaces != [] && namespaces[0] == repo && Sorted(LexLe, namespaces[1..])
      ensures multiset(namespaces[1..]) == multiset(old(View()).repos.orphans)
      ensures View() == old(View()).WithContent(RunAll(old(View()).Content(), namespaces))
      ensures View() == old(View()).WithContent(Collect(old(View()).Content(), {repo} + old(View()).repos.orphans))
      ensures Facades.Reachable(pusher.env, old(View())) ==> Facades.Reachable(pusher.env, View())
    {
      var orphans := repos.Orphans();
      namespaces := [repo] + orphans;
      SetOfList(repo, orphans, repos.View().orphans);
      RunAllIsCollect(gc.View(), namespaces);
      if Facades.Reachable(pusher.env, View()) { Facades.RunAllReaches(pusher.env, View(), namespaces); }
      CollectEach(namespaces);
    }
  }
}
