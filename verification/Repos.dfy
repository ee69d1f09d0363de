/** internal/repo/store.go: namespaces, in-flight pushes and orphans. The release
    closure returned by Enter is an entry of `tickets`: its sync.Once is `fired`. */
module Repos {
  import opened Model
  import opened NestedMaps
  import opened Sets
  import opened Sorting

  datatype Ticket = Ticket(repo: string, fired: bool)

  /** `repos` maps a name to whether it was deleted. */
  datatype RepoTable = RepoTable(
    repos: map<string, bool>, inflight: map<string, int>, orphans: set<string>, tickets: seq<Ticket>)
  {
    predicate Alive(name: string) {
      name in repos && !repos[name]
    }

    predicate Deleted(name: string) {
      name in repos && repos[name]
    }

    function Count(name: string): int {
      Get0(inflight, name)
    }

    function Create(name: string): (RepoTable, Result<()>) {
      if name == "" then (this, Err(InvalidArgument))
      else if name in repos then (this, Err(AlreadyExists))
      else (this.(repos := repos[name := false]), Ok(()))
    }

    /** A soft delete; with pushes in flight the namespace becomes an orphan. */
    function Delete(name: string): (RepoTable, Result<()>) {
      if name !in repos then (this, Err(NotFound))
      else
        (this.(repos := repos[name := true], orphans := if Count(name) > 0 then orphans + {name} else orphans), Ok(()))
    }

    function Enter(name: string): (RepoTable, Result<nat>) {
      if !Alive(name) then (this, Err(NotFound))
      else
        (this.(inflight := inflight[name := Count(name) + 1], tickets := tickets + [Ticket(name, false)]), Ok(|tickets|))
    }

    /** Calling a release: only its first call counts, and the counter stays at
        zero if it is there already. */
    function Release(ticket: nat): RepoTable {
      if ticket >= |tickets| || tickets[ticket].fired then this
      else
        var name := tickets[ticket].repo;
        this.(tickets := tickets[ticket := Ticket(name, true)],
              inflight := if Count(name) > 0 then inflight[name := Count(name) - 1] else inflight)
    }
  }

  /** What creating, deleting and entering a namespace answer, and all they change. */
  lemma NamespaceAnswers(rt: RepoTable, name: string)
    ensures var (rt', r) := rt.Create(name);
            if name == "" then rt' == rt && r == Err(InvalidArgument)
            else if name in rt.repos then rt' == rt && r == Err(AlreadyExists)
            else rt' == rt.(repos := rt.repos[name := false]) && r == Ok(())
    ensures var (rt', r) := rt.Delete(name);
            if name !in rt.repos then rt' == rt && r == Err(NotFound)
            else
              && rt'.repos == rt.repos[name := true] && r == Ok(())
              && rt'.orphans == (if rt.Count(name) > 0 then rt.orphans + {name} else rt.orphans)
              && rt'.inflight == rt.inflight && rt'.tickets == rt.tickets
    ensures var (rt', r) := rt.Enter(name);
            if name !in rt.repos || rt.repos[name] then rt' == rt && r == Err(NotFound)
            else
              && r == Ok(|rt.tickets|) && rt'.tickets == rt.tickets + [Ticket(name, false)]
              && rt'.repos == rt.repos && rt'.orphans == rt.orphans
              && forall x :: rt'.Count(x) == rt.Count(x) + if x == name then 1 else 0
  {
  }

  class RepoStore {
    var repos: map<string, bool>
    var inflight: map<string, int>
    var orphans: set<string>
    var tickets: seq<Ticket>

    function View(): RepoTable
      reads this
    {
      RepoTable(repos, inflight, orphans, tickets)
    }

    constructor ()
      ensures View() == RepoTable(map[], map[], {}, [])
    {
      repos := map[];
      inflight := map[];
      orphans := {};
      tickets := [];
    }

    method Create(name: string) returns (r: Result<()>)
      modifies this
      ensures (View(), r) == old(View()).Create(name)
    {
      if name == "" {
        return Err(InvalidArgument);
      }
      if name in repos {
        return Err(AlreadyExists);
      }
      repos := repos[name := false];
      return Ok(());
    }

    method Delete(name: string) returns (r: Result<()>)
      modifies this
      ensures (View(), r) == old(View()).Delete(name)
    {
      if name !in repos {
        return Err(NotFound);
      }
      repos := repos[name := true];
      if Get0(inflight, name) > 0 {
        orphans := orphans + {name};
      }
      return Ok(());
    }

    method Alive(name: string) returns (r: bool)
      ensures r <==> View().Alive(name)
    {
      r := name in repos && !repos[name];
    }

    /** The live namespaces, sorted. */
    method List() returns (out: seq<string>)
      ensures Sorted(LexLe, out)
      ensures multiset(out) == multiset(set name <- View().repos | View().Alive(name))
    {
      out := [];
      var todo := repos.Keys;
      ghost var listed: set<string> := {};
      while todo != {}
        invariant todo <= repos.Keys
        invariant multiset(out) == multiset(listed)
        invariant forall name :: name in listed <==> View().Alive(name) && name !in todo
      {
        var name := PickAny(todo);
        if !repos[name] {
          out := out + [name];
          listed := listed + {name};
        }
        todo := todo - {name};
      }
      assert listed == set name <- View().repos | View().Alive(name);
      LexOrder();
      SortSorts(LexLe, out);
      out := Sort(LexLe, out);
    }

    /** The orphaned namespaces, sorted. */
    method Orphans() returns (out: seq<string>)
      ensures Sorted(LexLe, out)
      ensures multiset(out) == multiset(View().orphans)
    {
      out := [];
      var todo := orphans;
      while todo != {}
        invariant todo <= orphans
        invariant multiset(out) == multiset(orphans - todo)
      {
        var name := PickAny(todo);
        out := out + [name];
        assert orphans - (todo - {name}) == (orphans - todo) + {name};
        todo := todo - {name};
      }
      LexOrder();
      SortSorts(LexLe, out);
      out := Sort(LexLe, out);
    }

    method Enter(name: string) returns (r: Result<nat>)
      modifies this
      ensures (View(), r) == old(View()).Enter(name)
    {
      if name !in repos || repos[name] {
        return Err(NotFound);
      }
      inflight := inflight[name := Get0(inflight, name) + 1];
      tickets := tickets + [Ticket(name, false)];
      return Ok(|tickets| - 1);
    }

    method Release(ticket: nat)
      requires ticket < |tickets|
      modifies this
      ensures View() == old(View()).Release(ticket)
    {
      var name := tickets[ticket].repo;
      if !tickets[ticket].fired {
        tickets := tickets[ticket := Ticket(name, true)];
        if Get0(inflight, name) > 0 {
          inflight := inflight[name := Get0(inflight, name) - 1];
        }
      }
    }

    method Count(name: string) returns (n: int)
      ensures n == View().Count(name)
    {
      n := Get0(inflight, name);
    }
  }
}
