/** internal/tag/store.go: the tag store, over Go's nested maps. */
module TagStores {
  import opened Model
  import opened NestedMaps
  import opened Sets
  import opened TagTables

  method Copied<V>(source: map<string, V>) returns (out: map<string, V>)
    ensures out == source
  {
    out := map[];
    var todo := source.Keys;
    while todo != {}
      invariant todo <= source.Keys
      invariant out.Keys == source.Keys - todo
      invariant forall k <- out :: out[k] == source[k]
    {
      var k := PickAny(todo);
      out := out[k := source[k]];
      todo := todo - {k};
    }
  }

  class TagStore {
    var tags: map<string, map<string, string>>
    var refs: map<string, map<string, int>>
    var revision: map<string, int>

    ghost var table: TagTable

    ghost predicate Valid()
      reads this
    {
      Nests(tags, table.tags) && Nests(refs, table.refs) && revision == table.revision && table.NoEmptyTags()
    }

    constructor ()
      ensures Valid() && table == TagTable(map[], map[], map[])
    {
      tags := map[];
      refs := map[];
      revision := map[];
      table := TagTable(map[], map[], map[]);
    }

    // Single entries of the nested maps ------------------------------------------

    method SetEntry(repo: string, name: string, digest: string)
      requires Valid() && digest != ""
      modifies this`tags, this`table
      ensures Valid() && table == old(table).(tags := old(table).tags[(repo, name) := digest])
    {
      EntryPut(tags, table.tags, repo, name, digest);
      tags := WithEntry(tags, repo, name, digest);
      table := table.(tags := table.tags[(repo, name) := digest]);
    }

    method DropEntry(repo: string, name: string)
      requires Valid()
      modifies this`tags, this`table
      ensures Valid() && table == old(table).(tags := old(table).tags - {(repo, name)})
    {
      EntryDrop(tags, table.tags, repo, name);
      tags := WithoutEntry(tags, repo, name);
      table := table.(tags := table.tags - {(repo, name)});
    }

    /** refs[repo][digest]++ */
    method Hold(repo: string, digest: string)
      requires Valid()
      modifies this`refs, this`table
      ensures Valid() && table == old(table).(refs := Held(old(table).refs, (repo, digest)))
    {
      assert Find(refs, repo, digest) == Lookup(table.refs, repo, digest);
      var count := Get0(At(refs, repo), digest) + 1;
      EntryPut(refs, table.refs, repo, digest, count);
      refs := WithEntry(refs, repo, digest, count);
      table := table.(refs := Held(table.refs, (repo, digest)));
    }

    /** refs[repo][digest]--, and the entry goes once it is not positive. */
    method Release(repo: string, digest: string)
      requires Valid()
      modifies this`refs, this`table
      ensures Valid() && table == old(table).(refs := Released(old(table).refs, (repo, digest)))
    {
      assert Find(refs, repo, digest) == Lookup(table.refs, repo, digest);
      var count := Get0(At(refs, repo), digest) - 1;
      if count <= 0 {
        EntryDrop(refs, table.refs, repo, digest);
        refs := WithoutEntry(refs, repo, digest);
      } else {
        EntryPut(refs, table.refs, repo, digest, count);
        refs := WithEntry(refs, repo, digest, count);
      }
      table := table.(refs := Released(table.refs, (repo, digest)));
    }

    method Bump(repo: string)
      requires Valid()
      modifies this`revision, this`table
      ensures Valid() && table == old(table).(revision := old(table).Bumped(repo))
    {
      revision := revision[repo := Get0(revision, repo) + 1];
      table := table.(revision := table.Bumped(repo));
    }

    // The store's operations -------------------------------------------------------

    method Set(repo: string, name: string, digest: string) returns (r: Result<()>)
      requires Valid()
      modifies this
      ensures Valid() && (table, r) == old(table).Set(repo, name, digest)
    {
      if name == "" || digest == "" {
        return Err(InvalidArgument);
      }
      var entry := Find(tags, repo, name);
      assert entry == Lookup(table.tags, repo, name);
      var prior := if entry.Some? then entry.value else "";
      if prior != "" && prior != digest {
        Release(repo, prior);
      }
      SetEntry(repo, name, digest);
      if prior != digest {
        Hold(repo, digest);
      }
      Bump(repo);
      return Ok(());
    }

    method Get(repo: string, name: string) returns (r: Result<string>)
      requires Valid()
      ensures r == table.Get(repo, name)
    {
      var entry := Find(tags, repo, name);
      assert entry == Lookup(table.tags, repo, name);
      r := if entry.Some? then Ok(entry.value) else Err(NotFound);
    }

    method Delete(repo: string, name: string) returns (r: Result<()>)
      requires Valid()
      modifies this
      ensures Valid() && (table, r) == old(table).Delete(repo, name)
    {
      var entry := Find(tags, repo, name);
      assert entry == Lookup(table.tags, repo, name);
      if entry.None? {
        return Err(NotFound);
      }
      DropEntry(repo, name);
      Release(repo, entry.value);
      Bump(repo);
      return Ok(());
    }

    /** A copy of the repository's tags. */
    method List(repo: string) returns (out: map<string, string>)
      requires Valid()
      ensures Slices(table.tags, repo, out)
    {
      out := Copied(At(tags, repo));
      InnerSlices(tags, table.tags, repo);
    }

    /** A copy of the repository's ledger. */
    method Refs(repo: string) returns (out: map<string, int>)
      requires Valid()
      ensures Slices(table.refs, repo, out)
    {
      out := Copied(At(refs, repo));
      InnerSlices(refs, table.refs, repo);
    }

    method Revision(repo: string) returns (n: int)
      requires Valid()
      ensures n == table.Revision(repo)
    {
      n := Get0(revision, repo);
    }
  }
}
