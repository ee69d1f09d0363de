/** internal/index/index.go: the index of published artifacts. */
module Index {
  import opened Model
  import opened NestedMaps
  import opened Sets

  /** Adding an artifact: one that is not ready stays out, a new one starts as a
      draft and is published at once. */
  function AddArtifact(artifacts: map<Key, Artifact>, repo: string, name: string, digest: string, ready: bool):
      (map<Key, Artifact>, Result<()>)
  {
    if name == "" || digest == "" then (artifacts, Err(InvalidArgument))
    else if !ready then (artifacts, Err(VerificationPending))
    else
      var k := (repo, name);
      var existing := if k in artifacts then artifacts[k] else Artifact(repo, name, "", ArtifactDraft);
      match existing.state
      case ArtifactDraft => (artifacts[k := existing.(digest := digest, state := ArtifactPublished)], Ok(()))
      case ArtifactPublished => (artifacts[k := existing.(digest := digest)], Ok(()))
      case ArtifactGC => (artifacts[k := existing.(digest := digest)], Err(InvalidState))
  }

  function RemoveArtifact(artifacts: map<Key, Artifact>, repo: string, name: string): (map<Key, Artifact>, Result<()>) {
    if (repo, name) !in artifacts then (artifacts, Err(NotFound))
    else (artifacts - {(repo, name)}, Ok(()))
  }

  /** Add publishes under the name, and refuses what is not ready. */
  lemma AddAnswers(artifacts: map<Key, Artifact>, repo: string, name: string, digest: string, ready: bool)
    ensures var (artifacts', r) := AddArtifact(artifacts, repo, name, digest, ready);
            if name == "" || digest == "" then artifacts' == artifacts && r == Err(InvalidArgument)
            else if !ready then artifacts' == artifacts && r == Err(VerificationPending)
            else if (repo, name) !in artifacts then
              r == Ok(()) && artifacts' == artifacts[(repo, name) := Artifact(repo, name, digest, ArtifactPublished)]
            else
              var a := artifacts[(repo, name)];
              && artifacts' ==
                 artifacts[(repo, name) := a.(digest := digest,
                                              state := if a.state == ArtifactGC then ArtifactGC else ArtifactPublished)]
              && r == if a.state == ArtifactGC then Err(InvalidState) else Ok(())
  {
  }

  lemma RemoveAnswers(artifacts: map<Key, Artifact>, repo: string, name: string)
    ensures var (artifacts', r) := RemoveArtifact(artifacts, repo, name);
            && (repo, name) !in artifacts'
            && (forall k | k != (repo, name) ::
                  (k in artifacts' <==> k in artifacts) && (k in artifacts ==> artifacts'[k] == artifacts[k]))
            && r == if (repo, name) in artifacts then Ok(()) else Err(NotFound)
  {
  }

  /** The names are all those a repository lists, each once, and the artifacts are theirs. */
  ghost predicate Enumerates(table: map<Key, Artifact>, repo: string, names: seq<string>, out: seq<Artifact>) {
    && |out| == |names|
    && (forall i, j | 0 <= i < j < |names| :: names[i] != names[j])
    && (forall n :: n in names <==> (repo, n) in table)
    && (forall i | 0 <= i < |out| :: (repo, names[i]) in table && out[i] == table[(repo, names[i])])
  }

  class IndexStore {
    var artifacts: map<string, map<string, Artifact>>
    ghost var table: map<Key, Artifact>

    ghost predicate Valid()
      reads this
    {
      Nests(artifacts, table)
    }

    constructor ()
      ensures Valid() && table == map[]
    {
      artifacts := map[];
      table := map[];
    }

    method SetEntry(repo: string, name: string, artifact: Artifact)
      requires Valid()
      modifies this
      ensures Valid() && table == old(table)[(repo, name) := artifact]
    {
      EntryPut(artifacts, table, repo, name, artifact);
      artifacts := WithEntry(artifacts, repo, name, artifact);
      table := table[(repo, name) := artifact];
    }

    method Add(repo: string, name: string, digest: string, ready: bool) returns (r: Result<()>)
      requires Valid()
      modifies this
      ensures Valid() && (table, r) == AddArtifact(old(table), repo, name, digest, ready)
    {
      if name == "" || digest == "" {
        return Err(InvalidArgument);
      }
      if !ready {
        return Err(VerificationPending);
      }
      var entry := Find(artifacts, repo, name);
      assert entry == Lookup(table, repo, name);
      var artifact := if entry.Some? then entry.value else Artifact(repo, name, "", ArtifactDraft);
      artifact := artifact.(digest := digest);
      r := Ok(());
      if !artifact.state.ArtifactPublished? {
        if artifact.state.ArtifactDraft? {
          artifact := artifact.(state := ArtifactPublished);
        } else {
          r := Err(InvalidState);
        }
      }
      SetEntry(repo, name, artifact);
    }

    method Remove(repo: string, name: string) returns (r: Result<()>)
      requires Valid()
      modifies this
      ensures Valid() && (table, r) == RemoveArtifact(old(table), repo, name)
    {
      var entry := Find(artifacts, repo, name);
      assert entry == Lookup(table, repo, name);
      if entry.None? {
        return Err(NotFound);
      }
      EntryDrop(artifacts, table, repo, name);
      artifacts := WithoutEntry(artifacts, repo, name);
      table := table - {(repo, name)};
      return Ok(());
    }

    method Contains(repo: string, name: string) returns (r: bool)
      requires Valid()
      ensures r <==> (repo, name) in table
    {
      var entry := Find(artifacts, repo, name);
      assert entry == Lookup(table, repo, name);
      r := entry.Some?;
    }

    /** Every artifact of a repository, each once, in any order. */
    method List(repo: string) returns (out: seq<Artifact>)
      requires Valid()
      ensures exists names :: Enumerates(table, repo, names, out)
    {
      var inner := At(artifacts, repo);
      InnerSlices(artifacts, table, repo);
      out := [];
      ghost var names: seq<string> := [];
      var todo := inner.Keys;
      while todo != {}
        invariant todo <= inner.Keys
        invariant |out| == |names|
        invariant forall i, j | 0 <= i < j < |names| :: names[i] != names[j]
        invariant forall n :: n in names <==> n in inner && n !in todo
        invariant forall i | 0 <= i < |out| :: names[i] in inner && out[i] == inner[names[i]]
      {
        var n := PickAny(todo);
        out := out + [inner[n]];
        names := names + [n];
        todo := todo - {n};
      }
      assert Enumerates(table, repo, names, out);
    }
  }
}
