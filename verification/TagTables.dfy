/** Tags and the reference ledger: the ledger counts the tag names of each
    digest exactly, whatever sequence of updates led there. */
module TagTables {
  import opened Model
  import opened NestedMaps
  import opened Sets

  function Held(refs: map<Key, int>, k: Key): map<Key, int> {
    refs[k := Get0(refs, k) + 1]
  }

  /** One reference less; the entry goes when none is left. */
  function Released(refs: map<Key, int>, k: Key): map<Key, int> {
    if Get0(refs, k) - 1 <= 0 then refs - {k} else refs[k := refs[k] - 1]
  }

  /** `tags` maps a repository and tag name to a digest, `refs` a repository
      and digest to the number of tag names pointing at it. */
  datatype TagTable = TagTable(tags: map<Key, string>, refs: map<Key, int>, revision: map<string, int>)
  {
    function Get(repo: string, name: string): Result<string> {
      if (repo, name) in tags then Ok(tags[(repo, name)]) else Err(NotFound)
    }

    function Revision(repo: string): int {
      Get0(revision, repo)
    }

    /** Set refuses an empty digest. */
    predicate NoEmptyTags() {
      forall k <- tags :: tags[k] != ""
    }

    function Bumped(repo: string): map<string, int> {
      revision[repo := Get0(revision, repo) + 1]
    }

    function Set(repo: string, name: string, digest: string): (TagTable, Result<()>) {
      if name == "" || digest == "" then (this, Err(InvalidArgument))
      else
        var prior := if (repo, name) in tags then tags[(repo, name)] else "";
        var released := if prior != "" && prior != digest then Released(refs, (repo, prior)) else refs;
        var held := if prior == digest then released else Held(released, (repo, digest));
        (TagTable(tags[(repo, name) := digest], held, Bumped(repo)), Ok(()))
    }

    function Delete(repo: string, name: string): (TagTable, Result<()>) {
      if (repo, name) !in tags then (this, Err(NotFound))
      else
        (TagTable(tags - {(repo, name)}, Released(refs, (repo, tags[(repo, name)])), Bumped(repo)), Ok(()))
    }
  }

  /** The tags of a repository that point at a digest. */
  function Pointing(tags: map<Key, string>, repo: string, digest: string): set<Key> {
    set k <- tags | k.0 == repo && tags[k] == digest
  }

  function TagCount(tags: map<Key, string>, repo: string, digest: string): nat {
    |Pointing(tags, repo, digest)|
  }

  /** The ledger holds exactly the positive counts, and no tag is empty. */
  ghost predicate LedgerExact(t: TagTable) {
    && (forall r, d {:trigger TagCount(t.tags, r, d)} :: Get0(t.refs, (r, d)) == TagCount(t.tags, r, d))
    && (forall k <- t.refs :: t.refs[k] > 0)
    && t.NoEmptyTags()
  }

  lemma CountAfterSet(tags: map<Key, string>, repo: string, name: string, digest: string, r: string, d: string)
    ensures var prior := if (repo, name) in tags then tags[(repo, name)] else "";
            TagCount(tags[(repo, name) := digest], r, d) ==
            TagCount(tags, r, d)
            + (if (r, d) == (repo, digest) && !((repo, name) in tags && prior == digest) then 1 else 0)
            - (if r == repo && (repo, name) in tags && d == prior && prior != digest then 1 else 0)
  {
    var k := (repo, name);
    var before := Pointing(tags, r, d);
    var after := Pointing(tags[k := digest], r, d);
    if (r, d) == (repo, digest) {
      assert after == before + {k};
    } else {
      assert after == before - {k};
    }
  }

  lemma CountAfterDelete(tags: map<Key, string>, repo: string, name: string, r: string, d: string)
    requires (repo, name) in tags
    ensures TagCount(tags - {(repo, name)}, r, d) ==
            TagCount(tags, r, d) - if r == repo && d == tags[(repo, name)] then 1 else 0
  {
    assert Pointing(tags - {(repo, name)}, r, d) == Pointing(tags, r, d) - {(repo, name)};
  }

  lemma SetKeepsLedger(t: TagTable, repo: string, name: string, digest: string)
    requires LedgerExact(t)
    ensures LedgerExact(t.Set(repo, name, digest).0)
  {
    if name != "" && digest != "" {
      var t' := t.Set(repo, name, digest).0;
      forall r, d ensures Get0(t'.refs, (r, d)) == TagCount(t'.tags, r, d) {
        CountAfterSet(t.tags, repo, name, digest, r, d);
        assert Get0(t.refs, (r, d)) == TagCount(t.tags, r, d);
      }
    }
  }

  lemma DeleteKeepsLedger(t: TagTable, repo: string, name: string)
    requires LedgerExact(t)
    ensures LedgerExact(t.Delete(repo, name).0)
  {
    if (repo, name) in t.tags {
      var t' := t.Delete(repo, name).0;
      forall r, d ensures Get0(t'.refs, (r, d)) == TagCount(t'.tags, r, d) {
        CountAfterDelete(t.tags, repo, name, r, d);
        assert Get0(t.refs, (r, d)) == TagCount(t.tags, r, d);
      }
    }
  }

  // Whole runs ----------------------------------------------------------------

  datatype TagOp = SetTag(repo: string, name: string, digest: string) | DeleteTag(repo: string, name: string)

  function Apply(t: TagTable, op: TagOp): (TagTable, Result<()>) {
    match op
    case SetTag(repo, name, digest) => t.Set(repo, name, digest)
    case DeleteTag(repo, name) => t.Delete(repo, name)
  }

  function AfterUpdates(t: TagTable, ops: seq<TagOp>): TagTable
    decreases |ops|
  {
    if ops == [] then t else AfterUpdates(Apply(t, ops[0]).0, ops[1..])
  }

  /** Updates of a repository that succeed along a run. */
  function Successes(t: TagTable, ops: seq<TagOp>, repo: string): nat
    decreases |ops|
  {
    if ops == [] then 0
    else
      (if ops[0].repo == repo && Apply(t, ops[0]).1.Ok? then 1 else 0) + Successes(Apply(t, ops[0]).0, ops[1..], repo)
  }

  /** Over any sequence of updates the ledger stays exact and the revision
      counts the updates that succeeded. */
  lemma {:induction false} LedgerOverRuns(t: TagTable, ops: seq<TagOp>, repo: string)
    requires LedgerExact(t)
    ensures LedgerExact(AfterUpdates(t, ops))
    ensures AfterUpdates(t, ops).Revision(repo) == t.Revision(repo) + Successes(t, ops, repo)
    decreases |ops|
  {
    if ops == [] {
    } else {
      match ops[0] {
        case SetTag(r, name, digest) => SetKeepsLedger(t, r, name, digest);
        case DeleteTag(r, name) => DeleteKeepsLedger(t, r, name);
      }
      LedgerOverRuns(Apply(t, ops[0]).0, ops[1..], repo);
    }
  }

  // The total -------------------------------------------------------------------

  ghost function Total(refs: map<Key, int>, ks: set<Key>): int
    requires ks <= refs.Keys
  {
    if ks == {} then 0
    else
      var k := Pick(ks);
      refs[k] + Total(refs, ks - {k})
  }

  function Targeting(tags: map<Key, string>, ks: set<Key>): set<Key> {
    set k <- tags | (k.0, tags[k]) in ks
  }

  lemma {:induction false} TotalCountsTags(t: TagTable, ks: set<Key>)
    requires LedgerExact(t) && ks <= t.refs.Keys
    ensures Total(t.refs, ks) == |Targeting(t.tags, ks)|
  {
    if ks == {} {
      assert Targeting(t.tags, ks) == {};
    } else {
      var k := Pick(ks);
      TotalCountsTags(t, ks - {k});
      assert Targeting(t.tags, ks) == Targeting(t.tags, ks - {k}) + Pointing(t.tags, k.0, k.1);
      assert t.refs[k] == TagCount(t.tags, k.0, k.1);
    }
  }

  /** The ledger of a repository adds up to the number of its tags. */
  lemma LedgerTotal(t: TagTable, repo: string)
    requires LedgerExact(t)
    ensures Total(t.refs, set k <- t.refs | k.0 == repo) == |set k <- t.tags | k.0 == repo|
  {
    var ks := set k <- t.refs | k.0 == repo;
    TotalCountsTags(t, ks);
    forall k <- t.tags | k.0 == repo ensures (k.0, t.tags[k]) in ks {
      assert k in Pointing(t.tags, k.0, t.tags[k]);
      assert Get0(t.refs, (k.0, t.tags[k])) == TagCount(t.tags, k.0, t.tags[k]) > 0;
    }
    assert Targeting(t.tags, ks) == set k <- t.tags | k.0 == repo;
  }

  // What is read back ---------------------------------------------------------------------------

  /** When an update is refused; a refused one changes nothing, and any other changes
      one name, or takes it away. */
  lemma UpdateAnswers(t: TagTable, repo: string, name: string, digest: string)
    ensures var (t', r) := t.Set(repo, name, digest);
            if name == "" || digest == "" then t' == t && r == Err(InvalidArgument)
            else r == Ok(()) && t'.tags == t.tags[(repo, name) := digest]
    ensures var (t', r) := t.Delete(repo, name);
            if (repo, name) !in t.tags then t' == t && r == Err(NotFound)
            else r == Ok(()) && t'.tags == t.tags - {(repo, name)}
  {
  }

  /** What the last update of a name that was not refused made of it. */
  function Latest(ops: seq<TagOp>, repo: string, name: string, first: Option<string>): Option<string> {
    if ops == [] then first
    else
      match ops[|ops| - 1]
      case SetTag(r, n, digest) =>
        if r == repo && n == name && name != "" && digest != "" then Some(digest)
        else Latest(ops[..|ops| - 1], repo, name, first)
      case DeleteTag(r, n) =>
        if r == repo && n == name then None else Latest(ops[..|ops| - 1], repo, name, first)
  }

  lemma {:induction false} AfterMoreUpdates(t: TagTable, ops: seq<TagOp>, op: TagOp)
    ensures AfterUpdates(t, ops + [op]) == Apply(AfterUpdates(t, ops), op).0
    decreases |ops|
  {
    if ops == [] {
      assert [op][1..] == [];
    } else {
      AfterMoreUpdates(Apply(t, ops[0]).0, ops[1..], op);
      assert (ops + [op])[1..] == ops[1..] + [op];
    }
  }

  /** After any updates Get answers the digest that the last one of that name set, and
      not found when there was none, or when it took the name away. */
  lemma {:induction false} GetIsLatest(t: TagTable, ops: seq<TagOp>, repo: string, name: string)
    ensures AfterUpdates(t, ops).Get(repo, name) ==
            match Latest(ops, repo, name, if (repo, name) in t.tags then Some(t.tags[(repo, name)]) else None)
            case Some(digest) => Ok(digest)
            case None => Err(NotFound)
    decreases |ops|
  {
    if ops == [] {
    } else {
      var earlier, op := ops[..|ops| - 1], ops[|ops| - 1];
      GetIsLatest(t, earlier, repo, name);
      AfterMoreUpdates(t, earlier, op);
      assert earlier + [op] == ops;
      match op {
        case SetTag(r, n, digest) => UpdateAnswers(AfterUpdates(t, earlier), r, n, digest);
        case DeleteTag(r, n) => UpdateAnswers(AfterUpdates(t, earlier), r, n, "");
      }
    }
  }
}
