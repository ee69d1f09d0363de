/** Inputs for concrete runs: a namespace with a token, a collision-free digest, two
    payloads that parse, and one uploaded blob. */
module Samples {
  import opened Model
  import opened BlobTables
  import opened Repos
  import opened Auth
  import opened Pipeline
  import opened Systems
  import opened Frames

  const READY: seq<Op> := [IssueToken(1, "t", "f"), CreateRepo("r")]

  /** A token and an empty namespace. */
  function ReadyWorld(): World {
    EMPTY.(
      repos := RepoTable(map["r" := false], map[], {}, []),
      auth := AuthTable(map["t" := Token("", "f", 1)], map[], 0))
  }

  lemma ReadyRun(env: Env)
    ensures Execute(env, INITIAL, READY) == System(ReadyWorld(), [], [])
  {
    ExecutePrefix(env, INITIAL, READY, 0);
    ExecutePrefix(env, INITIAL, READY, 1);
    var w := EMPTY.(auth := AuthTable(map["t" := Token("", "f", 1)], map[], 0));
    assert WorldStep(env, EMPTY, READY[0]) == w;
    assert WorldStep(env, w, READY[1]) == ReadyWorld();
  }

  // Payloads ---------------------------------------------------------------------------------

  /** A manifest whose config and only layer are the same blob. */
  function Naming(digest: string): Manifest {
    var d := Descriptor("layer", digest, 1);
    Manifest(2, "manifest", d, [d], map[], "")
  }

  /** Payload 1 names the blob 10 twice and payload 2 the blob 20 twice. */
  ghost predicate Suitable(env: Env) {
    && CollisionFree(env)
    && (forall bytes :: |env.digestOf(bytes)| >= 16)
    && env.decode([1]) == Some(Naming(env.digestOf([10])))
    && env.decode([2]) == Some(Naming(env.digestOf([20])))
  }

  /** What payload k parses to. */
  function Payload(env: Env, k: byte): Manifest {
    Naming(env.digestOf(if k == 1 then [10] else [20])).(digest := env.digestOf([k]))
  }

  lemma PayloadParses(env: Env, k: byte)
    requires Suitable(env) && (k == 1 || k == 2)
    ensures Parse(env, [k]) == Ok(Payload(env, k))
  {
  }

  lemma AllDiffer(env: Env)
    requires CollisionFree(env)
    ensures env.digestOf([10]) != env.digestOf([20]) && env.digestOf([1]) != env.digestOf([2])
  {
    assert [10 as byte][0] != [20 as byte][0];
    assert [1 as byte][0] != [2 as byte][0];
  }

  // There is such an environment -------------------------------------------------------------

  function Letters(bytes: Bytes): (s: string)
    ensures |s| == |bytes| && forall i | 0 <= i < |s| :: s[i] == (bytes[i] as int) as char
  {
    if bytes == [] then "" else Letters(bytes[..|bytes| - 1]) + [(bytes[|bytes| - 1] as int) as char]
  }

  /** The content itself behind a prefix. */
  function Address(bytes: Bytes): string {
    "sha256:000000000" + Letters(bytes)
  }

  lemma AddressesDiffer(a: Bytes, b: Bytes)
    requires Address(a) == Address(b)
    ensures a == b
  {
    assert Address(a)[16..] == Letters(a) && Address(b)[16..] == Letters(b);
    forall i | 0 <= i < |a| ensures a[i] == b[i] {
      assert Letters(a)[i] == Letters(b)[i];
    }
  }

  function Decode(raw: Bytes): Option<Manifest> {
    if raw == [1] then Some(Naming(Address([10])))
    else if raw == [2] then Some(Naming(Address([20])))
    else None
  }

  const SAMPLE: Env := Env(Address, _ => 0, Decode)

  lemma SampleIsSuitable()
    ensures Suitable(SAMPLE)
  {
    forall a, b | SAMPLE.digestOf(a) == SAMPLE.digestOf(b) ensures a == b {
      AddressesDiffer(a, b);
    }
    assert [2 as byte][0] != [1 as byte][0];
  }

  // One blob uploaded ------------------------------------------------------------------------

  function Record(digest: string, count: nat): Blob {
    Blob(digest, 1, BlobCommitted, count)
  }

  /** Blob 10 under x, with a count. */
  function OneBlob(x: string, count: nat): BlobTable {
    BlobTable(map[("r", x) := Record(x, count)], map[("r", x) := [10]])
  }

  lemma UploadFirst(env: Env, count: nat)
    ensures OneBlob(env.digestOf([10]), count).Put(env, "r", [10]).0 == OneBlob(env.digestOf([10]), count + 1)
    ensures BlobTable(map[], map[]).Put(env, "r", [10]).0 == OneBlob(env.digestOf([10]), 1)
  {
  }

  const UPLOADED: seq<Op> := READY + [PushBlobOp("t", "r", [10])]

  /** A push of a blob by a live token into a live namespace. */
  lemma PushBlobStep(env: Env, s: System, token: string, repo: string, bytes: Bytes)
    requires s.world.auth.Live(token) && s.world.repos.Alive(repo)
    ensures Step(env, s, PushBlobOp(token, repo, bytes)) ==
            s.(world := s.world.(blobs := s.world.blobs.Put(env, repo, bytes).0))
  {
    WholeStep(env, s, PushBlobOp(token, repo, bytes));
  }

  lemma UploadedRun(env: Env)
    ensures Execute(env, INITIAL, UPLOADED) == System(ReadyWorld().(blobs := OneBlob(env.digestOf([10]), 1)), [], [])
  {
    ReadyRun(env);
    UploadFirst(env, 0);
    PushBlobStep(env, System(ReadyWorld(), [], []), "t", "r", [10]);
    ExecuteThen(env, INITIAL, READY, PushBlobOp("t", "r", [10]));
  }
}
