/** A run in which the collector takes away a reference that an upload still holds. */
module TakenReferences {
  import opened Model
  import opened BlobTables
  import opened TagTables
  import opened Index
  import opened Collection
  import opened Pipeline
  import opened Systems
  import opened Frames
  import opened Samples
  import opened Exactness
  import opened Facades

  /** What a push that goes through leaves. */
  function Pushed(w: World, repo: string, m: Manifest, ref: string): World {
    w.(manifests := w.manifests[(repo, m.digest) := m],
       tags := w.tags.Set(repo, ref, m.digest).0,
       index := AddArtifact(w.index, repo, ref, m.digest, true).0,
       blobs := w.blobs.(recs := ReleaseAll(w.blobs.recs, repo, References(m.Descriptors()))))
  }

  lemma AdmittedPush(env: Env, w: World, token: string, repo: string, raw: Bytes, ref: string)
    requires Sound(env, w.blobs) && w.auth.Live(token) && ref != ""
    requires (repo, ref) in w.index ==> w.index[(repo, ref)].state.ArtifactPublished?
    requires Parse(env, raw).Ok? && env.digestOf(raw) != ""
    requires forall d <- Parse(env, raw).value.Descriptors() :: w.blobs.Committed(repo, d.digest)
    ensures PushManifest(env, w, token, repo, raw, ref) == (Pushed(w, repo, Parse(env, raw).value, ref), Ok(()))
  {
    var m := Parse(env, raw).value;
    Admission.AdmitIff(w.blobs, w.sessions, repo, m.Descriptors());
    Admission.ValidateIffVerify(env, w.blobs, w.sessions, repo, m);
  }

  // The run, on tables -------------------------------------------------------------------------

  /** Blob 10 under x and blob 20 under y. */
  function TwoBlobs(x: string, y: string, count: nat, other: nat): BlobTable {
    BlobTable(map[("r", x) := Record(x, count), ("r", y) := Record(y, other)], map[("r", x) := [10], ("r", y) := [20]])
  }

  /** Tag v points at a digest that has been tagged from the start. */
  function FirstTag(d: string): TagTable {
    TagTable(map[("r", "v") := d], map[("r", d) := 1], map["r" := 1])
  }

  function SecondTag(e: string): TagTable {
    TagTable(map[("r", "v") := e], map[("r", e) := 1], map["r" := 2])
  }

  function Listed(d: string): map<Key, Artifact> {
    map[("r", "v") := Artifact("r", "v", d, ArtifactPublished)]
  }

  lemma TagsMove(d: string, e: string)
    requires d != "" && e != "" && d != e
    ensures TagTable(map[], map[], map[]).Set("r", "v", d).0 == FirstTag(d)
    ensures FirstTag(d).Set("r", "v", e).0 == SecondTag(e)
    ensures AddArtifact(map[], "r", "v", d, true).0 == Listed(d)
    ensures AddArtifact(Listed(d), "r", "v", e, true).0 == Listed(e)
  {
  }

  lemma ReleasedOne(x: string, count: nat)
    ensures ReleaseAll(OneBlob(x, count).recs, "r", multiset{x, x}) == OneBlob(x, Minus(count, 2)).recs
  {
  }

  lemma ReleasedOther(x: string, y: string, count: nat)
    requires x != y
    ensures ReleaseAll(TwoBlobs(x, y, count, 1).recs, "r", multiset{y, y}) == TwoBlobs(x, y, count, 0).recs
  {
  }

  // The run, in the registry -------------------------------------------------------------------

  function FirstWorld(env: Env, blobs: BlobTable): World {
    var d := env.digestOf([1]);
    ReadyWorld().(blobs := blobs, manifests := map[("r", d) := Payload(env, 1)], tags := FirstTag(d), index := Listed(d))
  }

  /** Payload 1 has no tag any more, and is still stored. */
  function SecondWorld(env: Env, blobs: BlobTable): World {
    var d, e := env.digestOf([1]), env.digestOf([2]);
    ReadyWorld().(
      blobs := blobs,
      manifests := map[("r", d) := Payload(env, 1), ("r", e) := Payload(env, 2)],
      tags := SecondTag(e),
      index := Listed(e))
  }

  lemma PayloadReferences(env: Env, k: byte)
    ensures var d := env.digestOf(if k == 1 then [10] else [20]);
            && Payload(env, k).Descriptors() == [Descriptor("layer", d, 1), Descriptor("layer", d, 1)]
            && References(Payload(env, k).Descriptors()) == multiset{d, d}
            && Payload(env, k).Digests() == {d}
  {
    var d := env.digestOf(if k == 1 then [10] else [20]);
    var ds := Payload(env, k).Descriptors();
    assert ds == [Descriptor("layer", d, 1), Descriptor("layer", d, 1)];
    assert ds[..1] == [Descriptor("layer", d, 1)] && ds[..1][..0] == [];
    assert References(ds[..1]) == multiset{d};
  }

  lemma UploadSecond(env: Env, count: nat)
    requires Suitable(env)
    ensures OneBlob(env.digestOf([10]), count).Put(env, "r", [20]).0 ==
            TwoBlobs(env.digestOf([10]), env.digestOf([20]), count, 1)
  {
    AllDiffer(env);
  }

  lemma PublishFirst(env: Env, count: nat)
    requires Suitable(env)
    ensures var x := env.digestOf([10]);
            PushManifest(env, ReadyWorld().(blobs := OneBlob(x, count)), "t", "r", [1], "v").0 ==
            FirstWorld(env, OneBlob(x, Minus(count, 2)))
  {
    var x := env.digestOf([10]);
    AllDiffer(env);
    PayloadParses(env, 1);
    PayloadReferences(env, 1);
    AdmittedPush(env, ReadyWorld().(blobs := OneBlob(x, count)), "t", "r", [1], "v");
    TagsMove(env.digestOf([1]), env.digestOf([2]));
    ReleasedOne(x, count);
  }

  lemma SecondPushed(env: Env, blobs: BlobTable, blobs': BlobTable)
    requires Suitable(env)
    requires blobs' == blobs.(recs := ReleaseAll(blobs.recs, "r", References(Payload(env, 2).Descriptors())))
    ensures Pushed(FirstWorld(env, blobs), "r", Payload(env, 2), "v") == SecondWorld(env, blobs')
  {
    AllDiffer(env);
    TagsMove(env.digestOf([1]), env.digestOf([2]));
  }

  lemma PublishSecond(env: Env, count: nat)
    requires Suitable(env)
    ensures var x, y := env.digestOf([10]), env.digestOf([20]);
            PushManifest(env, FirstWorld(env, TwoBlobs(x, y, count, 1)), "t", "r", [2], "v").0 ==
            SecondWorld(env, TwoBlobs(x, y, count, 0))
  {
    var x, y := env.digestOf([10]), env.digestOf([20]);
    AllDiffer(env);
    PayloadParses(env, 2);
    PayloadReferences(env, 2);
    AdmittedPush(env, FirstWorld(env, TwoBlobs(x, y, count, 1)), "t", "r", [2], "v");
    ReleasedOther(x, y, count);
    SecondPushed(env, TwoBlobs(x, y, count, 1), TwoBlobs(x, y, count, 0));
  }

  const PUBLISHED: seq<Op> := UPLOADED + [PushManifestOp("t", "r", [1], "v")]
  const HELD: seq<Op> := PUBLISHED + [PushBlobOp("t", "r", [10])]
  const OTHER: seq<Op> := HELD + [PushBlobOp("t", "r", [20])]
  const MOVED: seq<Op> := OTHER + [PushManifestOp("t", "r", [2], "v")]
  const SWEPT: seq<Op> := MOVED + [MarkRepo("r"), SweepMark(0)]

  lemma PushManifestStep(env: Env, s: System, token: string, repo: string, raw: Bytes, ref: string)
    ensures Step(env, s, PushManifestOp(token, repo, raw, ref)) ==
            s.(world := PushManifest(env, s.world, token, repo, raw, ref).0)
  {
    WholeStep(env, s, PushManifestOp(token, repo, raw, ref));
  }

  lemma PublishedRun(env: Env)
    requires Suitable(env)
    ensures Execute(env, INITIAL, PUBLISHED) == System(FirstWorld(env, OneBlob(env.digestOf([10]), 0)), [], [])
  {
    UploadedRun(env);
    PublishFirst(env, 1);
    ExecuteThen(env, INITIAL, UPLOADED, PushManifestOp("t", "r", [1], "v"));
    PushManifestStep(env, Execute(env, INITIAL, UPLOADED), "t", "r", [1], "v");
  }

  /** A later upload of either blob. */
  lemma LaterUpload(env: Env, blobs: BlobTable, bytes: Bytes)
    ensures Step(env, System(FirstWorld(env, blobs), [], []), PushBlobOp("t", "r", bytes)) ==
            System(FirstWorld(env, blobs.Put(env, "r", bytes).0), [], [])
  {
    PushBlobStep(env, System(FirstWorld(env, blobs), [], []), "t", "r", bytes);
  }

  lemma OtherRun(env: Env)
    requires Suitable(env)
    ensures var x, y := env.digestOf([10]), env.digestOf([20]);
            Execute(env, INITIAL, OTHER) == System(FirstWorld(env, TwoBlobs(x, y, 1, 1)), [], [])
  {
    PublishedRun(env);
    UploadFirst(env, 0);
    LaterUpload(env, OneBlob(env.digestOf([10]), 0), [10]);
    ExecuteThen(env, INITIAL, PUBLISHED, PushBlobOp("t", "r", [10]));
    UploadSecond(env, 1);
    LaterUpload(env, OneBlob(env.digestOf([10]), 1), [20]);
    ExecuteThen(env, INITIAL, HELD, PushBlobOp("t", "r", [20]));
  }

  lemma MovedRun(env: Env)
    requires Suitable(env)
    ensures var x, y := env.digestOf([10]), env.digestOf([20]);
            Execute(env, INITIAL, MOVED) == System(SecondWorld(env, TwoBlobs(x, y, 1, 0)), [], [])
  {
    OtherRun(env);
    PublishSecond(env, 1);
    ExecuteThen(env, INITIAL, OTHER, PushManifestOp("t", "r", [2], "v"));
    PushManifestStep(env, Execute(env, INITIAL, OTHER), "t", "r", [2], "v");
  }

  /** What the registry holds when the collector starts. */
  function MovedContent(env: Env): Content {
    SecondWorld(env, TwoBlobs(env.digestOf([10]), env.digestOf([20]), 1, 0)).Content()
  }

  lemma OnlySecondTagged(env: Env)
    requires Suitable(env)
    ensures Untagged(MovedContent(env), "r") == {("r", env.digestOf([1]))}
    ensures env.digestOf([10]) !in Live(MovedContent(env), "r")
  {
    AllDiffer(env);
    PayloadReferences(env, 1);
    PayloadReferences(env, 2);
    TaggedMeans(MovedContent(env), "r", env.digestOf([1]));
    TaggedMeans(MovedContent(env), "r", env.digestOf([2]));
    assert ("r", "v") in MovedContent(env).tags.tags;
  }

  lemma NothingLeft(env: Env)
    requires Suitable(env)
    ensures ("r", env.digestOf([10])) in MovedContent(env).blobs.recs
    ensures Exactness.Left(MovedContent(env), ("r", env.digestOf([10]))) == 0
  {
    var c := MovedContent(env);
    var k := ("r", env.digestOf([1]));
    AllDiffer(env);
    OnlySecondTagged(env);
    PayloadReferences(env, 1);
    OccurrencesPeel(c.manifests, {k}, k);
    assert {k} - {k} == {};
    assert c.manifests[k] == Payload(env, 1);
    assert c.blobs.recs[("r", env.digestOf([10]))].refCount == 1;
  }

  lemma HeldThere(env: Env)
    requires Suitable(env)
    ensures var blobs := MovedContent(env).blobs;
            blobs.RefCount("r", env.digestOf([10])) == 1 && blobs.Get("r", env.digestOf([10])) == Ok([10])
  {
    AllDiffer(env);
  }

  lemma Collected(env: Env)
    requires Suitable(env)
    ensures Run(MovedContent(env), "r").blobs.Get("r", env.digestOf([10])) == Err(NotFound)
  {
    var c := MovedContent(env);
    OnlySecondTagged(env);
    NothingLeft(env);
    assert c.tags.tags[("r", "v")] != "";
    RunIsCollect(c, "r");
    assert ("r", env.digestOf([10])) !in CollectedRecs(c, {"r"});
  }

  /** The collector takes away a reference that its holder never gave back, bytes and
      all. Two uploaders store the same blob; the first publishes it in a manifest
      that names it twice and then moves the tag. Deleting that manifest releases
      the blob again, twice, and with it the second uploader's reference. */
  lemma CollectorTakesReference(env: Env)
    requires Suitable(env)
    ensures var held := Execute(env, INITIAL, MOVED).world.blobs;
            held.RefCount("r", env.digestOf([10])) == 1 && held.Get("r", env.digestOf([10])) == Ok([10])
    ensures Execute(env, INITIAL, SWEPT).world.blobs.Get("r", env.digestOf([10])) == Err(NotFound)
  {
    MovedRun(env);
    HeldThere(env);
    Collected(env);
    CollectionIsTwoSteps(env, MOVED, "r");
  }

  /** A push takes one too: two uploaders store the blob, and the first one's
      manifest, which names it twice, leaves no reference at all. */
  lemma PushTakesReference(env: Env)
    requires Suitable(env)
    ensures var shared := Execute(env, INITIAL, UPLOADED + [PushBlobOp("t", "r", [10])]);
            && shared.world.blobs.RefCount("r", env.digestOf([10])) == 2
            && Step(env, shared, PushManifestOp("t", "r", [1], "v")).world.blobs.RefCount("r", env.digestOf([10])) == 0
  {
    UploadedRun(env);
    UploadFirst(env, 1);
    PushBlobStep(env, Execute(env, INITIAL, UPLOADED), "t", "r", [10]);
    ExecuteThen(env, INITIAL, UPLOADED, PushBlobOp("t", "r", [10]));
    var shared := System(ReadyWorld().(blobs := OneBlob(env.digestOf([10]), 2)), [], []);
    PublishFirst(env, 2);
    PushManifestStep(env, shared, "t", "r", [1], "v");
  }
}
