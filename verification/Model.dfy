/** The value types of internal/model, and the functions the registry takes from
    foreign libraries (SHA-256, xxhash, JSON decoding). */
module Model {

  newtype byte = x: int | 0 <= x < 256
  type Bytes = seq<byte>

  /** A repository name paired with a digest or a tag name. */
  type Key = (string, string)

  const TWO_63: int := 0x8000_0000_0000_0000
  const TWO_64: int := 0x1_0000_0000_0000_0000

  type int64 = x: int | -0x8000_0000_0000_0000 <= x < 0x8000_0000_0000_0000

  /** Two's-complement reduction of an exact result to int64. */
  function Wrap64(x: int): (r: int64)
    ensures -TWO_63 <= x < TWO_63 ==> r == x
    ensures TWO_63 <= x < TWO_63 + TWO_64 ==> r == x - TWO_64
  {
    (x + TWO_63) % TWO_64 - TWO_63
  }

  /** Go's integer division by a positive divisor: it truncates toward zero. */
  function TruncDiv(x: int, y: int): (q: int)
    requires y > 0
    ensures x < 0 ==> q <= 0
    ensures x >= 0 ==> q * y <= x < (q + 1) * y
  {
    if x >= 0 then x / y else -((-x) / y)
  }

  datatype Option<+T> = None | Some(value: T)

  datatype Error =
    | NotFound | AlreadyExists | InvalidArgument | InvalidState | Unfinished
    | Conflict | Unauthorized | Corrupt | VerificationPending | Malformed

  datatype Result<+T> = Ok(value: T) | Err(error: Error)

  // Blobs ------------------------------------------------------------------

  datatype BlobState = BlobUploading | BlobVerifying | BlobCommitted

  datatype Blob = Blob(digest: string, size: int, state: BlobState, refCount: nat)

  // Manifests --------------------------------------------------------------

  datatype Descriptor = Descriptor(mediaType: string, digest: string, size: int)
  {
    predicate WellFormed() {
      mediaType != "" && |digest| >= 16 && size >= 0
    }
  }

  function DigestSet(ds: seq<Descriptor>): set<string> {
    set d <- ds :: d.digest
  }

  datatype Manifest = Manifest(
    schemaVersion: int, mediaType: string, config: Descriptor,
    layers: seq<Descriptor>, annotations: map<string, string>, digest: string)
  {
    /** The config descriptor followed by every layer. */
    function Descriptors(): seq<Descriptor> {
      [config] + layers
    }

    predicate WellFormed() {
      && schemaVersion == 2
      && mediaType != ""
      && config.WellFormed()
      && layers != []
      && forall d <- layers :: d.WellFormed()
    }

    /** The digests this manifest refers to. */
    function Digests(): set<string> {
      DigestSet(Descriptors())
    }
  }

  // Upload sessions --------------------------------------------------------

  datatype SessionState = SessionUploading | SessionVerifying | SessionCommitted

  datatype Chunk = Chunk(index: int, offset: int, size: int, digest: string)

  datatype Session = Session(
    repo: string, name: string, digest: string, state: SessionState,
    size: int64, chunkSize: int64, chunks: seq<Chunk>, written: int, token: string)

  // Published artifacts ----------------------------------------------------

  datatype ArtifactState = ArtifactDraft | ArtifactPublished | ArtifactGC

  datatype Artifact = Artifact(repo: string, name: string, digest: string, state: ArtifactState)

  // Foreign functions ------------------------------------------------------

  /** `digestOf` is the content address, `hash64` the shard hash and `decode`
      the JSON decoder. Nothing is assumed of them unless a lemma says so. */
  datatype Env = Env(digestOf: Bytes -> string, hash64: string -> nat, decode: Bytes -> Option<Manifest>)

  ghost predicate CollisionFree(env: Env) {
    forall a, b :: env.digestOf(a) == env.digestOf(b) ==> a == b
  }

  /** Decoding a raw payload, addressing it by its digest and checking its shape. */
  function Parse(env: Env, raw: Bytes): (r: Result<Manifest>)
    ensures r.Ok? ==> r.value.WellFormed() && r.value.digest == env.digestOf(raw)
  {
    match env.decode(raw)
    case None => Err(Malformed)
    case Some(m) =>
      var addressed := m.(digest := env.digestOf(raw));
      if addressed.WellFormed() then Ok(addressed) else Err(InvalidArgument)
  }

  /** What a payload parses to, from its decoded fields alone. */
  lemma ParseAnswers(env: Env, raw: Bytes)
    ensures Parse(env, raw) ==
            match env.decode(raw)
            case None => Err(Malformed)
            case Some(m) =>
              if && m.schemaVersion == 2 && m.mediaType != "" && m.layers != []
                 && (forall d <- [m.config] + m.layers :: d.mediaType != "" && |d.digest| >= 16 && d.size >= 0)
              then Ok(Manifest(2, m.mediaType, m.config, m.layers, m.annotations, env.digestOf(raw)))
              else Err(InvalidArgument)
  {
    match env.decode(raw) {
      case None =>
      case Some(m) =>
        assert forall d <- m.layers :: d in [m.config] + m.layers;
        assert m.config in [m.config] + m.layers;
        assert m.(digest := env.digestOf(raw)).WellFormed() <==>
               && m.schemaVersion == 2 && m.mediaType != "" && m.layers != []
               && forall d <- [m.config] + m.layers :: d.WellFormed();
    }
  }

  /** A manifest names the digests of its config and of its layers, and no other. */
  lemma DigestsAre(m: Manifest)
    ensures m.Digests() == {m.config.digest} + set d <- m.layers :: d.digest
    ensures |m.Descriptors()| == 1 + |m.layers| && m.Descriptors()[0] == m.config && m.Descriptors()[1..] == m.layers
  {
    assert m.config in m.Descriptors();
    assert forall d <- m.layers :: d in m.Descriptors();
  }

  /** Some payload parses to this manifest. */
  ghost predicate Parsed(env: Env, m: Manifest) {
    exists raw :: Parse(env, raw) == Ok(m)
  }

  /** With a collision-free digest, a manifest digest determines the manifest. */
  lemma DigestDeterminesManifest(env: Env, m: Manifest, m': Manifest)
    requires CollisionFree(env)
    requires Parsed(env, m) && Parsed(env, m') && m.digest == m'.digest
    ensures m == m'
  {
  }
}
