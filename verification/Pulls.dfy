/** What pushing answers, and that what is pulled is what was pushed. */
module Pulls {
  import opened Model
  import opened BlobTables
  import opened Pipeline
  import opened Systems
  import opened Frames
  import opened Theorems

  /** The token is known and has not expired. */
  predicate Current(w: World, token: string) {
    token in w.auth.tokens && w.auth.now <= w.auth.tokens[token].expiresAt
  }

  // Blobs ---------------------------------------------------------------------------------------

  /** PushBlob answers with the record it leaves, and refuses a dead token, a deleted
      or unknown namespace and empty bytes, changing nothing. */
  lemma {:induction false} PushBlobAnswers(env: Env, w: World, token: string, repo: string, bytes: Bytes)
    ensures var (w', r) := PushBlob(env, w, token, repo, bytes);
            if !Current(w, token) then w' == w && r == Err(Unauthorized)
            else if repo !in w.repos.repos || w.repos.repos[repo] then w' == w && r == Err(NotFound)
            else if bytes == [] then w' == w && r == Err(InvalidArgument)
            else
              var k := (repo, env.digestOf(bytes));
              && w' == w.(blobs := w'.blobs)
              && k in w'.blobs.recs && r == Ok(w'.blobs.recs[k]) && r.value.state.BlobCommitted?
              && w'.blobs.recs == w.blobs.recs[k := r.value] && w'.blobs.data == w.blobs.data[k := bytes]
              && r.value.refCount == w.blobs.RefCount(k.0, k.1) + 1
              && r.value.size == if k in w.blobs.recs then w.blobs.recs[k].size else |bytes|
  {
  }

  /** What a pull of a blob answers in a sound store. */
  lemma {:induction false} PullBlobAnswers(env: Env, w: World, token: string, repo: string, digest: string)
    requires Sound(env, w.blobs)
    ensures PullBlob(env, w, token, repo, digest) ==
            if !Current(w, token) then Err(Unauthorized)
            else if (repo, digest) !in w.blobs.recs then Err(NotFound)
            else if !w.blobs.recs[(repo, digest)].state.BlobCommitted? then Err(Unfinished)
            else Ok(w.blobs.data[(repo, digest)])
  {
  }

  /** In every reachable state bytes with the digest asked for are pulled exactly when
      they are committed; nothing is ever found corrupt. */
  lemma {:induction false} PullBlobInRuns(env: Env, ops: seq<Op>, token: string, repo: string, digest: string)
    ensures var w := Execute(env, INITIAL, ops).world;
            var r := PullBlob(env, w, token, repo, digest);
            && (r.Ok? <==> Current(w, token) && w.blobs.Committed(repo, digest))
            && (r.Ok? ==> env.digestOf(r.value) == digest)
            && (!Current(w, token) ==> r == Err(Unauthorized))
            && (Current(w, token) && !r.Ok? ==> r == Err(if (repo, digest) in w.blobs.recs then Unfinished else NotFound))
  {
    ReachableInv(env, ops);
    PullBlobAnswers(env, Execute(env, INITIAL, ops).world, token, repo, digest);
  }

  // Manifests -----------------------------------------------------------------------------------

  /** Every listed artifact is published; nothing takes one back. */
  ghost predicate AllPublished(w: World) {
    forall k <- w.index :: w.index[k].state.ArtifactPublished?
  }

  lemma PushKeepsPublished(env: Env, w: World, token: string, repo: string, raw: Bytes, ref: string)
    requires AllPublished(w)
    ensures AllPublished(PushManifest(env, w, token, repo, raw, ref).0)
  {
  }

  lemma {:induction false} ReachablePublished(env: Env, ops: seq<Op>)
    ensures AllPublished(Execute(env, INITIAL, ops).world)
  {
    if ops == [] {
    } else {
      var s, op := Execute(env, INITIAL, ops[..|ops| - 1]), ops[|ops| - 1];
      ReachablePublished(env, ops[..|ops| - 1]);
      if op.PushManifestOp? {
        PushKeepsPublished(env, s.world, op.token, op.repo, op.raw, op.ref);
      } else if !op.RemoveTag? {
        StepFrame(env, s, op);
      }
    }
  }

  /** All blobs a manifest names are committed. */
  ghost predicate Ready(w: World, repo: string, m: Manifest) {
    forall d <- m.Descriptors() :: (repo, d.digest) in w.blobs.recs && w.blobs.recs[(repo, d.digest)].state.BlobCommitted?
  }

  /** Descriptor i is the first whose blob is not committed. */
  ghost predicate FirstLacking(w: World, repo: string, ds: seq<Descriptor>, i: nat) {
    && i < |ds| && !w.blobs.Committed(repo, ds[i].digest)
    && forall j | 0 <= j < i :: w.blobs.Committed(repo, ds[j].digest)
  }

  /** A session of the namespace that has not committed expects the digest. */
  ghost predicate Expected(w: World, repo: string, digest: string) {
    exists id <- w.sessions.sessions ::
      && w.sessions.sessions[id].repo == repo && w.sessions.sessions[id].digest == digest
      && w.sessions.sessions[id].state != SessionCommitted
  }

  lemma {:induction false} SomeLacking(w: World, repo: string, ds: seq<Descriptor>, i: nat) returns (first: nat)
    requires i < |ds| && !w.blobs.Committed(repo, ds[i].digest)
    ensures FirstLacking(w, repo, ds, first)
  {
    first := i;
    if j :| 0 <= j < i && !w.blobs.Committed(repo, ds[j].digest) {
      first := SomeLacking(w, repo, ds, j);
    }
  }

  /** The admission of a manifest, and the error of one that is not ready. */
  lemma ReadyIff(env: Env, w: World, repo: string, m: Manifest)
    requires Sound(env, w.blobs) && m.WellFormed()
    ensures var r := Admission.Validate(w.blobs, w.sessions, repo, m);
            && (if Ready(w, repo, m) then r == Ok(())
                else exists i: nat :: FirstLacking(w, repo, m.Descriptors(), i)
                       && r == Err(if Expected(w, repo, m.Descriptors()[i].digest) then Unfinished else NotFound))
            && Admission.Put(w.blobs, w.sessions, w.manifests, repo, m) ==
               if m.digest == "" then (w.manifests, Err(InvalidArgument))
               else (if Ready(w, repo, m) then w.manifests[(repo, m.digest) := m] else w.manifests, r)
    ensures Admission.Verify(env, w.blobs, repo, m) == Ok(Ready(w, repo, m))
  {
    var ds := m.Descriptors();
    Admission.AdmitIff(w.blobs, w.sessions, repo, ds);
    Admission.ValidateIffVerify(env, w.blobs, w.sessions, repo, m);
    if !Ready(w, repo, m) {
      var i :| 0 <= i < |ds| && !w.blobs.Committed(repo, ds[i].digest);
      var first := SomeLacking(w, repo, ds, i);
      Admission.AdmitError(w.blobs, w.sessions, repo, ds, first);
      assert FirstLacking(w, repo, ds, first);
    } else {
      assert Admission.Validate(w.blobs, w.sessions, repo, m) == Ok(());
    }
  }

  /** When a push of a manifest goes through: the token is current, the payload
      parses, every blob it names is committed, and the tag has a name. Only a push
      without a tag name leaves something behind, the stored manifest. */
  lemma {:induction false} PushManifestAnswers(env: Env, w: World, token: string, repo: string, raw: Bytes, ref: string)
    requires Sound(env, w.blobs) && AllPublished(w)
    ensures var (w', r) := PushManifest(env, w, token, repo, raw, ref);
            if !Current(w, token) then w' == w && r == Err(Unauthorized)
            else if Parse(env, raw).Err? then w' == w && r == Err(Parse(env, raw).error)
            else
              var m := Parse(env, raw).value;
              if !Ready(w, repo, m) then
                && w' == w
                && exists i: nat :: FirstLacking(w, repo, m.Descriptors(), i)
                     && r == Err(if Expected(w, repo, m.Descriptors()[i].digest) then Unfinished else NotFound)
              else if env.digestOf(raw) == "" then w' == w && r == Err(InvalidArgument)
              else if ref == "" then
                w' == w.(manifests := w.manifests[(repo, env.digestOf(raw)) := m]) && r == Err(InvalidArgument)
              else r == Ok(())
  {
    if Current(w, token) && Parse(env, raw).Ok? {
      ReadyIff(env, w, repo, Parse(env, raw).value);
    }
  }

  /** What a push that goes through leaves: its manifest under its digest, its tag and
      its index entry on it, and no other manifest, tag or artifact changed. */
  lemma {:induction false} PushManifestLeaves(env: Env, w: World, token: string, repo: string, raw: Bytes, ref: string)
    requires PushManifest(env, w, token, repo, raw, ref).1.Ok?
    ensures Parse(env, raw).Ok?
    ensures var w' := PushManifest(env, w, token, repo, raw, ref).0;
            var d := env.digestOf(raw);
            && w'.manifests == w.manifests[(repo, d) := Parse(env, raw).value]
            && w'.tags.tags == w.tags.tags[(repo, ref) := d]
            && w'.index.Keys == w.index.Keys + {(repo, ref)}
            && w'.index[(repo, ref)].digest == d && w'.index[(repo, ref)].state.ArtifactPublished?
            && (forall k <- w.index | k != (repo, ref) :: w'.index[k] == w.index[k])
            && w'.blobs.data == w.blobs.data && w'.blobs.recs.Keys == w.blobs.recs.Keys
  {
  }

  /** What a pull of a manifest answers, from the tag table and the manifests. */
  lemma PullManifestAnswers(w: World, token: string, repo: string, ref: string)
    ensures PullManifest(w, token, repo, ref) ==
            if !Current(w, token) then Err(Unauthorized)
            else if (repo, ref) !in w.tags.tags || (repo, w.tags.tags[(repo, ref)]) !in w.manifests then Err(NotFound)
            else Ok(w.manifests[(repo, w.tags.tags[(repo, ref)])])
  {
  }

  lemma {:induction false} FetchStops(env: Env, w: World, token: string, repo: string, ds: seq<Descriptor>,
                                      out: map<string, Bytes>, i: nat)
    requires i < |ds| && PullBlob(env, w, token, repo, ds[i].digest).Err?
    requires forall j | 0 <= j < i :: PullBlob(env, w, token, repo, ds[j].digest).Ok?
    ensures FetchFrom(env, w, token, repo, ds, out) == Err(PullBlob(env, w, token, repo, ds[i].digest).error)
    decreases |ds|
  {
    if i == 0 {
    } else {
      forall j | 0 <= j < i - 1 ensures PullBlob(env, w, token, repo, ds[1..][j].digest).Ok? {
        assert ds[1..][j] == ds[j + 1];
      }
      var bytes := PullBlob(env, w, token, repo, ds[0].digest).value;
      FetchStops(env, w, token, repo, ds[1..], out[ds[0].digest := bytes], i - 1);
    }
  }

  /** A fetch stops at the first blob of the manifest that cannot be pulled, with its
      error; and it fails as the pull of the manifest does. */
  lemma FetchAnswers(env: Env, w: World, token: string, repo: string, ref: string, i: nat)
    ensures PullManifest(w, token, repo, ref).Err? ==>
              FetchArtifact(env, w, token, repo, ref) == Err(PullManifest(w, token, repo, ref).error)
    ensures PullManifest(w, token, repo, ref).Ok? ==>
              var ds := PullManifest(w, token, repo, ref).value.Descriptors();
              i < |ds| && PullBlob(env, w, token, repo, ds[i].digest).Err?
              && (forall j | 0 <= j < i :: PullBlob(env, w, token, repo, ds[j].digest).Ok?) ==>
                FetchArtifact(env, w, token, repo, ref) == Err(PullBlob(env, w, token, repo, ds[i].digest).error)
  {
    if PullManifest(w, token, repo, ref).Ok? {
      var ds := PullManifest(w, token, repo, ref).value.Descriptors();
      if i < |ds| && PullBlob(env, w, token, repo, ds[i].digest).Err?
         && forall j | 0 <= j < i :: PullBlob(env, w, token, repo, ds[j].digest).Ok?
      {
        FetchStops(env, w, token, repo, ds, map[], i);
      }
    }
  }

  // The round trip of a manifest ------------------------------------------------------------------

  /** The step sets this tag or removes it; a push that is refused does not. */
  ghost predicate Retags(env: Env, s: System, op: Op, repo: string, ref: string) {
    match op
    case PushManifestOp(token, r, raw, name) =>
      r == repo && name == ref && PushManifest(env, s.world, token, r, raw, name).1.Ok?
    case RemoveTag(r, name) => r == repo && name == ref
    case _ => false
  }

  ghost predicate NeverRetags(env: Env, s: System, ops: seq<Op>, repo: string, ref: string) {
    ops == []
    || (&& NeverRetags(env, s, ops[..|ops| - 1], repo, ref)
        && !Retags(env, Execute(env, s, ops[..|ops| - 1]), ops[|ops| - 1], repo, ref))
  }

  /** The tag is as it was. */
  ghost predicate SameTag(w: World, w': World, k: Key) {
    (k in w'.tags.tags <==> k in w.tags.tags) && (k in w.tags.tags ==> w'.tags.tags[k] == w.tags.tags[k])
  }

  lemma PushKeepsTag(env: Env, w: World, token: string, r: string, raw: Bytes, name: string, k: Key)
    requires Sound(env, w.blobs) && AllPublished(w)
    requires k == (r, name) ==> PushManifest(env, w, token, r, raw, name).1.Err?
    ensures SameTag(w, PushManifest(env, w, token, r, raw, name).0, k)
  {
    var (w', result) := PushManifest(env, w, token, r, raw, name);
    if result.Ok? {
      PushManifestLeaves(env, w, token, r, raw, name);
    } else {
      PushManifestAnswers(env, w, token, r, raw, name);
    }
  }

  lemma TagStep(env: Env, s: System, op: Op, repo: string, ref: string)
    requires Sound(env, s.world.blobs) && AllPublished(s.world) && !Retags(env, s, op, repo, ref)
    ensures SameTag(s.world, Step(env, s, op).world, (repo, ref))
  {
    if op.PushManifestOp? {
      PushKeepsTag(env, s.world, op.token, op.repo, op.raw, op.ref, (repo, ref));
    } else if op.RemoveTag? {
    } else {
      StepFrame(env, s, op);
    }
  }

  lemma {:induction false} TagStays(env: Env, before: seq<Op>, ops: seq<Op>, repo: string, ref: string)
    requires NeverRetags(env, Execute(env, INITIAL, before), ops, repo, ref)
    ensures SameTag(Execute(env, INITIAL, before).world, Execute(env, INITIAL, before + ops).world, (repo, ref))
  {
    ExecuteAppend(env, INITIAL, before, ops);
    if ops == [] {
    } else {
      var earlier := ops[..|ops| - 1];
      TagStays(env, before, earlier, repo, ref);
      ExecuteAppend(env, INITIAL, before, earlier);
      ReachableInv(env, before + earlier);
      ReachablePublished(env, before + earlier);
      TagStep(env, Execute(env, INITIAL, before + earlier), ops[|ops| - 1], repo, ref);
    }
  }

  lemma {:induction false} PulledIsParsed(env: Env, ops: seq<Op>, token: string, repo: string, ref: string, raw: Bytes)
    requires CollisionFree(env) && Parse(env, raw).Ok?
    requires var w := Execute(env, INITIAL, ops).world;
             Current(w, token) && (repo, ref) in w.tags.tags && w.tags.tags[(repo, ref)] == env.digestOf(raw)
    ensures PullManifest(Execute(env, INITIAL, ops).world, token, repo, ref) == Parse(env, raw)
  {
    ReachableInv(env, ops);
    var w := Execute(env, INITIAL, ops).world;
    var c := w.Content();
    assert (repo, c.tags.tags[(repo, ref)]) in c.manifests;
    PullManifestAnswers(w, token, repo, ref);
    DigestDeterminesManifest(env, c.manifests[(repo, env.digestOf(raw))], Parse(env, raw).value);
  }

  /** The manifest round trip: after a push that goes through, and after any run that
      neither pushes that tag again nor removes it, collections included, pulling the
      tag gives back the manifest of the payload, whole. */
  lemma {:induction false} PushThenPull(env: Env, before: seq<Op>, pusher: string, repo: string, raw: Bytes, ref: string,
                                        after: seq<Op>, puller: string)
    requires CollisionFree(env)
    requires PushManifest(env, Execute(env, INITIAL, before).world, pusher, repo, raw, ref).1.Ok?
    requires NeverRetags(env, Execute(env, INITIAL, before + [PushManifestOp(pusher, repo, raw, ref)]), after, repo, ref)
    requires Current(Execute(env, INITIAL, before + [PushManifestOp(pusher, repo, raw, ref)] + after).world, puller)
    ensures Parse(env, raw).Ok?
    ensures PullManifest(Execute(env, INITIAL, before + [PushManifestOp(pusher, repo, raw, ref)] + after).world,
                         puller, repo, ref) == Parse(env, raw)
  {
    var pushed := before + [PushManifestOp(pusher, repo, raw, ref)];
    var s := Execute(env, INITIAL, before);
    var m := Parse(env, raw).value;
    PushManifestLeaves(env, s.world, pusher, repo, raw, ref);
    ExecuteThen(env, INITIAL, before, PushManifestOp(pusher, repo, raw, ref));
    WholeStep(env, s, PushManifestOp(pusher, repo, raw, ref));
    TagStays(env, pushed, after, repo, ref);
    var w := Execute(env, INITIAL, pushed + after).world;
    assert w.tags.tags[(repo, ref)] == env.digestOf(raw);
    PulledIsParsed(env, pushed + after, puller, repo, ref, raw);
  }

  /** And every blob of it: a fetch gives one body for each digest the payload names. */
  lemma {:induction false} PushThenFetch(env: Env, before: seq<Op>, pusher: string, repo: string, raw: Bytes, ref: string,
                                         after: seq<Op>, puller: string)
    requires CollisionFree(env)
    requires PushManifest(env, Execute(env, INITIAL, before).world, pusher, repo, raw, ref).1.Ok?
    requires NeverRetags(env, Execute(env, INITIAL, before + [PushManifestOp(pusher, repo, raw, ref)]), after, repo, ref)
    requires Current(Execute(env, INITIAL, before + [PushManifestOp(pusher, repo, raw, ref)] + after).world, puller)
    ensures Parse(env, raw).Ok?
    ensures var w := Execute(env, INITIAL, before + [PushManifestOp(pusher, repo, raw, ref)] + after).world;
            var r := FetchArtifact(env, w, puller, repo, ref);
            && r.Ok? && r.value.Keys == Parse(env, raw).value.Digests()
            && forall d <- r.value :: env.digestOf(r.value[d]) == d
  {
    var ops := before + [PushManifestOp(pusher, repo, raw, ref)] + after;
    PushThenPull(env, before, pusher, repo, raw, ref, after, puller);
    var w := Execute(env, INITIAL, ops).world;
    ReachableInv(env, ops);
    PullManifestAnswers(w, puller, repo, ref);
    TagsCanBeFetched(env, w, puller, repo, ref);
  }

  /** A name that was never pushed, or was removed and not pushed since, is not found;
      and without a current token nothing is pulled at all. */
  lemma {:induction false} NotPushedIsNotFound(env: Env, before: seq<Op>, ops: seq<Op>, token: string, repo: string,
                                               ref: string)
    requires before == [] || before[|before| - 1] == RemoveTag(repo, ref)
    requires NeverRetags(env, Execute(env, INITIAL, before), ops, repo, ref)
    ensures var w := Execute(env, INITIAL, before + ops).world;
            var e := if Current(w, token) then NotFound else Unauthorized;
            PullManifest(w, token, repo, ref) == Err(e) && FetchArtifact(env, w, token, repo, ref) == Err(e)
  {
    if before != [] {
      ExecuteThen(env, INITIAL, before[..|before| - 1], RemoveTag(repo, ref));
      WholeStep(env, Execute(env, INITIAL, before[..|before| - 1]), RemoveTag(repo, ref));
    }
    assert (repo, ref) !in Execute(env, INITIAL, before).world.tags.tags;
    TagStays(env, before, ops, repo, ref);
    PullManifestAnswers(Execute(env, INITIAL, before + ops).world, token, repo, ref);
  }

  /** Without a current token no push and no pull goes through. */
  lemma DeadTokenChangesNothing(env: Env, w: World, token: string, repo: string, bytes: Bytes, ref: string, digest: string)
    requires !Current(w, token)
    ensures PushBlob(env, w, token, repo, bytes) == (w, Err(Unauthorized))
    ensures PushManifest(env, w, token, repo, bytes, ref) == (w, Err(Unauthorized))
    ensures PullManifest(w, token, repo, ref) == Err(Unauthorized)
    ensures PullBlob(env, w, token, repo, digest) == Err(Unauthorized)
    ensures FetchArtifact(env, w, token, repo, ref) == Err(Unauthorized)
  {
  }
}
