/** PushManifest is one step of the state machine. Here its three parts, storing,
    tagging and announcing, are apart, and any run may fall between them. */
module Publishing {
  import opened Model
  import opened Collection
  import opened Safety
  import opened Exactness
  import opened Pipeline
  import opened Systems
  import opened Invariants
  import opened Theorems
  import opened Facades
  import opened Samples

  function Stored(s: System, repo: string, m: Manifest): System {
    s.(world := s.world.(manifests := s.world.manifests[(repo, m.digest) := m]))
  }

  function Tagged(s: System, repo: string, ref: string, digest: string): System {
    s.(world := s.world.(tags := s.world.tags.Set(repo, ref, digest).0))
  }

  function Announced(env: Env, s: System, repo: string, m: Manifest, ref: string): System {
    s.(world := Announce(env, s.world, repo, m, ref).0)
  }

  lemma StoredKeepsInv(env: Env, s: System, repo: string, m: Manifest)
    requires Inv(env, s) && Parsed(env, m)
    requires Admission.Put(s.world.blobs, s.world.sessions, s.world.manifests, repo, m).1.Ok?
    ensures Inv(env, Stored(s, repo, m))
  {
    StoreKeepsIntact(env, s.world, repo, m);
    ContentStep(env, s, Stored(s, repo, m).world);
  }

  lemma TaggedKeepsInvIff(env: Env, s: System, repo: string, ref: string, digest: string)
    requires Inv(env, s)
    ensures var there := ref == "" || digest == "" || (repo, digest) in s.world.manifests;
            && (Inv(env, Tagged(s, repo, ref, digest)) <==> there)
            && (Resolved(Tagged(s, repo, ref, digest).world.Content()) <==> there)
  {
    var w := Tagged(s, repo, ref, digest).world;
    TagKeepsIntactIff(env, s.world.Content(), repo, ref, digest);
    assert w.Content() == s.world.Content().(tags := w.tags);
    if Intact(env, w.Content()) { ContentStep(env, s, w); }
  }

  lemma AnnounceFrame(env: Env, w: World, repo: string, m: Manifest, ref: string)
    ensures var w' := Announce(env, w, repo, m, ref).0;
            w'.repos == w.repos && w'.auth == w.auth && w'.sessions == w.sessions
  {
  }

  lemma AnnouncedKeepsInv(env: Env, s: System, repo: string, m: Manifest, ref: string)
    requires Inv(env, s)
    ensures Inv(env, Announced(env, s, repo, m, ref))
  {
    AnnounceKeepsIntact(env, s.world, repo, m, ref);
    AnnounceFrame(env, s.world, repo, m, ref);
    ContentStep(env, s, Announced(env, s, repo, m, ref).world);
  }

  /** A push with anything in its gaps: an admitted manifest is stored, a run goes
      by, its tag is set, another run goes by, and it is announced. Everything stays
      in order exactly when the manifest is still stored when the tag is set; when
      it is not, the tag dangles. */
  lemma {:induction false} SplitPushIsSafeIff(env: Env, before: seq<Op>, repo: string, m: Manifest, ref: string,
                                              gap: seq<Op>, gap': seq<Op>)
    requires Parsed(env, m)
    requires var w := Execute(env, INITIAL, before).world;
             Admission.Put(w.blobs, w.sessions, w.manifests, repo, m).1.Ok?
    ensures var s := Execute(env, Stored(Execute(env, INITIAL, before), repo, m), gap);
            var tagged := Tagged(s, repo, ref, m.digest);
            var there := ref == "" || (repo, m.digest) in s.world.manifests;
            && (Inv(env, tagged) <==> there)
            && (Resolved(tagged.world.Content()) <==> there)
            && (there ==> Inv(env, Announced(env, Execute(env, tagged, gap'), repo, m, ref)))
  {
    ReachableInv(env, before);
    var stored := Stored(Execute(env, INITIAL, before), repo, m);
    StoredKeepsInv(env, Execute(env, INITIAL, before), repo, m);
    RunKeepsInv(env, stored, gap);
    var s := Execute(env, stored, gap);
    var tagged := Tagged(s, repo, ref, m.digest);
    TaggedKeepsInvIff(env, s, repo, ref, m.digest);
    if Inv(env, tagged) {
      RunKeepsInv(env, tagged, gap');
      AnnouncedKeepsInv(env, Execute(env, tagged, gap'), repo, m, ref);
    }
  }

  /** A sweep spares a stored manifest that a tag points at, of another namespace,
      or that its mark names; and no other. */
  lemma SparedIff(s: System, k: nat, repo: string, digest: string)
    requires k < |s.marks| && (repo, digest) in s.world.manifests
    ensures (repo, digest) in SweepStep(s, k).world.manifests <==>
            s.world.Content().Tagged(repo, digest) || s.marks[k].repo != repo || digest in s.marks[k].manifests
  {
    assert (repo, digest) in Doomed(s.world.Content(), s.marks[k]) <==>
           !s.world.Content().Tagged(repo, digest) && s.marks[k].repo == repo && digest !in s.marks[k].manifests;
  }

  lemma SweepIsAStep(env: Env, s: System, k: nat)
    ensures Execute(env, s, [SweepMark(k)]) == SweepStep(s, k)
  {
    ExecuteOne(env, s, SweepMark(k));
  }

  /** One sweep in the gap is harmless exactly when a tag points at the manifest
      already, the sweep is of another namespace, or its mark names the manifest. */
  lemma {:induction false} SweepBeforeTagIff(env: Env, before: seq<Op>, repo: string, m: Manifest, ref: string, k: nat)
    requires Parsed(env, m) && ref != ""
    requires var s := Execute(env, INITIAL, before);
             k < |s.marks| && Admission.Put(s.world.blobs, s.world.sessions, s.world.manifests, repo, m).1.Ok?
    ensures var s := Execute(env, INITIAL, before);
            var tagged := Tagged(SweepStep(Stored(s, repo, m), k), repo, ref, m.digest);
            var harmless := || s.world.Content().Tagged(repo, m.digest)
                            || s.marks[k].repo != repo
                            || m.digest in s.marks[k].manifests;
            && (Inv(env, tagged) <==> harmless)
            && (Resolved(tagged.world.Content()) <==> harmless)
  {
    var s := Stored(Execute(env, INITIAL, before), repo, m);
    SweepIsAStep(env, s, k);
    SplitPushIsSafeIff(env, before, repo, m, ref, [SweepMark(k)], []);
    SparedIff(s, k, repo, m.digest);
  }

  lemma NothingTagged(c: Content, repo: string, digest: string)
    requires c.tags.tags == map[]
    ensures c.tags.NoEmptyTags() && (repo, digest) !in Run(c, repo).manifests
  {
    TaggedMeans(c, repo, digest);
    RunExactly(c, repo);
  }

  /** The blob of payload 1 is there, so it is admitted. */
  lemma PayloadAdmitted(env: Env)
    requires Suitable(env)
    ensures var w := Execute(env, INITIAL, UPLOADED).world;
            w.tags.tags == map[] && Admission.Put(w.blobs, w.sessions, w.manifests, "r", Payload(env, 1)).1.Ok?
  {
    UploadedRun(env);
    PayloadParses(env, 1);
    var w := Execute(env, INITIAL, UPLOADED).world;
    Admission.AdmitIff(w.blobs, w.sessions, "r", Payload(env, 1).Descriptors());
  }

  /** Such a gap is reached: on a new registry a blob is pushed, a manifest of it is
      stored, its namespace is collected, and only then the tag is set. */
  lemma CollectionInGapDangles(env: Env)
    requires Suitable(env)
    ensures var s := Execute(env, INITIAL, UPLOADED);
            var m := Payload(env, 1);
            && Parse(env, [1]) == Ok(m)
            && Admission.Put(s.world.blobs, s.world.sessions, s.world.manifests, "r", m).1.Ok?
            && var collected := Execute(env, Stored(s, "r", m), [MarkRepo("r"), SweepMark(|s.marks|)]);
               !Resolved(Tagged(collected, "r", "v", m.digest).world.Content())
  {
    var s := Execute(env, INITIAL, UPLOADED);
    var m := Payload(env, 1);
    PayloadParses(env, 1);
    PayloadAdmitted(env);
    RunIsTwoSteps(env, Stored(s, "r", m), "r");
    NothingTagged(Stored(s, "r", m).world.Content(), "r", m.digest);
    SplitPushIsSafeIff(env, UPLOADED, "r", m, "v", [MarkRepo("r"), SweepMark(|s.marks|)], []);
  }
}
