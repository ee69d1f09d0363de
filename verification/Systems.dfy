/** The registry as a state machine. Each facade operation is one step, except
    that a collection is a Mark step and a later Sweep step, and Complete is three
    steps around its lock gap; other steps may come between, other collections
    included. */
module Systems {
  import opened Model
  import opened Transfers
  import opened Collection
  import opened Pipeline

  datatype Stage = Waiting | Stored | Done

  /** A Complete that has passed its first critical section. */
  datatype Pending = Pending(completion: Completion, stage: Stage)

  /** Mark results and completions stay for good: a step may use any of them. */
  datatype System = System(world: World, marks: seq<Marked>, completions: seq<Pending>)

  const INITIAL: System := System(EMPTY, [], [])

  datatype Op =
    | CreateRepo(name: string)
    | DeleteRepo(name: string)
    | IssueToken(ttl: int, id: string, family: string)
    | RenewToken(token: string, ttl: int, id: string)
    | Tick(ticks: nat)
    | PushBlobOp(token: string, repo: string, bytes: Bytes)
    | PushManifestOp(token: string, repo: string, raw: Bytes, ref: string)
    | CreateSession(token: string, repo: string, name: string, size: int64, chunkSize: int64, digest: string, id: string)
    | UploadOp(token: string, id: string, index: int64, bytes: Bytes)
    | AbortSession(token: string, id: string)
    | BeginComplete(token: string, id: string)
    | StoreComplete(pending: nat)
    | FinishComplete(pending: nat)
    | MarkRepo(repo: string)
    | SweepMark(mark: nat)
    // Not offered by the registry, but by its stores:
    | RemoveTag(repo: string, name: string)
    | AddReference(repo: string, digest: string)
    | DropReference(repo: string, digest: string)

  /** Random identifiers are new: a step that draws a used one is not taken. */
  predicate Fresh(w: World, op: Op) {
    match op
    case IssueToken(_, id, _) => id !in w.auth.tokens
    case RenewToken(_, _, id) => id !in w.auth.tokens
    case CreateSession(_, _, _, _, _, _, id) => id != "" && id !in w.sessions.issued
    case _ => true
  }

  /** Steps that change the world alone. */
  ghost function WorldStep(env: Env, w: World, op: Op): World {
    match op
    case CreateRepo(name) => w.(repos := w.repos.Create(name).0)
    case DeleteRepo(name) => w.(repos := w.repos.Delete(name).0)
    case IssueToken(ttl, id, family) => w.(auth := w.auth.Issue("", ttl, id, family).0)
    case RenewToken(token, ttl, id) => w.(auth := w.auth.Renew(token, ttl, id).0)
    case Tick(ticks) => w.(auth := w.auth.Advance(ticks))
    case PushBlobOp(token, repo, bytes) => PushBlob(env, w, token, repo, bytes).0
    case PushManifestOp(token, repo, raw, ref) => PushManifest(env, w, token, repo, raw, ref).0
    case CreateSession(token, repo, name, size, chunkSize, digest, id) =>
      w.WithTransfer(Create(w.Transfer(), token, repo, name, size, chunkSize, digest, id).0)
    case UploadOp(token, id, index, bytes) => w.WithTransfer(UploadChunk(env, w.Transfer(), token, id, index, bytes).0)
    case AbortSession(token, id) => w.WithTransfer(Abort(w.Transfer(), token, id).0)
    case RemoveTag(repo, name) => w.(tags := w.tags.Delete(repo, name).0)
    case AddReference(repo, digest) => w.(blobs := w.blobs.IncRef(repo, digest).0)
    case DropReference(repo, digest) => w.(blobs := w.blobs.DecRef(repo, digest).0)
    case _ => w
  }

  /** Complete's Put, in its lock gap; an error ends that Complete. */
  function StoreStep(env: Env, s: System, k: nat): System {
    if k >= |s.completions| || !s.completions[k].stage.Waiting? then s
    else
      var p := s.completions[k];
      var (t, r) := Store(env, s.world.Transfer(), p.completion);
      s.(world := s.world.WithTransfer(t), completions := s.completions[k := p.(stage := if r.Ok? then Stored else Done)])
  }

  /** Complete's second critical section. */
  function FinishStep(s: System, k: nat): System {
    if k >= |s.completions| || !s.completions[k].stage.Stored? then s
    else
      var p := s.completions[k];
      s.(world := s.world.WithTransfer(Finish(s.world.Transfer(), p.completion.id).0),
         completions := s.completions[k := p.(stage := Done)])
  }

  /** A sweep with any earlier mark, whose map of blobs it grows. */
  ghost function SweepStep(s: System, k: nat): System {
    if k >= |s.marks| then s
    else
      var mark := s.marks[k];
      var c := s.world.Content();
      s.(world := s.world.WithContent(Sweep(c, mark)), marks := s.marks[k := mark.(blobs := Reach(c, mark))])
  }

  ghost function Step(env: Env, s: System, op: Op): System {
    if !Fresh(s.world, op) then s
    else
      match op
      case BeginComplete(token, id) =>
        (match Begin(env, s.world.Transfer(), token, id)
         case Err(_) => s
         case Ok(c) => s.(completions := s.completions + [Pending(c, Waiting)]))
      case StoreComplete(k) => StoreStep(env, s, k)
      case FinishComplete(k) => FinishStep(s, k)
      case MarkRepo(repo) => s.(marks := s.marks + [Mark(s.world.Content(), repo)])
      case SweepMark(k) => SweepStep(s, k)
      case _ => s.(world := WorldStep(env, s.world, op))
  }

  ghost function Execute(env: Env, s: System, ops: seq<Op>): System {
    if ops == [] then s else Step(env, Execute(env, s, ops[..|ops| - 1]), ops[|ops| - 1])
  }

  lemma ExecuteOne(env: Env, s: System, op: Op)
    ensures Execute(env, s, [op]) == Step(env, s, op)
  {
    assert [op][..0] == [];
  }

  lemma {:induction false} ExecuteAppend(env: Env, s: System, a: seq<Op>, b: seq<Op>)
    ensures Execute(env, s, a + b) == Execute(env, Execute(env, s, a), b)
  {
    if b == [] {
      assert a + b == a;
    } else {
      ExecuteAppend(env, s, a, b[..|b| - 1]);
      assert (a + b)[..|a + b| - 1] == a + b[..|b| - 1];
    }
  }

  /** A run and one step more. */
  lemma ExecuteThen(env: Env, s: System, ops: seq<Op>, op: Op)
    ensures Execute(env, s, ops + [op]) == Step(env, Execute(env, s, ops), op)
  {
    assert (ops + [op])[..|ops|] == ops;
  }

  /** One step of a longer run. */
  lemma ExecutePrefix(env: Env, s: System, ops: seq<Op>, n: nat)
    requires n < |ops|
    ensures Execute(env, s, ops[..n + 1]) == Step(env, Execute(env, s, ops[..n]), ops[n])
    ensures Execute(env, s, ops[..0]) == s && ops[..|ops|] == ops
  {
    assert ops[..n + 1][..n] == ops[..n];
  }
}
