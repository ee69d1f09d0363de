/** Which tokens work for a session, in whole runs. */
module TokenRuns {
  import opened Model
  import opened Auth
  import opened Transfers
  import opened Systems
  import opened Frames
  import opened Invariants
  import opened Theorems

  /** In every reachable state a token works for a session exactly when it is
      unexpired and bound to it. */
  lemma {:induction false} TokenWorksIff(env: Env, ops: seq<Op>, token: string, session: string)
    requires session != ""
    ensures var auth := Execute(env, INITIAL, ops).world.auth;
            auth.ValidateForSession(token, session).Ok? <==> auth.Live(token) && auth.tokens[token].session == session
  {
    ReachableInv(env, ops);
    SessionTokenIff(Execute(env, INITIAL, ops).world.auth, token, session);
  }

  /** The step opens a session with the token, which binds the token to it. */
  ghost predicate Rebinds(s: System, op: Op, token: string) {
    && op.CreateSession? && op.token == token && Fresh(s.world, op)
    && Create(s.world.Transfer(), token, op.repo, op.name, op.size, op.chunkSize, op.digest, op.id).1.Ok?
  }

  ghost predicate NeverRebinds(env: Env, s: System, ops: seq<Op>, token: string) {
    ops == []
    || (&& NeverRebinds(env, s, ops[..|ops| - 1], token)
        && !Rebinds(Execute(env, s, ops[..|ops| - 1]), ops[|ops| - 1], token))
  }

  lemma CreateTokens(t: Transfer, creator: string, repo: string, name: string, size: int64, chunkSize: int64,
                     digest: string, id: string, token: string)
    requires token in t.auth.tokens
    ensures var (t', r) := Create(t, creator, repo, name, size, chunkSize, digest, id);
            && token in t'.auth.tokens
            && t'.auth.tokens[token] ==
               if creator == token && r.Ok? then t.auth.tokens[token].(session := id) else t.auth.tokens[token]
  {
  }

  /** A token stays what it is, but for the session it is bound to. */
  lemma TokenStep(env: Env, s: System, op: Op, token: string)
    requires token in s.world.auth.tokens
    ensures token in Step(env, s, op).world.auth.tokens
    ensures Step(env, s, op).world.auth.tokens[token] ==
            if Rebinds(s, op, token) then s.world.auth.tokens[token].(session := op.id) else s.world.auth.tokens[token]
  {
    if op.CreateSession? {
      CreateTokens(s.world.Transfer(), op.token, op.repo, op.name, op.size, op.chunkSize, op.digest, op.id, token);
    } else if !op.IssueToken? && !op.RenewToken? {
      StepFrame(env, s, op);
    }
  }

  lemma StepKeepsIssued(env: Env, s: System, op: Op)
    ensures s.world.sessions.issued <= Step(env, s, op).world.sessions.issued
  {
    SessionsStep(env, s, op);
    var t := s.world.Transfer();
    match op {
      case CreateSession(token, repo, name, size, chunkSize, digest, id) =>
        CreateSessions(t, token, repo, name, size, chunkSize, digest, id);
      case UploadOp(token, id, index, bytes) => UploadFrame(env, t, token, id, index, bytes);
      case _ =>
    }
  }

  /** Once bound away, a token never comes back: session identifiers are new. */
  lemma {:induction false} BoundIff(env: Env, s: System, ops: seq<Op>, token: string, session: string)
    requires session in s.world.sessions.issued
    requires token in s.world.auth.tokens && s.world.auth.tokens[token].session == session
    ensures var w := Execute(env, s, ops).world;
            && session in w.sessions.issued && token in w.auth.tokens
            && w.auth.tokens[token].expiresAt == s.world.auth.tokens[token].expiresAt
            && (w.auth.tokens[token].session == session <==> NeverRebinds(env, s, ops, token))
  {
    if ops == [] {
    } else {
      var earlier := ops[..|ops| - 1];
      BoundIff(env, s, earlier, token, session);
      TokenStep(env, Execute(env, s, earlier), ops[|ops| - 1], token);
      StepKeepsIssued(env, Execute(env, s, earlier), ops[|ops| - 1]);
    }
  }

  /** A token bound to a session works for it after any run exactly while it has not
      expired and has opened no other session. */
  lemma {:induction false} TokenServesIff(env: Env, s: System, ops: seq<Op>, token: string, session: string)
    requires Inv(env, s) && session != ""
    requires token in s.world.auth.tokens && s.world.auth.tokens[token].session == session
    ensures var auth := Execute(env, s, ops).world.auth;
            auth.ValidateForSession(token, session).Ok? <==>
            auth.now <= s.world.auth.tokens[token].expiresAt && NeverRebinds(env, s, ops, token)
  {
    assert session in s.world.auth.sessions;
    BoundIff(env, s, ops, token, session);
    RunKeepsInv(env, s, ops);
    SessionTokenIff(Execute(env, s, ops).world.auth, token, session);
  }

  /** So does its successor, renewed at any time, even after the token expired, and
      whatever the token itself opens later. */
  lemma {:induction false} RenewedTokenServesIff(env: Env, s: System, token: string, ttl: int, id: string, ops: seq<Op>,
                                                 session: string)
    requires Inv(env, s) && session != "" && ttl > 0 && id !in s.world.auth.tokens
    requires token in s.world.auth.tokens && s.world.auth.tokens[token].session == session
    ensures var renewed := Step(env, s, RenewToken(token, ttl, id));
            var auth := Execute(env, renewed, ops).world.auth;
            auth.ValidateForSession(id, session).Ok? <==>
            auth.now <= s.world.auth.now + ttl && NeverRebinds(env, renewed, ops, id)
  {
    StepKeepsInv(env, s, RenewToken(token, ttl, id));
    TokenServesIff(env, Step(env, s, RenewToken(token, ttl, id)), ops, id, session);
  }

  // How long a token lives --------------------------------------------------------------------

  /** The time that goes by along a run. */
  function Elapsed(ops: seq<Op>): nat {
    if ops == [] then 0
    else Elapsed(ops[..|ops| - 1]) + if ops[|ops| - 1].Tick? then ops[|ops| - 1].ticks else 0
  }

  lemma ClockStep(env: Env, s: System, op: Op)
    ensures Step(env, s, op).world.auth.now == s.world.auth.now + if op.Tick? then op.ticks else 0
  {
    if Phase(op) {
      PhaseFrame(env, s, op);
    } else {
      WholeStep(env, s, op);
      var w, t := s.world, s.world.Transfer();
      match op {
        case PushBlobOp(token, repo, bytes) => PushBlobFrame(env, w, token, repo, bytes);
        case PushManifestOp(token, repo, raw, ref) => PushManifestFrame(env, w, token, repo, raw, ref);
        case UploadOp(token, id, index, bytes) => UploadFrame(env, t, token, id, index, bytes);
        case AbortSession(token, id) => AbortFrame(t, token, id);
        case _ =>
      }
    }
  }

  lemma {:induction false} ClockIs(env: Env, s: System, ops: seq<Op>)
    ensures Execute(env, s, ops).world.auth.now == s.world.auth.now + Elapsed(ops)
  {
    if ops == [] {
    } else {
      ClockIs(env, s, ops[..|ops| - 1]);
      ClockStep(env, Execute(env, s, ops[..|ops| - 1]), ops[|ops| - 1]);
    }
  }

  lemma {:induction false} ExpiryStays(env: Env, s: System, ops: seq<Op>, token: string)
    requires token in s.world.auth.tokens
    ensures var auth := Execute(env, s, ops).world.auth;
            token in auth.tokens && auth.tokens[token].expiresAt == s.world.auth.tokens[token].expiresAt
  {
    if ops == [] {
    } else {
      ExpiryStays(env, s, ops[..|ops| - 1], token);
      TokenStep(env, Execute(env, s, ops[..|ops| - 1]), ops[|ops| - 1], token);
    }
  }

  /** A token is valid through any run for exactly the time it was issued for, and
      never again after. */
  lemma {:induction false} TokenLives(env: Env, s: System, ttl: int, id: string, family: string, ops: seq<Op>)
    requires ttl > 0 && id !in s.world.auth.tokens
    ensures var auth := Execute(env, Step(env, s, IssueToken(ttl, id, family)), ops).world.auth;
            if Elapsed(ops) <= ttl then auth.Validate(id).Ok? else auth.Validate(id) == Err(Unauthorized)
  {
    var issued := Step(env, s, IssueToken(ttl, id, family));
    WholeStep(env, s, IssueToken(ttl, id, family));
    IssueAnswers(s.world.auth, "", ttl, id, family);
    ClockIs(env, issued, ops);
    ExpiryStays(env, issued, ops, id);
    ValidateAnswers(Execute(env, issued, ops).world.auth, id);
  }

  /** So is a renewed one, counted from its renewal, and the token it renews keeps its
      own time. */
  lemma {:induction false} RenewedTokenLives(env: Env, s: System, token: string, ttl: int, id: string, ops: seq<Op>)
    requires Inv(env, s) && ttl > 0 && id !in s.world.auth.tokens && token in s.world.auth.tokens
    ensures var auth := Execute(env, Step(env, s, RenewToken(token, ttl, id)), ops).world.auth;
            && (if Elapsed(ops) <= ttl then auth.Validate(id).Ok? else auth.Validate(id) == Err(Unauthorized))
            && (auth.Validate(token).Ok? <==> s.world.auth.now + Elapsed(ops) <= s.world.auth.tokens[token].expiresAt)
  {
    var renewed := Step(env, s, RenewToken(token, ttl, id));
    WholeStep(env, s, RenewToken(token, ttl, id));
    RenewAnswers(s.world.auth, token, ttl, id);
    ClockIs(env, renewed, ops);
    ExpiryStays(env, renewed, ops, id);
    ExpiryStays(env, renewed, ops, token);
    ValidateAnswers(Execute(env, renewed, ops).world.auth, id);
    ValidateAnswers(Execute(env, renewed, ops).world.auth, token);
  }
}
