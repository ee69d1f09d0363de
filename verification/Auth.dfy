/** internal/auth/store.go: push tokens, their families, and the session each
    token is bound to. Random identifiers are arguments and time is a clock. */
module Auth {
  import opened Model

  datatype Token = Token(session: string, family: string, expiresAt: int)

  datatype AuthTable = AuthTable(tokens: map<string, Token>, sessions: map<string, string>, now: int)
  {
    predicate Live(token: string) {
      token in tokens && now <= tokens[token].expiresAt
    }

    function Issue(session: string, ttl: int, id: string, family: string): (AuthTable, Result<Token>) {
      if ttl <= 0 then (this, Err(InvalidArgument))
      else
        var token := Token(session, family, now + ttl);
        var bound := if session != "" then sessions[session := family] else sessions;
        (AuthTable(tokens[id := token], bound, now), Ok(token))
    }

    /** The successor keeps the family and the session binding. */
    function Renew(token: string, ttl: int, id: string): (AuthTable, Result<Token>) {
      if ttl <= 0 then (this, Err(InvalidArgument))
      else if token !in tokens then (this, Err(NotFound))
      else
        var prior := tokens[token];
        var bound := if prior.session != "" then sessions[prior.session := prior.family] else sessions;
        var successor := Token(prior.session, prior.family, now + ttl);
        (AuthTable(tokens[id := successor], bound, now), Ok(successor))
    }

    function Validate(token: string): Result<Token> {
      if Live(token) then Ok(tokens[token]) else Err(Unauthorized)
    }

    function ValidateForSession(token: string, session: string): Result<()> {
      if !Live(token) then Err(Unauthorized)
      else if tokens[token].session != session then Err(Unauthorized)
      else if session !in sessions || sessions[session] != tokens[token].family then Err(Unauthorized)
      else Ok(())
    }

    function Bind(token: string, session: string): (AuthTable, Result<()>) {
      if token !in tokens then (this, Err(NotFound))
      else
        var t := tokens[token];
        (AuthTable(tokens[token := t.(session := session)], sessions[session := t.family], now), Ok(()))
    }

    function Advance(ticks: nat): AuthTable {
      this.(now := now + ticks)
    }
  }

  /** Every bound token belongs to the family its session is bound to. */
  ghost predicate FamiliesAgree(a: AuthTable) {
    forall t <- a.tokens :: a.tokens[t].session != "" ==>
      a.tokens[t].session in a.sessions && a.sessions[a.tokens[t].session] == a.tokens[t].family
  }

  /** Issuing an unbound token, renewing, and binding to a session no token is
      bound to yet, keep every binding inside its family. */
  lemma BindingsKeepFamilies(a: AuthTable, token: string, session: string, ttl: int, id: string, family: string)
    requires FamiliesAgree(a)
    ensures FamiliesAgree(a.Issue("", ttl, id, family).0)
    ensures FamiliesAgree(a.Renew(token, ttl, id).0)
    ensures session !in a.sessions ==> FamiliesAgree(a.Bind(token, session).0)
  {
  }

  /** A token works for a session exactly when it is unexpired and bound to it:
      where families agree, the family check refuses nothing more. */
  lemma SessionTokenIff(a: AuthTable, token: string, session: string)
    requires FamiliesAgree(a) && session != ""
    ensures a.ValidateForSession(token, session).Ok? <==> a.Live(token) && a.tokens[token].session == session
  {
  }

  /** A renewed token keeps working for the session of the token it renews,
      even one that had expired, and other tokens keep working too. */
  lemma RenewedTokenKeepsSession(a: AuthTable, token: string, session: string, ttl: int, id: string, other: string)
    requires FamiliesAgree(a) && session != "" && id !in a.tokens
    requires token in a.tokens && a.tokens[token].session == session && ttl > 0
    ensures a.Renew(token, ttl, id).0.ValidateForSession(id, session).Ok?
    ensures a.ValidateForSession(other, session).Ok? ==> a.Renew(token, ttl, id).0.ValidateForSession(other, session).Ok?
  {
  }

  /** A token serves one session at a time: binding it to another takes it away
      from the first, while a token renewed before stays with it. */
  lemma RebindingMovesToken(a: AuthTable, token: string, first: string, second: string, renewed: string)
    requires FamiliesAgree(a) && first != "" && second != first && second !in a.sessions
    requires a.ValidateForSession(token, first).Ok? && renewed != token && a.ValidateForSession(renewed, first).Ok?
    ensures var b := a.Bind(token, second).0;
            && b.ValidateForSession(token, second).Ok?
            && b.ValidateForSession(token, first) == Err(Unauthorized)
            && b.ValidateForSession(renewed, first).Ok?
  {
  }

  /** A token is valid exactly when it is known and has not expired. */
  lemma ValidateAnswers(a: AuthTable, token: string)
    ensures a.Validate(token) ==
            if token in a.tokens && a.now <= a.tokens[token].expiresAt then Ok(a.tokens[token]) else Err(Unauthorized)
  {
  }

  /** What issuing, renewing and binding answer, and all they change, at any time. */
  lemma IssueAnswers(a: AuthTable, session: string, ttl: int, id: string, family: string)
    ensures var (a', r) := a.Issue(session, ttl, id, family);
            if ttl <= 0 then a' == a && r == Err(InvalidArgument)
            else
              && r == Ok(Token(session, family, a.now + ttl))
              && a'.tokens == a.tokens[id := r.value] && a'.now == a.now
              && a'.sessions == if session == "" then a.sessions else a.sessions[session := family]
  {
  }

  lemma RenewAnswers(a: AuthTable, token: string, ttl: int, id: string)
    requires FamiliesAgree(a)
    ensures var (a', r) := a.Renew(token, ttl, id);
            if ttl <= 0 then a' == a && r == Err(InvalidArgument)
            else if token !in a.tokens then a' == a && r == Err(NotFound)
            else
              && r == Ok(Token(a.tokens[token].session, a.tokens[token].family, a.now + ttl))
              && a' == a.(tokens := a.tokens[id := r.value])
  {
  }

  lemma BindAnswers(a: AuthTable, token: string, session: string)
    ensures var (a', r) := a.Bind(token, session);
            if token !in a.tokens then a' == a && r == Err(NotFound)
            else
              && r == Ok(()) && a'.now == a.now
              && a'.tokens == a.tokens[token := Token(session, a.tokens[token].family, a.tokens[token].expiresAt)]
              && a'.sessions == a.sessions[session := a.tokens[token].family]
  {
  }

  class AuthStore {
    var tokens: map<string, Token>
    var sessions: map<string, string>
    var clock: int

    function View(): AuthTable
      reads this
    {
      AuthTable(tokens, sessions, clock)
    }

    constructor ()
      ensures View() == AuthTable(map[], map[], 0)
    {
      tokens := map[];
      sessions := map[];
      clock := 0;
    }

    method Issue(session: string, ttl: int, id: string, family: string) returns (r: Result<Token>)
      modifies this
      ensures (View(), r) == old(View()).Issue(session, ttl, id, family)
    {
      if ttl <= 0 {
        return Err(InvalidArgument);
      }
      if session != "" {
        sessions := sessions[session := family];
      }
      var token := Token(session, family, clock + ttl);
      tokens := tokens[id := token];
      return Ok(token);
    }

    method Renew(token: string, ttl: int, id: string) returns (r: Result<Token>)
      modifies this
      ensures (View(), r) == old(View()).Renew(token, ttl, id)
    {
      if ttl <= 0 {
        return Err(InvalidArgument);
      }
      if token !in tokens {
        return Err(NotFound);
      }
      var prior := tokens[token];
      if prior.session != "" {
        sessions := sessions[prior.session := prior.family];
      }
      var successor := Token(prior.session, prior.family, clock + ttl);
      tokens := tokens[id := successor];
      return Ok(successor);
    }

    method Validate(token: string) returns (r: Result<Token>)
      ensures r == View().Validate(token)
    {
      if token !in tokens {
        return Err(Unauthorized);
      }
      if clock > tokens[token].expiresAt {
        return Err(Unauthorized);
      }
      return Ok(tokens[token]);
    }

    method ValidateForSession(token: string, session: string) returns (r: Result<()>)
      ensures r == View().ValidateForSession(token, session)
    {
      if token !in tokens || clock > tokens[token].expiresAt {
        return Err(Unauthorized);
      }
      if tokens[token].session != session {
        return Err(Unauthorized);
      }
      if session !in sessions || sessions[session] != tokens[token].family {
        return Err(Unauthorized);
      }
      return Ok(());
    }

    method Bind(token: string, session: string) returns (r: Result<()>)
      modifies this
      ensures (View(), r) == old(View()).Bind(token, session)
    {
      if token !in tokens {
        return Err(NotFound);
      }
      var t := tokens[token].(session := session);
      sessions := sessions[session := t.family];
      tokens := tokens[token := t];
      return Ok(());
    }
  }
}
