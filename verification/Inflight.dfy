/** In-flight accounting: each open session holds exactly one release that has
    not fired, and a namespace counts exactly its open sessions. */
module Inflight {
  import opened Model
  import opened Uploads
  import opened Repos
  import opened Transfers

  /** The sessions of a namespace that are still uploading. */
  function Open(st: SessionTable, repo: string): set<string> {
    set id <- st.sessions | st.sessions[id].repo == repo && st.sessions[id].state.SessionUploading?
  }

  /** Exactly the uploading sessions have a release. */
  ghost predicate ReleasesMatch(st: SessionTable) {
    && (forall id :: id in st.releases <==> id in st.sessions && st.sessions[id].state.SessionUploading?)
    && (forall id <- st.sessions :: id in st.issued)
  }

  /** Releases are distinct tickets of the session's namespace, unfired; and every
      unfired ticket is some session's release. */
  ghost predicate TicketsMatch(rt: RepoTable, st: SessionTable) {
    && (forall id <- st.releases :: st.releases[id] < |rt.tickets| && id in st.sessions
          && rt.tickets[st.releases[id]] == Ticket(st.sessions[id].repo, false))
    && (forall id <- st.releases, id' <- st.releases :: st.releases[id] == st.releases[id'] ==> id == id')
    && (forall k | 0 <= k < |rt.tickets| && !rt.tickets[k].fired :: k in st.releases.Values)
  }

  ghost predicate CountsMatch(rt: RepoTable, st: SessionTable) {
    forall repo {:trigger Open(st, repo)} :: rt.Count(repo) == |Open(st, repo)|
  }

  /** Deleted namespaces with open sessions are orphans, and orphans are deleted;
      open sessions are in namespaces that exist. */
  ghost predicate OrphansMatch(rt: RepoTable, st: SessionTable) {
    && (forall name <- rt.orphans :: rt.Deleted(name))
    && forall id <- st.sessions | st.sessions[id].state.SessionUploading? ::
      st.sessions[id].repo in rt.repos && (rt.repos[st.sessions[id].repo] ==> st.sessions[id].repo in rt.orphans)
  }

  ghost predicate Accounted(rt: RepoTable, st: SessionTable) {
    ReleasesMatch(st) && TicketsMatch(rt, st) && CountsMatch(rt, st) && OrphansMatch(rt, st)
  }

  // Leaving -----------------------------------------------------------------------------

  /** Firing the release of a session still uploading takes one off its
      namespace's count: the guard against going below zero is never needed. */
  lemma FiringCounts(t: Transfer, id: string)
    requires Accounted(t.repos, t.sessions) && id in t.sessions.releases
    ensures var repo := t.sessions.sessions[id].repo;
            var rt := Fired(t, id);
            && t.repos.Count(repo) > 0
            && (forall r :: rt.Count(r) == t.repos.Count(r) - if r == repo then 1 else 0)
            && rt.tickets == t.repos.tickets[t.sessions.releases[id] := Ticket(repo, true)]
            && rt.repos == t.repos.repos && rt.orphans == t.repos.orphans
  {
    var repo := t.sessions.sessions[id].repo;
    assert id in Open(t.sessions, repo);
  }

  /** The session table once a session stops uploading, dropped or committed. */
  ghost predicate Left(st: SessionTable, id: string, st': SessionTable) {
    && id in st.sessions
    && st'.releases == st.releases - {id}
    && st'.issued == st.issued
    && (forall x | x != id ::
          (x in st'.sessions <==> x in st.sessions) && (x in st.sessions ==> st'.sessions[x] == st.sessions[x]))
    && (id in st'.sessions ==> st'.sessions[id].state.SessionCommitted?)
  }

  lemma LeavingTickets(t: Transfer, id: string, st': SessionTable)
    requires Accounted(t.repos, t.sessions) && Left(t.sessions, id, st')
    ensures TicketsMatch(Fired(t, id), st')
  {
    if id in t.sessions.releases {
      FiringCounts(t, id);
      var rt := Fired(t, id);
      forall k | 0 <= k < |rt.tickets| && !rt.tickets[k].fired ensures k in st'.releases.Values {
        assert k in t.sessions.releases.Values;
        var x :| x in t.sessions.releases && t.sessions.releases[x] == k;
        assert x != id;
        assert x in st'.releases;
      }
    } else {
      assert st'.releases == t.sessions.releases;
    }
  }

  lemma OpenAfterLeaving(st: SessionTable, id: string, st': SessionTable, repo: string)
    requires Left(st, id, st')
    ensures Open(st', repo) == Open(st, repo) - {id}
  {
  }

  lemma LeavingCount(rt: RepoTable, rt': RepoTable, st: SessionTable, id: string, st': SessionTable, repo: string)
    requires Left(st, id, st') && rt.Count(repo) == |Open(st, repo)|
    requires rt'.Count(repo) == rt.Count(repo) - if id in Open(st, repo) then 1 else 0
    ensures rt'.Count(repo) == |Open(st', repo)|
  {
    OpenAfterLeaving(st, id, st', repo);
  }

  lemma LeavingCounts(t: Transfer, id: string, st': SessionTable)
    requires Accounted(t.repos, t.sessions) && Left(t.sessions, id, st')
    ensures CountsMatch(Fired(t, id), st')
  {
    if id in t.sessions.releases { FiringCounts(t, id); }
    var rt := Fired(t, id);
    forall r ensures rt.Count(r) == |Open(st', r)| {
      assert t.repos.Count(r) == |Open(t.sessions, r)|;
      assert id in Open(t.sessions, r) <==> id in t.sessions.releases && r == t.sessions.sessions[id].repo;
      LeavingCount(t.repos, rt, t.sessions, id, st', r);
    }
  }

  lemma LeavingOthers(st: SessionTable, id: string, st': SessionTable)
    requires ReleasesMatch(st) && Left(st, id, st')
    ensures ReleasesMatch(st')
  {
  }

  lemma LeavingOrphans(rt: RepoTable, rt': RepoTable, st: SessionTable, id: string, st': SessionTable)
    requires OrphansMatch(rt, st) && Left(st, id, st')
    requires rt'.repos == rt.repos && rt'.orphans == rt.orphans
    ensures OrphansMatch(rt', st')
  {
  }

  /** A session that leaves, by abort or commit, takes its release with it. */
  lemma LeavingKeepsAccounts(t: Transfer, id: string, st': SessionTable)
    requires Accounted(t.repos, t.sessions) && Left(t.sessions, id, st')
    ensures Accounted(Fired(t, id), st')
  {
    if id in t.sessions.releases { FiringCounts(t, id); }
    LeavingTickets(t, id, st');
    LeavingCounts(t, id, st');
    LeavingOthers(t.sessions, id, st');
    LeavingOrphans(t.repos, Fired(t, id), t.sessions, id, st');
  }

  lemma AbortKeepsAccounts(t: Transfer, token: string, id: string)
    requires Accounted(t.repos, t.sessions)
    ensures var t' := Abort(t, token, id).0; Accounted(t'.repos, t'.sessions)
  {
    if t.auth.ValidateForSession(token, id).Ok? && id in t.sessions.sessions {
      LeavingKeepsAccounts(t, id, t.sessions.Without(id));
    }
  }

  lemma FinishKeepsAccounts(t: Transfer, id: string)
    requires Accounted(t.repos, t.sessions)
    ensures var t' := Finish(t, id).0; Accounted(t'.repos, t'.sessions)
  {
    if id in t.sessions.sessions {
      LeavingKeepsAccounts(t, id, Finish(t, id).0.sessions);
    }
  }

  // Uploading and deleting ----------------------------------------------------------------

  lemma OpenUnchanged(st: SessionTable, id: string, u: Upload, repo: string)
    requires id in st.sessions
    requires u.session.repo == st.sessions[id].repo && u.session.state == st.sessions[id].state
    ensures Open(st.With(id, u), repo) == Open(st, repo)
  {
  }

  lemma SameReleases(st: SessionTable, id: string, u: Upload)
    requires ReleasesMatch(st) && id in st.sessions && u.session.state == st.sessions[id].state
    ensures ReleasesMatch(st.With(id, u))
  {
  }

  lemma SameTickets(rt: RepoTable, st: SessionTable, id: string, u: Upload)
    requires TicketsMatch(rt, st) && id in st.sessions && u.session.repo == st.sessions[id].repo
    ensures TicketsMatch(rt, st.With(id, u))
  {
    var st' := st.With(id, u);
    forall x <- st'.releases ensures rt.tickets[st'.releases[x]] == Ticket(st'.sessions[x].repo, false) {
      assert st.sessions[x].repo == st'.sessions[x].repo;
    }
  }

  lemma SameCounts(rt: RepoTable, st: SessionTable, id: string, u: Upload)
    requires CountsMatch(rt, st) && id in st.sessions
    requires u.session.repo == st.sessions[id].repo && u.session.state == st.sessions[id].state
    ensures CountsMatch(rt, st.With(id, u))
  {
    forall r ensures rt.Count(r) == |Open(st.With(id, u), r)| {
      OpenUnchanged(st, id, u, r);
      assert rt.Count(r) == |Open(st, r)|;
    }
  }

  lemma SameOrphans(rt: RepoTable, st: SessionTable, id: string, u: Upload)
    requires OrphansMatch(rt, st) && id in st.sessions
    requires u.session.repo == st.sessions[id].repo && u.session.state == st.sessions[id].state
    ensures OrphansMatch(rt, st.With(id, u))
  {
  }

  lemma SameAccounts(rt: RepoTable, st: SessionTable, id: string, u: Upload)
    requires Accounted(rt, st) && id in st.sessions
    requires u.session.repo == st.sessions[id].repo && u.session.state == st.sessions[id].state
    ensures Accounted(rt, st.With(id, u))
  {
    SameReleases(st, id, u);
    SameTickets(rt, st, id, u);
    SameCounts(rt, st, id, u);
    SameOrphans(rt, st, id, u);
  }

  lemma UploadKeepsAccounts(env: Env, t: Transfer, token: string, id: string, index: int64, bytes: Bytes)
    requires Accounted(t.repos, t.sessions)
    ensures var t' := UploadChunk(env, t, token, id, index, bytes).0; Accounted(t'.repos, t'.sessions)
  {
    var t' := UploadChunk(env, t, token, id, index, bytes).0;
    if t' != t {
      var u := AddChunk(env, t.sessions.UploadOf(id), index, bytes).value;
      assert t'.sessions == t.sessions.With(id, u);
      SameAccounts(t.repos, t.sessions, id, u);
    }
  }

  lemma DeleteKeepsAccounts(rt: RepoTable, st: SessionTable, name: string)
    requires Accounted(rt, st)
    ensures Accounted(rt.Delete(name).0, st)
  {
    var rt' := rt.Delete(name).0;
    forall r ensures rt'.Count(r) == |Open(st, r)| {}
    forall id <- st.sessions | st.sessions[id].state.SessionUploading?
      ensures st.sessions[id].repo in rt'.repos && (rt'.repos[st.sessions[id].repo] ==> st.sessions[id].repo in rt'.orphans)
    {
      assert id in Open(st, st.sessions[id].repo);
    }
  }

  lemma CreateRepoKeepsAccounts(rt: RepoTable, st: SessionTable, name: string)
    requires Accounted(rt, st)
    ensures Accounted(rt.Create(name).0, st)
  {
  }

  // Entering ----------------------------------------------------------------------------

  /** A release that is called before its session exists undoes Enter's count. */
  lemma EnterThenRelease(rt: RepoTable, st: SessionTable, name: string)
    requires Accounted(rt, st) && rt.Alive(name)
    ensures var (entered, ticket) := rt.Enter(name);
            Accounted(entered.Release(ticket.value), st)
  {
    var (entered, ticket) := rt.Enter(name);
    var rt' := entered.Release(ticket.value);
    forall r ensures rt'.Count(r) == |Open(st, r)| {
      assert rt.Count(r) == |Open(st, r)|;
    }
  }

  lemma OpenWith(st: SessionTable, id: string, s: Session, repo: string)
    requires id !in st.sessions && s.state.SessionUploading?
    ensures |Open(st.(sessions := st.sessions[id := s]), repo)| == |Open(st, repo)| + if s.repo == repo then 1 else 0
  {
    assert Open(st.(sessions := st.sessions[id := s]), repo) == Open(st, repo) + if s.repo == repo then {id} else {};
  }

  lemma EnteredTickets(rt: RepoTable, st: SessionTable, name: string, id: string, s: Session)
    requires ReleasesMatch(st) && TicketsMatch(rt, st) && rt.Alive(name) && id !in st.issued && s.repo == name
    ensures var (entered, ticket) := rt.Enter(name);
            TicketsMatch(entered, st.With(id, Upload(s, map[])).(
              releases := st.releases[id := ticket.value], issued := st.issued + {id}))
  {
    var (entered, ticket) := rt.Enter(name);
    var releases := st.releases[id := ticket.value];
    forall k | 0 <= k < |entered.tickets| && !entered.tickets[k].fired ensures k in releases.Values {
      if k < |rt.tickets| {
        assert k in st.releases.Values;
        var x :| x in st.releases && st.releases[x] == k;
        assert releases[x] == k;
      } else {
        assert releases[id] == k;
      }
    }
  }

  lemma EnteredCounts(rt: RepoTable, st: SessionTable, name: string, id: string, s: Session)
    requires CountsMatch(rt, st) && rt.Alive(name) && id !in st.sessions
    requires s.repo == name && s.state.SessionUploading?
    ensures CountsMatch(rt.Enter(name).0, st.(sessions := st.sessions[id := s]))
  {
    var st' := st.(sessions := st.sessions[id := s]);
    forall r ensures rt.Enter(name).0.Count(r) == |Open(st', r)| {
      assert rt.Count(r) == |Open(st, r)|;
      OpenWith(st, id, s, r);
    }
  }

  lemma EnteredSession(rt: RepoTable, st: SessionTable, name: string, id: string, s: Session)
    requires Accounted(rt, st) && rt.Alive(name) && id !in st.issued
    requires s.repo == name && s.state.SessionUploading?
    ensures var (entered, ticket) := rt.Enter(name);
            Accounted(entered, st.With(id, Upload(s, map[])).(
              releases := st.releases[id := ticket.value], issued := st.issued + {id}))
  {
    var (entered, ticket) := rt.Enter(name);
    var st' := st.With(id, Upload(s, map[])).(releases := st.releases[id := ticket.value], issued := st.issued + {id});
    EnteredTickets(rt, st, name, id, s);
    EnteredCounts(rt, st, name, id, s);
    forall r ensures entered.Count(r) == |Open(st', r)| {
      assert Open(st', r) == Open(st.(sessions := st.sessions[id := s]), r);
    }
  }

  /** Create with a new identifier keeps the accounts on every path out. */
  lemma CreateKeepsAccounts(t: Transfer, token: string, repo: string, name: string, size: int64, chunkSize: int64,
                            digest: string, id: string)
    requires Accounted(t.repos, t.sessions) && id !in t.sessions.issued
    ensures var t' := Create(t, token, repo, name, size, chunkSize, digest, id).0; Accounted(t'.repos, t'.sessions)
  {
    if t.auth.Validate(token).Ok? && t.repos.Alive(repo) {
      EnterThenRelease(t.repos, t.sessions, repo);
      EnteredSession(t.repos, t.sessions, repo, id, Opened(repo, name, digest, size, chunkSize, token).session);
    }
  }
}
