/** The registry's operations as runs of the state machine: what holds in every
    reachable state holds in every registry they lead to. */
module Facades {
  import opened Model
  import opened Transfers
  import opened Collection
  import opened Exactness
  import opened Pipeline
  import opened Systems
  import opened Theorems

  // Complete ----------------------------------------------------------------------------------

  lemma BeginIsAStep(env: Env, s: System, token: string, id: string)
    requires Begin(env, s.world.Transfer(), token, id).Ok?
    ensures Step(env, s, BeginComplete(token, id)) ==
            s.(completions := s.completions + [Pending(Begin(env, s.world.Transfer(), token, id).value, Waiting)])
  {
  }

  /** The steps of one Complete when other completions came before. */
  function CompleteSteps(s: System, token: string, id: string): seq<Op> {
    [BeginComplete(token, id), StoreComplete(|s.completions|), FinishComplete(|s.completions|)]
  }

  lemma ExecuteThree(env: Env, s: System, a: Op, b: Op, c: Op)
    ensures Execute(env, s, [a, b, c]) == Step(env, Step(env, Step(env, s, a), b), c)
  {
    ExecutePrefix(env, s, [a, b, c], 0);
    ExecutePrefix(env, s, [a, b, c], 1);
    ExecutePrefix(env, s, [a, b, c], 2);
  }

  /** After Begin: the Put, and the commit if the Put went through. */
  lemma StoreAndFinish(env: Env, s: System, c: Completion)
    requires c.id in s.world.sessions.sessions
    ensures var k := |s.completions|;
            var s1 := s.(completions := s.completions + [Pending(c, Waiting)]);
            var (stored, r) := Store(env, s.world.Transfer(), c);
            FinishStep(StoreStep(env, s1, k), k).world ==
            s.world.WithTransfer(if r.Ok? then Finish(stored, c.id).0 else stored)
  {
    var k := |s.completions|;
    var s1 := s.(completions := s.completions + [Pending(c, Waiting)]);
    var (stored, r) := Store(env, s.world.Transfer(), c);
    var s2 := StoreStep(env, s1, k);
    assert s2.world == s.world.WithTransfer(stored);
    assert s2.completions[k] == Pending(c, if r.Ok? then Stored else Done);
    assert s2.world.Transfer() == stored;
  }

  /** Complete with nothing in its lock gap is its three steps in a row, whatever it
      returns. */
  lemma CompleteIsThreeSteps(env: Env, s: System, token: string, id: string)
    ensures Execute(env, s, CompleteSteps(s, token, id)).world ==
            s.world.WithTransfer(Complete(env, s.world.Transfer(), token, id).0)
  {
    var k := |s.completions|;
    ExecuteThree(env, s, BeginComplete(token, id), StoreComplete(k), FinishComplete(k));
    var begun := Begin(env, s.world.Transfer(), token, id);
    if begun.Ok? {
      BeginIsAStep(env, s, token, id);
      StoreAndFinish(env, s, begun.value);
    } else {
      assert Step(env, s, BeginComplete(token, id)) == s;
    }
  }

  /** The steps of CompleteSession: an Abort in a deleted namespace. */
  function CompleteSessionSteps(s: System, token: string, id: string): seq<Op> {
    match GetSession(s.world.Transfer(), token, id)
    case Err(_) => []
    case Ok(session) =>
      if s.world.repos.Alive(session.repo) then CompleteSteps(s, token, id) else [AbortSession(token, id)]
  }

  lemma CompleteSessionIsSteps(env: Env, s: System, token: string, id: string)
    ensures Execute(env, s, CompleteSessionSteps(s, token, id)).world == CompleteSession(env, s.world, token, id).0
  {
    var session := GetSession(s.world.Transfer(), token, id);
    if session.Ok? {
      if s.world.repos.Alive(session.value.repo) {
        CompleteIsThreeSteps(env, s, token, id);
      } else {
        ExecuteOne(env, s, AbortSession(token, id));
      }
    }
  }

  // Collections ---------------------------------------------------------------------------------

  /** The steps of RunGC over a list of namespaces when other marks came before. */
  function CollectionSteps(namespaces: seq<string>, marks: nat): seq<Op>
    decreases |namespaces|
  {
    if namespaces == [] then []
    else [MarkRepo(namespaces[0]), SweepMark(marks)] + CollectionSteps(namespaces[1..], marks + 1)
  }

  lemma MarkIsAStep(env: Env, s: System, repo: string)
    ensures Step(env, s, MarkRepo(repo)) == s.(marks := s.marks + [Mark(s.world.Content(), repo)])
  {
  }

  lemma RunIsTwoSteps(env: Env, s: System, repo: string)
    ensures var s' := Execute(env, s, [MarkRepo(repo), SweepMark(|s.marks|)]);
            s'.world == s.world.WithContent(Run(s.world.Content(), repo)) && |s'.marks| == |s.marks| + 1
  {
    var ops := [MarkRepo(repo), SweepMark(|s.marks|)];
    ExecutePrefix(env, s, ops, 0);
    ExecutePrefix(env, s, ops, 1);
    MarkIsAStep(env, s, repo);
  }

  lemma {:induction false} RunAllIsSteps(env: Env, s: System, namespaces: seq<string>)
    ensures Execute(env, s, CollectionSteps(namespaces, |s.marks|)).world ==
            s.world.WithContent(RunAll(s.world.Content(), namespaces))
    decreases |namespaces|
  {
    if namespaces == [] {
    } else {
      var two := [MarkRepo(namespaces[0]), SweepMark(|s.marks|)];
      var s' := Execute(env, s, two);
      RunIsTwoSteps(env, s, namespaces[0]);
      RunAllIsSteps(env, s', namespaces[1..]);
      ExecuteAppend(env, s, two, CollectionSteps(namespaces[1..], |s.marks| + 1));
    }
  }

  /** An uninterrupted collection is a Mark step and a Sweep step of its mark; in
      every reachable state it leaves exactly the tagged manifests and the blobs
      live or held. */
  lemma {:induction false} CollectionIsTwoSteps(env: Env, ops: seq<Op>, repo: string)
    ensures var s := Execute(env, INITIAL, ops);
            var s' := Execute(env, INITIAL, ops + [MarkRepo(repo), SweepMark(|s.marks|)]);
            && s'.world == s.world.WithContent(Run(s.world.Content(), repo))
            && s'.world.Content() == Collect(s.world.Content(), {repo})
  {
    var s := Execute(env, INITIAL, ops);
    ReachableInv(env, ops);
    RunIsTwoSteps(env, s, repo);
    RunIsCollect(s.world.Content(), repo);
    ExecuteAppend(env, INITIAL, ops, [MarkRepo(repo), SweepMark(|s.marks|)]);
  }

  // Reachable registries --------------------------------------------------------------------------

  ghost predicate Reachable(env: Env, w: World) {
    exists ops :: Execute(env, INITIAL, ops).world == w
  }

  lemma StepsReach(env: Env, before: seq<Op>, ops: seq<Op>)
    ensures Reachable(env, Execute(env, Execute(env, INITIAL, before), ops).world)
  {
    ExecuteAppend(env, INITIAL, before, ops);
    assert Execute(env, INITIAL, before + ops).world == Execute(env, Execute(env, INITIAL, before), ops).world;
  }

  lemma WorldStepReaches(env: Env, before: seq<Op>, op: Op)
    requires Fresh(Execute(env, INITIAL, before).world, op)
    ensures Reachable(env, WorldStep(env, Execute(env, INITIAL, before).world, op))
  {
    var s := Execute(env, INITIAL, before);
    ExecuteOne(env, s, op);
    StepsReach(env, before, [op]);
    assert Execute(env, INITIAL, before).world == s.world;
  }

  lemma RunAllReaches(env: Env, w: World, namespaces: seq<string>)
    requires Reachable(env, w)
    ensures Reachable(env, w.WithContent(RunAll(w.Content(), namespaces)))
  {
    var before :| Execute(env, INITIAL, before).world == w;
    var s := Execute(env, INITIAL, before);
    RunAllIsSteps(env, s, namespaces);
    StepsReach(env, before, CollectionSteps(namespaces, |s.marks|));
  }

  lemma CompleteReaches(env: Env, w: World, token: string, id: string)
    requires Reachable(env, w)
    ensures Reachable(env, w.WithTransfer(Complete(env, w.Transfer(), token, id).0))
    ensures Reachable(env, CompleteSession(env, w, token, id).0)
  {
    var before :| Execute(env, INITIAL, before).world == w;
    var s := Execute(env, INITIAL, before);
    CompleteIsThreeSteps(env, s, token, id);
    StepsReach(env, before, CompleteSteps(s, token, id));
    CompleteSessionIsSteps(env, s, token, id);
    StepsReach(env, before, CompleteSessionSteps(s, token, id));
  }

  /** A new registry is reachable, and from a reachable registry every operation
      leads to one: the single steps with new identifiers, CompleteSession, and
      RunGC over any list of namespaces. */
  lemma {:induction false} OperationsStayReachable(env: Env, w: World, op: Op, token: string, id: string,
                                                   namespaces: seq<string>)
    requires Reachable(env, w)
    ensures Reachable(env, EMPTY)
    ensures Fresh(w, op) ==> Reachable(env, WorldStep(env, w, op))
    ensures Reachable(env, CompleteSession(env, w, token, id).0)
    ensures Reachable(env, w.WithContent(RunAll(w.Content(), namespaces)))
  {
    assert Execute(env, INITIAL, []).world == EMPTY;
    var before :| Execute(env, INITIAL, before).world == w;
    if Fresh(w, op) { WorldStepReaches(env, before, op); }
    CompleteReaches(env, w, token, id);
    RunAllReaches(env, w, namespaces);
  }
}
