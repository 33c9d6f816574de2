/**
 What single requests do: who may kill, what a request does that nobody interferes with, and that a kill that is
 refused does nothing.
 */
module SessionRequests {
  import opened SessionTable
  import opened SessionProtocol

  // ----- Who may kill -----

  // A request to kill this id that has the licence and the role, and is not aimed at the session it comes from.
  predicate MayKill(r: Request, id: SessionId) {
    r.Kill? && r.target == id && r.licensed && r.role == "admin" && r.issuer != id
  }

  ghost predicate Asked(actions: seq<Action>, tid: nat, id: SessionId) {
    exists i :: 0 <= i < |actions| && actions[i].Start? && actions[i].tid == tid && MayKill(actions[i].request, id)
  }

  predicate Killing(t: Thread, id: SessionId) {
    (t.Finding? || t.Marking? || t.Removing?) && t.id == id
  }

  predicate OfKill(e: Event) {
    e.KillFound? || e.KillMissing? || e.KillOK? || e.KillGone?
  }

  lemma AskedLater(actions: seq<Action>, a: Action, tid: nat, id: SessionId)
    requires Asked(actions, tid, id)
    ensures Asked(actions + [a], tid, id)
  {
    var i :| 0 <= i < |actions| && actions[i].Start? && actions[i].tid == tid && MayKill(actions[i].request, id);
    assert (actions + [a])[i] == actions[i];
  }

  // Where a step of a killing thread, or one that leaves a mark of a kill, can come from.
  lemma OnlyKillersKill(s: State, a: Action, tid: nat, id: SessionId)
    ensures Killing(At(Apply(s, a), tid), id) ==>
              Killing(At(s, tid), id) || (a.Start? && a.tid == tid && MayKill(a.request, id))
    ensures var log := Apply(s, a).log;
            |log| <= |s.log| + 1 && s.log <= log && (|log| > |s.log| && OfKill(log[|s.log|]) && log[|s.log|].id == id ==>
              a.Go? && Killing(At(s, a.tid), id))
  {
    if a.Go? {
      match At(s, a.tid) {
        case Admitting(_, built, close) =>
        case _ =>
      }
    }
  }

  lemma {:induction false} KillersHaveAsked(actions: seq<Action>, tid: nat, id: SessionId)
    requires Killing(At(Run(actions), tid), id)
    ensures Asked(actions, tid, id)
  {
    if actions != [] {
      var n := |actions| - 1;
      var before, a := actions[..n], actions[n];
      OnlyKillersKill(Run(before), a, tid, id);
      assert actions == before + [a];
      if Killing(At(Run(before), tid), id) {
        KillersHaveAsked(before, tid, id);
        AskedLater(before, a, tid, id);
      } else {
        assert MayKill(actions[n].request, id);
      }
    }
  }

  // In every run, whatever a kill has found, missed or removed goes back to a request for that id that had the licence
  // and the role and was not aimed at its own session.
  lemma {:induction false} KillsAreAuthorised(actions: seq<Action>, j: int)
    requires 0 <= j < |Run(actions).log| && OfKill(Run(actions).log[j])
    ensures exists i :: 0 <= i < |actions| && actions[i].Start? && MayKill(actions[i].request, Run(actions).log[j].id)
    decreases |actions|
  {
    var n := |actions| - 1;
    var before, a, id := actions[..n], actions[n], Run(actions).log[j].id;
    var s := Run(before);
    OnlyKillersKill(s, a, 0, id);
    assert actions == before + [a];
    if j < |s.log| {
      KillsAreAuthorised(before, j);
      var i :| 0 <= i < |before| && before[i].Start? && MayKill(before[i].request, s.log[j].id);
      assert actions[i] == before[i];
    } else {
      KillersHaveAsked(before, a.tid, id);
      AskedLater(before, a, a.tid, id);
    }
  }

  // A request to kill that may not do so changes nothing: its thread stays idle.
  lemma RefusedKillDoesNothing(s: State, tid: nat, r: Request)
    requires r.Kill? && !MayKill(r, r.target) && At(s, tid).Idle?
    ensures var s' := Apply(s, Start(tid, r));
            && s'.table == s.table && s'.flagged == s.flagged && s'.log == s.log && s'.next == s.next
            && At(s', tid).Idle? && Apply(s', Go(tid)) == s'
            && forall u :: u != tid ==> At(s', u) == At(s, u)
  {}

  // ----- Requests that nobody interferes with -----

  // The request and n steps of its thread.
  function Alone(s: State, tid: nat, r: Request, n: nat): State {
    if n == 0 then Apply(s, Start(tid, r)) else Apply(Alone(s, tid, r, n - 1), Go(tid))
  }

  // A permitted kill flags the live session, erases it and remembers the id.
  lemma KillAlone(s: State, tid: nat, r: Request, id: SessionId)
    requires At(s, tid).Idle? && MayKill(r, id) && id in s.table.live
    ensures var (s', o) := (Alone(s, tid, r, 3), s.table.live[id]);
            && s'.log == s.log + [KillFound(id, o), KillOK(id, o, |s.log|, o)]
            && s'.flagged == s.flagged + {o} && id !in s'.table.live && id in s'.table.killed
            && s'.table.gauge == s.table.gauge - 1 && At(s', tid).Idle?
            && (forall other :: other != id ==>
                  (other in s'.table.live <==> other in s.table.live) && (other in s'.table.killed <==> other in s.table.killed))
  {
    var o := s.table.live[id];
    var s0 := Alone(s, tid, r, 0);
    assert s0 == Goto(s, tid, Finding(id));
    var s1 := Alone(s, tid, r, 1);
    assert s1 == Apply(s0, Go(tid)) == Decide(s0, tid, s.table, KillFound(id, o), Marking(id, o, |s.log|));
    var s2 := Alone(s, tid, r, 2);
    assert s2 == Apply(s1, Go(tid)) == Goto(s1, tid, Removing(id, o, |s.log|)).(flagged := s.flagged + {o});
    var s3 := Alone(s, tid, r, 3);
    assert s3 == Apply(s2, Go(tid)) == Decide(s2, tid, Remove(s.table, id, true), KillOK(id, o, |s.log|, o), Idle);
    assert s.log + [KillFound(id, o)] + [KillOK(id, o, |s.log|, o)] == s.log + [KillFound(id, o), KillOK(id, o, |s.log|, o)];
  }

  // If there is no session of the id, it says so and changes nothing.
  lemma KillMissesAlone(s: State, tid: nat, r: Request, id: SessionId)
    requires At(s, tid).Idle? && MayKill(r, id) && id !in s.table.live
    ensures var s' := Alone(s, tid, r, 1);
            s'.log == s.log + [KillMissing(id)] && s'.table == s.table && s'.flagged == s.flagged && At(s', tid).Idle?
  {}

  // A request for an id gets a new session if there is none, the live one if there is, and is refused if the id is
  // killed or its session is flagged; in the latter case the session is gone.
  lemma UseAlone(s: State, tid: nat, id: SessionId)
    requires At(s, tid).Idle?
    ensures id in s.table.killed ==>
              Alone(s, tid, Use(id), 1).log == s.log + [Refused(id)] && Alone(s, tid, Use(id), 1).table == s.table
    ensures id !in s.table.killed && id !in s.table.live ==>
              var (s', o) := (Alone(s, tid, Use(id), 3), Obj(id, s.next));
              s'.log == s.log + [Served(id, o)] && s'.table == Table(s.table.live[id := o], s.table.killed, s.table.gauge + 1)
    ensures id !in s.table.killed && id in s.table.live && s.table.live[id] !in s.flagged ==>
              var s' := Alone(s, tid, Use(id), 1);
              s'.log == s.log + [Served(id, s.table.live[id])] && s'.table == s.table
    ensures id !in s.table.killed && id in s.table.live && s.table.live[id] in s.flagged ==>
              var s' := Alone(s, tid, Use(id), 2);
              && s'.log == s.log + [Evicted(id)]
              && s'.table == Table(s.table.live - {id}, s.table.killed + {id}, s.table.gauge - 1)
  {
    var s0 := Alone(s, tid, Use(id), 0);
    assert s0 == Goto(s, tid, Looking(id, false));
    var s1 := Alone(s, tid, Use(id), 1);
    assert s1 == Apply(s0, Go(tid));
    var s2 := Alone(s, tid, Use(id), 2);
    assert s2 == Apply(s1, Go(tid));
    if id !in s.table.killed && id !in s.table.live {
      NewAlone(s, tid, id);
    }
  }

  lemma NewAlone(s: State, tid: nat, id: SessionId)
    requires At(s, tid).Idle? && id !in s.table.killed && id !in s.table.live
    ensures var (s', o) := (Alone(s, tid, Use(id), 3), Obj(id, s.next));
            s'.log == s.log + [Served(id, o)] && s'.table == Table(s.table.live[id := o], s.table.killed, s.table.gauge + 1)
  {
    var s0 := Alone(s, tid, Use(id), 0);
    assert s0 == Goto(s, tid, Looking(id, false));
    var s1 := Alone(s, tid, Use(id), 1);
    assert s1 == Apply(s0, Go(tid)) == Goto(s0, tid, Building(id, false));
    var s2 := Alone(s, tid, Use(id), 2);
    assert s2 == Apply(s1, Go(tid)) == Goto(s1, tid, Admitting(id, Obj(id, s.next), false)).(next := s.next + 1);
    assert Alone(s, tid, Use(id), 3) == Apply(s2, Go(tid));
  }

  // A close gives the session back: it is handed out and erased, and the id may be used again.
  lemma CloseAlone(s: State, tid: nat, id: SessionId)
    requires At(s, tid).Idle? && id !in s.table.killed && id in s.table.live && s.table.live[id] !in s.flagged
    ensures var s' := Alone(s, tid, CloseSession(id), 2);
            && s'.log == s.log + [Served(id, s.table.live[id]), Closed(id)]
            && s'.table == Table(s.table.live - {id}, s.table.killed, s.table.gauge - 1)
  {
    var o := s.table.live[id];
    var s0 := Alone(s, tid, CloseSession(id), 0);
    assert s0 == Goto(s, tid, Looking(id, true));
    var s1 := Alone(s, tid, CloseSession(id), 1);
    assert s1 == Apply(s0, Go(tid)) == Decide(s0, tid, s.table, Served(id, o), Closing(id));
    var s2 := Alone(s, tid, CloseSession(id), 2);
    assert s2 == Apply(s1, Go(tid)) == Decide(s1, tid, Remove(s.table, id, false), Closed(id), Idle);
    assert s.log + [Served(id, o)] + [Closed(id)] == s.log + [Served(id, o), Closed(id)];
  }

  lemma ShutdownAlone(s: State, tid: nat)
    requires At(s, tid).Idle?
    ensures var s' := Alone(s, tid, Shutdown, 1);
            s'.log == s.log + [ReleasedAll] && s'.table == Table(map[], s.table.killed, s.table.gauge - |s.table.live|)
  {}
}
