/**
 What a kill promises about the session it found. Between finding the session and removing it the kill holds no lock,
 so the session may be closed, evicted or replaced meanwhile. Every kill leaves in the log what it found and what
 its removal did; these results read the answer and the erased session off the events in between.
 */
module SessionKills {
  import opened SessionTable
  import opened SessionProtocol

  // Before event i, o had been handed out for id, and id had not been removed since.
  ghost predicate Witnessed(log: seq<Event>, i: int, id: SessionId, o: Obj) {
    exists a :: 0 <= a < i <= |log| && log[a] == Served(id, o) && !RemovedBetween(log, a, i, id)
  }

  // What the events of kills say is true of the events before them.
  ghost predicate Truthful(log: seq<Event>, flagged: set<Obj>, j: int)
    requires 0 <= j < |log|
  {
    match log[j]
    case KillFound(id, target) => Witnessed(log, j, id, target)
    case KillOK(id, target, found, erased) =>
      found < j && log[found] == KillFound(id, target) && target in flagged && Witnessed(log, j, id, erased)
    case KillGone(id, target, found) =>
      found < j && log[found] == KillFound(id, target) && target in flagged && forall o :: !Witnessed(log, j, id, o)
    case _ => true
  }

  ghost predicate UnderWay(s: State, t: Thread) {
    match t
    case Marking(id, target, found) => found < |s.log| && s.log[found] == KillFound(id, target)
    case Removing(id, target, found) => found < |s.log| && s.log[found] == KillFound(id, target) && target in s.flagged
    case _ => true
  }

  // Every live session has been handed out and not been removed since.
  ghost predicate LiveIsWitnessed(s: State) {
    forall id :: id in s.table.live ==> Witnessed(s.log, |s.log|, id, s.table.live[id])
  }

  ghost predicate Kills(s: State) {
    && LiveIsWitnessed(s)
    && (forall t :: t in s.threads ==> UnderWay(s, s.threads[t]))
    && (forall j :: 0 <= j < |s.log| ==> Truthful(s.log, s.flagged, j))
  }

  lemma WitnessEarlier(log: seq<Event>, e: Event, i: int, id: SessionId, o: Obj)
    requires 0 <= i <= |log|
    ensures Witnessed(log + [e], i, id, o) == Witnessed(log, i, id, o)
  {
    forall a | 0 <= a < i ensures RemovedBetween(log + [e], a, i, id) == RemovedBetween(log, a, i, id) {
      EarlierEvents(log, e, a, i, id);
    }
    if Witnessed(log, i, id, o) {
      var a :| 0 <= a < i && log[a] == Served(id, o) && !RemovedBetween(log, a, i, id);
      assert (log + [e])[a] == Served(id, o);
    }
  }

  lemma WitnessLater(log: seq<Event>, e: Event, id: SessionId, o: Obj)
    requires Witnessed(log, |log|, id, o) && !Removes(e, id)
    ensures Witnessed(log + [e], |log| + 1, id, o)
  {
    var a :| 0 <= a < |log| && log[a] == Served(id, o) && !RemovedBetween(log, a, |log|, id);
    OneMoreEvent(log, e, a, id);
    assert (log + [e])[a] == Served(id, o);
  }

  lemma TruthStays(log: seq<Event>, e: Event, flagged: set<Obj>, flagged': set<Obj>, j: int)
    requires 0 <= j < |log| && Truthful(log, flagged, j) && flagged <= flagged'
    ensures Truthful(log + [e], flagged', j)
  {
    match log[j]
    case KillFound(id, target) => WitnessEarlier(log, e, j, id, target);
    case KillOK(id, target, found, erased) => WitnessEarlier(log, e, j, id, erased);
    case KillGone(id, target, found) =>
      forall o ensures !Witnessed(log + [e], j, id, o) { WitnessEarlier(log, e, j, id, o); }
    case _ =>
  }

  // An id that is not live has no session that was handed out and not removed since.
  lemma NotLiveNotWitnessed(s: State, id: SessionId, o: Obj)
    requires Inv(s) && id !in s.table.live
    ensures !Witnessed(s.log, |s.log|, id, o)
  {}

  // What a step does to the log and to the live sessions.
  lemma StepExplained(s: State, a: Action)
    requires Inv(s)
    ensures var s' := Apply(s, a);
            && s.flagged <= s'.flagged
            && ((s'.log == s.log && s'.table.live == s.table.live)
                || (|s'.log| == |s.log| + 1 && s'.log == s.log + [s'.log[|s.log|]]
                    && Explains(s.log, s.table.live, s'.log[|s.log|], s'.table.live)))
  {
    if a.Go? {
      match At(s, a.tid) {
        case Admitting(id, built, close) => AdmitExplained(s, a.tid);
        case _ =>
      }
    }
  }

  lemma AdmitExplained(s: State, tid: nat)
    requires Inv(s) && At(s, tid).Admitting?
    ensures var s' := Step(s, tid);
            && |s'.log| == |s.log| + 1 && s'.log == s.log + [s'.log[|s.log|]] && s.flagged == s'.flagged
            && Explains(s.log, s.table.live, s'.log[|s.log|], s'.table.live)
  {
    var Admitting(id, built, close) := s.threads[tid];
    if id in s.table.live { assert s.table.live[id := s.table.live[id]] == s.table.live; }
  }

  lemma LiveStaysWitnessed(s: State, a: Action)
    requires Inv(s) && LiveIsWitnessed(s)
    ensures LiveIsWitnessed(Apply(s, a))
  {
    var s' := Apply(s, a);
    StepExplained(s, a);
    if s'.log != s.log {
      var e := s'.log[|s.log|];
      forall id | id in s'.table.live ensures Witnessed(s'.log, |s'.log|, id, s'.table.live[id]) {
        if e.Served? && e.id == id {
          assert s'.log[|s.log|] == Served(id, s'.table.live[id]);
          assert !RemovedBetween(s'.log, |s.log|, |s'.log|, id);
        } else {
          WitnessLater(s.log, e, id, s.table.live[id]);
        }
      }
    }
  }

  lemma FindIsTruthful(s: State, tid: nat)
    requires Inv(s) && Kills(s) && At(s, tid).Finding?
    ensures Truthful(Step(s, tid).log, s.flagged, |s.log|)
  {
    var id := At(s, tid).id;
    if id in s.table.live {
      WitnessEarlier(s.log, KillFound(id, s.table.live[id]), |s.log|, id, s.table.live[id]);
    }
  }

  lemma RemovalIsTruthful(s: State, tid: nat)
    requires Inv(s) && Kills(s) && At(s, tid).Removing?
    ensures Truthful(Step(s, tid).log, s.flagged, |s.log|)
  {
    var Removing(id, target, found) := s.threads[tid];
    var e := Removal(s, id, target, found);
    assert UnderWay(s, s.threads[tid]) && (s.log + [e])[found] == s.log[found];
    if id in s.table.live {
      WitnessEarlier(s.log, e, |s.log|, id, s.table.live[id]);
    } else {
      forall o ensures !Witnessed(s.log + [e], |s.log|, id, o) {
        WitnessEarlier(s.log, e, |s.log|, id, o);
        NotLiveNotWitnessed(s, id, o);
      }
    }
  }

  predicate OfKill(e: Event) {
    e.KillFound? || e.KillOK? || e.KillGone?
  }

  lemma OnlyKillsAddKillEvents(s: State, a: Action)
    requires Inv(s) && |Apply(s, a).log| > |s.log| && OfKill(Apply(s, a).log[|s.log|])
    ensures a.Go? && (At(s, a.tid).Finding? || At(s, a.tid).Removing?)
  {
    if a.Go? {
      match At(s, a.tid) {
        case Admitting(id, built, close) =>
        case _ =>
      }
    }
  }

  // The event a step adds is truthful.
  lemma NewEventIsTruthful(s: State, a: Action)
    requires Inv(s) && Kills(s) && |Apply(s, a).log| > |s.log|
    ensures Truthful(Apply(s, a).log, Apply(s, a).flagged, |s.log|)
  {
    if OfKill(Apply(s, a).log[|s.log|]) {
      OnlyKillsAddKillEvents(s, a);
      if At(s, a.tid).Finding? { FindIsTruthful(s, a.tid); } else { RemovalIsTruthful(s, a.tid); }
    }
  }

  // Only the acting thread moves, and it starts looking for a removal only where UnderWay says.
  lemma ThreadMoves(s: State, a: Action, t: nat)
    requires Inv(s) && t in Apply(s, a).threads
    ensures (t in s.threads && Apply(s, a).threads[t] == s.threads[t])
            || (t == a.tid && (UnderWay(s, At(s, t)) ==> UnderWay(Apply(s, a), Apply(s, a).threads[t])))
  {
    if a.Go? && t == a.tid {
      match At(s, t) {
        case Admitting(id, built, close) =>
        case _ =>
      }
    }
  }

  lemma ThreadsStayUnderWay(s: State, a: Action)
    requires Inv(s) && forall t :: t in s.threads ==> UnderWay(s, s.threads[t])
    ensures var s' := Apply(s, a); forall t :: t in s'.threads ==> UnderWay(s', s'.threads[t])
  {
    var s' := Apply(s, a);
    StepExplained(s, a);
    forall t | t in s'.threads ensures UnderWay(s', s'.threads[t]) {
      ThreadMoves(s, a, t);
      if t in s.threads { assert UnderWay(s, s.threads[t]); }
    }
  }

  lemma {:induction false} KillsAreTruthful(actions: seq<Action>)
    ensures Inv(Run(actions)) && Kills(Run(actions))
  {
    RunKeeps(actions);
    if actions != [] {
      var s, a := Run(actions[..|actions| - 1]), actions[|actions| - 1];
      KillsAreTruthful(actions[..|actions| - 1]);
      var s' := Apply(s, a);
      StepExplained(s, a);
      LiveStaysWitnessed(s, a);
      ThreadsStayUnderWay(s, a);
      forall j | 0 <= j < |s'.log| ensures Truthful(s'.log, s'.flagged, j) {
        if j == |s.log| {
          NewEventIsTruthful(s, a);
        } else if s'.log == s.log {
          assert Truthful(s.log, s.flagged, j);
          TruthMonotone(s.log, s.flagged, s'.flagged, j);
        } else {
          TruthStays(s.log, s'.log[|s.log|], s.flagged, s'.flagged, j);
        }
      }
    }
  }

  lemma TruthMonotone(log: seq<Event>, flagged: set<Obj>, flagged': set<Obj>, j: int)
    requires 0 <= j < |log| && Truthful(log, flagged, j) && flagged <= flagged'
    ensures Truthful(log, flagged', j)
  {}

  // ----- Main results, for every interleaving -----

  // The id is live before event j, as far as the log tells: some session has been handed out and not removed since.
  ghost predicate LiveBefore(log: seq<Event>, j: int, id: SessionId) {
    exists o :: Witnessed(log, j, id, o)
  }

  // That is what the table says.
  lemma LiveIsInTheLog(actions: seq<Action>, id: SessionId)
    ensures var s := Run(actions); LiveBefore(s.log, |s.log|, id) <==> id in s.table.live
  {
    KillsAreTruthful(actions);
    var s := Run(actions);
    if id in s.table.live {
      assert Witnessed(s.log, |s.log|, id, s.table.live[id]);
    } else {
      forall o ensures !Witnessed(s.log, |s.log|, id, o) { NotLiveNotWitnessed(s, id, o); }
    }
  }

  // A kill that found its target answers OK if and only if the id is live at its RemoveSession.
  lemma KillAnswersOKIfLive(actions: seq<Action>, j: int)
    requires var log := Run(actions).log; 0 <= j < |log| && (log[j].KillOK? || log[j].KillGone?)
    ensures var log := Run(actions).log;
            && log[j].found < j && log[log[j].found] == KillFound(log[j].id, log[j].target)
            && (log[j].KillOK? <==> LiveBefore(log, j, log[j].id))
  {
    KillsAreTruthful(actions);
    var s := Run(actions);
    assert Truthful(s.log, s.flagged, j);
    if s.log[j].KillOK? { assert Witnessed(s.log, j, s.log[j].id, s.log[j].erased); }
  }

  // The session it erases is the one it found and flagged if and only if nothing removed the id in between.
  lemma KillErasesWhatItFlagged(actions: seq<Action>, j: int)
    requires var log := Run(actions).log; 0 <= j < |log| && log[j].KillOK?
    ensures var (log, e) := (Run(actions).log, Run(actions).log[j]);
            && e.target in Run(actions).flagged
            && (e.erased == e.target <==> !exists k :: e.found < k < j && Removes(log[k], e.id))
  {
    KillsAreTruthful(actions);
    var s := Run(actions);
    var log, e := s.log, s.log[j];
    var i, id := e.found, e.id;
    assert Truthful(log, s.flagged, j) && Truthful(log, s.flagged, i);
    var a :| 0 <= a < i && log[a] == Served(id, e.target) && !RemovedBetween(log, a, i, id);
    var b :| 0 <= b < j && log[b] == Served(id, e.erased) && !RemovedBetween(log, b, j, id);
    SameUnlessRemovedBetween(log, id, a, i, b, j);
    assert RemovedBetween(log, i, j, id) <==> exists k :: i < k < j && Removes(log[k], id);
  }

  lemma SameUnlessRemovedBetween(log: seq<Event>, id: SessionId, a: int, i: int, b: int, j: int)
    requires Stable(log) && 0 <= a < i < j < |log| && 0 <= b < j
    requires log[a].Served? && log[a].id == id && !RemovedBetween(log, a, i, id) && log[i].KillFound?
    requires log[b].Served? && log[b].id == id && !RemovedBetween(log, b, j, id)
    ensures log[a].session == log[b].session <==> !RemovedBetween(log, i, j, id)
  {
    if RemovedBetween(log, i, j, id) {
      var k :| i < k < j && Removes(log[k], id);
      assert !(b < k);
      assert RemovedBetween(log, a, b, id);
    } else {
      assert !RemovedBetween(log, a, b, id) && !RemovedBetween(log, b, a, id);
    }
  }

  lemma StaysWitnessed(log: seq<Event>, i: int, j: int, id: SessionId, o: Obj)
    requires 0 <= i < j <= |log| && Witnessed(log, i, id, o) && !Removes(log[i], id) && !RemovedBetween(log, i, j, id)
    ensures Witnessed(log, j, id, o)
  {
    var a :| 0 <= a < i && log[a] == Served(id, o) && !RemovedBetween(log, a, i, id);
    assert !RemovedBetween(log, a, j, id);
  }

  // So a kill answers OK and erases the session it has flagged if and only if nothing removed the id in between.
  lemma KillWorksUnlessRemoved(actions: seq<Action>, j: int)
    requires var log := Run(actions).log; 0 <= j < |log| && (log[j].KillOK? || log[j].KillGone?)
    ensures var (log, e) := (Run(actions).log, Run(actions).log[j]);
            (e.KillOK? && e.erased == e.target) <==> !exists k :: e.found < k < j && Removes(log[k], e.id)
  {
    KillsAreTruthful(actions);
    var s := Run(actions);
    var log, e := s.log, s.log[j];
    assert Truthful(log, s.flagged, j) && Truthful(log, s.flagged, e.found);
    assert RemovedBetween(log, e.found, j, e.id) <==> exists k :: e.found < k < j && Removes(log[k], e.id);
    if e.KillOK? {
      KillErasesWhatItFlagged(actions, j);
    } else if !RemovedBetween(log, e.found, j, e.id) {
      StaysWitnessed(log, e.found, j, e.id, e.target);
    }
  }

  // ----- Which ids are killed -----

  // After this event the id is killed for good.
  predicate Condemns(e: Event, id: SessionId) {
    e == Evicted(id) || e == Refused(id) || (e.KillOK? && e.id == id)
  }

  ghost predicate CondemnedBefore(log: seq<Event>, j: int, id: SessionId) {
    exists k :: 0 <= k < j <= |log| && Condemns(log[k], id)
  }

  lemma CondemnedLater(log: seq<Event>, e: Event, id: SessionId)
    ensures CondemnedBefore(log + [e], |log| + 1, id) <==> CondemnedBefore(log, |log|, id) || Condemns(e, id)
    ensures forall j :: 0 <= j <= |log| ==> CondemnedBefore(log + [e], j, id) == CondemnedBefore(log, j, id)
  {
    var log' := log + [e];
    forall k | 0 <= k < |log| ensures log'[k] == log[k] {}
    forall j | 0 <= j <= |log| && CondemnedBefore(log, j, id) ensures CondemnedBefore(log', j, id) {
      var k :| 0 <= k < j && Condemns(log[k], id);
      assert Condemns(log'[k], id);
    }
    assert log'[|log|] == e;
  }

  // What a step does to the killed ids.
  lemma KilledExplained(s: State, a: Action, id: SessionId)
    ensures var s' := Apply(s, a);
            if s'.log == s.log then s'.table.killed == s.table.killed
            else
              && |s'.log| == |s.log| + 1 && s'.log == s.log + [s'.log[|s.log|]]
              && (id in s'.table.killed <==> id in s.table.killed || Condemns(s'.log[|s.log|], id))
              && (s'.log[|s.log|].KillFound? ==> s'.log[|s.log|].id in s.table.live)
  {
    if a.Go? {
      match At(s, a.tid) {
        case Admitting(_, built, close) =>
        case _ =>
      }
    }
  }

  // An id is killed if and only if a request for it has been refused or evicted, or a kill of it has answered OK.
  lemma {:induction false} KilledIsInTheLog(actions: seq<Action>, id: SessionId)
    ensures var s := Run(actions); CondemnedBefore(s.log, |s.log|, id) <==> id in s.table.killed
  {
    if actions != [] {
      var s, a := Run(actions[..|actions| - 1]), actions[|actions| - 1];
      KilledIsInTheLog(actions[..|actions| - 1], id);
      KilledExplained(s, a, id);
      if Apply(s, a).log != s.log { CondemnedLater(s.log, Apply(s, a).log[|s.log|], id); }
    }
  }

  // What a kill has found was not killed.
  lemma {:induction false} FoundWasNotKilled(actions: seq<Action>, j: int)
    requires 0 <= j < |Run(actions).log| && Run(actions).log[j].KillFound?
    ensures !CondemnedBefore(Run(actions).log, j, Run(actions).log[j].id)
    decreases |actions|
  {
    var prefix, a := actions[..|actions| - 1], actions[|actions| - 1];
    var s, s', id := Run(prefix), Run(actions), Run(actions).log[j].id;
    KilledExplained(s, a, id);
    if s'.log != s.log { CondemnedLater(s.log, s'.log[|s.log|], id); }
    if j < |s.log| {
      FoundWasNotKilled(prefix, j);
    } else {
      RunKeeps(prefix);
      KilledIsInTheLog(prefix, id);
    }
  }

  lemma CondemnedSince(log: seq<Event>, found: nat, id: SessionId)
    requires found < |log| && log[found].KillFound? && !CondemnedBefore(log, found, id)
    ensures CondemnedBefore(log, |log|, id) <==> exists k :: found < k < |log| && Condemns(log[k], id)
  {
    if CondemnedBefore(log, |log|, id) {
      var k :| 0 <= k < |log| && Condemns(log[k], id);
      assert k < found ==> CondemnedBefore(log, found, id);
    }
  }

  lemma NothingToRemove(s: State, tid: nat)
    requires At(s, tid).Removing? && At(s, tid).id !in s.table.live
    ensures var Removing(id, target, found) := At(s, tid);
            Step(s, tid).log == s.log + [KillGone(id, target, found)] && Step(s, tid).table == s.table
  {}

  // A kill that does not find the session again answers that there is none. The id is killed all the same if and only
  // if a request for it has been refused or evicted, or another kill of it has succeeded, since it was found.
  lemma MissingThoughKilled(actions: seq<Action>, tid: nat)
    requires At(Run(actions), tid).Removing? && At(Run(actions), tid).id !in Run(actions).table.live
    ensures var s := Run(actions);
            var Removing(id, target, found) := At(s, tid);
            var s' := Run(actions + [Go(tid)]);
            && s'.log == s.log + [KillGone(id, target, found)]
            && (id in s'.table.killed <==> exists k :: found < k < |s.log| && Condemns(s.log[k], id))
  {
    var s := Run(actions);
    var Removing(id, target, found) := At(s, tid);
    var more := Extend(actions, Go(tid));
    NothingToRemove(s, tid);
    FindOfRemoval(actions, tid);
    FoundWasNotKilled(actions, found);
    KilledIsInTheLog(actions, id);
    CondemnedSince(s.log, found, id);
  }

  lemma FindOfRemoval(actions: seq<Action>, tid: nat)
    requires At(Run(actions), tid).Removing?
    ensures var s := Run(actions);
            var Removing(id, target, found) := At(s, tid);
            found < |s.log| && s.log[found] == KillFound(id, target)
  {
    KillsAreTruthful(actions);
    assert UnderWay(Run(actions), Run(actions).threads[tid]);
  }

  // ----- What a kill does not promise -----

  lemma Extend(actions: seq<Action>, a: Action) returns (more: seq<Action>)
    ensures more == actions + [a] && Run(more) == Apply(Run(actions), a)
  {
    more := actions + [a];
    assert more[..|more| - 1] == actions;
  }

  // A run in which one client holds a session and an administrator's kill has found it.
  lemma KillUnderWay(id: SessionId, admin: SessionId) returns (actions: seq<Action>)
    requires id != admin
    ensures var o := Obj(id, 0);
            Run(actions) == State(Table(map[id := o], {}, 1), {}, map[0 := Idle, 1 := Marking(id, o, 1)], 1,
                                  [Served(id, o), KillFound(id, o)])
  {
    var o := Obj(id, 0);
    actions := Extend([], Start(0, Use(id)));
    assert Run(actions) == State(Table(map[], {}, 0), {}, map[0 := Looking(id, false)], 0, []);
    actions := Extend(actions, Go(0));
    actions := Extend(actions, Go(0));
    assert Run(actions) == State(Table(map[], {}, 0), {}, map[0 := Admitting(id, o, false)], 1, []);
    actions := Extend(actions, Go(0));
    assert Run(actions) == State(Table(map[id := o], {}, 1), {}, map[0 := Idle], 1, [Served(id, o)]);
    actions := Extend(actions, Start(1, Kill(id, admin, "admin", true)));
    actions := Extend(actions, Go(1));
  }

  // A kill may report that the session was not found although it has just been killed by this very request:
  // another request of the client met the kill flag first and erased the session.
  lemma KilledButReportedMissing(id: SessionId, admin: SessionId) returns (actions: seq<Action>)
    requires id != admin
    ensures var o := Obj(id, 0);
            && Run(actions).log == [Served(id, o), KillFound(id, o), Evicted(id), KillGone(id, o, 1)]
            && id in Run(actions).table.killed
  {
    var o := Obj(id, 0);
    var log := [Served(id, o), KillFound(id, o)];
    actions := KillUnderWay(id, admin);
    actions := Extend(actions, Go(1));
    assert Run(actions) == State(Table(map[id := o], {}, 1), {o}, map[0 := Idle, 1 := Removing(id, o, 1)], 1, log);
    actions := Extend(actions, Start(2, Use(id)));
    actions := Extend(actions, Go(2));
    actions := Extend(actions, Go(2));
    assert Run(actions).table == Table(map[], {id}, 0) && Run(actions).log == log + [Evicted(id)];
    assert At(Run(actions), 1) == Removing(id, o, 1);
    actions := Extend(actions, Go(1));
  }

  // The client closes the session the kill has found.
  lemma ClosedMeanwhile(id: SessionId, admin: SessionId) returns (actions: seq<Action>)
    requires id != admin
    ensures var o := Obj(id, 0);
            Run(actions) == State(Table(map[], {}, 0), {}, map[0 := Idle, 1 := Marking(id, o, 1)], 1,
                                  [Served(id, o), KillFound(id, o), Served(id, o), Closed(id)])
  {
    var o := Obj(id, 0);
    actions := KillUnderWay(id, admin);
    actions := Extend(actions, Start(0, CloseSession(id)));
    actions := Extend(actions, Go(0));
    assert Run(actions) == State(Table(map[id := o], {}, 1), {}, map[0 := Closing(id), 1 := Marking(id, o, 1)], 1,
                                 [Served(id, o), KillFound(id, o), Served(id, o)]);
    actions := Extend(actions, Go(0));
  }

  // And opens another one with the same id.
  lemma Reopened(id: SessionId, admin: SessionId) returns (actions: seq<Action>)
    requires id != admin
    ensures var (o, n) := (Obj(id, 0), Obj(id, 1));
            Run(actions) == State(Table(map[id := n], {}, 1), {}, map[0 := Idle, 1 := Marking(id, o, 1)], 2,
                                  [Served(id, o), KillFound(id, o), Served(id, o), Closed(id), Served(id, n)])
  {
    var o, n := Obj(id, 0), Obj(id, 1);
    actions := ClosedMeanwhile(id, admin);
    var log := Run(actions).log;
    actions := Extend(actions, Start(0, Use(id)));
    actions := Extend(actions, Go(0));
    assert Run(actions) ==
           State(Table(map[], {}, 0), {}, map[0 := Building(id, false), 1 := Marking(id, o, 1)], 1, log);
    actions := Extend(actions, Go(0));
    assert Run(actions) ==
           State(Table(map[], {}, 0), {}, map[0 := Admitting(id, n, false), 1 := Marking(id, o, 1)], 2, log);
    actions := Extend(actions, Go(0));
  }

  // A successful kill may then erase a session that it has not flagged and whose query it has not interrupted.
  lemma KilledButNotFlagged(id: SessionId, admin: SessionId) returns (actions: seq<Action>)
    requires id != admin
    ensures var (o, n, s) := (Obj(id, 0), Obj(id, 1), Run(actions));
            && s.log == [Served(id, o), KillFound(id, o), Served(id, o), Closed(id), Served(id, n), KillOK(id, o, 1, n)]
            && n !in s.flagged
  {
    actions := Reopened(id, admin);
    actions := Extend(actions, Go(1));
    actions := Extend(actions, Go(1));
  }
}
