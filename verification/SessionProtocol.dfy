/**
 All interleavings of session requests, closes, kills and shutdown. Each lock scope of the server is one atomic
 step of one thread; the unlocked construction of a session and the unlocked write of its kill flag are steps of
 their own. A run is any sequence of actions.
 */
module SessionProtocol {
  import opened SessionTable

  // Session objects differ even when they carry the same id.
  datatype Obj = Obj(id: SessionId, serial: nat)

  datatype Request =
    | Use(id: SessionId)
    | CloseSession(id: SessionId)
    | Kill(target: SessionId, issuer: SessionId, role: string, licensed: bool)
    | Shutdown

  // Where a thread is in its request.
  datatype Thread =
    | Idle
    | Looking(id: SessionId, close: bool)              // before the read lock of GetClientSession
    | Evicting(id: SessionId)                          // saw a flagged session, between the two locks
    | Building(id: SessionId, close: bool)             // no lock held
    | Admitting(id: SessionId, built: Obj, close: bool)
    | Closing(id: SessionId)                           // CloseSession, after GetClientSession succeeded
    | Finding(id: SessionId)                           // HandleKillSession, before FindSession
    | Marking(id: SessionId, target: Obj, found: nat)  // before kill_requested = true; found is the event of the find
    | Removing(id: SessionId, target: Obj, found: nat) // before RemoveSession
    | Releasing

  // What the critical sections decided, in order.
  datatype Event =
    | Served(id: SessionId, session: Obj)              // GetClientSession will return this session
    | Refused(id: SessionId)
    | Evicted(id: SessionId)                           // refused, and the session was erased
    | Closed(id: SessionId) | CloseFailed(id: SessionId)
    | KillFound(id: SessionId, target: Obj)            // FindSession has found this session
    | KillMissing(id: SessionId)                       // FindSession has found nothing
    | KillOK(id: SessionId, target: Obj, found: nat, erased: Obj)  // RemoveSession has erased this session
    | KillGone(id: SessionId, target: Obj, found: nat)             // RemoveSession has found nothing
    | ReleasedAll

  datatype State = State(table: Table<Obj>, flagged: set<Obj>, threads: map<nat, Thread>, next: nat, log: seq<Event>)

  datatype Action = Start(tid: nat, request: Request) | Go(tid: nat)

  const INIT := State(Table(map[], {}, 0), {}, map[], 0, [])

  function At(s: State, tid: nat): Thread {
    if tid in s.threads then s.threads[tid] else Idle
  }

  function Goto(s: State, tid: nat, t: Thread): State {
    s.(threads := s.threads[tid := t])
  }

  function Begin(r: Request): Thread {
    match r
    case Use(id) => Looking(id, false)
    case CloseSession(id) => Looking(id, true)
    case Kill(target, issuer, role, licensed) =>
      if licensed && role == "admin" && target != issuer then Finding(target) else Idle
    case Shutdown => Releasing
  }

  // A decision leaves the thread at t, the table at table, and is logged.
  function Decide(s: State, tid: nat, table: Table<Obj>, e: Event, t: Thread): State {
    Goto(s, tid, t).(table := table, log := s.log + [e])
  }

  // What RemoveSession decides for a kill.
  function Removal(s: State, id: SessionId, target: Obj, found: nat): Event {
    if id in s.table.live then KillOK(id, target, found, s.table.live[id]) else KillGone(id, target, found)
  }

  function Step(s: State, tid: nat): State {
    match At(s, tid)
    case Idle => s
    case Looking(id, close) =>
      (match LookUp(s.table, s.flagged, id)
       case Refuse => Decide(s, tid, s.table, Refused(id), Idle)
       case Flagged => Goto(s, tid, Evicting(id))
       case Found(o) => Decide(s, tid, s.table, Served(id, o), if close then Closing(id) else Idle)
       case Missing => Goto(s, tid, Building(id, close)))
    case Evicting(id) =>
      Decide(s, tid, Evict(s.table, id), if id in s.table.live then Evicted(id) else Refused(id), Idle)
    case Building(id, close) =>
      Goto(s, tid, Admitting(id, Obj(id, s.next), close)).(next := s.next + 1)
    case Admitting(id, built, close) =>
      (match Admit(s.table, s.flagged, id, built)
       case (table, Killed(evicted)) => Decide(s, tid, table, if evicted then Evicted(id) else Refused(id), Idle)
       case (table, Session(o)) => Decide(s, tid, table, Served(id, o), if close then Closing(id) else Idle))
    case Closing(id) =>
      Decide(s, tid, Remove(s.table, id, false), if id in s.table.live then Closed(id) else CloseFailed(id), Idle)
    case Finding(id) =>
      if id in s.table.live then
        var target := s.table.live[id];
        Decide(s, tid, s.table, KillFound(id, target), Marking(id, target, |s.log|))
      else Decide(s, tid, s.table, KillMissing(id), Idle)
    case Marking(id, target, found) =>
      Goto(s, tid, Removing(id, target, found)).(flagged := s.flagged + {target})
    case Removing(id, target, found) =>
      Decide(s, tid, Remove(s.table, id, true), Removal(s, id, target, found), Idle)
    case Releasing =>
      Decide(s, tid, ReleaseAll(s.table), ReleasedAll, Idle)
  }

  function Apply(s: State, a: Action): State {
    match a
    case Start(tid, r) => if At(s, tid) == Idle then Goto(s, tid, Begin(r)) else s
    case Go(tid) => Step(s, tid)
  }

  function Run(actions: seq<Action>): State {
    if actions == [] then INIT else Apply(Run(actions[..|actions| - 1]), actions[|actions| - 1])
  }

  // ----- What every run keeps -----

  predicate Removes(e: Event, id: SessionId) {
    e == Evicted(id) || e == Closed(id) || (e.KillOK? && e.id == id) || e == ReleasedAll
  }

  // Some removal of id happened after event i and before event j.
  ghost predicate RemovedBetween(log: seq<Event>, i: int, j: int, id: SessionId) {
    exists k :: 0 <= i < k < j <= |log| && Removes(log[k], id)
  }

  // A session that was handed out is still the live one of its id unless the id has been removed since.
  ghost predicate Current(log: seq<Event>, live: map<SessionId, Obj>) {
    forall i :: 0 <= i < |log| && log[i].Served? ==>
      ((log[i].id in live && live[log[i].id] == log[i].session) <==> !RemovedBetween(log, i, |log|, log[i].id))
  }

  // Two calls for one id got the same session exactly if the id was not removed in between.
  ghost predicate Stable(log: seq<Event>) {
    forall i, j :: 0 <= i < j < |log| && log[i].Served? && log[j].Served? && log[i].id == log[j].id ==>
      (log[i].session == log[j].session <==> !RemovedBetween(log, i, j, log[i].id))
  }

  // A session still being built has been handed to nobody.
  ghost predicate FreshBuilds(s: State) {
    && (forall t :: t in s.threads && s.threads[t].Admitting? ==>
          && s.threads[t].built.id == s.threads[t].id && s.threads[t].built.serial < s.next
          && (forall e :: e in s.log && e.Served? ==> e.session != s.threads[t].built))
    && (forall t, u :: t in s.threads && u in s.threads && t != u && s.threads[t].Admitting? && s.threads[u].Admitting? ==>
          s.threads[t].built != s.threads[u].built)
    && (forall e :: e in s.log && e.Served? ==> e.session.serial < s.next)
    && (forall id :: id in s.table.live ==> s.table.live[id].serial < s.next)
    && (forall t, id :: t in s.threads && s.threads[t].Admitting? && id in s.table.live ==> s.table.live[id] != s.threads[t].built)
  }

  ghost predicate KillsLast(s: State) {
    forall e :: e in s.log && e.KillOK? ==> e.id in s.table.killed
  }

  ghost predicate Inv(s: State) {
    Sound(s.table) && KillsLast(s) && FreshBuilds(s) && Current(s.log, s.table.live) && Stable(s.log)
  }

  // How one more event may go with a change of the live sessions.
  ghost predicate Explains(log: seq<Event>, live: map<SessionId, Obj>, e: Event, live': map<SessionId, Obj>) {
    if e.Served? then
      && live' == live[e.id := e.session]
      && (e.id in live ==> live[e.id] == e.session)
      && (e.id !in live ==> forall f :: f in log && f.Served? ==> f.session != e.session)
    else
      forall id :: if Removes(e, id) then id !in live' else (id in live' <==> id in live) && (id in live ==> live'[id] == live[id])
  }

  lemma OneMoreEvent(log: seq<Event>, e: Event, i: int, id: SessionId)
    requires 0 <= i < |log|
    ensures RemovedBetween(log + [e], i, |log|, id) == RemovedBetween(log, i, |log|, id)
    ensures RemovedBetween(log + [e], i, |log| + 1, id) <==> RemovedBetween(log, i, |log|, id) || Removes(e, id)
  {
    var log' := log + [e];
    if RemovedBetween(log, i, |log|, id) {
      var k :| i < k < |log| && Removes(log[k], id);
      assert Removes(log'[k], id);
    }
    assert log'[|log|] == e;
  }

  lemma HistoryStep(log: seq<Event>, live: map<SessionId, Obj>, e: Event, live': map<SessionId, Obj>)
    requires Current(log, live) && Stable(log) && Explains(log, live, e, live')
    ensures Current(log + [e], live') && Stable(log + [e])
  {
    var log' := log + [e];
    forall i | 0 <= i < |log'| && log'[i].Served?
      ensures (log'[i].id in live' && live'[log'[i].id] == log'[i].session) <==> !RemovedBetween(log', i, |log'|, log'[i].id)
    {
      if i < |log| {
        OneMoreEvent(log, e, i, log[i].id);
        assert log[i] in log;
      }
    }
    forall i, j | 0 <= i < j < |log'| && log'[i].Served? && log'[j].Served? && log'[i].id == log'[j].id
      ensures log'[i].session == log'[j].session <==> !RemovedBetween(log', i, j, log'[i].id)
    {
      if j < |log| {
        EarlierEvents(log, e, i, j, log[i].id);
      } else {
        OneMoreEvent(log, e, i, log[i].id);
        assert log[i] in log;
      }
    }
  }

  lemma EarlierEvents(log: seq<Event>, e: Event, i: int, j: int, id: SessionId)
    requires 0 <= i < j <= |log|
    ensures RemovedBetween(log + [e], i, j, id) == RemovedBetween(log, i, j, id)
  {
    if RemovedBetween(log, i, j, id) {
      var k :| i < k < j && Removes(log[k], id);
      assert Removes((log + [e])[k], id);
    }
  }

  // ----- Each step keeps the invariant -----

  // A decision of a thread that holds no session under construction afterwards.
  lemma DecideKeeps(s: State, tid: nat, table: Table<Obj>, e: Event, t: Thread)
    requires Inv(s) && Sound(table) && s.table.killed <= table.killed && !t.Admitting?
    requires Explains(s.log, s.table.live, e, table.live)
    requires e.KillOK? ==> e.id in table.killed
    requires e.Served? ==> e.session.serial < s.next
    requires e.Served? ==> forall u :: u != tid && u in s.threads && s.threads[u].Admitting? ==> s.threads[u].built != e.session
    ensures Inv(Decide(s, tid, table, e, t))
  {
    var s' := Decide(s, tid, table, e, t);
    HistoryStep(s.log, s.table.live, e, table.live);
    forall id | id in table.live
      ensures (id in s.table.live && table.live[id] == s.table.live[id]) || (e.Served? && id == e.id && table.live[id] == e.session)
    {}
    assert FreshBuilds(s');
    assert KillsLast(s');
  }

  lemma GotoKeeps(s: State, tid: nat, t: Thread)
    requires Inv(s) && !t.Admitting?
    ensures Inv(Goto(s, tid, t))
  {}

  lemma BuildKeeps(s: State, tid: nat)
    requires Inv(s) && At(s, tid).Building?
    ensures Inv(Step(s, tid))
  {
    var id, close := s.threads[tid].id, s.threads[tid].close;
    var o := Obj(id, s.next);
    var s' := Step(s, tid);
    assert s'.threads == s.threads[tid := Admitting(id, o, close)];
    assert forall e :: e in s.log && e.Served? ==> e.session != o;
  }

  // Nothing changes but the log.
  lemma QuietDecision(s: State, tid: nat, e: Event, t: Thread)
    requires Inv(s) && (e.Refused? || e.KillFound? || e.KillMissing? || e.KillGone? || e.CloseFailed?) && !t.Admitting?
    ensures Inv(Decide(s, tid, s.table, e, t))
  {
    DecideKeeps(s, tid, s.table, e, t);
  }

  // The live session of an id is handed out.
  lemma ServeLive(s: State, tid: nat, id: SessionId, t: Thread)
    requires Inv(s) && id in s.table.live && !t.Admitting?
    ensures Inv(Decide(s, tid, s.table, Served(id, s.table.live[id]), t))
  {
    assert s.table.live[id := s.table.live[id]] == s.table.live;
    DecideKeeps(s, tid, s.table, Served(id, s.table.live[id]), t);
  }

  // A live id is erased, with or without being remembered as killed.
  lemma EraseDecision(s: State, tid: nat, id: SessionId, kill: bool, e: Event)
    requires Inv(s) && id in s.table.live
    requires if kill then e == Evicted(id) || (e.KillOK? && e.id == id) else e == Closed(id)
    ensures Inv(Decide(s, tid, Remove(s.table, id, kill), e, Idle))
  {
    EraseSound(s.table, id);
    DecideKeeps(s, tid, Remove(s.table, id, kill), e, Idle);
  }

  lemma LookKeeps(s: State, tid: nat)
    requires Inv(s) && At(s, tid).Looking?
    ensures Inv(Step(s, tid))
  {
    var Looking(id, close) := At(s, tid);
    match LookUp(s.table, s.flagged, id) {
      case Refuse => QuietDecision(s, tid, Refused(id), Idle);
      case Flagged => GotoKeeps(s, tid, Evicting(id));
      case Found(o) => ServeLive(s, tid, id, if close then Closing(id) else Idle);
      case Missing => GotoKeeps(s, tid, Building(id, close));
    }
  }

  lemma EvictKeeps(s: State, tid: nat)
    requires Inv(s) && At(s, tid).Evicting?
    ensures Inv(Step(s, tid))
  {
    var id := At(s, tid).id;
    EraseSound(s.table, id);
    if id in s.table.live {
      EraseDecision(s, tid, id, true, Evicted(id));
    } else {
      DecideKeeps(s, tid, Evict(s.table, id), Refused(id), Idle);
    }
  }

  lemma NewSession(s: State, tid: nat)
    requires Inv(s) && At(s, tid).Admitting? && At(s, tid).id !in s.table.live && At(s, tid).id !in s.table.killed
    ensures Inv(Step(s, tid))
  {
    var Admitting(id, built, close) := s.threads[tid];
    AdmitSound(s.table, s.flagged, id, built);
    var (table, r) := Admit(s.table, s.flagged, id, built);
    DecideKeeps(s, tid, table, Served(id, built), if close then Closing(id) else Idle);
  }

  lemma AdmitKeeps(s: State, tid: nat)
    requires Inv(s) && At(s, tid).Admitting?
    ensures Inv(Step(s, tid))
  {
    var Admitting(id, built, close) := s.threads[tid];
    if id in s.table.killed {
      QuietDecision(s, tid, Refused(id), Idle);
    } else if id !in s.table.live {
      NewSession(s, tid);
    } else if s.table.live[id] in s.flagged {
      EraseDecision(s, tid, id, true, Evicted(id));
    } else {
      ServeLive(s, tid, id, if close then Closing(id) else Idle);
    }
  }

  lemma RemoveKeeps(s: State, tid: nat)
    requires Inv(s) && (At(s, tid).Closing? || At(s, tid).Removing?)
    ensures Inv(Step(s, tid))
  {
    var id, kill := At(s, tid).id, At(s, tid).Removing?;
    if id in s.table.live {
      EraseDecision(s, tid, id, kill, if kill then Removal(s, id, At(s, tid).target, At(s, tid).found) else Closed(id));
    } else {
      QuietDecision(s, tid, if kill then Removal(s, id, At(s, tid).target, At(s, tid).found) else CloseFailed(id), Idle);
    }
  }

  lemma StepKeeps(s: State, tid: nat)
    requires Inv(s)
    ensures Inv(Step(s, tid))
  {
    match At(s, tid) {
      case Idle =>
      case Looking(id, close) => LookKeeps(s, tid);
      case Evicting(id) => EvictKeeps(s, tid);
      case Building(id, close) => BuildKeeps(s, tid);
      case Admitting(id, built, close) => AdmitKeeps(s, tid);
      case Closing(id) => RemoveKeeps(s, tid);
      case Finding(id) =>
        if id in s.table.live {
          var target := s.table.live[id];
          QuietDecision(s, tid, KillFound(id, target), Marking(id, target, |s.log|));
        } else {
          QuietDecision(s, tid, KillMissing(id), Idle);
        }
      case Marking(id, target, found) =>
        GotoKeeps(s.(flagged := s.flagged + {target}), tid, Removing(id, target, found));
      case Removing(id, target, found) => RemoveKeeps(s, tid);
      case Releasing => DecideKeeps(s, tid, ReleaseAll(s.table), ReleasedAll, Idle);
    }
  }

  lemma {:induction false} RunKeeps(actions: seq<Action>)
    ensures Inv(Run(actions))
  {
    if actions != [] {
      var s := Run(actions[..|actions| - 1]);
      RunKeeps(actions[..|actions| - 1]);
      match actions[|actions| - 1] {
        case Start(tid, r) => GotoKeeps(s, tid, Begin(r));
        case Go(tid) => StepKeeps(s, tid);
      }
    }
  }

  // ----- Main results, for every interleaving -----

  // Once a kill of an id has succeeded, no session is ever handed out for that id again: not to a thread that
  // had already passed the fast path, nor to one that had already built a session.
  lemma NoSessionAfterKill(actions: seq<Action>, i: int, j: int)
    requires var log := Run(actions).log; 0 <= i < j < |log| && log[i].KillOK? && log[j].Served?
    ensures Run(actions).log[i].id != Run(actions).log[j].id
    decreases |actions|
  {
    var prefix, a := actions[..|actions| - 1], actions[|actions| - 1];
    var s, s' := Run(prefix), Run(actions);
    LogGrows(s, a);
    if j < |s.log| {
      NoSessionAfterKill(prefix, i, j);
    } else {
      RunKeeps(prefix);
      assert s.log[i] in s.log;
      AdmitSound(s.table, s.flagged, s'.log[j].id, s'.log[j].session);
    }
  }

  lemma LogGrows(s: State, a: Action)
    ensures Apply(s, a).log == s.log || (exists e :: Apply(s, a).log == s.log + [e])
  {
    var s' := Apply(s, a);
    if s'.log != s.log { assert s'.log == s.log + [s'.log[|s.log|]]; }
  }

  // Two calls that hand out a session for one id hand out the same object exactly if no close, kill, eviction or
  // shutdown removed the id between their deciding critical sections, however many threads built one meanwhile.
  lemma SameSessionUnlessRemoved(actions: seq<Action>, i: int, j: int)
    requires var log := Run(actions).log;
             0 <= i < j < |log| && log[i].Served? && log[j].Served? && log[i].id == log[j].id
    ensures var log := Run(actions).log;
            log[i].session == log[j].session <==> !exists k :: i < k < j && Removes(log[k], log[i].id)
  {
    RunKeeps(actions);
    var log := Run(actions).log;
    assert RemovedBetween(log, i, j, log[i].id) <==> exists k :: i < k < j && Removes(log[k], log[i].id);
  }

  // The active-connections metric is the number of live sessions, and no killed id is live.
  lemma MetricCountsLiveSessions(actions: seq<Action>)
    ensures var t := Run(actions).table; t.gauge == |t.live| && t.live.Keys !! t.killed
  {
    RunKeeps(actions);
  }
}
