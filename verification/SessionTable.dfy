/**
 The table of live client sessions and the ids of killed sessions. Every operation here is one critical section
 under the sessions mutex; SessionProtocol interleaves them.
 */
module SessionTable {
  import opened Text

  type SessionId = string

  // gauge is the active-connections metric: the sum of all increments and decrements recorded so far.
  datatype Table<O> = Table(live: map<SessionId, O>, killed: set<SessionId>, gauge: int)

  datatype Look<O> = Refuse | Flagged | Found(session: O) | Missing

  datatype Reply<O> = Killed(evicted: bool) | Session(session: O)

  // ----- The critical sections, as functions of the table and of the set of sessions marked for termination -----

  function LookUp<O>(t: Table<O>, flagged: set<O>, id: SessionId): Look<O> {
    if id in t.killed then Refuse
    else if id !in t.live then Missing
    else if t.live[id] in flagged then Flagged
    else Found(t.live[id])
  }

  function Erase<O>(t: Table<O>, id: SessionId): Table<O> {
    if id in t.live then t.(live := t.live - {id}, gauge := t.gauge - 1) else t
  }

  function Evict<O>(t: Table<O>, id: SessionId): Table<O> {
    Erase(t, id).(killed := t.killed + {id})
  }

  function Admit<O>(t: Table<O>, flagged: set<O>, id: SessionId, built: O): (Table<O>, Reply<O>) {
    if id in t.killed then (t, Killed(false))
    else if id in t.live then
      if t.live[id] in flagged then (Evict(t, id), Killed(true)) else (t, Session(t.live[id]))
    else (t.(live := t.live[id := built], gauge := t.gauge + 1), Session(built))
  }

  function Remove<O>(t: Table<O>, id: SessionId, wasKilled: bool): Table<O> {
    if id !in t.live then t else if wasKilled then Evict(t, id) else Erase(t, id)
  }

  function ReleaseAll<O>(t: Table<O>): Table<O> {
    t.(live := map[], gauge := t.gauge - |t.live|)
  }

  // No killed id is live, and the metric counts the live sessions.
  ghost predicate Sound<O>(t: Table<O>) {
    t.live.Keys !! t.killed && t.gauge == |t.live|
  }

  lemma EraseSound<O>(t: Table<O>, id: SessionId)
    requires Sound(t)
    ensures Sound(Erase(t, id)) && id !in Erase(t, id).live
    ensures Sound(Evict(t, id)) && t.killed <= Evict(t, id).killed
  {
    if id in t.live {
      var m := t.live - {id};
      assert m.Keys == t.live.Keys - {id};
      assert |m| == |m.Keys| && |t.live| == |t.live.Keys|;
    }
  }

  lemma AdmitSound<O>(t: Table<O>, flagged: set<O>, id: SessionId, built: O)
    requires Sound(t)
    ensures var (t', r) := Admit(t, flagged, id, built);
            && Sound(t') && t.killed <= t'.killed
            && (r.Session? ==> id !in t'.killed && t'.live == t.live[id := r.session])
            && (r.Killed? ==> id in t'.killed && id !in t'.live)
  {
    EraseSound(t, id);
    if id !in t.live {
      var m := t.live[id := built];
      assert m.Keys == t.live.Keys + {id};
      assert |m| == |m.Keys| && |t.live| == |t.live.Keys|;
    }
  }

  // ----- The same sections as the server performs them, updating its member maps -----

  class ClientSession {
    const sessionId: SessionId
    var killRequested: bool

    constructor (id: SessionId)
      ensures sessionId == id && !killRequested
    {
      sessionId, killRequested := id, false;
    }
  }

  class Server {
    var clientSessions: map<SessionId, ClientSession>
    var killedSessionIds: set<SessionId>
    var activeConnections: int

    ghost function View(): Table<ClientSession>
      reads this
    {
      Table(clientSessions, killedSessionIds, activeConnections)
    }

    // The live sessions marked for termination.
    ghost function Marked(): set<ClientSession>
      reads this, clientSessions.Values
    {
      set s | s in clientSessions.Values && s.killRequested
    }

    constructor ()
      ensures View() == Table(map[], {}, 0)
    {
      clientSessions, killedSessionIds, activeConnections := map[], {}, 0;
    }

    method FastPath(id: SessionId) returns (r: Look<ClientSession>)
      ensures r == LookUp(View(), Marked(), id)
    {
      if id in killedSessionIds { return Refuse; }
      if id in clientSessions {
        var s := clientSessions[id];
        assert s in clientSessions.Values;
        if s.killRequested { return Flagged; }
        return Found(s);
      }
      return Missing;
    }

    method EvictKilled(id: SessionId)
      modifies this
      ensures View() == Evict(old(View()), id)
    {
      var erasedCount := if id in clientSessions then 1 else 0;
      clientSessions := clientSessions - {id};
      killedSessionIds := killedSessionIds + {id};
      if erasedCount > 0 { activeConnections := activeConnections - 1; }
      assert erasedCount == 0 ==> clientSessions == old(clientSessions);
    }

    method SlowPath(id: SessionId, newSession: ClientSession) returns (r: Reply<ClientSession>)
      modifies this
      ensures (View(), r) == Admit(old(View()), old(Marked()), id, newSession)
    {
      if id in killedSessionIds { return Killed(false); }
      if id in clientSessions {
        var s := clientSessions[id];
        assert s in clientSessions.Values;
        if s.killRequested {
          EvictKilled(id);
          return Killed(true);
        }
        return Session(s);
      }
      clientSessions := clientSessions[id := newSession];
      activeConnections := activeConnections + 1;
      return Session(newSession);
    }

    // A call that meets no interference from other threads.
    method GetClientSession(id: SessionId) returns (r: Reply<ClientSession>)
      requires Sound(View())
      modifies this
      ensures Sound(View())
      ensures r.Killed? <==> id in old(killedSessionIds) || (id in old(clientSessions) && old(clientSessions[id].killRequested))
      ensures r.Killed? ==> id in killedSessionIds && id !in clientSessions
      ensures r.Session? ==> clientSessions == old(clientSessions)[id := r.session] && killedSessionIds == old(killedSessionIds)
      ensures id in old(clientSessions) && r.Session? ==> r.session == old(clientSessions[id])
      ensures id !in old(clientSessions) && r.Session? ==> fresh(r.session) && r.session.sessionId == id
    {
      var look := FastPath(id);
      match look {
        case Refuse => return Killed(false);
        case Flagged =>
          EraseSound(View(), id);
          EvictKilled(id);
          return Killed(true);
        case Found(s) => return Session(s);
        case Missing =>
          var s := new ClientSession(id);
          AdmitSound(View(), Marked(), id, s);
          r := SlowPath(id, s);
      }
    }

    // Unlike FastPath, this also finds a session marked for termination; that a killed id is refused is implied.
    method FindSession(id: SessionId) returns (r: Option<ClientSession>)
      ensures Sound(View()) ==>
                match LookUp(View(), Marked(), id)
                case Refuse => r == None
                case Missing => r == None
                case Flagged => r.Some? && r.value.killRequested
                case Found(s) => r == Some(s) && !s.killRequested
      ensures r == if id in clientSessions then Some(clientSessions[id]) else None
    {
      r := None;
      if id in clientSessions {
        assert clientSessions[id] in clientSessions.Values;
        r := Some(clientSessions[id]);
      }
    }

    method RemoveSession(id: SessionId, wasKilled: bool) returns (ok: bool)
      modifies this
      ensures View() == Remove(old(View()), id, wasKilled)
      ensures ok <==> id in old(clientSessions)
    {
      ok := id in clientSessions;
      if ok {
        clientSessions := clientSessions - {id};
        activeConnections := activeConnections - 1;
        if wasKilled { killedSessionIds := killedSessionIds + {id}; }
      }
    }

    method ReleaseAllSessions()
      modifies this
      ensures View() == ReleaseAll(old(View()))
    {
      var sessionCount := |clientSessions|;
      clientSessions := map[];
      if sessionCount > 0 { activeConnections := activeConnections - sessionCount; }
    }
  }
}
