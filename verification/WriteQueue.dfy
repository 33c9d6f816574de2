/**
 The queue between the threads that produce instrumentation writes and the one thread that executes them, as a
 transition system. QueueWrite reads the shutdown flag before it takes the lock, so reading the flag and pushing
 the write are separate steps; the writer's test of its wait predicate and its pop are one step.
 A record is written twice: an INSERT when it is constructed, an UPDATE when its last holder lets go of it. Holders
 are the server's tables of statements and sessions, its instance field, and the threads that serve requests.
 */
module WriteQueue {
  import opened Text

  type RecordId = nat
  type Thread = nat

  datatype Write = Insert(id: RecordId) | Update(id: RecordId)

  datatype Holder = Statements | Sessions | Instance | Request(t: Thread)

  datatype State = State(
    shutdown: bool,
    exited: bool,                  // the writer thread has left its loop
    queue: seq<Write>,
    inFlight: Option<Write>,       // popped, not yet executed
    executed: seq<Write>,
    accepted: seq<Write>,          // everything that was pushed, in order
    pending: map<Thread, Write>,   // threads that found the flag clear and have not pushed yet
    refused: set<Write>,           // dropped because the flag was set
    created: set<RecordId>,        // records whose constructor has begun
    closed: set<RecordId>,         // records whose destructor has begun
    holders: map<RecordId, set<Holder>>)

  datatype Action =
    | Construct(t: Thread, id: RecordId)
    | Share(id: RecordId, giver: Holder, taker: Holder)  // put into a table, or looked up in one
    | Drop(t: Thread, h: Holder, id: RecordId)           // this thread makes this holder let go
    | Push(t: Thread)
    | Take | Execute | Exit
    | RequestShutdown

  const INIT := State(false, false, [], None, [], [], map[], {}, {}, {}, map[])

  // The constructor of the record is still running.
  predicate UnderConstruction(s: State, id: RecordId) {
    exists u :: u in s.pending && s.pending[u] == Insert(id)
  }

  // Nobody else holds the record.
  predicate LastHolder(s: State, h: Holder, id: RecordId) {
    id in s.holders && s.holders[id] == {h}
  }

  // A constructor runs once; a record is shared and dropped after its constructor has returned.
  predicate Enabled(s: State, a: Action) {
    match a
    case Construct(t, id) => t !in s.pending && id !in s.created
    case Share(id, giver, taker) => id in s.holders && giver in s.holders[id] && !UnderConstruction(s, id)
    case Drop(t, h, id) =>
      && t !in s.pending && (h.Request? ==> h.t == t)
      && id in s.holders && h in s.holders[id] && !UnderConstruction(s, id)
    case Push(t) => t in s.pending
    case Take => !s.exited && s.inFlight.None? && s.queue != []
    case Execute => s.inFlight.Some?
    case Exit => !s.exited && s.inFlight.None? && s.shutdown && s.queue == []
    case RequestShutdown => true
  }

  // The unlocked test at the top of QueueWrite.
  function Offer(s: State, t: Thread, w: Write): State {
    if s.shutdown then s.(refused := s.refused + {w}) else s.(pending := s.pending[t := w])
  }

  // An action that cannot happen changes nothing.
  function Step(s: State, a: Action): State {
    if !Enabled(s, a) then s
    else match a
      case Construct(t, id) =>
        Offer(s, t, Insert(id)).(created := s.created + {id}, holders := s.holders[id := {Request(t)}])
      case Share(id, giver, taker) => s.(holders := s.holders[id := s.holders[id] + {taker}])
      case Drop(t, h, id) =>
        var fewer := s.holders[id := s.holders[id] - {h}];
        if LastHolder(s, h, id) then Offer(s, t, Update(id)).(closed := s.closed + {id}, holders := fewer)
        else s.(holders := fewer)
      case Push(t) =>
        s.(queue := s.queue + [s.pending[t]], accepted := s.accepted + [s.pending[t]], pending := s.pending - {t})
      case Take => s.(queue := s.queue[1..], inFlight := Some(s.queue[0]))
      case Execute => s.(executed := s.executed + [s.inFlight.value], inFlight := None)
      case Exit => s.(exited := true)
      case RequestShutdown => s.(shutdown := true)
  }

  function Run(s: State, actions: seq<Action>): State
    decreases |actions|
  {
    if actions == [] then s else Run(Step(s, actions[0]), actions[1..])
  }

  // ----- Nothing is lost, repeated or reordered -----

  function Moving(s: State): seq<Write> {
    if s.inFlight.Some? then [s.inFlight.value] else []
  }

  ghost predicate Conserved(s: State) {
    s.executed + Moving(s) + s.queue == s.accepted
  }

  ghost predicate Offered(s: State, w: Write) {
    w in s.accepted || w in s.refused || exists t :: t in s.pending && s.pending[t] == w
  }

  // Every write has exactly one place.
  ghost predicate Once(s: State) {
    && (forall i, j :: 0 <= i < j < |s.accepted| ==> s.accepted[i] != s.accepted[j])
    && (forall t :: t in s.pending ==> s.pending[t] !in s.accepted && s.pending[t] !in s.refused)
    && (forall t, u :: t in s.pending && u in s.pending && t != u ==> s.pending[t] != s.pending[u])
    && (forall w :: w in s.refused ==> w !in s.accepted)
  }

  // Constructors and destructors have offered their writes, and nobody else has.
  ghost predicate Accounted(s: State) {
    && (forall id :: id in s.created <==> Offered(s, Insert(id)))
    && (forall id :: id in s.closed <==> Offered(s, Update(id)))
    && s.closed <= s.created
  }

  // A record is held by somebody until its destructor begins.
  ghost predicate Held(s: State) {
    && s.holders.Keys == s.created
    && forall id :: id in s.created ==> (id in s.closed <==> s.holders[id] == {})
  }

  ghost predicate Before(accepted: seq<Write>, n: nat, w: Write)
    requires n <= |accepted|
  {
    exists i :: 0 <= i < n && accepted[i] == w
  }

  // An UPDATE is behind its INSERT.
  ghost predicate Ordered(s: State) {
    && (forall j :: 0 <= j < |s.accepted| && s.accepted[j].Update? ==> Before(s.accepted, j, Insert(s.accepted[j].id)))
    && (forall t :: t in s.pending && s.pending[t].Update? ==> Insert(s.pending[t].id) in s.accepted)
  }

  ghost predicate Flags(s: State) {
    && (s.refused != {} ==> s.shutdown)
    && (s.exited ==> s.shutdown && s.inFlight.None?)
  }

  ghost predicate Inv(s: State) {
    Conserved(s) && Once(s) && Accounted(s) && Held(s) && Ordered(s) && Flags(s)
  }

  lemma ConservedStep(s: State, a: Action)
    requires Conserved(s)
    ensures Conserved(Step(s, a))
  {
    if Enabled(s, a) {
      match a
      case Push(t) =>
        assert s.executed + Moving(s) + (s.queue + [s.pending[t]]) == s.executed + Moving(s) + s.queue + [s.pending[t]];
      case Take =>
        assert s.queue == [s.queue[0]] + s.queue[1..];
        assert s.executed + [s.queue[0]] + s.queue[1..] == s.executed + s.queue;
      case _ =>
    }
  }

  // This action runs a destructor.
  predicate Closes(s: State, a: Action) {
    a.Drop? && LastHolder(s, a.h, a.id)
  }

  lemma OfferedStep(s: State, a: Action, w: Write)
    requires Enabled(s, a)
    ensures Offered(Step(s, a), w) <==>
              Offered(s, w) || (a.Construct? && w == Insert(a.id)) || (Closes(s, a) && w == Update(a.id))
  {
    var s' := Step(s, a);
    match a
    case Construct(t, id) =>
      if !s.shutdown {
        assert s'.pending[t] == Insert(id);
        if u :| u in s.pending && s.pending[u] == w { assert s'.pending[u] == w; }
      }
    case Drop(t, h, id) =>
      if Closes(s, a) && !s.shutdown {
        assert s'.pending[t] == Update(id);
        if u :| u in s.pending && s.pending[u] == w { assert s'.pending[u] == w; }
      }
    case Push(t) =>
      assert s.pending[t] in s'.accepted;
      if u :| u in s.pending && s.pending[u] == w && u != t { assert s'.pending[u] == w; }
    case _ =>
  }

  lemma AccountedStep(s: State, a: Action)
    requires Accounted(s) && Held(s)
    ensures Accounted(Step(s, a))
  {
    if Enabled(s, a) {
      forall id ensures id in Step(s, a).created <==> Offered(Step(s, a), Insert(id)) { OfferedStep(s, a, Insert(id)); }
      forall id ensures id in Step(s, a).closed <==> Offered(Step(s, a), Update(id)) { OfferedStep(s, a, Update(id)); }
    }
  }

  lemma HeldStep(s: State, a: Action)
    requires Held(s) && Accounted(s)
    ensures Held(Step(s, a))
  {
    if a.Drop? && Enabled(s, a) && s.holders[a.id] - {a.h} == {} {
      forall g | g in s.holders[a.id] ensures g == a.h { assert g !in s.holders[a.id] - {a.h}; }
      assert s.holders[a.id] == {a.h};
    }
  }

  lemma OnceStep(s: State, a: Action)
    requires Once(s) && Accounted(s) && Held(s)
    ensures Once(Step(s, a))
  {
    if Enabled(s, a) {
      match a
      case Construct(t, id) => OnceOffer(s, t, Insert(id));
      case Drop(t, h, id) =>
        if Closes(s, a) {
          assert id !in s.closed;
          OnceOffer(s, t, Update(id));
        }
      case Push(t) => OncePush(s, t);
      case _ =>
    }
  }

  lemma OnceOffer(s: State, t: Thread, w: Write)
    requires Once(s) && t !in s.pending && !Offered(s, w)
    ensures Once(Offer(s, t, w))
  {}

  lemma OncePush(s: State, t: Thread)
    requires Once(s) && t in s.pending
    ensures Once(Step(s, Push(t)))
  {}

  lemma OrderedStep(s: State, a: Action)
    requires Ordered(s) && Accounted(s) && Held(s) && Flags(s)
    ensures Ordered(Step(s, a))
  {
    if Enabled(s, a) {
      var s' := Step(s, a);
      forall j | 0 <= j < |s'.accepted| && s'.accepted[j].Update?
        ensures Before(s'.accepted, j, Insert(s'.accepted[j].id))
      {
        var w := Insert(s'.accepted[j].id);
        if j < |s.accepted| {
          assert Before(s.accepted, j, w);
          var i :| 0 <= i < j && s.accepted[i] == w;
          assert s'.accepted[i] == w;
        } else {
          assert w in s.accepted;
          var i :| 0 <= i < |s.accepted| && s.accepted[i] == w;
          assert s'.accepted[i] == w;
        }
      }
      if Closes(s, a) && !s.shutdown {
        assert Offered(s, Insert(a.id)) && Insert(a.id) !in s.refused;
      }
    }
  }

  lemma FlagsStep(s: State, a: Action)
    requires Flags(s)
    ensures Flags(Step(s, a))
  {}

  lemma {:induction false} RunKeeps(s: State, actions: seq<Action>)
    requires Inv(s)
    ensures Inv(Run(s, actions))
    decreases |actions|
  {
    if actions != [] {
      ConservedStep(s, actions[0]);
      OnceStep(s, actions[0]);
      AccountedStep(s, actions[0]);
      HeldStep(s, actions[0]);
      OrderedStep(s, actions[0]);
      FlagsStep(s, actions[0]);
      RunKeeps(Step(s, actions[0]), actions[1..]);
    }
  }

  lemma InitHolds()
    ensures Inv(INIT)
  {}

  // In every run the writes that were executed, the one in flight and the queue are the accepted writes in push
  // order, each record's writes were accepted at most once, and an accepted UPDATE is behind its INSERT.
  lemma WritesAreConserved(actions: seq<Action>)
    ensures var s := Run(INIT, actions);
            && s.executed + Moving(s) + s.queue == s.accepted
            && (forall i, j :: 0 <= i < j < |s.accepted| ==> s.accepted[i] != s.accepted[j])
            && forall j :: 0 <= j < |s.accepted| && s.accepted[j].Update? ==> Before(s.accepted, j, Insert(s.accepted[j].id))
  {
    InitHolds();
    RunKeeps(INIT, actions);
  }

  // ----- Shutdown -----

  // Every record has been closed, and no thread is inside QueueWrite.
  predicate Quiet(s: State) {
    s.pending == map[] && s.closed == s.created && !s.shutdown
  }

  ghost predicate Draining(s: State) {
    s.shutdown && s.pending == map[] && (s.exited ==> s.queue == [])
  }

  lemma {:induction false} DrainingKeeps(s: State, actions: seq<Action>)
    requires Draining(s)
    ensures Draining(Run(s, actions)) && Run(s, actions).accepted == s.accepted
    decreases |actions|
  {
    if actions != [] { DrainingKeeps(Step(s, actions[0]), actions[1..]); }
  }

  lemma {:induction false} RunConcat(s: State, a: seq<Action>, b: seq<Action>)
    ensures Run(s, a + b) == Run(Run(s, a), b)
    decreases |a|
  {
    if a == [] {
      assert a + b == b;
    } else {
      assert (a + b)[1..] == a[1..] + b;
      RunConcat(Step(s, a[0]), a[1..], b);
    }
  }

  // Requested when nobody is inside QueueWrite: what had been accepted is executed, and nothing else.
  lemma AfterRequest(before: seq<Action>, after: seq<Action>)
    requires Run(INIT, before).pending == map[] && !Run(INIT, before).shutdown
    requires Run(INIT, before + [RequestShutdown] + after).exited
    ensures var s := Run(INIT, before + [RequestShutdown] + after);
            && Inv(Run(INIT, before))
            && s.executed == s.accepted == Run(INIT, before).accepted && s.queue == []
  {
    var q := Run(INIT, before);
    RunConcat(INIT, before, [RequestShutdown]);
    assert [RequestShutdown][1..] == [];
    RunConcat(INIT, before + [RequestShutdown], after);
    InitHolds();
    RunKeeps(INIT, before);
    DrainedAfterFlag(q, after);
  }

  lemma DrainedAfterFlag(q: State, after: seq<Action>)
    requires Inv(q) && q.pending == map[] && !q.shutdown
    requires Run(Step(q, RequestShutdown), after).exited
    ensures var s := Run(Step(q, RequestShutdown), after);
            s.executed == s.accepted == q.accepted && s.queue == []
  {
    var start := Step(q, RequestShutdown);
    var s := Run(start, after);
    RunKeeps(q, [RequestShutdown]);
    assert [RequestShutdown][1..] == [];
    RunKeeps(start, after);
    DrainingKeeps(start, after);
    assert s.executed + [] + [] == s.accepted;
  }

  // Shutdown is requested once every record has been closed. When the writer has left, every write has been
  // executed, and the UPDATE of every inserted row after its INSERT, whatever else was attempted meanwhile.
  lemma ShutdownAppliesEveryUpdate(before: seq<Action>, after: seq<Action>)
    requires Quiet(Run(INIT, before))
    requires Run(INIT, before + [RequestShutdown] + after).exited
    ensures var s := Run(INIT, before + [RequestShutdown] + after);
            && s.executed == s.accepted == Run(INIT, before).accepted && s.queue == []
            && (forall id :: id in Run(INIT, before).created ==> Insert(id) in s.executed)
            && forall i :: 0 <= i < |s.executed| && s.executed[i].Insert? ==>
                 exists j :: i < j < |s.executed| && s.executed[j] == Update(s.executed[i].id)
  {
    var q := Run(INIT, before);
    var s := Run(INIT, before + [RequestShutdown] + after);
    AfterRequest(before, after);
    forall id | id in q.created ensures Insert(id) in s.executed {
      assert Offered(q, Insert(id));
    }
    forall i | 0 <= i < |s.executed| && s.executed[i].Insert?
      ensures exists j :: i < j < |s.executed| && s.executed[j] == Update(s.executed[i].id)
    {
      UpdateFollows(q, i);
    }
  }

  lemma UpdateFollows(q: State, i: nat)
    requires Inv(q) && Quiet(q) && i < |q.accepted| && q.accepted[i].Insert?
    ensures exists j :: i < j < |q.accepted| && q.accepted[j] == Update(q.accepted[i].id)
  {
    var id := q.accepted[i].id;
    assert Offered(q, Insert(id)) && Offered(q, Update(id));
    var j :| 0 <= j < |q.accepted| && q.accepted[j] == Update(id);
    assert Before(q.accepted, j, Insert(id));
    var k :| 0 <= k < j && q.accepted[k] == Insert(id);
    assert k == i;
  }

  // ----- The shutdown sequence -----

  predicate HeldBy(s: State, h: Holder, id: RecordId) {
    id in s.holders && h in s.holders[id]
  }

  // Only the server's own tables and fields hold records.
  ghost predicate NoOtherHolder(s: State) {
    forall id, h :: HeldBy(s, h, id) ==> !h.Request?
  }

  // The main thread clears tables and fields; meanwhile the writer goes on. Nobody else acts.
  predicate ReleaseAction(a: Action, main: Thread) {
    match a
    case Drop(t, h, id) => t == main && !h.Request?
    case Push(t) => t == main
    case Take => true
    case Execute => true
    case _ => false
  }

  ghost predicate IsRelease(release: seq<Action>, main: Thread) {
    forall k :: 0 <= k < |release| ==> ReleaseAction(release[k], main)
  }

  // ReleaseAllSessions and ReleaseInstanceInstrumentation have done their work.
  ghost predicate Released(s: State) {
    forall id, h :: HeldBy(s, h, id) ==> h.Request?
  }

  lemma {:induction false} ReleaseKeeps(s: State, release: seq<Action>, main: Thread)
    requires NoOtherHolder(s) && IsRelease(release, main) && !s.shutdown && s.pending.Keys <= {main}
    ensures var r := Run(s, release); NoOtherHolder(r) && !r.shutdown && r.pending.Keys <= {main}
    ensures Run(s, release).created == s.created
    decreases |release|
  {
    if release != [] {
      assert ReleaseAction(release[0], main);
      var r := Step(s, release[0]);
      forall id, h | HeldBy(r, h, id) ensures !h.Request? { assert HeldBy(s, h, id); }
      ReleaseKeeps(r, release[1..], main);
    }
  }

  // If nobody else holds a record or is inside QueueWrite when the release begins, then it leaves the state quiet.
  lemma ReleaseLeavesQuiet(s: State, release: seq<Action>, main: Thread)
    requires Inv(s) && s.pending == map[] && !s.shutdown && NoOtherHolder(s) && IsRelease(release, main)
    requires var r := Run(s, release); Released(r) && main !in r.pending
    ensures Quiet(Run(s, release))
  {
    RunKeeps(s, release);
    ReleaseKeeps(s, release, main);
    NobodyHolds(Run(s, release));
    assert Run(s, release).pending.Keys == {};
  }

  lemma NobodyHolds(r: State)
    requires Held(r) && r.closed <= r.created && NoOtherHolder(r) && Released(r)
    ensures r.closed == r.created
  {
    forall id | id in r.created ensures id in r.closed {
      assert id in r.holders;
      forall h: Holder ensures h !in r.holders[id] { assert !HeldBy(r, h, id); }
      assert r.holders[id] == {};
    }
  }

  // The sequence of the server: release, then shut the manager down. Every row inserted has been updated.
  lemma ShutdownSequence(before: seq<Action>, release: seq<Action>, after: seq<Action>, main: Thread)
    requires var s := Run(INIT, before); s.pending == map[] && !s.shutdown && NoOtherHolder(s)
    requires IsRelease(release, main)
    requires var r := Run(INIT, before + release); Released(r) && main !in r.pending
    requires Run(INIT, before + release + [RequestShutdown] + after).exited
    ensures var t := Run(INIT, before + release + [RequestShutdown] + after);
            && t.executed == t.accepted && t.queue == []
            && (forall id :: id in Run(INIT, before).created ==> Insert(id) in t.executed)
            && forall i :: 0 <= i < |t.executed| && t.executed[i].Insert? ==>
                 exists j :: i < j < |t.executed| && t.executed[j] == Update(t.executed[i].id)
  {
    InitHolds();
    RunKeeps(INIT, before);
    RunConcat(INIT, before, release);
    ReleaseLeavesQuiet(Run(INIT, before), release, main);
    ReleaseKeeps(Run(INIT, before), release, main);
    ShutdownAppliesEveryUpdate(before + release, after);
  }

  // Dropping one record from one place, and pushing what its destructor offers.
  function Clear(main: Thread, h: Holder, ids: seq<RecordId>): seq<Action> {
    if ids == [] then [] else [Drop(main, h, ids[0]), Push(main)] + Clear(main, h, ids[1..])
  }

  lemma {:induction false} ClearIsRelease(main: Thread, h: Holder, ids: seq<RecordId>)
    requires !h.Request?
    ensures IsRelease(Clear(main, h, ids), main)
  {
    if ids != [] { ClearIsRelease(main, h, ids[1..]); }
  }

  // Clearing a place of all it holds does release it: the hypotheses of the shutdown sequence can be met.
  lemma {:induction false} ClearReleases(s: State, main: Thread, h: Holder, ids: seq<RecordId>)
    requires s.pending == map[] && !h.Request?
    requires forall id :: id in s.holders && h in s.holders[id] ==> id in ids
    ensures var r := Run(s, Clear(main, h, ids));
            && r.pending == map[]
            && r.holders.Keys == s.holders.Keys
            && forall id :: id in s.holders ==> r.holders[id] == s.holders[id] - {h}
    decreases |ids|
  {
    if ids == [] {
      assert forall id :: id in s.holders ==> s.holders[id] - {h} == s.holders[id];
    } else {
      var s2 := Run(s, [Drop(main, h, ids[0]), Push(main)]);
      RunConcat(s, [Drop(main, h, ids[0]), Push(main)], Clear(main, h, ids[1..]));
      ClearOne(s, main, h, ids[0]);
      ClearReleases(s2, main, h, ids[1..]);
    }
  }

  lemma ClearOne(s: State, main: Thread, h: Holder, id: RecordId)
    requires s.pending == map[] && !h.Request?
    ensures var r := Run(s, [Drop(main, h, id), Push(main)]);
            && r.pending == map[] && r.holders.Keys == s.holders.Keys
            && forall i :: i in s.holders ==> r.holders[i] == if i == id then s.holders[i] - {h} else s.holders[i]
  {
    var c := [Drop(main, h, id), Push(main)];
    var s1 := Step(s, c[0]);
    assert c[1..] == [Push(main)] && [Push(main)][1..] == [];
    assert Run(s, c) == Run(s1, [Push(main)]) == Run(Step(s1, Push(main)), []);
    assert Step(s1, Push(main)).pending == map[];
  }

  ghost predicate Covers(s: State, h: Holder, ids: seq<RecordId>) {
    forall id :: HeldBy(s, h, id) ==> id in ids
  }

  // The server's own order: statements, sessions, the instance. From any state it ends with everything released.
  lemma ReleaseAllReleases(s: State, main: Thread, stmts: seq<RecordId>, sessions: seq<RecordId>, instance: seq<RecordId>)
    requires s.pending == map[] && Covers(s, Statements, stmts) && Covers(s, Sessions, sessions)
    requires Covers(s, Instance, instance)
    ensures var release := Clear(main, Statements, stmts) + Clear(main, Sessions, sessions) + Clear(main, Instance, instance);
            && IsRelease(release, main) && Released(Run(s, release)) && Run(s, release).pending == map[]
  {
    var (c1, c2, c3) := (Clear(main, Statements, stmts), Clear(main, Sessions, sessions), Clear(main, Instance, instance));
    ClearIsRelease(main, Statements, stmts);
    ClearIsRelease(main, Sessions, sessions);
    ClearIsRelease(main, Instance, instance);
    assert forall id :: id in s.holders && Statements in s.holders[id] ==> HeldBy(s, Statements, id);
    ClearReleases(s, main, Statements, stmts);
    RunConcat(s, c1, c2);
    var s1 := Run(s, c1);
    assert forall id :: id in s1.holders && Sessions in s1.holders[id] ==> HeldBy(s, Sessions, id);
    ClearReleases(s1, main, Sessions, sessions);
    RunConcat(s, c1 + c2, c3);
    var s2 := Run(s1, c2);
    assert forall id :: id in s2.holders && Instance in s2.holders[id] ==> HeldBy(s, Instance, id);
    ClearReleases(s2, main, Instance, instance);
  }

  // Whether a record's UPDATE is executed is settled when shutdown is requested and nobody is inside QueueWrite: it
  // is if and only if nobody holds the record any more.
  lemma UpdatedUnlessHeld(before: seq<Action>, after: seq<Action>, id: RecordId)
    requires var s := Run(INIT, before); s.pending == map[] && !s.shutdown && id in s.created
    requires Run(INIT, before + [RequestShutdown] + after).exited
    ensures var t := Run(INIT, before + [RequestShutdown] + after);
            && Insert(id) in t.executed
            && id in Run(INIT, before).holders
            && (Update(id) in t.executed <==> Run(INIT, before).holders[id] == {})
  {
    var q := Run(INIT, before);
    InitHolds();
    RunKeeps(INIT, before);
    AfterRequest(before, after);
    assert Offered(q, Insert(id));
    assert id in q.closed <==> Offered(q, Update(id));
  }

  // ----- Writes that are stranded -----

  // The writer has just left. Some accepted write can still be left unexecuted if and only if a thread has passed
  // the unlocked test of the flag and has not pushed yet.
  lemma StrandedIffPending(before: seq<Action>)
    requires Enabled(Run(INIT, before), Exit)
    ensures var s := Step(Run(INIT, before), Exit);
            (exists after :: Run(s, after).executed != Run(s, after).accepted) <==> s.pending != map[]
  {
    InitHolds();
    RunKeeps(INIT, before);
    var s := Step(Run(INIT, before), Exit);
    assert Conserved(s) by { ConservedStep(Run(INIT, before), Exit); }
    assert s.executed + [] + [] == s.accepted;
    if s.pending != map[] {
      var t :| t in s.pending;
      LatePush(s, t);
      assert Run(s, [Push(t)]).executed != Run(s, [Push(t)]).accepted;
    } else {
      forall after ensures Run(s, after).executed == Run(s, after).accepted { NothingStranded(s, after); }
    }
  }

  lemma LatePush(s: State, t: Thread)
    requires t in s.pending && s.executed == s.accepted
    ensures Run(s, [Push(t)]).executed != Run(s, [Push(t)]).accepted
  {
    assert [Push(t)][1..] == [];
    var r := Step(s, Push(t));
    assert Run(s, [Push(t)]) == Run(r, []) == r;
    assert |r.accepted| == |r.executed| + 1;
  }

  lemma NothingStranded(s: State, after: seq<Action>)
    requires s.exited && s.inFlight.None? && Draining(s) && s.executed == s.accepted
    ensures Run(s, after).executed == Run(s, after).accepted
  {
    DrainingKeeps(s, after);
    ExitedStays(s, after);
  }

  lemma {:induction false} ExitedStays(s: State, after: seq<Action>)
    requires s.exited && s.inFlight.None?
    ensures var t := Run(s, after); t.exited && t.inFlight.None? && t.executed == s.executed
    decreases |after|
  {
    if after != [] { ExitedStays(Step(s, after[0]), after[1..]); }
  }

  // Such a run.
  lemma RacingWriteIsStranded()
    ensures var s := Run(INIT, [Construct(0, 7), RequestShutdown, Exit, Push(0)]);
            s.exited && s.accepted == [Insert(7)] && s.executed == []
  {
    var a := [Construct(0, 7), RequestShutdown, Exit, Push(0)];
    assert a[1..] == [RequestShutdown, Exit, Push(0)];
    assert a[1..][1..] == [Exit, Push(0)];
    assert a[1..][1..][1..] == [Push(0)];
    assert a[1..][1..][1..][1..] == [];
  }

  // ----- The writer can always finish -----

  // Once shutdown has been requested, taking and executing what is there and leaving is a run, and executes it all.
  lemma {:induction false} CanFinish(s: State) returns (actions: seq<Action>)
    requires s.shutdown && !s.exited
    ensures var t := Run(s, actions);
            t.exited && t.executed == s.executed + Moving(s) + s.queue && t.accepted == s.accepted && t.pending == s.pending
    decreases |s.queue|, if s.inFlight.Some? then 1 else 0
  {
    if s.inFlight.Some? {
      var more := CanFinish(Step(s, Execute));
      actions := [Execute] + more;
      assert s.executed + [s.inFlight.value] + [] + s.queue == s.executed + [s.inFlight.value] + s.queue;
    } else if s.queue != [] {
      var more := CanFinish(Step(s, Take));
      actions := [Take] + more;
      assert s.queue == [s.queue[0]] + s.queue[1..];
      assert s.executed + [s.queue[0]] + s.queue[1..] == s.executed + [] + s.queue;
    } else {
      actions := [Exit];
      assert actions[1..] == [];
      assert s.executed + [] + [] == s.executed;
    }
  }

  // A record from its construction to its end, with nobody in the way: its INSERT and its UPDATE are executed.
  lemma OneRecord(id: RecordId) returns (drain: seq<Action>)
    ensures var begin := [Construct(0, id), Push(0), Drop(0, Request(0), id), Push(0)];
            var s := Run(INIT, begin + [RequestShutdown] + drain);
            s.exited && s.executed == [Insert(id), Update(id)]
  {
    var begin := [Construct(0, id), Push(0), Drop(0, Request(0), id), Push(0)];
    QueueTwo(id);
    var s := Step(Run(INIT, begin), RequestShutdown);
    drain := CanFinish(s);
    RunConcat(INIT, begin, [RequestShutdown]);
    RunConcat(INIT, begin + [RequestShutdown], drain);
    assert [RequestShutdown][1..] == [];
    assert [] + [] + [Insert(id), Update(id)] == [Insert(id), Update(id)];
  }

  lemma QueueTwo(id: RecordId)
    ensures var s := Run(INIT, [Construct(0, id), Push(0), Drop(0, Request(0), id), Push(0)]);
            s.queue == [Insert(id), Update(id)] && s.inFlight == None && !s.exited && s.executed == [] && s.refused == {}
  {
    var a := [Construct(0, id), Push(0), Drop(0, Request(0), id), Push(0)];
    assert a[1..] == [Push(0), Drop(0, Request(0), id), Push(0)] && a[1..][1..] == [Drop(0, Request(0), id), Push(0)];
    assert a[1..][1..][1..] == [Push(0)] && [Push(0)][1..] == [];
    var s1 := Step(INIT, Construct(0, id));
    assert s1 == INIT.(pending := map[0 := Insert(id)], created := {id}, holders := map[id := {Request(0)}]);
    var s2 := Step(s1, Push(0));
    assert s2 == s1.(pending := map[], queue := [Insert(id)], accepted := [Insert(id)]);
    var nobody: set<Holder> := {};
    assert {Request(0)} - {Request(0)} == nobody && s2.holders[id] == {Request(0)};
    assert {} + {id} == {id} && s2.holders[id := nobody] == map[id := nobody];
    assert Enabled(s2, Drop(0, Request(0), id)) && LastHolder(s2, Request(0), id);
    var s3 := Step(s2, Drop(0, Request(0), id));
    assert s3 == s2.(pending := map[0 := Update(id)], closed := {id}, holders := map[id := {}]);
    var s4 := Step(s3, Push(0));
    assert Run(INIT, a) == Run(s1, a[1..]) == Run(s2, a[1..][1..]) == Run(s3, [Push(0)]) == s4;
  }
}
