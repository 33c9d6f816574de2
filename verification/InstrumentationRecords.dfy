/**
 The records that queue instrumentation writes: each constructor queues an INSERT and each destructor an UPDATE.
 An execution may be finished earlier by an error, a timeout or a cancellation; what its one UPDATE then says is
 described here from the list of calls alone.
 */
module InstrumentationRecords {

  datatype Write =
    | InsertInstance(id: string) | UpdateInstance(id: string, reason: string)
    | InsertSession(id: string) | UpdateSession(id: string, status: string, reason: string)
    | InsertExecution(id: string)
    | UpdateExecution(id: string, rows: int, status: string, error: string, duration: int)

  class Manager {
    const enabled: bool
    var shutdownRequested: bool
    var queue: seq<Write>
    var executed: seq<Write>

    constructor (enabled: bool)
      ensures this.enabled == enabled && !shutdownRequested && queue == [] && executed == []
    {
      this.enabled := enabled;
      shutdownRequested, queue, executed := false, [], [];
    }

    predicate Accepts()
      reads this
    {
      enabled && !shutdownRequested
    }

    method QueueWrite(w: Write)
      modifies this`queue
      ensures queue == old(queue) + if Accepts() then [w] else []
    {
      if !enabled || shutdownRequested { return; }
      queue := queue + [w];
    }

    // The writer's loop once no other thread queues anything; a write that fails has been executed too.
    method WriterThreadLoop()
      requires shutdownRequested
      modifies this`queue, this`executed
      ensures queue == [] && executed == old(executed) + old(queue)
    {
      while true
        invariant executed + queue == old(executed) + old(queue)
        decreases |queue|
      {
        if shutdownRequested && queue == [] { break; }
        if queue != [] {
          var w := queue[0];
          assert queue == [w] + queue[1..];
          queue := queue[1..];
          assert executed + [w] + queue == executed + ([w] + queue);
          executed := executed + [w];
        }
      }
    }

    // Sets the flag and joins the writer; a second call does nothing.
    method Shutdown()
      modifies this
      ensures shutdownRequested
      ensures old(shutdownRequested) ==> queue == old(queue) && executed == old(executed)
      ensures !old(shutdownRequested) ==> queue == [] && executed == old(executed) + old(queue)
    {
      if shutdownRequested { return; }
      shutdownRequested := true;
      WriterThreadLoop();
    }
  }

  class InstanceRecord {
    const manager: Manager
    const id: string
    var stopReason: string

    constructor (manager: Manager, id: string)
      modifies manager`queue
      ensures this.manager == manager && this.id == id && stopReason == "graceful"
      ensures manager.queue == old(manager.queue) + if manager.Accepts() then [InsertInstance(id)] else []
    {
      this.manager, this.id, stopReason := manager, id, "graceful";
      new;
      if !manager.enabled { return; }
      manager.QueueWrite(InsertInstance(id));
    }

    method Destroy()
      modifies manager`queue
      ensures manager.queue == old(manager.queue) + if manager.Accepts() then [UpdateInstance(id, stopReason)] else []
    {
      if !manager.enabled { return; }
      manager.QueueWrite(UpdateInstance(id, stopReason));
    }
  }

  // The values of the database's status column other than 'active'.
  const STOPPED := ["closed", "killed", "timeout", "error"]

  class SessionRecord {
    const manager: Manager
    const id: string
    var stopReason: string

    constructor (manager: Manager, id: string)
      modifies manager`queue
      ensures this.manager == manager && this.id == id && stopReason == "closed"
      ensures manager.queue == old(manager.queue) + if manager.Accepts() then [InsertSession(id)] else []
    {
      this.manager, this.id, stopReason := manager, id, "closed";
      new;
      if !manager.enabled { return; }
      manager.QueueWrite(InsertSession(id));
    }

    method SetStopReason(reason: string)
      modifies `stopReason
      ensures stopReason == reason
    {
      stopReason := reason;
    }

    // The status is the stop reason if that is a status, whatever the reason was.
    method Destroy()
      modifies manager`queue
      ensures manager.Accepts() ==>
                exists status :: status in STOPPED
                  && (stopReason in STOPPED ==> status == stopReason) && (stopReason !in STOPPED ==> status == "closed")
                  && manager.queue == old(manager.queue) + [UpdateSession(id, status, stopReason)]
      ensures !manager.Accepts() ==> manager.queue == old(manager.queue)
    {
      if !manager.enabled { return; }
      var status := stopReason;
      if status != "closed" && status != "killed" && status != "timeout" && status != "error" {
        status := "closed";
      }
      assert STOPPED[0] == "closed" && STOPPED[1] == "killed" && STOPPED[2] == "timeout" && STOPPED[3] == "error";
      assert status in STOPPED;
      manager.QueueWrite(UpdateSession(id, status, stopReason));
    }
  }

  // The status the database is given for a stop reason.
  function SessionStatus(reason: string): string {
    if reason in STOPPED then reason else "closed"
  }

  function LastReason(reasons: seq<string>): string {
    if reasons == [] then "closed" else reasons[|reasons| - 1]
  }

  // A session from construction to destruction: one INSERT and then one UPDATE, which tells the last reason set and
  // has a status that the database knows.
  method SessionLife(manager: Manager, id: string, reasons: seq<string>)
    modifies manager`queue
    ensures manager.queue == old(manager.queue) +
              if manager.Accepts() then [InsertSession(id), UpdateSession(id, SessionStatus(LastReason(reasons)), LastReason(reasons))]
              else []
    ensures SessionStatus(LastReason(reasons)) in STOPPED
  {
    assert STOPPED[0] == "closed";
    var r := new SessionRecord(manager, id);
    for i := 0 to |reasons|
      invariant r.manager == manager && r.id == id && r.stopReason == LastReason(reasons[..i]) && fresh(r)
      invariant manager.queue == old(manager.queue) + if manager.Accepts() then [InsertSession(id)] else []
    {
      r.SetStopReason(reasons[i]);
    }
    assert reasons[..|reasons|] == reasons;
    r.Destroy();
  }

  // ----- Executions -----

  // What can happen to an execution, with the time at which it happens.
  datatype Call =
    | Completed(now: int, duration: int)
    | Error(now: int, message: string)
    | Timeout(now: int)
    | Cancelled(now: int)
    | Fetched(now: int, rows: int)

  predicate Final(c: Call) {
    c.Error? || c.Timeout? || c.Cancelled?
  }

  // The calls that still count: those up to and including the first one that finishes the execution.
  function Counting(calls: seq<Call>): (k: nat)
    ensures k <= |calls|
  {
    if calls == [] then 0 else if Final(calls[0]) then 1 else 1 + Counting(calls[1..])
  }

  function Fetches(calls: seq<Call>): int {
    if calls == [] then 0
    else Fetches(calls[..|calls| - 1]) + if calls[|calls| - 1].Fetched? then calls[|calls| - 1].rows else 0
  }

  predicate Sets(c: Call) {
    !c.Fetched?
  }

  // The last call that is not just a fetch.
  function LastSet(calls: seq<Call>): (k: int)
    ensures -1 <= k < |calls|
    ensures k >= 0 ==> Sets(calls[k])
    ensures forall i :: k < i < |calls| ==> calls[i].Fetched?
  {
    if calls == [] then -1
    else if Sets(calls[|calls| - 1]) then |calls| - 1
    else LastSet(calls[..|calls| - 1])
  }

  function LastCompleted(calls: seq<Call>): (k: int)
    ensures -1 <= k < |calls|
    ensures k >= 0 ==> calls[k].Completed?
    ensures forall i :: k < i < |calls| ==> !calls[i].Completed?
  {
    if calls == [] then -1
    else if calls[|calls| - 1].Completed? then |calls| - 1
    else LastCompleted(calls[..|calls| - 1])
  }

  function StatusOf(c: Call): string
    requires Sets(c)
  {
    match c
    case Completed(_, _) => "success"
    case Error(_, _) => "error"
    case Timeout(_) => "timeout"
    case Cancelled(_) => "cancelled"
  }

  // What the one UPDATE says, given the calls that count and the time of destruction: the rows fetched so far,
  // the status last set, and the duration last reported or else the time from the start to the last setting.
  function Summary(id: string, start: int, calls: seq<Call>, destroyed: int): Write {
    var k := LastSet(calls);
    var c := LastCompleted(calls);
    var end := if k < 0 then destroyed else calls[k].now;
    UpdateExecution(id, Fetches(calls),
                    if k < 0 then "executing" else StatusOf(calls[k]),
                    if k >= 0 && calls[k].Error? then calls[k].message else "",
                    if c >= 0 && calls[c].duration != 0 then calls[c].duration else end - start)
  }

  class ExecutionRecord {
    const manager: Manager
    const id: string
    const start: int
    var rowsFetched: int
    var status: string
    var errorMessage: string
    var durationMs: int
    var end: int                 // 0 until it is set
    var finalized: bool

    // The fields agree with the calls that count.
    ghost predicate Reflects(calls: seq<Call>)
      reads this
    {
      var k := LastSet(calls);
      var c := LastCompleted(calls);
      && rowsFetched == Fetches(calls)
      && status == (if k < 0 then "executing" else StatusOf(calls[k]))
      && errorMessage == (if k >= 0 && calls[k].Error? then calls[k].message else "")
      && durationMs == (if c < 0 then 0 else calls[c].duration)
      && end == (if k < 0 then 0 else calls[k].now)
    }

    constructor (manager: Manager, id: string, now: int)
      modifies manager`queue
      ensures this.manager == manager && this.id == id && start == now && !finalized && Reflects([])
      ensures manager.queue == old(manager.queue) + if manager.Accepts() then [InsertExecution(id)] else []
    {
      this.manager, this.id, start := manager, id, now;
      rowsFetched, status, errorMessage, durationMs, end, finalized := 0, "executing", "", 0, 0, false;
      new;
      if !manager.enabled { return; }
      manager.QueueWrite(InsertExecution(id));
    }

    // The duration recorded for an execution that ends at the given time.
    function Duration(at: int): int
      reads this
    {
      if durationMs != 0 then durationMs else at - start
    }

    // What Finalize would queue now.
    function Row(now: int): Write
      reads this
    {
      UpdateExecution(id, rowsFetched, status, errorMessage, Duration(if end == 0 then now else end))
    }

    method Finalize(now: int)
      modifies this, manager`queue
      ensures finalized
      ensures manager.queue == old(manager.queue) + if !old(finalized) && manager.Accepts() then [old(Row(now))] else []
    {
      if finalized { return; }
      finalized := true;
      if !manager.enabled { return; }
      if end == 0 { end := now; }
      var duration := durationMs;
      if duration == 0 { duration := end - start; }
      manager.QueueWrite(UpdateExecution(id, rowsFetched, status, errorMessage, duration));
    }

    method SetCompleted(duration: int, now: int)
      modifies this
      ensures end == now && durationMs == duration && status == "success"
      ensures errorMessage == old(errorMessage) && rowsFetched == old(rowsFetched) && finalized == old(finalized)
    {
      end, durationMs, status := now, duration, "success";
    }

    method SetError(message: string, now: int)
      modifies this, manager`queue
      ensures finalized && (old(finalized) ==> manager.queue == old(manager.queue))
      ensures !old(finalized) && now != 0 ==>
                manager.queue == old(manager.queue) +
                  if manager.Accepts() then [UpdateExecution(id, old(rowsFetched), "error", message, old(Duration(now)))] else []
    {
      end, errorMessage, status := now, message, "error";
      Finalize(now);
    }

    method SetTimeout(now: int)
      modifies this, manager`queue
      ensures finalized && (old(finalized) ==> manager.queue == old(manager.queue))
      ensures !old(finalized) && now != 0 ==>
                manager.queue == old(manager.queue) +
                  if !manager.Accepts() then []
                  else [UpdateExecution(id, old(rowsFetched), "timeout", old(errorMessage), old(Duration(now)))]
    {
      end, status := now, "timeout";
      Finalize(now);
    }

    method SetCancelled(now: int)
      modifies this, manager`queue
      ensures finalized && (old(finalized) ==> manager.queue == old(manager.queue))
      ensures !old(finalized) && now != 0 ==>
                manager.queue == old(manager.queue) +
                  if !manager.Accepts() then []
                  else [UpdateExecution(id, old(rowsFetched), "cancelled", old(errorMessage), old(Duration(now)))]
    {
      end, status := now, "cancelled";
      Finalize(now);
    }

    method IncrementRowsFetched(count: int)
      modifies this
      ensures rowsFetched == old(rowsFetched) + count
      ensures status == old(status) && errorMessage == old(errorMessage) && durationMs == old(durationMs)
      ensures end == old(end) && finalized == old(finalized)
    {
      rowsFetched := rowsFetched + count;
    }

    method Destroy(now: int)
      modifies this, manager`queue
      ensures finalized
      ensures manager.queue == old(manager.queue) + if !old(finalized) && manager.Accepts() then [old(Row(now))] else []
    {
      if !finalized { Finalize(now); }
    }

    // One more call on a record that reflects the calls so far, or on one that is already finished.
    method Perform(c: Call, ghost calls: seq<Call>, ghost destroyed: int)
      requires !finalized ==> Reflects(calls) && NoneFinal(calls) && c.now != 0
      modifies this, manager`queue
      ensures finalized == (old(finalized) || Final(c))
      ensures !finalized ==> Reflects(calls + [c]) && NoneFinal(calls + [c])
      ensures old(finalized) || !Final(c) ==> manager.queue == old(manager.queue)
      ensures !old(finalized) && Final(c) ==>
                manager.queue == old(manager.queue) +
                  if manager.Accepts() then [Summary(id, start, calls + [c], destroyed)] else []
    {
      StepHolds(calls, c);
      if !finalized && Final(c) { SummaryIs(id, start, calls, c, destroyed); }
      match c
      case Completed(now, duration) => SetCompleted(duration, now);
      case Error(now, message) => SetError(message, now);
      case Timeout(now) => SetTimeout(now);
      case Cancelled(now) => SetCancelled(now);
      case Fetched(_, rows) => IncrementRowsFetched(rows);
    }
  }

  predicate NoneFinal(calls: seq<Call>) {
    forall i :: 0 <= i < |calls| ==> !Final(calls[i])
  }

  // How the three readings of a list of calls change with one more call.
  predicate LastSetStep(calls: seq<Call>, c: Call) {
    && LastSet(calls + [c]) == (if Sets(c) then |calls| else LastSet(calls))
    && LastCompleted(calls + [c]) == (if c.Completed? then |calls| else LastCompleted(calls))
    && Fetches(calls + [c]) == Fetches(calls) + if c.Fetched? then c.rows else 0
  }

  lemma StepHolds(calls: seq<Call>, c: Call)
    ensures LastSetStep(calls, c)
  {
    assert (calls + [c])[..|calls|] == calls;
  }

  // The summary after a call that finishes the execution.
  lemma SummaryIs(id: string, start: int, calls: seq<Call>, c: Call, destroyed: int)
    requires Final(c)
    ensures var k := LastCompleted(calls);
            Summary(id, start, calls + [c], destroyed) ==
              UpdateExecution(id, Fetches(calls), StatusOf(c), if c.Error? then c.message else "",
                              if k >= 0 && calls[k].duration != 0 then calls[k].duration else c.now - start)
  {
    var all := calls + [c];
    StepHolds(calls, c);
    SummaryReads(id, start, all, |calls|, LastCompleted(calls), destroyed);
    assert all[|calls|] == c;
    if LastCompleted(calls) >= 0 { assert all[LastCompleted(calls)] == calls[LastCompleted(calls)]; }
  }

  lemma SummaryReads(id: string, start: int, calls: seq<Call>, last: nat, done: int, destroyed: int)
    requires LastSet(calls) == last < |calls| && LastCompleted(calls) == done < |calls|
    ensures Summary(id, start, calls, destroyed) ==
              UpdateExecution(id, Fetches(calls), StatusOf(calls[last]), if calls[last].Error? then calls[last].message else "",
                              if done >= 0 && calls[done].duration != 0 then calls[done].duration else calls[last].now - start)
  {}

  lemma {:induction false} CountingIs(calls: seq<Call>, i: nat)
    requires i <= |calls| && NoneFinal(calls[..i])
    requires i < |calls| ==> Final(calls[i])
    ensures Counting(calls) == if i < |calls| then i + 1 else i
  {
    if i > 0 {
      assert calls[..i][0] == calls[0];
      assert calls[1..][..i - 1] == calls[..i][1..];
      CountingIs(calls[1..], i - 1);
    }
  }

  method Play(r: ExecutionRecord, calls: seq<Call>, ghost destroyed: int)
    requires forall i :: 0 <= i < |calls| ==> calls[i].now != 0
    requires !r.finalized && r.Reflects([])
    modifies r, r.manager`queue
    ensures r.finalized ==>
              r.manager.queue == old(r.manager.queue) +
                if r.manager.Accepts() then [Summary(r.id, r.start, calls[..Counting(calls)], destroyed)] else []
    ensures !r.finalized ==> r.manager.queue == old(r.manager.queue) && r.Reflects(calls) && Counting(calls) == |calls|
  {
    ghost var k := 0;  // the calls that count so far
    for i := 0 to |calls|
      invariant k <= i && (!r.finalized ==> k == i)
      invariant !r.finalized ==> NoneFinal(calls[..k]) && r.Reflects(calls[..k]) && r.manager.queue == old(r.manager.queue)
      invariant r.finalized ==> Counting(calls) == k
      invariant r.finalized ==>
                  r.manager.queue == old(r.manager.queue) +
                    if r.manager.Accepts() then [Summary(r.id, r.start, calls[..k], destroyed)] else []
    {
      ghost var counts := !r.finalized;
      if counts {
        assert calls[..k + 1] == calls[..k] + [calls[k]];
        if Final(calls[k]) { CountingIs(calls, k); }
      }
      r.Perform(calls[i], calls[..k], destroyed);
      if counts { k := k + 1; }
    }
    if !r.finalized {
      assert calls[..k] == calls;
      CountingIs(calls, k);
    }
  }

  // An execution from construction to destruction: whatever is called on it, one INSERT and then one UPDATE are
  // queued, and the UPDATE is the summary of the calls up to the first that finished the execution.
  method Live(manager: Manager, id: string, start: int, calls: seq<Call>, destroyed: int)
    requires forall i :: 0 <= i < |calls| ==> calls[i].now != 0
    modifies manager`queue
    ensures manager.queue == old(manager.queue) +
              if manager.Accepts() then [InsertExecution(id), Summary(id, start, calls[..Counting(calls)], destroyed)] else []
  {
    var r := new ExecutionRecord(manager, id, start);
    Play(r, calls, destroyed);
    assert calls[..|calls|] == calls;
    r.Destroy(destroyed);
  }

  // ----- What the rows say -----

  // A session's status is its stop reason if that is one of four, and otherwise says that it was closed.
  lemma SessionStatusTells(reason: string)
    ensures SessionStatus(reason) ==
              if reason == "closed" || reason == "killed" || reason == "timeout" || reason == "error" then reason else "closed"
  {
    assert STOPPED[0] == "closed" && STOPPED[1] == "killed" && STOPPED[2] == "timeout" && STOPPED[3] == "error";
  }

  predicate OnlyFetches(calls: seq<Call>) {
    forall i :: 0 <= i < |calls| ==> calls[i].Fetched?
  }

  lemma {:induction false} NothingSet(calls: seq<Call>)
    requires OnlyFetches(calls)
    ensures LastSet(calls) == -1 && LastCompleted(calls) == -1
  {
    if calls != [] { NothingSet(calls[..|calls| - 1]); }
  }

  // An execution that has only been fetched from is still executing when it is destroyed.
  lemma UnfinishedTells(id: string, start: int, calls: seq<Call>, destroyed: int)
    requires OnlyFetches(calls)
    ensures Summary(id, start, calls, destroyed) == UpdateExecution(id, Fetches(calls), "executing", "", destroyed - start)
  {
    NothingSet(calls);
  }

  // One that has been completed after some fetches has succeeded, with the duration reported, if there is one.
  lemma CompletedTells(id: string, start: int, calls: seq<Call>, now: int, duration: int, destroyed: int)
    requires OnlyFetches(calls)
    ensures Summary(id, start, calls + [Completed(now, duration)], destroyed) ==
              UpdateExecution(id, Fetches(calls), "success", "", if duration != 0 then duration else now - start)
  {
    var c := Completed(now, duration);
    StepHolds(calls, c);
    SummaryReads(id, start, calls + [c], |calls|, |calls|, destroyed);
  }

  // One that has failed, run out of time or been cancelled after some fetches says so, with the message of a failure.
  lemma FinishedTells(id: string, start: int, calls: seq<Call>, c: Call, destroyed: int)
    requires OnlyFetches(calls) && (c.Error? || c.Timeout? || c.Cancelled?)
    ensures Summary(id, start, calls + [c], destroyed) ==
              UpdateExecution(id, Fetches(calls), if c.Error? then "error" else if c.Timeout? then "timeout" else "cancelled",
                              if c.Error? then c.message else "", c.now - start)
  {
    NothingSet(calls);
    SummaryIs(id, start, calls, c, destroyed);
  }

  // The rows fetched add up.
  lemma {:induction false} FetchesAddUp(a: seq<Call>, b: seq<Call>)
    ensures Fetches(a + b) == Fetches(a) + Fetches(b)
    ensures |b| == 1 ==> Fetches(b) == if b[0].Fetched? then b[0].rows else 0
  {
    if b == [] {
      assert a + b == a;
    } else {
      var n := |b| - 1;
      FetchesAddUp(a, b[..n]);
      assert (a + b)[..|a + b| - 1] == a + b[..n] && (a + b)[|a + b| - 1] == b[n];
      if n == 0 { assert b[..0] == []; }
    }
  }
}
