/**
 Reading the results of a parameterised SQLite statement in batches of at most 16384 rows. The statement is run
 once for each row of each parameter batch; the reader is a resumable cursor over (batch, row, result row).
 */
module SqliteBatchReader {
  import opened Text

  const MAX_BATCH_SIZE: nat := 16384

  // What running the statement with one binding yields: some rows, then the end or an error.
  datatype Outcome<R> = Outcome(rows: seq<R>, fails: bool)

  // The runs that are still to be read, in order.
  datatype RunList<R> = Nil | Cons(head: Outcome<R>, tail: RunList<R>)

  datatype Rc = OK | ROW | DONE

  datatype Status = Ok | Error

  class Statement<P, R> {
    const query: Option<P> -> Outcome<R>  // what SQLite answers for a binding
    var parameters: seq<seq<P>>           // batches of parameter rows
    var bound: Option<P>
    var pos: nat                          // how many rows have been stepped onto; one more when the run is over
    var failed: bool

    // Batches without rows have been dropped.
    ghost predicate Valid()
      reads this
    {
      && (forall b :: 0 <= b < |parameters| ==> parameters[b] != [])
      && pos <= |query(bound).rows| + 1
    }

    constructor (query: Option<P> -> Outcome<R>)
      ensures Valid() && !failed && parameters == [] && bound == None && this.query == query
    {
      this.query := query;
      parameters, bound, pos, failed := [], None, 0, false;
    }

    method SetParameters(batches: seq<seq<P>>)
      requires Valid()
      modifies `parameters
      ensures Valid()
      ensures parameters == NonEmpty(batches)
    {
      var kept: seq<seq<P>> := [];
      for i := 0 to |batches|
        invariant forall b :: 0 <= b < |kept| ==> kept[b] != []
        invariant kept + NonEmpty(batches[i..]) == NonEmpty(batches)
      {
        assert batches[i..][1..] == batches[i + 1..];
        if batches[i] != [] { kept := kept + [batches[i]]; }
      }
      parameters := kept;
    }

    method Reset() returns (st: Status)
      requires Valid()
      modifies `pos, `failed
      ensures Valid() && pos == 0 && !failed
      ensures st == if old(failed) then Error else Ok
    {
      st := if failed then Error else Ok;
      pos, failed := 0, false;
    }

    method Bind(batchIndex: nat, rowIndex: nat) returns (st: Status)
      requires Valid() && pos == 0
      modifies `bound
      ensures Valid()
      ensures st.Ok? <==> batchIndex < |parameters| && rowIndex < |parameters[batchIndex]|
      ensures bound == if st.Ok? then Some(parameters[batchIndex][rowIndex]) else old(bound)
    {
      if batchIndex >= |parameters| || rowIndex >= |parameters[batchIndex]| {
        return Error;
      }
      bound := Some(parameters[batchIndex][rowIndex]);
      return Ok;
    }

    // The columns of the row the statement has been stepped onto.
    method CurrentRow() returns (row: R)
      requires 1 <= pos <= |query(bound).rows|
      ensures row == query(bound).rows[pos - 1]
    {
      row := query(bound).rows[pos - 1];
    }

    // A step after the end starts the run anew.
    method Step() returns (st: Status, rc: Rc)
      requires Valid() && !failed
      modifies `pos, `failed
      ensures Valid()
      ensures var at := if old(pos) > |query(bound).rows| then 0 else old(pos);
              && pos == at + 1
              && (at < |query(bound).rows| ==> st == Ok && rc == ROW && !failed)
              && (at == |query(bound).rows| ==> failed == query(bound).fails && st == (if failed then Error else Ok) && rc == DONE)
    {
      var run := query(bound);
      if pos > |run.rows| { pos := 0; }
      rc := if pos < |run.rows| then ROW else DONE;
      failed := rc == DONE && run.fails;
      st := if failed then Error else Ok;
      pos := pos + 1;
    }
  }

  function NonEmpty<P>(batches: seq<seq<P>>): seq<seq<P>> {
    if batches == [] then []
    else (if batches[0] == [] then [] else [batches[0]]) + NonEmpty(batches[1..])
  }

  // ----- What is to be delivered -----

  // One run for each parameter row from (b, r) on, in (batch, row) order.
  function Runs<P, R>(query: Option<P> -> Outcome<R>, parameters: seq<seq<P>>, b: nat, r: nat): RunList<R>
    decreases |parameters| - b, if b < |parameters| then |parameters[b]| - r else 0
  {
    if b >= |parameters| then Nil
    else if r >= |parameters[b]| then Runs(query, parameters, b + 1, 0)
    else Cons(query(Some(parameters[b][r])), Runs(query, parameters, b, r + 1))
  }

  // All runs of a statement: without parameter rows it is run once, with whatever is bound.
  function AllRuns<P, R>(query: Option<P> -> Outcome<R>, parameters: seq<seq<P>>, bound: Option<P>): RunList<R> {
    if parameters == [] then Cons(query(bound), Nil) else Runs(query, parameters, 0, 0)
  }

  function Length<R>(runs: RunList<R>): nat {
    if runs.Nil? then 0 else 1 + Length(runs.tail)
  }

  // The result rows up to the first failure.
  function Flat<R>(runs: RunList<R>): seq<R> {
    if runs.Nil? then []
    else runs.head.rows + (if runs.head.fails then [] else Flat(runs.tail))
  }

  predicate Broken<R>(runs: RunList<R>) {
    runs.Cons? && (runs.head.fails || Broken(runs.tail))
  }

  // The run that fails yields rows before it does.
  predicate FailsLate<R>(runs: RunList<R>) {
    runs.Cons? && if runs.head.fails then runs.head.rows != [] else FailsLate(runs.tail)
  }

  // Reading the next batch meets the failure: before the batch is full, or when stepping off its last row.
  predicate FailsNow<R>(runs: RunList<R>) {
    Broken(runs) && (|Flat(runs)| < MAX_BATCH_SIZE || (|Flat(runs)| == MAX_BATCH_SIZE && FailsLate(runs)))
  }

  function Min(a: nat, b: nat): nat { if a < b then a else b }

  // The rows cut into full batches and a last, possibly smaller one.
  function Chunks<R>(rows: seq<R>): seq<seq<R>> {
    if rows == [] then []
    else var n := Min(MAX_BATCH_SIZE, |rows|); [rows[..n]] + Chunks(rows[n..])
  }

  // ----- The reader -----

  class Reader<P, R> {
    const statement: Statement<P, R>
    var rc: Rc
    var alreadyExecuted: bool
    var batchIndex: nat
    var rowIndex: nat

    ghost predicate Valid()
      reads this, statement
    {
      && statement.Valid() && !statement.failed
      && InRange()
      && (alreadyExecuted && rc != ROW ==> rc == DONE && (statement.parameters == [] || batchIndex == |statement.parameters|))
    }

    // The cursor is where the statement is.
    ghost predicate InRange()
      reads this, statement
    {
      var ps := statement.parameters;
      && (ps != [] && (!alreadyExecuted || rc == ROW) && batchIndex < |ps| ==> rowIndex < |ps[batchIndex]|)
      && (alreadyExecuted && rc == ROW ==>
            && 1 <= statement.pos <= |statement.query(statement.bound).rows|
            && (ps != [] ==> batchIndex < |ps| && statement.bound == Some(ps[batchIndex][rowIndex])))
    }

    // What the reader has still to deliver; the first run may be partly delivered.
    ghost function Left(): RunList<R>
      requires Valid()
      reads this, statement
    {
      if alreadyExecuted then Current(Later(rowIndex + 1))
      else if statement.parameters == [] then Cons(statement.query(statement.bound), Nil)
      else Later(rowIndex)
    }

    ghost function Later(r: nat): RunList<R>
      reads this, statement
    {
      Runs(statement.query, statement.parameters, batchIndex, r)
    }

    ghost function Current(later: RunList<R>): RunList<R>
      requires rc == ROW ==> 1 <= statement.pos <= |statement.query(statement.bound).rows|
      reads this, statement
    {
      if rc == ROW then Cons(Rest(statement.query(statement.bound), statement.pos - 1), later) else later
    }

    constructor (statement: Statement<P, R>)
      requires statement.Valid() && !statement.failed
      ensures Valid() && this.statement == statement
      ensures Left() == AllRuns(statement.query, statement.parameters, statement.bound)
    {
      this.statement := statement;
      rc, alreadyExecuted, batchIndex, rowIndex := OK, false, 0, 0;
    }

    method ReadNext() returns (st: Status, batch: Option<seq<R>>)
      requires Valid()
      modifies this, statement`bound, statement`pos, statement`failed
      ensures st.Error? <==> FailsNow(old(Left()))
      ensures st.Ok? ==> Valid() && statement.parameters == old(statement.parameters)
      ensures st.Ok? ==> var n := Min(MAX_BATCH_SIZE, |Flat(old(Left()))|);
                && batch == (if n == 0 then None else Some(Flat(old(Left()))[..n]))
                && Progress(old(Left()), Flat(old(Left()))[..n], Left())
    {
      ghost var left := Left();
      var rows: seq<R> := [];
      while true
        invariant Valid() && |rows| < MAX_BATCH_SIZE
        invariant statement.parameters == old(statement.parameters)
        invariant alreadyExecuted || batchIndex >= |statement.parameters| > 0 ==> rows == []
        invariant Progress(left, rows, Left())
        decreases Length(Left())
      {
        if !alreadyExecuted && statement.parameters != [] && batchIndex >= |statement.parameters| {
          NothingLeft(left, Left());
          return Ok, None;
        }
        ghost var run, later, rows0 := Outcome([], false), Nil, rows;
        st, rows, run, later := TakeRun(rows);
        ReadRun(left, rows0, run, later);
        if st == Error { return Error, None; }
        if statement.parameters != [] && !alreadyExecuted && |rows| < MAX_BATCH_SIZE { continue; }
        BatchIsFull(left, rows, Left());
        return Ok, if rows != [] then Some(rows) else None;
      }
    }

    // What the current run still has to give.
    ghost predicate Gives(run: Outcome<R>)
      requires rc == ROW ==> 1 <= statement.pos <= |statement.query(statement.bound).rows|
      reads this, statement
    {
      if rc == ROW then run == Rest(statement.query(statement.bound), statement.pos - 1) else run.rows == [] && !run.fails
    }

    // Executes the next run unless one is under way.
    method StartRun() returns (st: Status, ghost run: Outcome<R>, ghost later: RunList<R>)
      requires Valid() && (!alreadyExecuted ==> statement.parameters == [] || batchIndex < |statement.parameters|)
      modifies this`rc, this`alreadyExecuted, statement`bound, statement`pos, statement`failed
      ensures old(Left()) == Cons(run, later) || (run == Outcome([], false) && old(Left()) == later)
      ensures old(Left()) == Cons(run, later) || statement.parameters == [] || batchIndex == |statement.parameters|
      ensures later == Later(rowIndex + 1)
      ensures st.Error? <==> !old(alreadyExecuted) && run.rows == [] && run.fails
      ensures st.Ok? ==> InRun() && CursorIsGood() && Gives(run)
    {
      later := Later(rowIndex + 1);
      if !alreadyExecuted {
        st, run := Execute();
      } else {
        st := Ok;
        run := if rc == ROW then Rest(statement.query(statement.bound), statement.pos - 1) else Outcome([], false);
      }
    }

    // One round of the outer loop: execute the next run unless one is under way, take its rows, move on if it is over.
    method TakeRun(rows0: seq<R>) returns (st: Status, rows: seq<R>, ghost run: Outcome<R>, ghost later: RunList<R>)
      requires Valid() && (!alreadyExecuted ==> statement.parameters == [] || batchIndex < |statement.parameters|)
      requires |rows0| < MAX_BATCH_SIZE
      modifies this, statement`bound, statement`pos, statement`failed
      ensures old(Left()) == Cons(run, later) || (run == Outcome([], false) && old(Left()) == later)
      ensures st.Error? <==> EndsIn(run, rows0) && run.fails
      ensures st.Ok? ==> rows == rows0 + Room(run, rows0)
      ensures st.Ok? ==> Valid() && Left() == if EndsIn(run, rows0) then later else Cons(Rest(run, |Room(run, rows0)|), later)
      ensures st.Ok? ==> if alreadyExecuted then |rows| == MAX_BATCH_SIZE || Left() == Nil
                         else batchIndex < |statement.parameters| && EndsIn(run, rows0) && old(Left()) == Cons(run, later)
    {
      rows := rows0;
      st, run, later := StartRun();
      if st == Error { return; }
      st, rows := Drain(rows0, run);
      if st == Error { return; }
      assert Later(rowIndex + 1) == later && CursorIsGood();
      MoveOn();
    }

    // After the rows have been taken: go to the next parameter row if the run is over.
    method MoveOn()
      requires InRun() && CursorIsGood()
      modifies this`alreadyExecuted, this`batchIndex, this`rowIndex
      ensures Valid() && Left() == old(Current(Later(rowIndex + 1)))
      ensures alreadyExecuted ==> rc == ROW || Left() == Nil
      ensures !alreadyExecuted ==> rc == DONE && batchIndex < |statement.parameters| && old(batchIndex) < |statement.parameters|
    {
      if statement.parameters != [] && rc == DONE && batchIndex < |statement.parameters| {
        NextParameterRow();
      }
    }

    ghost predicate CursorIsGood()
      reads this, statement
    {
      var ps := statement.parameters;
      && (ps != [] && batchIndex < |ps| ==> rowIndex < |ps[batchIndex]|)
      && (ps != [] ==> batchIndex <= |ps|)
    }

    // The run is over: move the cursor to the next parameter row, if there is one.
    method NextParameterRow()
      requires statement.Valid() && !statement.failed && alreadyExecuted && rc == DONE
      requires batchIndex < |statement.parameters| && rowIndex < |statement.parameters[batchIndex]|
      modifies this`alreadyExecuted, this`batchIndex, this`rowIndex
      ensures Valid() && Left() == old(Later(rowIndex + 1))
      ensures if alreadyExecuted then batchIndex == |statement.parameters|
              else batchIndex < |statement.parameters|
    {
      ghost var later := Later(rowIndex + 1);
      rowIndex := rowIndex + 1;
      assert Later(rowIndex) == later;
      if rowIndex < |statement.parameters[batchIndex]| {
        alreadyExecuted := false;
      } else {
        batchIndex := batchIndex + 1;
        rowIndex := 0;
        assert Later(0) == later;
        if batchIndex < |statement.parameters| {
          alreadyExecuted := false;
        }
      }
    }

    // A run is under way or has just ended.
    ghost predicate InRun()
      reads this, statement
    {
      statement.Valid() && !statement.failed && InRange() && alreadyExecuted && rc != OK
    }

    // Reset, bind the row under the cursor and make the first step.
    method Execute() returns (st: Status, ghost run: Outcome<R>)
      requires Valid() && !alreadyExecuted && (statement.parameters == [] || batchIndex < |statement.parameters|)
      modifies this`rc, this`alreadyExecuted, statement`bound, statement`pos, statement`failed
      ensures old(Left()) == Cons(run, Later(rowIndex + 1))
      ensures st.Error? <==> run.rows == [] && run.fails
      ensures st.Ok? ==> InRun() && (rc == DONE <==> run.rows == []) && Gives(run)
    {
      st := statement.Reset();
      if statement.parameters != [] {
        st := statement.Bind(batchIndex, rowIndex);
      }
      run := statement.query(statement.bound);
      st, rc := statement.Step();
      if st == Error { return; }
      alreadyExecuted := true;
      assert run.rows != [] ==> Rest(run, 0) == run;
    }

    // The inner loop: take rows of the current run until the batch is full or the run is over.
    method Drain(rows0: seq<R>, ghost run: Outcome<R>) returns (st: Status, rows: seq<R>)
      requires InRun() && |rows0| < MAX_BATCH_SIZE
      requires Gives(run)
      modifies this`rc, statement`pos, statement`failed
      ensures st.Error? <==> EndsIn(run, rows0) && run.fails
      ensures st.Ok? ==> InRun() && rows == rows0 + Room(run, rows0)
      ensures st.Ok? ==> if EndsIn(run, rows0) then rc == DONE
                         else rc == ROW && Rest(statement.query(statement.bound), statement.pos - 1) == Rest(run, |Room(run, rows0)|)
    {
      rows, st := rows0, Ok;
      ghost var answer, from, k := statement.query(statement.bound), statement.pos - 1, 0;
      while |rows| < MAX_BATCH_SIZE && rc == ROW
        invariant st == Ok && InRun() && answer == statement.query(statement.bound)
        invariant k <= |run.rows| && rows == rows0 + run.rows[..k] && |rows| <= MAX_BATCH_SIZE
        invariant rc == ROW ==> from >= 0
        invariant if rc == ROW then run == Rest(answer, from) && statement.pos == from + k + 1 else k == |run.rows| && !run.fails
        decreases MAX_BATCH_SIZE - |rows|
      {
        var row := statement.CurrentRow();
        rows := rows + [row];
        k := k + 1;
        st, rc := statement.Step();
        if st == Error { return; }
      }
    }
  }

  // The part of a run that fits in the batch, and whether that is all of it.
  ghost function Room<R>(run: Outcome<R>, rows: seq<R>): seq<R>
    requires |rows| < MAX_BATCH_SIZE
  {
    run.rows[..Min(MAX_BATCH_SIZE - |rows|, |run.rows|)]
  }

  ghost predicate EndsIn<R>(run: Outcome<R>, rows: seq<R>) {
    |rows| + |run.rows| <= MAX_BATCH_SIZE
  }

  // rows have been taken off left, and rest is what remains.
  ghost predicate Progress<R>(left: RunList<R>, rows: seq<R>, rest: RunList<R>) {
    Flat(left) == rows + Flat(rest) && Broken(left) == Broken(rest) && FailsLate(left) == FailsLate(rest)
  }

  // Taking what fits of the next run makes progress, unless the run ends in a failure.
  lemma ReadRun<R>(left: RunList<R>, rows: seq<R>, run: Outcome<R>, later: RunList<R>)
    requires |rows| < MAX_BATCH_SIZE
    requires Progress(left, rows, Cons(run, later)) || (run == Outcome([], false) && Progress(left, rows, later))
    ensures EndsIn(run, rows) && run.fails ==> FailsNow(left)
    ensures EndsIn(run, rows) && !run.fails ==> Progress(left, rows + Room(run, rows), later)
    ensures !EndsIn(run, rows) ==> Progress(left, rows + Room(run, rows), Cons(Rest(run, |Room(run, rows)|), later))
  {
    if EndsIn(run, rows) {
      assert Room(run, rows) == run.rows;
      Associate(rows, run.rows, Flat(later));
    } else {
      ReadPart(left, rows, run, later, |Room(run, rows)|);
    }
  }

  lemma ReadPart<R>(left: RunList<R>, rows: seq<R>, run: Outcome<R>, later: RunList<R>, k: nat)
    requires k < |run.rows| && Progress(left, rows, Cons(run, later))
    ensures Progress(left, rows + run.rows[..k], Cons(Rest(run, k), later))
  {
    var (a, b) := (run.rows[..k], run.rows[k..]);
    assert run.rows == a + b;
    if run.fails { Associate(rows, a, b); } else { Associate(rows, a, b + Flat(later)); Associate(a, b, Flat(later)); }
  }

  lemma {:induction false} LateFailureHasRows<R>(runs: RunList<R>)
    requires Broken(runs) && FailsLate(runs)
    ensures Flat(runs) != []
  {
    if !runs.head.fails { LateFailureHasRows(runs.tail); }
  }

  lemma NothingLeft<R>(left: RunList<R>, rest: RunList<R>)
    requires Progress(left, [], rest) && rest == Nil
    ensures Flat(left) == [] && !FailsNow(left)
  {}

  lemma BatchIsFull<R>(left: RunList<R>, rows: seq<R>, rest: RunList<R>)
    requires Progress(left, rows, rest) && |rows| <= MAX_BATCH_SIZE
    requires |rows| == MAX_BATCH_SIZE || rest == Nil
    ensures !FailsNow(left)
    ensures rows == Flat(left)[..Min(MAX_BATCH_SIZE, |Flat(left)|)]
  {
    if Broken(rest) && FailsLate(rest) { LateFailureHasRows(rest); }
  }

  // What is left of a run after k rows.
  function Rest<R>(o: Outcome<R>, k: nat): Outcome<R>
    requires k <= |o.rows|
  {
    Outcome(o.rows[k..], o.fails)
  }

  // ----- Whole runs of the reader -----

  // The extra step that Create makes to learn the column types leaves the results as they are.
  method Create<P, R>(statement: Statement<P, R>) returns (st: Status, reader: Reader<P, R>)
    requires statement.Valid()
    modifies statement`bound, statement`pos, statement`failed
    ensures st.Error? <==> old(statement.failed) || FailsAtOnce(old(AllRuns(statement.query, statement.parameters, statement.bound)))
    ensures st.Ok? ==> fresh(reader) && reader.statement == statement && reader.Valid()
    ensures st.Ok? ==> reader.Left() == old(AllRuns(statement.query, statement.parameters, statement.bound))
  {
    var rc;
    st := statement.Reset();
    reader := new Reader(statement);
    if st == Error { return; }
    if statement.parameters != [] {
      st := statement.Bind(0, 0);
    }
    st, rc := statement.Step();
    if st == Error { return; }
    reader := new Reader(statement);
  }

  // The first run fails before its first row.
  predicate FailsAtOnce<R>(runs: RunList<R>) {
    runs.Cons? && runs.head.rows == [] && runs.head.fails
  }

  // Reading until there is nothing left delivers the results of all parameter rows, in order and without loss or
  // repetition, in full batches but for the last one; if some run fails, it delivers full batches up to the failure.
  method ReadAll<P, R>(reader: Reader<P, R>) returns (st: Status, batches: seq<seq<R>>)
    requires reader.Valid()
    modifies reader, reader.statement`bound, reader.statement`pos, reader.statement`failed
    ensures st.Error? <==> Broken(old(reader.Left()))
    ensures batches <= Chunks(Flat(old(reader.Left())))
    ensures st.Ok? ==> batches == Chunks(Flat(old(reader.Left())))
    ensures st.Ok? ==> reader.Valid() && Flat(reader.Left()) == [] && !Broken(reader.Left())  // so null stays null
  {
    batches := [];
    ghost var left, all := reader.Left(), Chunks(Flat(reader.Left()));
    ghost var broken := Broken(left);
    while true
      invariant reader.Valid() && left == reader.Left() && broken == Broken(left)
      invariant batches + Chunks(Flat(left)) == all
      decreases |Flat(left)|
    {
      var batch;
      st, batch := reader.ReadNext();
      if st == Error || batch == None {
        Finished(batches, left, all);
        return;
      }
      NextChunk(left, batch.value, reader.Left());
      Shift(batches, batch.value, Chunks(Flat(reader.Left())));
      left := reader.Left();
      batches := batches + [batch.value];
    }
  }

  lemma Shift<R>(done: seq<seq<R>>, next: seq<R>, more: seq<seq<R>>)
    ensures done + ([next] + more) == done + [next] + more
  {}

  lemma Finished<R>(done: seq<seq<R>>, left: RunList<R>, all: seq<seq<R>>)
    requires done + Chunks(Flat(left)) == all
    ensures done <= all && (Flat(left) == [] ==> done == all)
  {}

  lemma NextChunk<R>(left: RunList<R>, batch: seq<R>, rest: RunList<R>)
    requires batch != [] && batch == Flat(left)[..Min(MAX_BATCH_SIZE, |Flat(left)|)] && Progress(left, batch, rest)
    ensures Chunks(Flat(left)) == [batch] + Chunks(Flat(rest)) && |Flat(rest)| < |Flat(left)|
  {
    assert Flat(left)[|batch|..] == Flat(rest);
  }

  function Concat<R>(batches: seq<seq<R>>): seq<R> {
    if batches == [] then [] else batches[0] + Concat(batches[1..])
  }

  lemma {:induction false} ChunksAreTheRows<R>(rows: seq<R>)
    ensures Concat(Chunks(rows)) == rows
    ensures forall i :: 0 <= i < |Chunks(rows)| ==>
              && 1 <= |Chunks(rows)[i]| <= MAX_BATCH_SIZE
              && (i < |Chunks(rows)| - 1 ==> |Chunks(rows)[i]| == MAX_BATCH_SIZE)
    decreases |rows|
  {
    if rows != [] {
      var n := Min(MAX_BATCH_SIZE, |rows|);
      ChunksAreTheRows(rows[n..]);
      var more := Chunks(rows[n..]);
      assert Chunks(rows)[1..] == more;
      assert forall i :: 0 < i < |Chunks(rows)| ==> Chunks(rows)[i] == more[i - 1];
      if |rows| <= MAX_BATCH_SIZE { assert rows[n..] == []; }
    }
  }

  // The results of parameter rows one after the other, up to the first failure.
  function Results<P, R>(query: Option<P> -> Outcome<R>, rows: seq<P>): seq<R> {
    if rows == [] then []
    else
      var run := query(Some(rows[0]));
      run.rows + if run.fails then [] else Results(query, rows[1..])
  }

  ghost predicate SomeRowFails<P, R>(query: Option<P> -> Outcome<R>, rows: seq<P>) {
    exists k :: 0 <= k < |rows| && query(Some(rows[k])).fails
  }

  lemma ResultsOfMore<P, R>(query: Option<P> -> Outcome<R>, first: P, rest: seq<P>)
    ensures var run := query(Some(first));
            && Results(query, [first] + rest) == run.rows + (if run.fails then [] else Results(query, rest))
            && (SomeRowFails(query, [first] + rest) <==> run.fails || SomeRowFails(query, rest))
  {
    var rows := [first] + rest;
    assert rows[1..] == rest && rows[0] == first;
    if k :| 0 <= k < |rest| && query(Some(rest[k])).fails { assert rows[k + 1] == rest[k]; }
    if k :| 0 <= k < |rows| && query(Some(rows[k])).fails { assert k > 0 ==> rest[k - 1] == rows[k]; }
  }

  // The parameter rows from (b, r) on.
  function RowsFrom<P>(parameters: seq<seq<P>>, b: nat, r: nat): seq<P>
    decreases |parameters| - b, if b < |parameters| then |parameters[b]| - r else 0
  {
    if b >= |parameters| then []
    else if r >= |parameters[b]| then RowsFrom(parameters, b + 1, 0)
    else [parameters[b][r]] + RowsFrom(parameters, b, r + 1)
  }

  // They are the rows of all batches, whatever these are.
  lemma {:induction false} RowsFromIsConcat<P>(parameters: seq<seq<P>>, b: nat, r: nat)
    requires b <= |parameters| && (b < |parameters| ==> r <= |parameters[b]|)
    ensures RowsFrom(parameters, b, r) ==
            if b < |parameters| then parameters[b][r..] + Concat(parameters[b + 1..]) else []
    decreases |parameters| - b, if b < |parameters| then |parameters[b]| - r else 0
  {
    if b < |parameters| {
      if r == |parameters[b]| {
        RowsFromIsConcat(parameters, b + 1, 0);
        if b + 1 < |parameters| { assert parameters[b + 1..][1..] == parameters[b + 1 + 1..]; }
      } else {
        RowsFromIsConcat(parameters, b, r + 1);
      }
    }
  }

  // The flat results are those of the parameter rows one after the other.
  lemma {:induction false} FlatIsResults<P, R>(query: Option<P> -> Outcome<R>, parameters: seq<seq<P>>, b: nat, r: nat)
    ensures Flat(Runs(query, parameters, b, r)) == Results(query, RowsFrom(parameters, b, r))
    ensures Broken(Runs(query, parameters, b, r)) <==> SomeRowFails(query, RowsFrom(parameters, b, r))
    decreases |parameters| - b, if b < |parameters| then |parameters[b]| - r else 0
  {
    if b < |parameters| {
      if r >= |parameters[b]| {
        FlatIsResults(query, parameters, b + 1, 0);
      } else {
        FlatIsResults(query, parameters, b, r + 1);
        ResultsOfMore(query, parameters[b][r], RowsFrom(parameters, b, r + 1));
      }
    }
  }

  lemma {:induction false} EmptyBatchesDoNotCount<P>(batches: seq<seq<P>>)
    ensures Concat(NonEmpty(batches)) == Concat(batches)
  {
    if batches != [] {
      EmptyBatchesDoNotCount(batches[1..]);
      assert batches[0] == [] ==> NonEmpty(batches) == NonEmpty(batches[1..]);
      if batches[0] != [] {
        assert NonEmpty(batches)[1..] == NonEmpty(batches[1..]);
      }
    }
  }

  // For parameter batches that hold at least one row, what is owed after SetParameters is the concatenation of the
  // results of all parameter rows.
  lemma RowsAreOwed<P, R>(query: Option<P> -> Outcome<R>, batches: seq<seq<P>>, bound: Option<P>)
    requires Concat(batches) != []
    ensures Flat(AllRuns(query, NonEmpty(batches), bound)) == Results(query, Concat(batches))
    ensures Broken(AllRuns(query, NonEmpty(batches), bound)) <==> SomeRowFails(query, Concat(batches))
  {
    EmptyBatchesDoNotCount(batches);
    FlatIsResults(query, NonEmpty(batches), 0, 0);
    RowsFromIsConcat(NonEmpty(batches), 0, 0);
  }

  // If all batches are empty they are forgotten, and the statement runs once with whatever is still bound.
  lemma NoRowsRunsOnce<P, R>(query: Option<P> -> Outcome<R>, batches: seq<seq<P>>, bound: Option<P>)
    requires Concat(batches) == []
    ensures AllRuns(query, NonEmpty(batches), bound) == Cons(query(bound), Nil)
  {
    EmptyBatchesDoNotCount(batches);
    NonEmptyHasRows(batches);
  }

  lemma {:induction false} NonEmptyHasRows<P>(batches: seq<seq<P>>)
    ensures NonEmpty(batches) != [] ==> Concat(NonEmpty(batches)) != []
  {
    if batches != [] {
      NonEmptyHasRows(batches[1..]);
      assert batches[0] == [] ==> NonEmpty(batches) == NonEmpty(batches[1..]);
    }
  }

  lemma {:induction false} ConcatOfPrefix<R>(a: seq<seq<R>>, b: seq<seq<R>>)
    requires a <= b
    ensures Concat(a) <= Concat(b)
  {
    if a != [] { ConcatOfPrefix(a[1..], b[1..]); }
  }

  // A statement with parameters, from binding them to the last batch. What is delivered are the results of every
  // parameter row of every batch, in order and without loss or repetition, if and only if there is a parameter row
  // or the run with the old binding, made once without one, has no results.
  method DeliverResults<P, R>(statement: Statement<P, R>, batches: seq<seq<P>>) returns (st: Status, delivered: seq<seq<R>>)
    requires statement.Valid()
    modifies statement
    ensures var rows, idle := Concat(batches), statement.query(old(statement.bound));
            && (st.Error? <==> old(statement.failed) || if rows != [] then SomeRowFails(statement.query, rows) else idle.fails)
            && (st.Ok? ==> (Concat(delivered) == Results(statement.query, rows) <==> rows != [] || idle.rows == []))
            && (st.Ok? && rows == [] ==> Concat(delivered) == idle.rows)
            && (st.Error? && rows != [] ==> Concat(delivered) <= Results(statement.query, rows))
    ensures forall i :: 0 <= i < |delivered| ==> 1 <= |delivered[i]| <= 16384
    ensures forall i :: 0 <= i < |delivered| - 1 ==> |delivered[i]| == 16384
  {
    ghost var q, rows, bound := statement.query, Concat(batches), statement.bound;
    ghost var runs := AllRuns(q, NonEmpty(batches), bound);
    if rows != [] { RowsAreOwed(q, batches, bound); } else { NoRowsRunsOnce(q, batches, bound); }
    ChunksAreTheRows(Flat(runs));
    delivered := [];
    statement.SetParameters(batches);
    var reader;
    st, reader := Create(statement);
    if st == Error { return; }
    st, delivered := ReadAll(reader);
    ConcatOfPrefix(delivered, Chunks(Flat(runs)));
  }
}
