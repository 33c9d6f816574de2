/**
 Bulk ingestion: a stream of record batches goes into a table inside one transaction that a guard rolls back
 on every way out but a successful commit. The database is a map of tables; any of its calls may also fail
 for reasons of its own, which the connection remembers in the flag faulted.
 */
module BulkIngest {
  import opened Text

  // ----- The database -----

  datatype Name = Name(catalog: string, schema: string, table: string)
  datatype Column = Column(name: string, default: string)
  type Row = seq<string>
  datatype Table = Table(columns: seq<Column>, rows: seq<Row>)
  type Database = map<Name, Table>

  datatype Statement =
    | CreateTable(name: Name, columns: seq<string>, orReplace: bool)
    | DropTable(name: Name)
    | InsertByName(target: Name, source: Name)

  const NULL := "NULL"

  function FreshColumns(names: seq<string>): (cs: seq<Column>)
    ensures |cs| == |names| && forall i :: 0 <= i < |names| ==> cs[i] == Column(names[i], NULL)
  {
    seq(|names|, i requires 0 <= i < |names| => Column(names[i], NULL))
  }

  function NamesOf(cs: seq<Column>): (names: seq<string>)
    ensures |names| == |cs| && forall i :: 0 <= i < |cs| ==> names[i] == cs[i].name
  {
    seq(|cs|, i requires 0 <= i < |cs| => cs[i].name)
  }

  lemma NamesOfFresh(names: seq<string>)
    ensures NamesOf(FreshColumns(names)) == names
  {}

  predicate Distinct(names: seq<string>) {
    forall i, j :: 0 <= i < j < |names| ==> names[i] != names[j]
  }

  function Position(name: string, names: seq<string>): (k: nat)
    requires name in names
    ensures k < |names| && names[k] == name
  {
    if names[0] == name then 0 else 1 + Position(name, names[1..])
  }

  // INSERT ... BY NAME: a column the source lacks takes its default.
  function ByName(columns: seq<Column>, names: seq<string>, row: Row): (r: Row)
    requires |row| == |names|
    ensures |r| == |columns|
    ensures forall i :: 0 <= i < |columns| ==>
              r[i] == if columns[i].name in names then row[Position(columns[i].name, names)] else columns[i].default
  {
    seq(|columns|, i requires 0 <= i < |columns| =>
      if columns[i].name in names then row[Position(columns[i].name, names)] else columns[i].default)
  }

  predicate Fits(rows: seq<Row>, width: nat) {
    forall i :: 0 <= i < |rows| ==> |rows[i]| == width
  }

  function AllByName(columns: seq<Column>, names: seq<string>, rows: seq<Row>): (rs: seq<Row>)
    requires Fits(rows, |names|)
    ensures |rs| == |rows| && Fits(rs, |columns|)
  {
    seq(|rows|, i requires 0 <= i < |rows| => ByName(columns, names, rows[i]))
  }

  predicate Sound(db: Database) {
    forall n :: n in db ==> Fits(db[n].rows, |db[n].columns|)
  }

  predicate Runs(s: Statement, db: Database) {
    match s
    case CreateTable(name, columns, orReplace) => columns != [] && Distinct(columns) && (orReplace || name !in db)
    case DropTable(name) => name in db
    case InsertByName(target, source) =>
      && target in db && source in db
      && forall c :: c in NamesOf(db[source].columns) ==> c in NamesOf(db[target].columns)
  }

  function Effect(s: Statement, db: Database): (after: Database)
    requires Runs(s, db) && Sound(db)
    ensures Sound(after)
  {
    match s
    case CreateTable(name, columns, _) => db[name := Table(FreshColumns(columns), [])]
    case DropTable(name) => db - {name}
    case InsertByName(target, source) =>
      var (t, src) := (db[target], db[source]);
      db[target := t.(rows := t.rows + AllByName(t.columns, NamesOf(src.columns), src.rows))]
  }

  // The catalog and schema in which an unqualified name is looked for.
  datatype Here = Here(catalog: string, schema: string)

  class Connection {
    const here: Here
    var db: Database
    var saved: Option<Database>  // what a rollback restores, while a transaction is open
    var faulted: bool            // some call has failed although its arguments were in order

    method BeginTransaction() returns (ok: bool)
      modifies this
      ensures db == old(db) && (old(faulted) ==> faulted)
      ensures saved == if ok then Some(db) else old(saved)
      ensures ok ==> old(saved).None?
      ensures ok || old(saved).Some? || faulted
    {
      if saved.Some? { return false; }
      var fault: bool := *;
      if fault { faulted := true; return false; }
      saved := Some(db);
      return true;
    }

    // A commit that fails has rolled the transaction back.
    method Commit() returns (ok: bool)
      modifies this
      ensures saved == None && (old(faulted) ==> faulted)
      ensures ok ==> db == old(db)
      ensures !ok ==> db == if old(saved).Some? then old(saved).value else old(db)
      ensures ok || old(saved).None? || faulted
    {
      if saved.None? { return false; }
      var fault: bool := *;
      if fault { db := saved.value; faulted := true; }
      saved := None;
      ok := !fault;
    }

    method Rollback()
      modifies this
      ensures saved == None && faulted == old(faulted)
      ensures db == if old(saved).Some? then old(saved).value else old(db)
    {
      if saved.Some? { db := saved.value; }
      saved := None;
    }

    method Run(s: Statement) returns (ok: bool)
      requires Sound(db)
      modifies this
      ensures saved == old(saved) && (old(faulted) ==> faulted)
      ensures ok ==> Runs(s, old(db)) && db == Effect(s, old(db))
      ensures !ok ==> db == old(db)
      ensures ok || !Runs(s, old(db)) || faulted
    {
      if !Runs(s, db) { return false; }
      var fault: bool := *;
      if fault { faulted := true; return false; }
      db := Effect(s, db);
      return true;
    }
  }

  // ----- The guard -----

  class TransactionGuard {
    const conn: Connection
    var active: bool
    var committed: bool

    constructor (conn: Connection)
      ensures this.conn == conn && active && !committed
    {
      this.conn := conn;
      active, committed := true, false;
    }

    method Commit() returns (ok: bool)
      modifies this, conn
      ensures old(conn.faulted) ==> conn.faulted
      ensures ok ==> old(active) && !active && committed && conn.saved == None && conn.db == old(conn.db)
      ensures !ok ==> active == old(active) && committed == old(committed)
      ensures !ok && old(active) && !old(committed) && old(conn.saved).Some? ==>
                conn.faulted && conn.saved == None && conn.db == old(conn.saved).value
    {
      if !active || committed { return false; }
      ok := conn.Commit();
      if ok { committed, active := true, false; }
    }

    // The destructor.
    method Destroy()
      modifies conn
      ensures conn.faulted == old(conn.faulted)
      ensures active && !committed ==> conn.saved == None
      ensures active && !committed ==> conn.db == if old(conn.saved).Some? then old(conn.saved).value else old(conn.db)
      ensures !(active && !committed) ==> conn.db == old(conn.db) && conn.saved == old(conn.saved)
    {
      if active && !committed { conn.Rollback(); }
    }
  }

  // ----- The appender -----

  // How appending ends: with the row in, with an exception of the database, or with one that nobody catches.
  datatype Signal = Done | Caught | Uncaught

  class Appender {
    const conn: Connection
    const name: Name
    var buffer: seq<Row>
    var current: Row

    constructor (conn: Connection, name: Name)
      ensures this.conn == conn && this.name == name && buffer == [] && current == []
    {
      this.conn, this.name := conn, name;
      buffer, current := [], [];
    }

    ghost predicate Valid()
      reads this, conn
    {
      && Sound(conn.db) && name in conn.db
      && Fits(buffer, |conn.db[name].columns|)
    }

    // The database as it will be when the buffer has been written.
    ghost function Target(): Database
      requires Valid()
      reads this, conn
    {
      conn.db[name := conn.db[name].(rows := conn.db[name].rows + buffer)]
    }

    method Flush() returns (ok: bool)
      requires Valid()
      modifies this, conn
      ensures Valid() && conn.saved == old(conn.saved) && current == old(current)
      ensures old(conn.faulted) ==> conn.faulted
      ensures ok ==> buffer == [] && conn.db == old(Target())
      ensures Target() == old(Target())
      ensures ok || conn.faulted
    {
      var fault: bool := *;
      if fault { conn.faulted := true; return false; }
      var t := conn.db[name];
      conn.db := conn.db[name := t.(rows := t.rows + buffer)];
      buffer := [];
      assert t.rows + old(buffer) + [] == t.rows + old(buffer);
      return true;
    }

    method BeginRow()
      modifies this
      ensures current == [] && buffer == old(buffer)
    {
      current := [];
    }

    // There is room for one value per column.
    method Append(v: string) returns (ok: bool)
      requires Valid()
      modifies this
      ensures Valid() && buffer == old(buffer)
      ensures ok <==> old(|current|) < |conn.db[name].columns|
      ensures current == old(current) + if ok then [v] else []
    {
      ok := |current| < |conn.db[name].columns|;
      if ok { current := current + [v]; }
    }

    // A full row goes to the buffer, and the buffer to the table whenever it is full.
    method EndRow() returns (ok: bool)
      requires Valid()
      modifies this, conn
      ensures Valid() && conn.saved == old(conn.saved)
      ensures old(conn.faulted) ==> conn.faulted
      ensures ok ==> old(|current|) == |old(conn.db)[name].columns|
      ensures ok ==> Target() == AddRows(old(Target()), name, [old(current)])
      ensures ok || conn.faulted || old(|current|) != |old(conn.db)[name].columns|
    {
      if |current| != |conn.db[name].columns| { return false; }
      ghost var before := Target();
      buffer := buffer + [current];
      assert Target() == AddRows(before, name, [current]) by {
        assert conn.db[name].rows + buffer == before[name].rows + [current];
      }
      ok := true;
      var full: bool := *;
      if full { ok := Flush(); }
    }

    method Close() returns (ok: bool)
      requires Valid()
      modifies this, conn
      ensures Valid() && conn.saved == old(conn.saved)
      ensures old(conn.faulted) ==> conn.faulted
      ensures ok ==> buffer == [] && conn.db == old(Target())
      ensures ok || conn.faulted
    {
      ok := Flush();
    }

    // The destructor writes what is left, whatever made the scope end.
    method Destroy()
      requires Valid()
      modifies this, conn
      ensures conn.saved == old(conn.saved) && (old(conn.faulted) ==> conn.faulted)
      ensures old(buffer) == [] ==> conn.db == old(conn.db) && conn.faulted == old(conn.faulted)
    {
      if buffer != [] {
        var ok := Close();
      }
    }
  }

  function AddRows(db: Database, name: Name, rows: seq<Row>): Database
    requires name in db
  {
    db[name := db[name].(rows := db[name].rows + rows)]
  }

  lemma AddRowsTwice(db: Database, name: Name, a: seq<Row>, b: seq<Row>)
    requires name in db
    ensures AddRows(AddRows(db, name, a), name, b) == AddRows(db, name, a + b)
  {
    assert db[name].rows + a + b == db[name].rows + (a + b);
  }

  lemma AddNoRows(db: Database, name: Name)
    requires name in db
    ensures AddRows(db, name, []) == db
  {
    assert db[name].rows + [] == db[name].rows;
  }

  // ----- The stream -----

  datatype Cell = Cell(value: string) | Unconvertible
  datatype Item = Data(rows: seq<seq<Cell>>) | MetadataOnly | ReadError

  predicate WellTyped(stream: seq<Item>, width: nat) {
    forall i :: 0 <= i < |stream| && stream[i].Data? ==>
      forall r :: 0 <= r < |stream[i].rows| ==> |stream[i].rows[r]| == width
  }

  predicate Converts(row: seq<Cell>) {
    forall c :: 0 <= c < |row| ==> row[c].Cell?
  }

  predicate Clean(rows: seq<seq<Cell>>) {
    forall r :: 0 <= r < |rows| ==> Converts(rows[r])
  }

  predicate ReadsCleanly(stream: seq<Item>) {
    forall i :: 0 <= i < |stream| ==> !stream[i].ReadError? && (stream[i].Data? ==> Clean(stream[i].rows))
  }

  function ValuesOf(row: seq<Cell>): (r: Row)
    ensures |r| == |row|
  {
    seq(|row|, c requires 0 <= c < |row| => if row[c].Cell? then row[c].value else NULL)
  }

  function RowsOf(rows: seq<seq<Cell>>): (rs: seq<Row>)
    ensures |rs| == |rows|
  {
    seq(|rows|, r requires 0 <= r < |rows| => ValuesOf(rows[r]))
  }

  // All rows that were sent, in order.
  function Streamed(stream: seq<Item>): seq<Row> {
    if stream == [] then []
    else
      var last := stream[|stream| - 1];
      Streamed(stream[..|stream| - 1]) + if last.Data? then RowsOf(last.rows) else []
  }

  lemma {:induction false} StreamedFits(stream: seq<Item>, width: nat)
    requires WellTyped(stream, width)
    ensures Fits(Streamed(stream), width)
  {
    if stream != [] {
      StreamedFits(stream[..|stream| - 1], width);
      var last := stream[|stream| - 1];
      if last.Data? {
        forall r | 0 <= r < |last.rows| ensures |RowsOf(last.rows)[r]| == width {
          assert |last.rows[r]| == width;
        }
      }
    }
  }

  lemma StreamedStep(stream: seq<Item>, i: nat)
    requires i < |stream|
    ensures Streamed(stream[..i + 1]) == Streamed(stream[..i]) + if stream[i].Data? then RowsOf(stream[i].rows) else []
    ensures !stream[i].Data? ==> Streamed(stream[..i + 1]) == Streamed(stream[..i])
  {
    assert stream[..i + 1][..i] == stream[..i];
  }

  lemma {:induction false} NoRowsFitAnyWidth(stream: seq<Item>, width: nat)
    requires Streamed(stream) == []
    ensures WellTyped(stream, width)
  {
    if stream != [] {
      var n := |stream| - 1;
      assert stream[n].Data? ==> |RowsOf(stream[n].rows)| == 0;
      NoRowsFitAnyWidth(stream[..n], width);
      forall i | 0 <= i < |stream| && stream[i].Data? ensures stream[i].rows == [] || WellTyped([stream[i]], width) {
        if i < n { assert stream[..n][i] == stream[i]; assert WellTyped([stream[i]], width); }
      }
    }
  }

  method AppendRow(appender: Appender, row: seq<Cell>) returns (signal: Signal)
    requires appender.Valid()
    modifies appender, appender.conn
    ensures appender.Valid() && appender.conn.saved == old(appender.conn.saved)
    ensures old(appender.conn.faulted) ==> appender.conn.faulted
    ensures signal.Done? ==> Converts(row) && |row| == |old(appender.conn.db)[appender.name].columns|
    ensures signal.Done? ==> appender.Target() == AddRows(old(appender.Target()), appender.name, [ValuesOf(row)])
    ensures !signal.Done? ==>
              appender.conn.faulted || !Converts(row) || |row| != |old(appender.conn.db)[appender.name].columns|
  {
    appender.BeginRow();
    for col := 0 to |row|
      invariant appender.Valid() && appender.conn.saved == old(appender.conn.saved)
      invariant appender.conn.db == old(appender.conn.db) && appender.buffer == old(appender.buffer)
      invariant appender.conn.faulted == old(appender.conn.faulted)
      invariant appender.current == ValuesOf(row[..col]) && col <= |appender.conn.db[appender.name].columns|
      invariant forall c :: 0 <= c < col ==> row[c].Cell?
    {
      if row[col].Unconvertible? { return Uncaught; }
      var ok := appender.Append(row[col].value);
      if !ok { return Caught; }
      assert ValuesOf(row[..col + 1]) == ValuesOf(row[..col]) + [row[col].value];
    }
    assert row[..|row|] == row;
    var ok := appender.EndRow();
    signal := if ok then Done else Caught;
  }

  method AppendRecordBatch(appender: Appender, rows: seq<seq<Cell>>) returns (signal: Signal)
    requires appender.Valid()
    modifies appender, appender.conn
    ensures appender.Valid() && appender.conn.saved == old(appender.conn.saved)
    ensures old(appender.conn.faulted) ==> appender.conn.faulted
    ensures signal.Done? ==> Clean(rows) && appender.Target() == AddRows(old(appender.Target()), appender.name, RowsOf(rows))
    ensures signal.Done? && rows != [] ==> |rows[0]| == |old(appender.conn.db)[appender.name].columns|
    ensures !signal.Done? ==>
              || appender.conn.faulted || !Clean(rows)
              || exists r :: 0 <= r < |rows| && |rows[r]| != |old(appender.conn.db)[appender.name].columns|
  {
    ghost var before := appender.Target();
    ghost var name := appender.name;
    AddNoRows(before, name);
    for r := 0 to |rows|
      invariant appender.Valid() && appender.conn.saved == old(appender.conn.saved)
      invariant old(appender.conn.faulted) ==> appender.conn.faulted
      invariant appender.Target() == AddRows(before, name, RowsOf(rows[..r]))
      invariant Clean(rows[..r])
      invariant r > 0 ==> |rows[0]| == |before[name].columns|
    {
      assert |appender.conn.db[name].columns| == |appender.Target()[name].columns| == |before[name].columns|;
      signal := AppendRow(appender, rows[r]);
      if !signal.Done? {
        assert Clean(rows) ==> Converts(rows[r]);
        return;
      }
      AddRowsTwice(before, name, RowsOf(rows[..r]), [ValuesOf(rows[r])]);
      assert RowsOf(rows[..r + 1]) == RowsOf(rows[..r]) + [ValuesOf(rows[r])];
    }
    assert rows[..|rows|] == rows;
    signal := Done;
  }

  // ----- The request -----

  datatype IfExists = FailIfExists | Append | Replace | UseAsIs
  datatype IfNotExists = FailIfMissing | Create | CreateUnspecified
  datatype Command = Command(catalog: Option<string>, schema: Option<string>, table: string,
                             ifExists: IfExists, ifNotExists: IfNotExists, sessionId: string)

  datatype Outcome = Ingested(count: nat) | Failed | Thrown

  // The table the command names, for the metadata query and in the statements.
  function Target(here: Here, cmd: Command): Name {
    Name(if cmd.catalog.Some? then cmd.catalog.value else here.catalog,
         if cmd.schema.Some? then cmd.schema.value else here.schema, cmd.table)
  }

  // The table the appender opens when there is no interim table: the catalog is passed only along with a schema.
  function AppenderTarget(here: Here, cmd: Command): Name {
    if cmd.catalog.Some? && cmd.schema.Some? then Name(cmd.catalog.value, cmd.schema.value, cmd.table)
    else if cmd.schema.Some? then Name(here.catalog, cmd.schema.value, cmd.table)
    else Name(here.catalog, here.schema, cmd.table)
  }

  const TEMP := Here("temp", "main")

  function InterimName(cmd: Command): (n: Name)
    ensures n.table != cmd.table
  {
    var t := cmd.table + "_interim_bulk_ingest_temp_" + cmd.sessionId;
    assert |t| > |cmd.table|;
    Name(TEMP.catalog, TEMP.schema, t)
  }

  predicate ViaInterim(db: Database, here: Here, cmd: Command) {
    Target(here, cmd) in db && cmd.ifExists.Append?
  }

  // The table the rows are appended to.
  function Landing(db: Database, here: Here, cmd: Command): Name {
    if ViaInterim(db, here, cmd) then InterimName(cmd) else AppenderTarget(here, cmd)
  }

  // What an ingest is meant to do to the database.
  function Expected(db: Database, here: Here, cmd: Command, names: seq<string>, rows: seq<Row>): Database
    requires Fits(rows, |names|)
  {
    var target := Target(here, cmd);
    if target !in db || cmd.ifExists.Replace? then db[target := Table(FreshColumns(names), rows)]
    else
      var t := db[target];
      if cmd.ifExists.Append? then
        db[target := t.(rows := t.rows + AllByName(t.columns, names, rows))] - {InterimName(cmd)}
      else
        db[target := t.(rows := t.rows + rows)]
  }

  // The database before the first row is appended.
  function Prepared(db: Database, here: Here, cmd: Command, names: seq<string>): Database {
    var target := Target(here, cmd);
    if ViaInterim(db, here, cmd) then db[InterimName(cmd) := Table(FreshColumns(names), [])]
    else if target !in db || cmd.ifExists.Replace? then db[target := Table(FreshColumns(names), [])]
    else db
  }

  predicate Preparable(db: Database, here: Here, cmd: Command, names: seq<string>) {
    if Target(here, cmd) !in db then names != [] && Distinct(names)
    else match cmd.ifExists
      case FailIfExists => false
      case UseAsIs => true
      case _ => names != [] && Distinct(names)
  }

  // A caller can see beforehand that nothing stands in the way.
  predicate Acceptable(db: Database, here: Here, cmd: Command, names: seq<string>, stream: seq<Item>) {
    var (target, landing, prepared) := (Target(here, cmd), Landing(db, here, cmd), Prepared(db, here, cmd, names));
    && ReadsCleanly(stream)
    && (target in db || !cmd.ifNotExists.FailIfMissing?)
    && Preparable(db, here, cmd, names)
    && landing in prepared && (Streamed(stream) == [] || |names| == |prepared[landing].columns|)
    && (ViaInterim(db, here, cmd) ==> forall c :: c in names ==> c in NamesOf(db[target].columns))
  }

  // What a successful ingest does to the database.
  function Actual(db: Database, here: Here, cmd: Command, names: seq<string>, rows: seq<Row>): Database
    requires Fits(rows, |names|) && Landing(db, here, cmd) in Prepared(db, here, cmd, names)
  {
    if ViaInterim(db, here, cmd) then Expected(db, here, cmd, names, rows)
    else AddRows(Prepared(db, here, cmd, names), Landing(db, here, cmd), rows)
  }

  // A condition on the command: the rows go where they are meant to go.
  predicate HitsTarget(db: Database, here: Here, cmd: Command) {
    ViaInterim(db, here, cmd) || cmd.schema.Some? || cmd.catalog.None? || cmd.catalog == Some(here.catalog)
  }

  // Inside the transaction, up to the point where rows can be appended.
  method Prepare(conn: Connection, cmd: Command, names: seq<string>) returns (ok: bool, interim: bool)
    requires Sound(conn.db)
    modifies conn
    ensures interim == ViaInterim(old(conn.db), conn.here, cmd)
    ensures conn.saved == old(conn.saved) && (old(conn.faulted) ==> conn.faulted)
    ensures ok ==> Preparable(old(conn.db), conn.here, cmd, names) && conn.db == Prepared(old(conn.db), conn.here, cmd, names)
    ensures ok || conn.faulted || !Preparable(old(conn.db), conn.here, cmd, names)
  {
    var target := Target(conn.here, cmd);
    var exists_ := target in conn.db;
    interim := false;
    if exists_ {
      match cmd.ifExists {
        case FailIfExists => return false, interim;
        case Append =>
          interim := true;
          ok := conn.Run(CreateTable(InterimName(cmd), names, true));
          if !ok { return; }
        case UseAsIs =>
        case Replace =>
          ok := conn.Run(DropTable(target));
          if !ok { return; }
          exists_ := false;
      }
    }
    ok := true;
    if !exists_ {
      ok := conn.Run(CreateTable(target, names, false));
    }
  }

  // Reads the stream to its end; the total counts the rows of every batch that was read.
  method ReadStream(appender: Appender, stream: seq<Item>) returns (signal: Signal, total: nat)
    requires appender.Valid()
    modifies appender, appender.conn
    ensures appender.Valid() && appender.conn.saved == old(appender.conn.saved)
    ensures old(appender.conn.faulted) ==> appender.conn.faulted
    ensures signal.Done? ==>
              && ReadsCleanly(stream) && total == |Streamed(stream)|
              && appender.Target() == AddRows(old(appender.Target()), appender.name, Streamed(stream))
    ensures !signal.Done? ==>
              || appender.conn.faulted || !ReadsCleanly(stream)
              || !WellTyped(stream, |old(appender.conn.db)[appender.name].columns|)
  {
    ghost var before := appender.Target();
    ghost var name := appender.name;
    AddNoRows(before, name);
    total := 0;
    for i := 0 to |stream|
      invariant appender.Valid() && appender.conn.saved == old(appender.conn.saved)
      invariant old(appender.conn.faulted) ==> appender.conn.faulted
      invariant appender.Target() == AddRows(before, name, Streamed(stream[..i]))
      invariant ReadsCleanly(stream[..i]) && total == |Streamed(stream[..i])|
    {
      StreamedStep(stream, i);
      match stream[i]
      case ReadError => return Caught, total;
      case MetadataOnly =>
      case Data(rows) =>
        total := total + |rows|;
        assert |appender.conn.db[name].columns| == |appender.Target()[name].columns| == |before[name].columns|;
        signal := AppendRecordBatch(appender, rows);
        if !signal.Done? {
          assert ReadsCleanly(stream) ==> Clean(stream[i].rows);
          return;
        }
        AddRowsTwice(before, name, Streamed(stream[..i]), RowsOf(rows));
    }
    assert stream[..|stream|] == stream;
    signal := Done;
  }

  // Copying from the interim table and dropping it.
  lemma InterimMoved(db: Database, here: Here, cmd: Command, names: seq<string>, rows: seq<Row>)
    requires Sound(db) && Fits(rows, |names|) && ViaInterim(db, here, cmd)
    ensures var landed := db[InterimName(cmd) := Table(FreshColumns(names), rows)];
            var insert := InsertByName(Target(here, cmd), InterimName(cmd));
            && Sound(landed)
            && (Runs(insert, landed) <==> forall c :: c in names ==> c in NamesOf(db[Target(here, cmd)].columns))
            && (Runs(insert, landed) ==>
                  && Runs(DropTable(InterimName(cmd)), Effect(insert, landed))
                  && Effect(DropTable(InterimName(cmd)), Effect(insert, landed)) == Expected(db, here, cmd, names, rows))
  {
    NamesOfFresh(names);
  }

  // Step 7: moves the rows from the interim table to the target.
  method MoveInterim(conn: Connection, cmd: Command, total: nat,
                     ghost db: Database, ghost names: seq<string>, ghost rows: seq<Row>)
      returns (ok: bool)
    requires Sound(db) && Fits(rows, |names|) && ViaInterim(db, conn.here, cmd) && total == |rows|
    requires conn.db == db[InterimName(cmd) := Table(FreshColumns(names), rows)]
    modifies conn
    ensures conn.saved == old(conn.saved) && (old(conn.faulted) ==> conn.faulted)
    ensures ok ==> conn.db == Expected(db, conn.here, cmd, names, rows)
    ensures ok ==> forall c :: c in names ==> c in NamesOf(db[Target(conn.here, cmd)].columns)
    ensures ok || conn.faulted || exists c :: c in names && c !in NamesOf(db[Target(conn.here, cmd)].columns)
  {
    InterimMoved(db, conn.here, cmd, names, rows);
    var moved := |conn.db[InterimName(cmd)].rows|;
    ok := conn.Run(InsertByName(Target(conn.here, cmd), InterimName(cmd)));
    if !ok { return; }
    var inserted := ReportedCount(conn, moved);
    if inserted != total { return false; }
    ok := conn.Run(DropTable(InterimName(cmd)));
  }

  // The count the database reports for an insert; a wrong one is a fault of the database.
  method ReportedCount(conn: Connection, inserted: nat) returns (count: int)
    modifies conn
    ensures conn.db == old(conn.db) && conn.saved == old(conn.saved) && (old(conn.faulted) ==> conn.faulted)
    ensures count == inserted || conn.faulted
  {
    count := inserted;
    var fault: bool := *;
    if fault {
      count := *;
      conn.faulted := true;
    }
  }

  lemma RowsFitTheTable(db: Database, name: Name, rows: seq<Row>, width: nat)
    requires name in db && Sound(AddRows(db, name, rows)) && Fits(rows, width)
    ensures Fits(rows, |db[name].columns|)
    ensures rows == [] || width == |db[name].columns|
  {
    var before := db[name].rows;
    var t := AddRows(db, name, rows)[name];
    assert Fits(t.rows, |db[name].columns|);
    forall i | 0 <= i < |rows| ensures |rows[i]| == |db[name].columns| {
      assert t.rows[|before| + i] == rows[i];
    }
    if rows != [] { assert |rows[0]| == width; }
  }

  // Step 6. Opening the appender fails if there is no such table. On success the rows are in the table and nothing
  // is left for the appender's destructor to do.
  method Load(conn: Connection, name: Name, stream: seq<Item>, ghost width: nat) returns (signal: Signal, total: nat)
    requires Sound(conn.db) && WellTyped(stream, width)
    modifies conn
    ensures conn.saved == old(conn.saved) && (old(conn.faulted) ==> conn.faulted)
    ensures signal.Done? ==>
              && ReadsCleanly(stream) && total == |Streamed(stream)| && Sound(conn.db) && name in old(conn.db)
              && conn.db == AddRows(old(conn.db), name, Streamed(stream))
    ensures !signal.Done? ==>
              || conn.faulted || !ReadsCleanly(stream) || name !in old(conn.db)
              || (Streamed(stream) != [] && width != |old(conn.db)[name].columns|)
  {
    if name !in conn.db { return Caught, 0; }
    var appender := new Appender(conn, name);
    assert conn.db[name].rows + [] == conn.db[name].rows;
    assert appender.Target() == conn.db;
    signal, total := ReadStream(appender, stream);
    if signal.Done? {
      var ok := appender.Close();
      if !ok { signal := Caught; }
    } else if Streamed(stream) == [] {
      NoRowsFitAnyWidth(stream, |old(conn.db)[name].columns|);
    }
    appender.Destroy();
  }

  lemma PreparedSound(db: Database, here: Here, cmd: Command, names: seq<string>)
    requires Sound(db)
    ensures Sound(Prepared(db, here, cmd, names))
  {}

  // Steps 6 and 7, with the transaction left open.
  method Fill(conn: Connection, cmd: Command, names: seq<string>, stream: seq<Item>, interim: bool, ghost db: Database)
      returns (signal: Signal, total: nat)
    requires interim == ViaInterim(db, conn.here, cmd)
    requires Sound(db) && Preparable(db, conn.here, cmd, names) && WellTyped(stream, |names|)
    requires conn.db == Prepared(db, conn.here, cmd, names)
    requires Target(conn.here, cmd) in db || !cmd.ifNotExists.FailIfMissing?
    modifies conn
    ensures conn.saved == old(conn.saved) && (old(conn.faulted) ==> conn.faulted)
    ensures signal.Done? ==> Fits(Streamed(stream), |names|) && total == |Streamed(stream)|
    ensures signal.Done? ==>
              && Acceptable(db, conn.here, cmd, names, stream)
              && conn.db == Actual(db, conn.here, cmd, names, Streamed(stream))
    ensures !signal.Done? ==> conn.faulted || !Acceptable(db, conn.here, cmd, names, stream)
  {
    StreamedFits(stream, |names|);
    ghost var rows := Streamed(stream);
    var name :=
      if interim then InterimName(cmd)
      else if cmd.catalog.Some? && cmd.schema.Some? then Name(cmd.catalog.value, cmd.schema.value, cmd.table)
      else if cmd.schema.Some? then Name(conn.here.catalog, cmd.schema.value, cmd.table)
      else Name(conn.here.catalog, conn.here.schema, cmd.table);
    ghost var prepared := conn.db;
    PreparedSound(db, conn.here, cmd, names);
    signal, total := Load(conn, name, stream, |names|);
    if !signal.Done? { return; }
    RowsFitTheTable(prepared, name, rows, |names|);
    if interim {
      assert [] + rows == rows;
      var ok := MoveInterim(conn, cmd, total, db, names, rows);
      if !ok { signal := Caught; }
    }
  }

  method IngestInTransaction(conn: Connection, guard: TransactionGuard, cmd: Command, names: seq<string>, stream: seq<Item>)
      returns (outcome: Outcome)
    requires guard.conn == conn && guard.active && !guard.committed && conn.saved == Some(conn.db)
    requires Sound(conn.db) && WellTyped(stream, |names|)
    requires Target(conn.here, cmd) in conn.db || !cmd.ifNotExists.FailIfMissing?
    modifies conn, guard
    ensures old(conn.faulted) ==> conn.faulted
    ensures outcome.Ingested? <==> guard.committed
    ensures guard.active != guard.committed
    ensures outcome.Ingested? ==>
              && Acceptable(old(conn.db), conn.here, cmd, names, stream) && conn.saved == None
              && Fits(Streamed(stream), |names|) && outcome.count == |Streamed(stream)|
              && conn.db == Actual(old(conn.db), conn.here, cmd, names, Streamed(stream))
    ensures !outcome.Ingested? ==> conn.saved == old(conn.saved) || (conn.saved == None && conn.db == old(conn.db))
    ensures !outcome.Ingested? ==> conn.faulted || !Acceptable(old(conn.db), conn.here, cmd, names, stream)
  {
    ghost var db := conn.db;
    var ok, interim := Prepare(conn, cmd, names);
    if !ok { return Failed; }
    var signal, total := Fill(conn, cmd, names, stream, interim, db);
    if signal.Uncaught? { return Thrown; }
    if signal.Caught? { return Failed; }
    ok := guard.Commit();
    outcome := if ok then Ingested(total) else Failed;
  }

  // All or nothing: an ingest that does not succeed leaves the connection as it was, and one that does has
  // appended exactly the streamed rows. It succeeds just when it is acceptable, unless the database fails.
  method DoPutCommandStatementIngest(conn: Connection, cmd: Command, names: seq<string>, stream: seq<Item>)
      returns (outcome: Outcome)
    requires Sound(conn.db) && WellTyped(stream, |names|)
    modifies conn
    ensures outcome.Ingested? ==>
              && old(conn.saved).None? && Acceptable(old(conn.db), conn.here, cmd, names, stream)
              && Fits(Streamed(stream), |names|) && outcome.count == |Streamed(stream)|
              && conn.db == Actual(old(conn.db), conn.here, cmd, names, Streamed(stream)) && conn.saved == None
    ensures Target(conn.here, cmd) in old(conn.db) && cmd.ifExists.FailIfExists? ==> !outcome.Ingested?
    ensures Target(conn.here, cmd) !in old(conn.db) && cmd.ifNotExists.FailIfMissing? ==> !outcome.Ingested?
    ensures !outcome.Ingested? ==> conn.db == old(conn.db) && conn.saved == old(conn.saved)
    ensures old(conn.saved).None? && Acceptable(old(conn.db), conn.here, cmd, names, stream) ==>
              outcome.Ingested? || conn.faulted
  {
    var fault: bool := *;
    if fault {  // the schema or the catalogue could not be read
      conn.faulted := true;
      return Failed;
    }
    if Target(conn.here, cmd) !in conn.db && cmd.ifNotExists.FailIfMissing? { return Failed; }
    var begun := conn.BeginTransaction();
    if !begun { return Thrown; }
    var guard := new TransactionGuard(conn);
    outcome := IngestInTransaction(conn, guard, cmd, names, stream);
    guard.Destroy();
  }

  // ----- What success means -----

  // A successful ingest does to the database what it is meant to do if and only if there were no rows or it went
  // via the interim table, a schema was given, no catalog was given, or the catalog is the current one.
  lemma IngestIsAsExpected(db: Database, here: Here, cmd: Command, names: seq<string>, stream: seq<Item>)
    requires Sound(db) && Fits(Streamed(stream), |names|) && Acceptable(db, here, cmd, names, stream)
    ensures (Actual(db, here, cmd, names, Streamed(stream)) == Expected(db, here, cmd, names, Streamed(stream)))
            <==> (Streamed(stream) == [] || HitsTarget(db, here, cmd))
  {
    var rows, target := Streamed(stream), Target(here, cmd);
    var actual := Actual(db, here, cmd, names, rows);
    var expected := Expected(db, here, cmd, names, rows);
    assert [] + rows == rows;
    if rows == [] {
      AddNoRows(Prepared(db, here, cmd, names), Landing(db, here, cmd));
      assert target in db ==> db[target].rows + rows == db[target].rows;
    }
    if !HitsTarget(db, here, cmd) {
      assert Landing(db, here, cmd) != target;
      assert |expected[target].rows| == |Prepared(db, here, cmd, names)[target].rows| + |rows|;
      assert actual[target] == Prepared(db, here, cmd, names)[target];
    }
  }

  // Read off the resulting database: where the rows went, and that nothing else changed.
  lemma IngestedTables(db: Database, here: Here, cmd: Command, names: seq<string>, stream: seq<Item>)
    requires Sound(db) && Fits(Streamed(stream), |names|) && Acceptable(db, here, cmd, names, stream)
    ensures var (rows, target, landing) := (Streamed(stream), Target(here, cmd), Landing(db, here, cmd));
            var after := Actual(db, here, cmd, names, rows);
            && Sound(after) && target in after
            && (forall n :: n in db && n != target && n != landing ==> n in after && after[n] == db[n])
            && (forall n :: n in after ==> n in db || n == target)
            && (ViaInterim(db, here, cmd) ==> landing !in after)
            && (if !HitsTarget(db, here, cmd) then
                  && landing in db && after[landing] == db[landing].(rows := db[landing].rows + rows)
                  && after[target] == Prepared(db, here, cmd, names)[target]
                else if target in db && !cmd.ifExists.Replace? then
                  && db[target].rows <= after[target].rows
                  && |after[target].rows| == |db[target].rows| + |rows|
                  && after[target].columns == db[target].columns
                else after[target].rows == rows && NamesOf(after[target].columns) == names)
  {
    NamesOfFresh(names);
    var rows, landing := Streamed(stream), Landing(db, here, cmd);
    var prepared := Prepared(db, here, cmd, names);
    PreparedSound(db, here, cmd, names);
    assert [] + rows == rows;
    if rows != [] { assert Fits(rows, |prepared[landing].columns|); }
  }

  // An input for which rows go astray: a catalog is given without a schema, another one is current, and both have
  // the table. The named table stays as it was, yet the count of rows is reported as ingested.
  lemma RowsGoAstray(rows: seq<seq<Cell>>)
    requires rows != [] && Clean(rows) && forall r :: 0 <= r < |rows| ==> |rows[r]| == 1
    ensures var here := Here("memory", "main");
            var (t, other) := (Name("memory", "main", "t"), Name("other", "main", "t"));
            var empty := Table([Column("x", NULL)], []);
            var db := map[t := empty, other := empty];
            var cmd := Command(Some("other"), None, "t", UseAsIs, CreateUnspecified, "1");
            && Target(here, cmd) == other && Acceptable(db, here, cmd, ["x"], [Data(rows)])
            && Streamed([Data(rows)]) == RowsOf(rows)
            && Actual(db, here, cmd, ["x"], RowsOf(rows)) == map[t := empty.(rows := RowsOf(rows)), other := empty]
  {
    var stream := [Data(rows)];
    assert stream[..0] == [];
    assert Streamed(stream) == [] + RowsOf(rows) == RowsOf(rows);
  }

  // Every streamed value of a named column arrives in that column of the row appended for it.
  lemma AppendedValues(db: Database, here: Here, cmd: Command, names: seq<string>, stream: seq<Item>, r: nat, c: nat, i: nat)
    requires Sound(db) && Fits(Streamed(stream), |names|) && Acceptable(db, here, cmd, names, stream)
    requires ViaInterim(db, here, cmd)
    requires r < |Streamed(stream)| && c < |names| && i < |db[Target(here, cmd)].columns|
    requires NamesOf(db[Target(here, cmd)].columns)[i] == names[c]
    ensures var before := db[Target(here, cmd)];
            var t := Actual(db, here, cmd, names, Streamed(stream))[Target(here, cmd)];
            && |t.rows| == |before.rows| + |Streamed(stream)|
            && |t.rows[|before.rows| + r]| == |before.columns|
            && t.rows[|before.rows| + r][i] == Streamed(stream)[r][c]
  {
    var before := db[Target(here, cmd)];
    assert before.columns[i].name == names[c];
    var p := Position(names[c], names);
    assert p == c;
    var t := Actual(db, here, cmd, names, Streamed(stream))[Target(here, cmd)];
    assert t.rows[|before.rows| + r] == ByName(before.columns, names, Streamed(stream)[r]);
  }
}
