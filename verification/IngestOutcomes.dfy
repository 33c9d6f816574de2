/**
 What becomes of an ingest, read off the command and the database before it: for each choice of what to do if the
 table exists or is missing, when it can succeed and what it leaves. Nothing here speaks of how the ingest prepares.
 */
module IngestOutcomes {
  import opened Text
  import opened BulkIngest

  // The table the command names, the one the appender opens, and the one rows are collected in for an append.
  predicate Roles(here: Here, cmd: Command, named: Name, landing: Name, interim: Name) {
    && named.table == landing.table == cmd.table
    && named.schema == landing.schema == (match cmd.schema case Some(s) => s case None => here.schema)
    && named.catalog == (match cmd.catalog case Some(c) => c case None => here.catalog)
    && landing.catalog == (if cmd.schema.Some? then named.catalog else here.catalog)
    && interim == Name("temp", "main", cmd.table + "_interim_bulk_ingest_temp_" + cmd.sessionId)
  }

  // A table with these columns can be created.
  predicate CanCreate(names: seq<string>) {
    names != [] && forall i, j :: 0 <= i < j < |names| ==> names[i] != names[j]
  }

  predicate CanTake(db: Database, landing: Name, names: seq<string>, rows: seq<Row>) {
    landing in db && (rows != [] ==> |db[landing].columns| == |names|)
  }

  // With a missing table: never if that is to fail; otherwise if the new table can be created and takes the rows, or,
  // if the appender opens another one, that one takes them.
  lemma WhenMissing(db: Database, here: Here, cmd: Command, names: seq<string>, stream: seq<Item>,
                    named: Name, landing: Name, interim: Name)
    requires Roles(here, cmd, named, landing, interim) && named !in db
    ensures Acceptable(db, here, cmd, names, stream) <==>
              && cmd.ifNotExists != FailIfMissing && ReadsCleanly(stream) && CanCreate(names)
              && (landing == named || CanTake(db, landing, names, Streamed(stream)))
  {}

  // With an existing one: never if that is to fail.
  lemma WhenExisting(db: Database, here: Here, cmd: Command, names: seq<string>, stream: seq<Item>,
                     named: Name, landing: Name, interim: Name)
    requires Roles(here, cmd, named, landing, interim) && named in db
    ensures Acceptable(db, here, cmd, names, stream) <==>
              ReadsCleanly(stream) &&
              match cmd.ifExists
              case FailIfExists => false
              case Append => CanCreate(names) && forall c :: c in names ==> exists i :: 0 <= i < |db[named].columns| && db[named].columns[i].name == c
              case Replace => CanCreate(names) && (landing == named || CanTake(db, landing, names, Streamed(stream)))
              case UseAsIs => CanTake(db, landing, names, Streamed(stream))
  {
    assert landing in db ==> (landing == named || landing in db - {named});
    forall c | c in names
      ensures c in NamesOf(db[named].columns) <==> exists i :: 0 <= i < |db[named].columns| && db[named].columns[i].name == c
    {
      if i :| 0 <= i < |db[named].columns| && db[named].columns[i].name == c { assert NamesOf(db[named].columns)[i] == c; }
    }
  }

  // A table just created: the streamed columns without defaults, and these rows.
  predicate IsNew(t: Table, names: seq<string>, rows: seq<Row>) {
    && |t.columns| == |names| && t.rows == rows
    && forall i :: 0 <= i < |names| ==> t.columns[i] == Column(names[i], "NULL")
  }

  // The row that a streamed row becomes in the named table: by name, with the default where the stream has no value.
  predicate IsRowByName(r: Row, columns: seq<Column>, names: seq<string>, streamed: Row)
    requires |streamed| == |names|
  {
    && |r| == |columns|
    && forall i :: 0 <= i < |columns| ==>
         && (forall c :: 0 <= c < |names| && names[c] == columns[i].name ==> r[i] == streamed[c])
         && ((forall c :: 0 <= c < |names| ==> names[c] != columns[i].name) ==> r[i] == columns[i].default)
  }

  // Appending keeps the old rows of the named table and puts the streamed ones behind them, by column name; the table
  // they were collected in is gone, and nothing else has changed.
  lemma Appended(db: Database, here: Here, cmd: Command, names: seq<string>, stream: seq<Item>,
                 named: Name, landing: Name, interim: Name)
    requires Roles(here, cmd, named, landing, interim) && named in db && cmd.ifExists == Append
    requires Fits(Streamed(stream), |names|) && Acceptable(db, here, cmd, names, stream)
    ensures var (rows, after) := (Streamed(stream), Actual(db, here, cmd, names, Streamed(stream)));
            && after.Keys == db.Keys - {interim} && named in after
            && (forall n :: n in after && n != named ==> after[n] == db[n])
            && after[named].columns == db[named].columns && db[named].rows <= after[named].rows
            && |after[named].rows| == |db[named].rows| + |rows|
            && forall r :: 0 <= r < |rows| ==>
                 IsRowByName(after[named].rows[|db[named].rows| + r], db[named].columns, names, rows[r])
  {
    var rows, t := Streamed(stream), db[named];
    ActualOfAppend(db, here, cmd, names, rows, named, interim);
    forall r | 0 <= r < |rows|
      ensures IsRowByName((t.rows + AllByName(t.columns, names, rows))[|t.rows| + r], t.columns, names, rows[r])
    {
      ByNameIs(t.columns, names, rows[r]);
    }
  }

  lemma ActualOfAppend(db: Database, here: Here, cmd: Command, names: seq<string>, rows: seq<Row>, named: Name, interim: Name)
    requires named == Target(here, cmd) && interim == InterimName(cmd) && named in db && cmd.ifExists == Append
    requires Fits(rows, |names|)
    ensures named != interim && Landing(db, here, cmd) in Prepared(db, here, cmd, names)
    ensures var t := db[named];
            Actual(db, here, cmd, names, rows) ==
              db[named := Table(t.columns, t.rows + AllByName(t.columns, names, rows))] - {interim}
  {}

  lemma ByNameIs(columns: seq<Column>, names: seq<string>, row: Row)
    requires CanCreate(names) && |row| == |names|
    ensures IsRowByName(ByName(columns, names, row), columns, names, row)
  {
    DistinctPositions(names);
  }

  lemma DistinctPositions(names: seq<string>)
    requires CanCreate(names)
    ensures forall c :: 0 <= c < |names| ==> Position(names[c], names) == c
  {}

  // Using the table as it is puts the streamed rows behind those of the table that is opened.
  lemma UsedAsIs(db: Database, here: Here, cmd: Command, names: seq<string>, stream: seq<Item>,
                 named: Name, landing: Name, interim: Name)
    requires Roles(here, cmd, named, landing, interim) && named in db && cmd.ifExists == UseAsIs
    requires Fits(Streamed(stream), |names|) && Acceptable(db, here, cmd, names, stream)
    ensures landing in db && Actual(db, here, cmd, names, Streamed(stream)) ==
              db[landing := Table(db[landing].columns, db[landing].rows + Streamed(stream))]
  {}

  // Replacing a table, or filling a missing one, leaves a new table with the streamed rows and no others; if another
  // one is opened, the new table is empty and that one has got the rows.
  lemma Created(db: Database, here: Here, cmd: Command, names: seq<string>, stream: seq<Item>,
                named: Name, landing: Name, interim: Name)
    requires Roles(here, cmd, named, landing, interim) && (named !in db || cmd.ifExists == Replace)
    requires Fits(Streamed(stream), |names|) && Acceptable(db, here, cmd, names, stream)
    ensures var (rows, after) := (Streamed(stream), Actual(db, here, cmd, names, Streamed(stream)));
            && after.Keys == db.Keys + {named}
            && (forall n :: n in db && n != named && n != landing ==> after[n] == db[n])
            && IsNew(after[named], names, if landing == named then rows else [])
            && (landing != named ==> landing in db && after[landing] == Table(db[landing].columns, db[landing].rows + rows))
  {
    assert [] + Streamed(stream) == Streamed(stream);
  }

  // What was streamed are the values of the cells, batch after batch.
  lemma {:induction false} StreamedConcat(a: seq<Item>, b: seq<Item>)
    ensures Streamed(a + b) == Streamed(a) + Streamed(b)
  {
    if b == [] {
      assert a + b == a;
    } else {
      var n := |b| - 1;
      StreamedConcat(a, b[..n]);
      assert (a + b)[..|a + b| - 1] == a + b[..n];
      Associate(Streamed(a), Streamed(b[..n]), if b[n].Data? then RowsOf(b[n].rows) else []);
    }
  }

  lemma StreamedItem(item: Item)
    ensures item.Data? ==>
              && |Streamed([item])| == |item.rows|
              && forall r, c :: 0 <= r < |item.rows| && 0 <= c < |item.rows[r]| && item.rows[r][c].Cell? ==>
                   |Streamed([item])[r]| == |item.rows[r]| && Streamed([item])[r][c] == item.rows[r][c].value
    ensures !item.Data? ==> Streamed([item]) == []
  {
    assert [item][..0] == [];
    if item.Data? { assert Streamed([item]) == [] + RowsOf(item.rows) == RowsOf(item.rows); }
  }
}
