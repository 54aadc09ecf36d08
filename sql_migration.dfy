/** The table loops of the three SQLite-to-SQL-Server migration scripts. Each script walks the
    databases and, in each, the tables; a table is read, skipped when empty, created on the server
    and filled. The scripts differ in how a table is filled and in which failures they survive:
    - the chunked script inserts 1000 rows at a time and commits after each chunk;
    - the row-iterator script inserts all rows in one call;
    - the plain script inserts all rows in one call and does not catch a read failure, which
      ends the run. */
module SqlMigration {
  import opened Wrappers
  import opened Seqs
  import opened Text
  import opened SqlText

  /** A row after `astype(str)`: every cell is text. */
  type Row = seq<string>

  /** What reading a table gives: an exception, or the frame's column names and rows. */
  datatype TableRead = ReadFailed | Frame(columns: seq<string>, rows: seq<Row>)

  /** `df.empty`: a frame with no rows or no columns. */
  predicate IsEmpty(columns: seq<string>, rows: seq<Row>) {
    |rows| == 0 || |columns| == 0
  }

  /** A SQLite table with what the server does with it: whether its create batch goes through,
      and which `executemany` calls (numbered from 0) the server accepts. */
  datatype SourceTable = SourceTable(name: string, read: TableRead, createOk: bool, insertOk: nat -> bool)

  /** A SQLite database file: its base name and its tables in listing order. */
  datatype Database = Database(baseName: string, tables: seq<SourceTable>)

  /** A statement sent to SQL Server. */
  datatype Statement = CreateBatch(text: string) | InsertMany(query: string, rows: seq<Row>)

  /** How a table ended. `Aborted` is an uncaught exception: it ends the whole run. */
  datatype Outcome = ReadSkipped | EmptySkipped | CreateFailed | InsertFailed | Migrated | Aborted

  /** What one table gave: the statements sent and the row ranges committed. */
  datatype TableRun = TableRun(statements: seq<Statement>, committed: seq<Span>, outcome: Outcome)

  datatype Script = Chunked | RowIterator | Plain

  const ChunkSize: nat := 1000

  /** One `executemany` of `query` per batch, in order. */
  function InsertsOf(query: string, batches: seq<seq<Row>>): (ss: seq<Statement>)
    ensures |ss| == |batches|
  {
    seq(|batches|, i requires 0 <= i < |batches| => InsertMany(query, batches[i]))
  }

  /** The chunked fill: one `executemany` per chunk up to and including the first one the
      server refuses, and the ranges of the committed chunks. */
  function FillChunked(create: Statement, query: string, rows: seq<Row>, insertOk: nat -> bool): TableRun {
    var cs := Chunks(rows, ChunkSize);
    var k := FirstRejected(insertOk, |cs|, 0);
    RangesMatch(rows, ChunkSize, 0);
    TableRun([create] + InsertsOf(query, cs[..Min(k + 1, |cs|)]), Ranges(rows, ChunkSize)[..k],
             if k == |cs| then Migrated else InsertFailed)
  }

  /** The single fill: one `executemany` with every row, committed when the server accepts it. */
  function FillOnce(create: Statement, query: string, rows: seq<Row>, accepted: bool): TableRun {
    TableRun([create, InsertMany(query, rows)], if accepted then [Span(0, |rows|)] else [],
             if accepted then Migrated else InsertFailed)
  }

  /** What the script does with one table of the database called `dbName`. */
  function Step(script: Script, dbName: string, t: SourceTable): TableRun {
    var target := TargetTable(dbName, t.name);
    match t.read
    case ReadFailed => TableRun([], [], if script.Plain? then Aborted else ReadSkipped)
    case Frame(columns, rows) =>
      if IsEmpty(columns, rows) then TableRun([], [], EmptySkipped)
      else
        var create := CreateBatch(CreateText(target, ColumnDefinitions(columns)));
        if !t.createOk then TableRun([create], [], CreateFailed)
        else if script.Chunked? then FillChunked(create, InsertQuery(target, columns), rows, t.insertOk)
        else FillOnce(create, InsertQuery(target, columns), rows, t.insertOk(0))
  }

  /** The body of the table loop. */
  method MigrateTable(script: Script, dbName: string, t: SourceTable) returns (run: TableRun)
    ensures run == Step(script, dbName, t)
  {
    var target := TargetTable(dbName, t.name);
    if t.read.ReadFailed? {
      return TableRun([], [], if script.Plain? then Aborted else ReadSkipped);
    }
    var columns, rows := t.read.columns, t.read.rows;
    if |rows| == 0 || |columns| == 0 {
      return TableRun([], [], EmptySkipped);
    }
    var create := CreateBatch(CreateText(target, ColumnDefinitions(columns)));
    if !t.createOk {
      return TableRun([create], [], CreateFailed);
    }
    var query := InsertQuery(target, columns);
    if script.Chunked? {
      var batches, reported, complete := InsertInChunks(rows, ChunkSize, t.insertOk);
      RangesMatch(rows, ChunkSize, 0);
      run := TableRun([create] + InsertsOf(query, batches), reported, if complete then Migrated else InsertFailed);
      assert run == FillChunked(create, query, rows, t.insertOk);
    } else {
      var accepted := t.insertOk(0);
      var committed := if accepted then [Span(0, |rows|)] else [];
      run := TableRun([create, InsertMany(query, rows)], committed, if accepted then Migrated else InsertFailed);
    }
  }

  /** The tables of one database, each with the database's name. */
  function TablesOf(db: Database): seq<(string, SourceTable)> {
    Tag(DbName(db.baseName), db.tables)
  }

  /** Every table of every database, in the order the loops visit them. */
  function AllTables(dbs: seq<Database>): seq<(string, SourceTable)> {
    Flatten(Map(TablesOf, dbs))
  }

  /** The run ended with an uncaught exception. */
  predicate Stopped(runs: seq<TableRun>) {
    runs != [] && runs[|runs| - 1].outcome.Aborted?
  }

  /** The runs of the tables `ps`, visited in order until one aborts. */
  function Migrate(script: Script, ps: seq<(string, SourceTable)>): seq<TableRun>
    decreases |ps|
  {
    if ps == [] then []
    else
      var prior := Migrate(script, ps[..|ps| - 1]);
      var p := ps[|ps| - 1];
      if Stopped(prior) then prior else prior + [Step(script, p.0, p.1)]
  }

  /** The two loops over databases and tables. `finished` is false when an exception ended the
      run, so the closing message is not reached. */
  method MigrateDatabases(script: Script, dbs: seq<Database>) returns (runs: seq<TableRun>, finished: bool)
    ensures runs == Migrate(script, AllTables(dbs))
    ensures finished <==> !Stopped(runs)
  {
    runs := [];
    for d := 0 to |dbs|
      invariant runs == Migrate(script, AllTables(dbs[..d])) && !Stopped(runs)
    {
      var dbName := DbName(dbs[d].baseName);
      var tables := dbs[d].tables;
      ghost var prior := AllTables(dbs[..d]);
      assert prior + Tag(dbName, tables[..0]) == prior;
      for j := 0 to |tables|
        invariant runs == Migrate(script, prior + Tag(dbName, tables[..j])) && !Stopped(runs)
      {
        ghost var visited := prior + Tag(dbName, tables[..j]);
        var run := MigrateTable(script, dbName, tables[j]);
        PairsSnoc(prior, dbName, tables, j);
        MigrateSnoc(script, visited, (dbName, tables[j]));
        runs := runs + [run];
        if run.outcome.Aborted? {
          AbortedAt(script, dbs, d, j);
          return runs, false;
        }
      }
      NextDatabase(dbs, d);
    }
    assert dbs[..|dbs|] == dbs;
    finished := true;
  }

  /** Visiting one more table appends its run, unless the run has already stopped. */
  lemma MigrateSnoc(script: Script, ps: seq<(string, SourceTable)>, p: (string, SourceTable))
    ensures Migrate(script, ps + [p]) ==
      if Stopped(Migrate(script, ps)) then Migrate(script, ps) else Migrate(script, ps) + [Step(script, p.0, p.1)]
  {
    assert (ps + [p])[..|ps|] == ps;
  }

  lemma PairsSnoc(prior: seq<(string, SourceTable)>, dbName: string, tables: seq<SourceTable>, j: nat)
    requires j < |tables|
    ensures prior + Tag(dbName, tables[..j + 1]) == (prior + Tag(dbName, tables[..j])) + [(dbName, tables[j])]
  {
    TakeSnoc(tables, j);
    TagConcat(dbName, tables[..j], [tables[j]]);
    AppendAssoc(prior, Tag(dbName, tables[..j]), [(dbName, tables[j])]);
  }

  lemma NextDatabase(dbs: seq<Database>, d: nat)
    requires d < |dbs|
    ensures AllTables(dbs[..d + 1]) == AllTables(dbs[..d]) + Tag(DbName(dbs[d].baseName), dbs[d].tables[..|dbs[d].tables|])
  {
    TakeSnoc(dbs, d);
    MapConcat(TablesOf, dbs[..d], [dbs[d]]);
    assert Map(TablesOf, [dbs[d]]) == [TablesOf(dbs[d])];
    FlattenConcat(Map(TablesOf, dbs[..d]), [TablesOf(dbs[d])]);
    assert Flatten([TablesOf(dbs[d])]) == TablesOf(dbs[d]) + [];
    assert dbs[d].tables[..|dbs[d].tables|] == dbs[d].tables;
  }

  /** An exception at table `j` of database `d` ends the run with the runs up to it. */
  lemma AbortedAt(script: Script, dbs: seq<Database>, d: nat, j: nat)
    requires d < |dbs| && j < |dbs[d].tables|
    requires Stopped(Migrate(script, AllTables(dbs[..d]) + Tag(DbName(dbs[d].baseName), dbs[d].tables[..j + 1])))
    ensures Migrate(script, AllTables(dbs)) ==
      Migrate(script, AllTables(dbs[..d]) + Tag(DbName(dbs[d].baseName), dbs[d].tables[..j + 1]))
  {
    var dbName := DbName(dbs[d].baseName);
    var tables := dbs[d].tables;
    var done := AllTables(dbs[..d]) + Tag(dbName, tables[..j + 1]);
    var rest := Tag(dbName, tables[j + 1..]) + AllTables(dbs[d + 1..]);
    AllTablesSplit(dbs, d, j);
    MigrateStopped(script, done, rest);
  }

  lemma AllTablesSplit(dbs: seq<Database>, d: nat, j: nat)
    requires d < |dbs| && j < |dbs[d].tables|
    ensures AllTables(dbs) ==
      (AllTables(dbs[..d]) + Tag(DbName(dbs[d].baseName), dbs[d].tables[..j + 1])) +
      (Tag(DbName(dbs[d].baseName), dbs[d].tables[j + 1..]) + AllTables(dbs[d + 1..]))
  {
    var dbName := DbName(dbs[d].baseName);
    var tables := dbs[d].tables;
    FlattenMapAt(TablesOf, dbs, d);
    TakeDrop(tables, j + 1);
    TagConcat(dbName, tables[..j + 1], tables[j + 1..]);
    AppendAssoc(Tag(dbName, tables[..j + 1]), Tag(dbName, tables[j + 1..]), AllTables(dbs[d + 1..]));
    AppendAssoc(AllTables(dbs[..d]), Tag(dbName, tables[..j + 1]), Tag(dbName, tables[j + 1..]) + AllTables(dbs[d + 1..]));
  }

  /** Once an exception has ended the run, no later table is visited. */
  lemma {:induction false} MigrateStopped(script: Script, ps: seq<(string, SourceTable)>, qs: seq<(string, SourceTable)>)
    requires Stopped(Migrate(script, ps))
    ensures Migrate(script, ps + qs) == Migrate(script, ps)
    decreases |qs|
  {
    if qs == [] {
      assert ps + qs == ps;
    } else {
      var init := qs[..|qs| - 1];
      MigrateStopped(script, ps, init);
      AppendSnoc(ps, qs);
      MigrateSnoc(script, ps + init, qs[|qs| - 1]);
    }
  }

  /** The runs of each table of `ps`, in order, unconditionally. */
  function Steps(script: Script, ps: seq<(string, SourceTable)>): (rs: seq<TableRun>)
    ensures |rs| == |ps|
  {
    seq(|ps|, i requires 0 <= i < |ps| => Step(script, ps[i].0, ps[i].1))
  }

  lemma StepsSnoc(script: Script, ps: seq<(string, SourceTable)>, p: (string, SourceTable))
    ensures Steps(script, ps + [p]) == Steps(script, ps) + [Step(script, p.0, p.1)]
  {
    assert forall i :: 0 <= i < |ps| ==> (ps + [p])[i] == ps[i];
  }

  /** A table ends the run exactly when the plain script fails to read it. */
  lemma AbortsIff(script: Script, dbName: string, t: SourceTable)
    ensures Step(script, dbName, t).outcome.Aborted? <==> script.Plain? && t.read.ReadFailed?
  {
  }

  /** The table `p` does not end the run. */
  predicate Survives(script: Script, p: (string, SourceTable)) {
    !(script.Plain? && p.1.read.ReadFailed?)
  }

  /** When no table aborts, every table is visited, in order. */
  lemma {:induction false} MigrateNoAbort(script: Script, ps: seq<(string, SourceTable)>)
    requires forall i :: 0 <= i < |ps| ==> Survives(script, ps[i])
    ensures Migrate(script, ps) == Steps(script, ps)
    ensures !Stopped(Steps(script, ps))
    decreases |ps|
  {
    if ps != [] {
      var init := ps[..|ps| - 1];
      var p := ps[|ps| - 1];
      MigrateNoAbort(script, init);
      SplitLast(ps);
      MigrateSnoc(script, init, p);
      StepsSnoc(script, init, p);
      AbortsIff(script, p.0, p.1);
    }
  }

  /** The chunked and row-iterator scripts survive every failure: each table is visited once and
      gets its own run. */
  lemma {:induction false} SkipsNeverStop(script: Script, ps: seq<(string, SourceTable)>)
    requires !script.Plain?
    ensures Migrate(script, ps) == Steps(script, ps)
    ensures !Stopped(Migrate(script, ps))
  {
    MigrateNoAbort(script, ps);
  }

  /** In the plain script, the first table that cannot be read ends the run: the tables before
      it and that table are visited, nothing after it. */
  lemma {:induction false} PlainReadFailureStops(ps: seq<(string, SourceTable)>, j: nat)
    requires j < |ps| && ps[j].1.read.ReadFailed?
    requires forall i :: 0 <= i < j ==> !ps[i].1.read.ReadFailed?
    ensures Migrate(Plain, ps) == Steps(Plain, ps[..j + 1])
    ensures Stopped(Migrate(Plain, ps))
  {
    var upTo := ps[..j + 1];
    SurviveBefore(ps, j);
    MigrateNoAbort(Plain, ps[..j]);
    TakeSnoc(ps, j);
    MigrateSnoc(Plain, ps[..j], ps[j]);
    StepsSnoc(Plain, ps[..j], ps[j]);
    AbortsIff(Plain, ps[j].0, ps[j].1);
    TakeDrop(ps, j + 1);
    MigrateStopped(Plain, upTo, ps[j + 1..]);
  }

  lemma SurviveBefore(ps: seq<(string, SourceTable)>, j: nat)
    requires j <= |ps| && forall i :: 0 <= i < j ==> !ps[i].1.read.ReadFailed?
    ensures forall i :: 0 <= i < |ps[..j]| ==> Survives(Plain, ps[..j][i])
  {
    forall i | 0 <= i < |ps[..j]|
      ensures Survives(Plain, ps[..j][i])
    {
      assert ps[..j][i].1 == ps[i].1;
    }
  }

  /** An empty table gets no statement and commits nothing, in every script. */
  lemma EmptyTableSkipped(script: Script, dbName: string, t: SourceTable)
    requires t.read.Frame? && IsEmpty(t.read.columns, t.read.rows)
    ensures Step(script, dbName, t) == TableRun([], [], EmptySkipped)
  {
  }

  /** A table that cannot be read gets no statement; only the plain script stops on it. */
  lemma ReadFailureSkipped(script: Script, dbName: string, t: SourceTable)
    requires t.read.ReadFailed?
    ensures Step(script, dbName, t).statements == [] && Step(script, dbName, t).committed == []
    ensures Step(script, dbName, t).outcome == if script.Plain? then Aborted else ReadSkipped
  {
  }

  /** The rows handed to `executemany` by the statements `ss`, in order. */
  function RowsSent(ss: seq<Statement>): seq<Row> {
    if ss == [] then []
    else (if ss[0].InsertMany? then ss[0].rows else []) + RowsSent(ss[1..])
  }

  lemma {:induction false} RowsSentInserts(query: string, batches: seq<seq<Row>>)
    ensures RowsSent(InsertsOf(query, batches)) == Flatten(batches)
  {
    if batches != [] {
      RowsSentInserts(query, batches[1..]);
      assert InsertsOf(query, batches)[1..] == InsertsOf(query, batches[1..]);
    }
  }

  /** The committed ranges follow each other from row 0 to row `n` without gap or overlap. */
  predicate Covers(spans: seq<Span>, n: nat) {
    |spans| > 0 && spans[0].start == 0 && spans[|spans| - 1].start + spans[|spans| - 1].count == n &&
    forall k :: 0 <= k < |spans| - 1 ==> spans[k].start + spans[k].count == spans[k + 1].start
  }

  /** A migrated table was read and is not empty; its create batch names the target table and
      defines every column; every further statement is the table's insert query; the rows sent
      are the table's rows, each once and in order; and the committed ranges cover them all. */
  lemma MigratedTable(script: Script, dbName: string, t: SourceTable)
    requires Step(script, dbName, t).outcome == Migrated
    ensures t.read.Frame? && !IsEmpty(t.read.columns, t.read.rows)
    ensures var run := Step(script, dbName, t);
      var target := TargetTable(dbName, t.name);
      |run.statements| >= 2 &&
      run.statements[0] == CreateBatch(CreateText(target, ColumnDefinitions(t.read.columns))) &&
      (forall i :: 1 <= i < |run.statements| ==>
        run.statements[i].InsertMany? &&
        run.statements[i].query == InsertQuery(target, t.read.columns)) &&
      RowsSent(run.statements) == t.read.rows &&
      Covers(run.committed, |t.read.rows|)
  {
    var target := TargetTable(dbName, t.name);
    var create := CreateBatch(CreateText(target, ColumnDefinitions(t.read.columns)));
    if script.Chunked? {
      FillChunkedMigrated(create, InsertQuery(target, t.read.columns), t.read.rows, t.insertOk);
    } else {
      FillOnceMigrated(create, InsertQuery(target, t.read.columns), t.read.rows, t.insertOk(0));
    }
  }

  /** A run that sent `create` and then only inserts of `query`, which carried `rows` and
      committed ranges covering them. */
  predicate Fills(run: TableRun, create: Statement, query: string, rows: seq<Row>) {
    |run.statements| >= 2 && run.statements[0] == create &&
    (forall i :: 1 <= i < |run.statements| ==> run.statements[i].InsertMany? && run.statements[i].query == query) &&
    RowsSent(run.statements) == rows && Covers(run.committed, |rows|)
  }

  lemma FillChunkedMigrated(create: Statement, query: string, rows: seq<Row>, insertOk: nat -> bool)
    requires create.CreateBatch? && |rows| > 0
    requires FillChunked(create, query, rows, insertOk).outcome == Migrated
    ensures Fills(FillChunked(create, query, rows, insertOk), create, query, rows)
  {
    var run := FillChunked(create, query, rows, insertOk);
    var cs := Chunks(rows, ChunkSize);
    ChunkCount(rows, ChunkSize, 0);
    RangesMatch(rows, ChunkSize, 0);
    RangesContiguous(rows, ChunkSize, 0);
    AllChunksSent(query, cs, insertOk);
    assert run.statements == [create] + InsertsOf(query, cs);
    assert ([create] + InsertsOf(query, cs))[1..] == InsertsOf(query, cs);
    RowsSentInserts(query, cs);
    ChunksFlatten(rows, ChunkSize);
    assert run.committed == Ranges(rows, ChunkSize);
  }

  lemma FillOnceMigrated(create: Statement, query: string, rows: seq<Row>, accepted: bool)
    requires create.CreateBatch? && accepted
    ensures Fills(FillOnce(create, query, rows, accepted), create, query, rows)
  {
    var run := FillOnce(create, query, rows, accepted);
    assert RowsSent(run.statements[1..][1..]) == [];
    assert rows + [] == rows;
  }

  lemma AllChunksSent(query: string, cs: seq<seq<Row>>, insertOk: nat -> bool)
    requires FirstRejected(insertOk, |cs|, 0) == |cs|
    ensures Min(FirstRejected(insertOk, |cs|, 0) + 1, |cs|) == |cs| && cs[..|cs|] == cs
  {
  }

  /** Each chunk the chunked script inserts holds between one and 1000 rows. */
  lemma ChunkedInsertSizes(dbName: string, t: SourceTable, i: nat)
    requires i < |Step(Chunked, dbName, t).statements|
    requires Step(Chunked, dbName, t).statements[i].InsertMany?
    ensures 1 <= |Step(Chunked, dbName, t).statements[i].rows| <= ChunkSize
  {
    var rows := t.read.rows;
    var target := TargetTable(dbName, t.name);
    var query := InsertQuery(target, t.read.columns);
    var create := CreateBatch(CreateText(target, ColumnDefinitions(t.read.columns)));
    var cs := Chunks(rows, ChunkSize);
    var k := FirstRejected(t.insertOk, |cs|, 0);
    var sent := cs[..Min(k + 1, |cs|)];
    ChunkSizes(rows, ChunkSize, 0);
    assert i >= 1;
    assert ([create] + InsertsOf(query, sent))[i] == InsertsOf(query, sent)[i - 1];
    assert sent[i - 1] == cs[i - 1];
  }
}
