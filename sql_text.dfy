/** The statement text the three SQLite-to-SQL-Server migration scripts send: the target table
    name, the `CREATE TABLE` batch, the `INSERT` statement with its placeholders, and the split of
    a table's rows into insert chunks. */
module SqlText {
  import opened Wrappers
  import opened Seqs
  import opened Text

  /** `os.path.basename(db_file).split('.')[0]`: the base name up to its first dot. */
  function DbName(baseName: string): (name: string)
    ensures name <= baseName && '.' !in name
    ensures |name| < |baseName| ==> baseName[|name|] == '.'
  {
    Split(baseName, '.')[0]
  }

  /** The SQL Server table a SQLite table is copied to. */
  function TargetTable(dbName: string, tableName: string): string {
    dbName + "_" + tableName
  }

  /** Two tables of one database never share a target table. */
  lemma TargetTableDistinct(dbName: string, t1: string, t2: string)
    requires TargetTable(dbName, t1) == TargetTable(dbName, t2)
    ensures t1 == t2
  {
    assert t1 == TargetTable(dbName, t1)[|dbName| + 1..];
  }

  /** The target table of a database whose name holds no underscore starts with that name and
      an underscore, and the table name follows the first underscore. */
  lemma TargetTableSplit(dbName: string, tableName: string)
    requires '_' !in dbName
    ensures Find(TargetTable(dbName, tableName), '_') == Some(|dbName|)
    ensures TargetTable(dbName, tableName)[|dbName| + 1..] == tableName
  {
    FindAfter(dbName, '_', tableName);
  }

  /** A column name in brackets followed by `close`. */
  function Wrap(col: string, close: string): string {
    "[" + col + close
  }

  const DefinitionClose := "] NVARCHAR(MAX)"

  /** `f"[{col}] NVARCHAR(MAX)"`. */
  function ColumnDef(col: string): string {
    Wrap(col, DefinitionClose)
  }

  /** `f"[{col}]"`. */
  function Bracketed(col: string): string {
    Wrap(col, "]")
  }

  function Placeholder(col: string): string {
    "?"
  }

  /** The column definitions of `CREATE TABLE`, one per column, in column order. */
  function ColumnDefinitions(cols: seq<string>): string {
    Join(", ", Map(ColumnDef, cols))
  }

  /** The bracketed column list of `INSERT`. */
  function ColumnList(cols: seq<string>): string {
    Join(", ", Map(Bracketed, cols))
  }

  /** One `?` per column. */
  function Placeholders(cols: seq<string>): string {
    Join(", ", Map(Placeholder, cols))
  }

  function InsertQuery(table: string, cols: seq<string>): string {
    "INSERT INTO [" + table + "] (" + ColumnList(cols) + ") VALUES (" + Placeholders(cols) + ")"
  }

  function Spaces(n: nat): string {
    Repeat(" ", n)
  }

  /** The lines of the triple-quoted `IF NOT EXISTS … CREATE TABLE` batch, between its line
      breaks: it opens with a line break and closes with the indentation of the call. */
  function CreateLines(table: string, definitions: string): seq<string> {
    ["",
     Spaces(20) + "IF NOT EXISTS (",
     Spaces(24) + "SELECT * FROM INFORMATION_SCHEMA.TABLES",
     Spaces(24) + "WHERE TABLE_NAME = '" + table + "'",
     Spaces(20) + ")",
     Spaces(20) + "BEGIN",
     Spaces(24) + "CREATE TABLE [" + table + "] (" + definitions + ")",
     Spaces(20) + "END",
     Spaces(16)]
  }

  function CreateText(table: string, definitions: string): string {
    Join("\n", CreateLines(table, definitions))
  }

  /** When neither the table name nor the definitions hold a line break, the batch has nine
      lines, the existence test names the table and the seventh line creates it with the given
      definitions. */
  lemma CreateTextLines(table: string, definitions: string)
    requires '\n' !in table && '\n' !in definitions
    ensures Split(CreateText(table, definitions), '\n') == CreateLines(table, definitions)
  {
    CreateLinesNoBreak(table, definitions);
    assert forall l :: l in CreateLines(table, definitions) ==> '\n' !in l;
    SplitJoin(CreateLines(table, definitions), '\n');
  }

  lemma CreateLinesNoBreak(table: string, definitions: string)
    requires NoBreak(table) && NoBreak(definitions)
    ensures forall l :: l in CreateLines(table, definitions) ==> NoBreak(l)
  {
    NoBreakSpaces(16);
    NoBreakSpaces(20);
    NoBreakSpaces(24);
    NoBreakTest();
    NoBreakSelect();
    NoBreakCreate();
    NoBreakConcat(Spaces(20), "IF NOT EXISTS (");
    NoBreakConcat(Spaces(24), "SELECT * FROM INFORMATION_SCHEMA.TABLES");
    NoBreakConcat(Spaces(24), "WHERE TABLE_NAME = '");
    NoBreakConcat(Spaces(24) + "WHERE TABLE_NAME = '", table);
    NoBreakConcat(Spaces(24) + "WHERE TABLE_NAME = '" + table, "'");
    NoBreakConcat(Spaces(20), ")");
    NoBreakConcat(Spaces(20), "BEGIN");
    NoBreakConcat(Spaces(24), "CREATE TABLE [");
    NoBreakConcat(Spaces(24) + "CREATE TABLE [", table);
    NoBreakConcat(Spaces(24) + "CREATE TABLE [" + table, "] (");
    NoBreakConcat(Spaces(24) + "CREATE TABLE [" + table + "] (", definitions);
    NoBreakConcat(Spaces(24) + "CREATE TABLE [" + table + "] (" + definitions, ")");
    NoBreakConcat(Spaces(20), "END");
    assert NoBreak("");
  }

  predicate NoBreak(s: string) {
    '\n' !in s
  }

  lemma NoBreakTest()
    ensures NoBreak("IF NOT EXISTS (") && NoBreak("WHERE TABLE_NAME = '")
  {
  }

  lemma NoBreakSelect()
    ensures NoBreak("SELECT * FROM INFORMATION_SCHEMA.TABLES")
  {
  }

  lemma NoBreakCreate()
    ensures NoBreak("CREATE TABLE [") && NoBreak("] (") && NoBreak(")") && NoBreak("'")
    ensures NoBreak("BEGIN") && NoBreak("END")
  {
  }

  lemma NoBreakConcat(a: string, b: string)
    requires NoBreak(a) && NoBreak(b)
    ensures NoBreak(a + b)
  {
  }

  lemma {:induction false} NoBreakSpaces(n: nat)
    ensures NoBreak(Spaces(n))
  {
    if n > 0 {
      NoBreakSpaces(n - 1);
      assert Spaces(n) == " " + Spaces(n - 1);
    }
  }

  /** The items of a `", "`-separated list: split at the commas, the space after each comma
      removed. */
  function Items(s: string): seq<string> {
    var pieces := Split(s, ',');
    [pieces[0]] + Map(Unspace, pieces[1..])
  }

  function Spaced(p: string): string {
    " " + p
  }

  function Unspace(p: string): string {
    if p != [] && p[0] == ' ' then p[1..] else p
  }

  /** The column name of an item written by `Wrap(_, close)`. */
  function Unwrap(item: string, close: string): string {
    if |item| >= 1 + |close| then item[1..|item| - |close|] else item
  }

  /** A space before a `", "`-join moves into each part once the separator is a bare comma. */
  lemma {:induction false} SpacedJoin(parts: seq<string>)
    requires parts != []
    ensures " " + Join(", ", parts) == Join(",", Map(Spaced, parts))
  {
    if |parts| > 1 {
      SpacedJoin(parts[1..]);
      MapCons(Spaced, parts);
      JoinCons(",", Spaced(parts[0]), Map(Spaced, parts[1..]));
    }
  }

  /** A `", "`-join is the comma-join of the first part and the others with a space in front. */
  lemma CommaJoin(parts: seq<string>)
    requires parts != []
    ensures Join(", ", parts) == Join([','], [parts[0]] + Map(Spaced, parts[1..]))
  {
    var rest := parts[1..];
    if rest != [] {
      SpacedJoin(rest);
      JoinCons(",", parts[0], Map(Spaced, rest));
    }
  }

  /** Putting a space in front adds no comma. */
  lemma SpacedNoComma(parts: seq<string>)
    requires forall p :: p in parts ==> ',' !in p
    ensures forall p :: p in Map(Spaced, parts) ==> ',' !in p
  {
    forall p | p in Map(Spaced, parts)
      ensures ',' !in p
    {
      var j :| 0 <= j < |parts| && Map(Spaced, parts)[j] == p;
      assert parts[j] in parts;
    }
  }

  /** Reading the items of a `", "`-join gives back the parts when none holds a comma. */
  lemma ItemsJoin(parts: seq<string>)
    requires parts != [] && forall p :: p in parts ==> ',' !in p
    ensures Items(Join(", ", parts)) == parts
  {
    var rest := parts[1..];
    CommaJoin(parts);
    CommaPiecesSplit(parts);
    UnspaceSpaced(rest);
    assert [parts[0]] + rest == parts;
  }

  lemma CommaPiecesSplit(parts: seq<string>)
    requires parts != [] && forall p :: p in parts ==> ',' !in p
    ensures Split(Join([','], [parts[0]] + Map(Spaced, parts[1..])), ',') == [parts[0]] + Map(Spaced, parts[1..])
  {
    var rest := parts[1..];
    var spaced := Map(Spaced, rest);
    assert forall p :: p in rest ==> p in parts;
    SpacedNoComma(rest);
    assert parts[0] in parts;
    var pieces := [parts[0]] + spaced;
    assert forall p :: p in pieces ==> p == parts[0] || p in spaced;
    SplitJoin(pieces, ',');
  }

  lemma UnspaceSpaced(parts: seq<string>)
    ensures Map(Unspace, Map(Spaced, parts)) == parts
  {
    assert forall j :: 0 <= j < |parts| ==> Unspace(Map(Spaced, parts)[j]) == parts[j];
  }

  /** The column names of a list of wrapped columns. */
  function Columns(s: string, close: string): seq<string> {
    Map((item: string) => Unwrap(item, close), Items(s))
  }

  /** A list of wrapped columns reads back as the columns, in order, when no column name and
      not the closing text holds a comma. */
  lemma WrappedColumns(cols: seq<string>, close: string, w: string -> string)
    requires cols != [] && ',' !in close && forall c :: c in cols ==> ',' !in c
    requires forall c :: w(c) == Wrap(c, close)
    ensures Columns(Join(", ", Map(w, cols)), close) == cols
  {
    var parts := Map(w, cols);
    forall p | p in parts
      ensures ',' !in p
    {
      var j :| 0 <= j < |parts| && parts[j] == p;
      assert cols[j] in cols;
      assert p == "[" + cols[j] + close;
    }
    ItemsJoin(parts);
    forall j | 0 <= j < |cols|
      ensures Unwrap(parts[j], close) == cols[j]
    {
      assert parts[j] == "[" + cols[j] + close;
      assert parts[j][1..|parts[j]| - |close|] == cols[j];
    }
  }

  /** The column definitions name the columns in their order. */
  lemma DefinitionsColumns(cols: seq<string>)
    requires cols != [] && forall c :: c in cols ==> ',' !in c
    ensures Columns(ColumnDefinitions(cols), DefinitionClose) == cols
  {
    WrappedColumns(cols, DefinitionClose, ColumnDef);
  }

  /** The column list of the insert names the columns in their order. */
  lemma ColumnListColumns(cols: seq<string>)
    requires cols != [] && forall c :: c in cols ==> ',' !in c
    ensures Columns(ColumnList(cols), "]") == cols
  {
    WrappedColumns(cols, "]", Bracketed);
  }

  /** There are as many placeholders as columns, and each is a bare `?`. */
  lemma PlaceholderItems(cols: seq<string>)
    requires cols != []
    ensures |Items(Placeholders(cols))| == |cols|
    ensures forall i :: 0 <= i < |cols| ==> Items(Placeholders(cols))[i] == "?"
  {
    ItemsJoin(Map(Placeholder, cols));
  }

  /** The placeholder text holds exactly one `?` per column. */
  lemma {:induction false} PlaceholderCount(cols: seq<string>)
    ensures CountChar(Placeholders(cols), '?') == |cols|
  {
    if |cols| == 1 {
      assert Placeholders(cols) == "?";
    } else if |cols| > 1 {
      PlaceholderCount(cols[1..]);
      MapCons(Placeholder, cols);
      JoinCons(", ", "?", Map(Placeholder, cols[1..]));
      CountCharConcat("?", ", ", '?');
      CountCharConcat("?" + ", ", Placeholders(cols[1..]), '?');
    }
  }

  /** When no table or column name holds a `?`, the insert statement has one parameter marker
      per column. */
  lemma InsertQueryMarkers(table: string, cols: seq<string>)
    requires '?' !in table && forall c :: c in cols ==> '?' !in c
    ensures CountChar(InsertQuery(table, cols), '?') == |cols|
  {
    forall p | p in Map(Bracketed, cols)
      ensures '?' !in p
    {
      var j :| 0 <= j < |cols| && Map(Bracketed, cols)[j] == p;
      assert cols[j] in cols;
    }
    JoinAbsent(", ", Map(Bracketed, cols), '?');
    var a := "INSERT INTO [" + table + "] (";
    var b := ColumnList(cols);
    var c := ") VALUES (";
    var d := Placeholders(cols);
    CountCharAbsent(a, '?');
    CountCharAbsent(b, '?');
    CountCharAbsent(c, '?');
    CountCharAbsent(")", '?');
    PlaceholderCount(cols);
    CountCharConcat(a, b, '?');
    CountCharConcat(a + b, c, '?');
    CountCharConcat(a + b + c, d, '?');
    CountCharConcat(a + b + c + d, ")", '?');
  }

  function Min(a: nat, b: nat): nat {
    if a <= b then a else b
  }

  /** `rows[i:i + size]` for each `i` of `range(start, len(rows), size)`. */
  function ChunksFrom<T>(rows: seq<T>, size: nat, start: nat): seq<seq<T>>
    requires size > 0
    decreases |rows| - start
  {
    if start >= |rows| then []
    else [rows[start..Min(start + size, |rows|)]] + ChunksFrom(rows, size, start + size)
  }

  /** The chunks the insert loop hands to `executemany`. */
  function Chunks<T>(rows: seq<T>, size: nat): seq<seq<T>>
    requires size > 0
  {
    ChunksFrom(rows, size, 0)
  }

  /** A reported range: the rows from `start` to `start + count`. */
  datatype Span = Span(start: nat, count: nat)

  /** The ranges `i` to `i + len(chunk)` the loop reports for the chunks from `start` on. */
  function RangesFrom<T>(rows: seq<T>, size: nat, start: nat): seq<Span>
    requires size > 0
    decreases |rows| - start
  {
    if start >= |rows| then []
    else [Span(start, |rows[start..Min(start + size, |rows|)]|)] + RangesFrom(rows, size, start + size)
  }

  function Ranges<T>(rows: seq<T>, size: nat): seq<Span>
    requires size > 0
  {
    RangesFrom(rows, size, 0)
  }

  /** The chunks from `start` on, put back together, are the rows from `start` on. */
  lemma {:induction false} ChunksFromFlatten<T>(rows: seq<T>, size: nat, start: nat)
    requires size > 0
    ensures Flatten(ChunksFrom(rows, size, start)) == rows[Min(start, |rows|)..]
    decreases |rows| - start
  {
    if start < |rows| {
      var m := Min(start + size, |rows|);
      ChunksFromFlatten(rows, size, start + size);
      assert Min(start + size, |rows|) == m;
      assert rows[start..m] + rows[m..] == rows[start..];
    }
  }

  /** The chunks, put back together, are the rows. */
  lemma ChunksFlatten<T>(rows: seq<T>, size: nat)
    requires size > 0
    ensures Flatten(Chunks(rows, size)) == rows
  {
    ChunksFromFlatten(rows, size, 0);
  }

  /** No chunk is empty or longer than `size`, and only the last may be shorter. */
  lemma {:induction false} ChunkSizes<T>(rows: seq<T>, size: nat, start: nat)
    requires size > 0
    ensures forall k :: 0 <= k < |ChunksFrom(rows, size, start)| ==> 1 <= |ChunksFrom(rows, size, start)[k]| <= size
    ensures forall k :: 0 <= k < |ChunksFrom(rows, size, start)| - 1 ==> |ChunksFrom(rows, size, start)[k]| == size
    decreases |rows| - start
  {
    if start < |rows| {
      var cs := ChunksFrom(rows, size, start);
      var rest := ChunksFrom(rows, size, start + size);
      ChunkSizes(rows, size, start + size);
      assert cs == [rows[start..Min(start + size, |rows|)]] + rest;
      assert forall k :: 1 <= k < |cs| ==> cs[k] == rest[k - 1];
    }
  }

  /** There are ceil(n / size) chunks: none for no rows, otherwise the fewest whose total
      capacity holds the rows. */
  lemma {:induction false} ChunkCount<T>(rows: seq<T>, size: nat, start: nat)
    requires size > 0
    ensures |ChunksFrom(rows, size, start)| == 0 <==> start >= |rows|
    ensures start < |rows| ==>
      (|ChunksFrom(rows, size, start)| - 1) * size < |rows| - start <= |ChunksFrom(rows, size, start)| * size
    decreases |rows| - start
  {
    if start < |rows| {
      var c := |ChunksFrom(rows, size, start + size)|;
      ChunkCount(rows, size, start + size);
      assert |ChunksFrom(rows, size, start)| == c + 1;
      assert (c + 1) * size == c * size + size;
      if start + size < |rows| {
        assert (c - 1) * size + size == c * size;
      }
    }
  }

  /** Each reported range spans its chunk, from `start` plus `k * size`, as `range` steps. */
  lemma {:induction false} RangesMatch<T>(rows: seq<T>, size: nat, start: nat)
    requires size > 0
    ensures |RangesFrom(rows, size, start)| == |ChunksFrom(rows, size, start)|
    ensures forall k :: 0 <= k < |RangesFrom(rows, size, start)| ==>
      RangesFrom(rows, size, start)[k].start == start + k * size &&
      RangesFrom(rows, size, start)[k].count == |ChunksFrom(rows, size, start)[k]|
    decreases |rows| - start
  {
    if start < |rows| {
      var rs := RangesFrom(rows, size, start);
      var rest := RangesFrom(rows, size, start + size);
      var cs := ChunksFrom(rows, size, start);
      RangesMatch(rows, size, start + size);
      assert rs == [Span(start, |cs[0]|)] + rest;
      forall k | 1 <= k < |rs|
        ensures rs[k].start == start + k * size && rs[k].count == |cs[k]|
      {
        assert rs[k] == rest[k - 1] && cs[k] == ChunksFrom(rows, size, start + size)[k - 1];
        assert start + size + (k - 1) * size == start + k * size;
      }
    }
  }

  /** The reported ranges follow each other without gap or overlap and cover the rows from
      `start` to the end. */
  lemma {:induction false} RangesContiguous<T>(rows: seq<T>, size: nat, start: nat)
    requires size > 0
    ensures forall k :: 0 <= k < |RangesFrom(rows, size, start)| - 1 ==>
      RangesFrom(rows, size, start)[k].start + RangesFrom(rows, size, start)[k].count ==
      RangesFrom(rows, size, start)[k + 1].start
    ensures start < |rows| ==>
      RangesFrom(rows, size, start)[0].start == start &&
      RangesFrom(rows, size, start)[|RangesFrom(rows, size, start)| - 1].start +
      RangesFrom(rows, size, start)[|RangesFrom(rows, size, start)| - 1].count == |rows|
    decreases |rows| - start
  {
    if start < |rows| {
      var rs := RangesFrom(rows, size, start);
      var rest := RangesFrom(rows, size, start + size);
      RangesContiguous(rows, size, start + size);
      assert rs == [Span(start, |rows[start..Min(start + size, |rows|)]|)] + rest;
      assert forall k :: 1 <= k < |rs| ==> rs[k] == rest[k - 1];
    }
  }

  /** The first chunk index from `from` on that `accepted` refuses, or `n` when there is none. */
  function FirstRejected(accepted: nat -> bool, n: nat, from: nat): (k: nat)
    requires from <= n
    ensures from <= k <= n
    ensures forall j :: from <= j < k ==> accepted(j)
    ensures k < n ==> !accepted(k)
    decreases n - from
  {
    if from == n then n
    else if !accepted(from) then from
    else FirstRejected(accepted, n, from + 1)
  }

  /** The chunk loop: each chunk is handed to `executemany`; after an accepted one its range is
      reported, and a refused one raises and ends the loop. `batches` are the chunks handed over,
      `reported` the ranges printed. */
  method InsertInChunks<T>(rows: seq<T>, size: nat, accepted: nat -> bool)
    returns (batches: seq<seq<T>>, reported: seq<Span>, complete: bool)
    requires size > 0
    ensures ChunkRun(rows, size, accepted, batches, reported, complete)
  {
    ghost var cs := Chunks(rows, size);
    var k := 0;
    batches, reported := [], [];
    var i := 0;
    while i < |rows|
      invariant batches + ChunksFrom(rows, size, i) == cs && |batches| == k
      invariant reported + RangesFrom(rows, size, i) == Ranges(rows, size) && |reported| == k
      invariant forall j :: 0 <= j < k ==> accepted(j)
      decreases |rows| - i
    {
      var chunk := rows[i..Min(i + size, |rows|)];
      ChunkAt(rows, size, i);
      if !accepted(k) {
        StopAt(rows, size, i, batches, reported, accepted);
        return batches + [chunk], reported, false;
      }
      Advance(batches, chunk, ChunksFrom(rows, size, i + size), cs);
      Advance(reported, Span(i, |chunk|), RangesFrom(rows, size, i + size), Ranges(rows, size));
      batches := batches + [chunk];
      reported := reported + [Span(i, |chunk|)];
      i := i + size;
      k := k + 1;
    }
    DoneAt(rows, size, i, batches, reported, accepted);
    complete := true;
  }

  /** What the chunk loop does with `rows` when `accepted` says which chunks `executemany`
      takes: the chunks are handed over in order up to and including the first refused one,
      the range of each accepted one is reported, and the loop completes exactly when every
      chunk is accepted. */
  ghost predicate ChunkRun<T>(rows: seq<T>, size: nat, accepted: nat -> bool, batches: seq<seq<T>>,
                              reported: seq<Span>, complete: bool)
    requires size > 0
  {
    var cs := Chunks(rows, size);
    var k := FirstRejected(accepted, |cs|, 0);
    (complete <==> k == |cs|) &&
    batches == cs[..Min(k + 1, |cs|)] &&
    |reported| == k && reported <= Ranges(rows, size)
  }

  lemma ChunkAt<T>(rows: seq<T>, size: nat, i: nat)
    requires size > 0 && i < |rows|
    ensures ChunksFrom(rows, size, i) == [rows[i..Min(i + size, |rows|)]] + ChunksFrom(rows, size, i + size)
    ensures RangesFrom(rows, size, i) ==
      [Span(i, |rows[i..Min(i + size, |rows|)]|)] + RangesFrom(rows, size, i + size)
  {
  }

  /** A chunk refused at row `i` ends the loop with the postcondition of `InsertInChunks`. */
  lemma StopAt<T>(rows: seq<T>, size: nat, i: nat, batches: seq<seq<T>>, reported: seq<Span>,
                  accepted: nat -> bool)
    requires size > 0 && i < |rows|
    requires batches + ChunksFrom(rows, size, i) == Chunks(rows, size)
    requires reported + RangesFrom(rows, size, i) == Ranges(rows, size) && |reported| == |batches|
    requires !accepted(|batches|) && forall j :: 0 <= j < |batches| ==> accepted(j)
    ensures ChunkRun(rows, size, accepted, batches + [rows[i..Min(i + size, |rows|)]], reported, false)
  {
    var cs := Chunks(rows, size);
    ChunkAt(rows, size, i);
    var chunk := rows[i..Min(i + size, |rows|)];
    assert (batches + [chunk]) + ChunksFrom(rows, size, i + size) == cs;
    PrefixOfSum(batches + [chunk], ChunksFrom(rows, size, i + size), cs);
    PrefixOfSum(reported, RangesFrom(rows, size, i), Ranges(rows, size));
    FirstRejectedAt(accepted, |cs|, |batches|);
  }

  /** A loop that ran past the last row ends with the postcondition of `InsertInChunks`. */
  lemma DoneAt<T>(rows: seq<T>, size: nat, i: nat, batches: seq<seq<T>>, reported: seq<Span>,
                  accepted: nat -> bool)
    requires size > 0 && i >= |rows|
    requires batches + ChunksFrom(rows, size, i) == Chunks(rows, size)
    requires reported + RangesFrom(rows, size, i) == Ranges(rows, size) && |reported| == |batches|
    requires forall j :: 0 <= j < |batches| ==> accepted(j)
    ensures ChunkRun(rows, size, accepted, batches, reported, true)
  {
    var cs := Chunks(rows, size);
    assert batches == cs;
    AllAccepted(accepted, |cs|, 0);
  }

  lemma Advance<A>(done: seq<A>, x: A, rest: seq<A>, all: seq<A>)
    requires done + ([x] + rest) == all
    ensures (done + [x]) + rest == all
  {
    assert done + ([x] + rest) == (done + [x]) + rest;
  }

  lemma PrefixOfSum<A>(a: seq<A>, b: seq<A>, c: seq<A>)
    requires a + b == c
    ensures a == c[..|a|]
  {
    assert (a + b)[..|a|] == a;
  }

  lemma {:induction false} FirstRejectedAt(accepted: nat -> bool, n: nat, k: nat)
    requires k < n && !accepted(k) && forall j :: 0 <= j < k ==> accepted(j)
    ensures FirstRejected(accepted, n, 0) == k
  {
  }

  lemma {:induction false} AllAccepted(accepted: nat -> bool, n: nat, from: nat)
    requires from <= n && forall j :: from <= j < n ==> accepted(j)
    ensures FirstRejected(accepted, n, from) == n
  {
  }
}
