/** The query export: each entry of the query list names a SQLite database, a query and an
    output file; the query's result is written to the file as tab-separated text, a header line
    of column names and then one line per row, with no quoting or escaping. */
module TsvExport {
  import opened Wrappers
  import opened Seqs
  import opened Text
  import opened Dicts

  /** A value in a result row. */
  datatype Cell = NullCell | IntCell(i: int) | TextCell(s: string)

  /** `str(cell)`. */
  function CellText(c: Cell): string {
    match c
    case NullCell => "None"
    case IntCell(i) => IntToString(i)
    case TextCell(s) => s
  }

  /** A line as written: its text and the line break. */
  function Terminated(line: string): string {
    line + "\n"
  }

  /** The text of a row's line: the cells under `str`, joined by tabs. */
  function RowFields(row: seq<Cell>): string {
    Join("\t", Map(CellText, row))
  }

  /** The lines of the file, without their line breaks: the column names joined by tabs, then
      one line per row. */
  function Lines(columns: seq<string>, rows: seq<seq<Cell>>): (ls: seq<string>)
    ensures |ls| == |rows| + 1
  {
    [Join("\t", columns)] + Map(RowFields, rows)
  }

  /** The text of the file: every line followed by a line break. */
  function Tsv(columns: seq<string>, rows: seq<seq<Cell>>): string {
    Flatten(Map(Terminated, Lines(columns, rows)))
  }

  /** The body of the `with open(...)` block: the header, then each row in turn. */
  method WriteTsv(columns: seq<string>, rows: seq<seq<Cell>>) returns (text: string)
    ensures text == Tsv(columns, rows)
  {
    text := Join("\t", columns) + "\n";
    assert Tsv(columns, rows[..0]) == Terminated(Join("\t", columns)) by {
      var header := Join("\t", columns);
      assert Map(RowFields, rows[..0]) == [];
      assert Lines(columns, rows[..0]) == [header];
      assert Map(Terminated, [header]) == [Terminated(header)];
      FlattenSingle(Terminated(header));
    }
    for i := 0 to |rows|
      invariant text == Tsv(columns, rows[..i])
    {
      var cells := Map(CellText, rows[i]);
      WriteSnoc(columns, rows, i);
      text := text + (Join("\t", cells) + "\n");
    }
    assert rows[..|rows|] == rows;
  }

  lemma WriteSnoc(columns: seq<string>, rows: seq<seq<Cell>>, i: nat)
    requires i < |rows|
    ensures Tsv(columns, rows[..i + 1]) == Tsv(columns, rows[..i]) + Terminated(RowFields(rows[i]))
  {
    TakeSnoc(rows, i);
    MapConcat(RowFields, rows[..i], [rows[i]]);
    var ls := Lines(columns, rows[..i]);
    assert Map(RowFields, [rows[i]]) == [RowFields(rows[i])];
    AppendAssoc([Join("\t", columns)], Map(RowFields, rows[..i]), [RowFields(rows[i])]);
    assert Lines(columns, rows[..i + 1]) == ls + [RowFields(rows[i])];
    MapConcat(Terminated, ls, [RowFields(rows[i])]);
    assert Map(Terminated, [RowFields(rows[i])]) == [Terminated(RowFields(rows[i]))];
    FlattenConcat(Map(Terminated, ls), [Terminated(RowFields(rows[i]))]);
    FlattenSingle(Terminated(RowFields(rows[i])));
  }

  /** Terminating every line is joining the lines with line breaks and ending with one. */
  lemma {:induction false} TerminatedJoin(ls: seq<string>)
    ensures Flatten(Map(Terminated, ls)) == Join("\n", ls + [""])
  {
    if ls != [] {
      TerminatedJoin(ls[1..]);
      MapCons(Terminated, ls);
      assert ls + [""] == [ls[0]] + (ls[1..] + [""]);
      JoinCons("\n", ls[0], ls[1..] + [""]);
    }
  }

  /** No column name and no cell text holds `c`. */
  predicate FreeOf(columns: seq<string>, rows: seq<seq<Cell>>, c: char) {
    (forall k :: 0 <= k < |columns| ==> c !in columns[k]) &&
    (forall r, k :: 0 <= r < |rows| && 0 <= k < |rows[r]| ==> c !in CellText(rows[r][k]))
  }

  /** Without a line break in the names and cells, splitting the text at its line breaks gives
      the header, one line per row, and the empty rest after the final line break: the file has
      exactly one line more than the result has rows. */
  lemma TsvLines(columns: seq<string>, rows: seq<seq<Cell>>)
    requires FreeOf(columns, rows, '\n')
    ensures Split(Tsv(columns, rows), '\n') == Lines(columns, rows) + [""]
    ensures |Split(Tsv(columns, rows), '\n')| == |rows| + 2
  {
    var ls := Lines(columns, rows);
    TerminatedJoin(ls);
    LinesFree(columns, rows);
    SplitJoin(ls + [""], '\n');
  }

  lemma LinesFree(columns: seq<string>, rows: seq<seq<Cell>>)
    requires FreeOf(columns, rows, '\n')
    ensures forall p :: p in Lines(columns, rows) + [""] ==> '\n' !in p
  {
    assert forall p :: p in columns ==> '\n' !in p;
    JoinAbsent("\t", columns, '\n');
    forall r | 0 <= r < |rows|
      ensures '\n' !in RowFields(rows[r])
    {
      FieldsFree(rows[r], '\n');
      JoinAbsent("\t", Map(CellText, rows[r]), '\n');
    }
  }

  lemma FieldsFree(row: seq<Cell>, c: char)
    requires forall k :: 0 <= k < |row| ==> c !in CellText(row[k])
    ensures forall p :: p in Map(CellText, row) ==> c !in p
  {
  }

  /** Without a tab in its cells, a row's line splits at its tabs into the cells' texts. */
  lemma RowFieldsSplit(row: seq<Cell>)
    requires |row| >= 1
    requires forall k :: 0 <= k < |row| ==> '\t' !in CellText(row[k])
    ensures Split(RowFields(row), '\t') == Map(CellText, row)
  {
    FieldsFree(row, '\t');
    SplitJoin(Map(CellText, row), '\t');
  }

  /** Without a tab in the column names, the header splits at its tabs into the names. */
  lemma HeaderSplit(columns: seq<string>)
    requires |columns| >= 1
    requires forall k :: 0 <= k < |columns| ==> '\t' !in columns[k]
    ensures Split(Lines(columns, [])[0], '\t') == columns
  {
    assert forall p :: p in columns ==> '\t' !in p;
    SplitJoin(columns, '\t');
  }

  /** Nothing is escaped: when some cell's text holds a tab, the row's line splits at its tabs
      into more fields than the row has cells, so it does not read back as the row. */
  lemma TabInCellSplitsField(row: seq<Cell>, k: nat)
    requires k < |row| && '\t' in CellText(row[k])
    ensures |Split(RowFields(row), '\t')| > |row|
    ensures Split(RowFields(row), '\t') != Map(CellText, row)
  {
    var texts := Map(CellText, row);
    assert texts[k] == CellText(row[k]);
    SplitCount(RowFields(row), '\t');
    CountCharJoinAtLeast(texts, '\t', k);
    CountCharIn(texts[k], '\t');
  }

  /** An entry of the query list. */
  type QueryItem = Dict<string, string>

  /** What running an entry's query gave: an exception, or the column names and rows. */
  datatype QueryResult = QueryFailed | ResultSet(columns: seq<string>, rows: seq<seq<Cell>>)

  /** The entry has the three keys the loop reads before its `try`. */
  predicate Complete(item: QueryItem) {
    "db" in Keys(item) && "query" in Keys(item) && "filename" in Keys(item)
  }

  /** The number of entries handled before the first one without all three keys, whose
      `KeyError` ends the loop. */
  function CompletePrefix(items: seq<QueryItem>): (n: nat)
    ensures n <= |items|
    ensures forall i :: 0 <= i < n ==> Complete(items[i])
    ensures n < |items| ==> !Complete(items[n])
  {
    if items == [] || !Complete(items[0]) then 0 else 1 + CompletePrefix(items[1..])
  }

  function Field(item: QueryItem, key: string): string
    requires key in Keys(item)
  {
    GetKeys(item, key);
    Get(item, key).value
  }

  /** The files written for the complete entries `items`, by name: an entry whose query fails
      writes nothing, and a later entry naming the same file replaces its text. */
  function Exported(items: seq<QueryItem>, execute: (string, string) -> QueryResult): Dict<string, string>
    requires forall i :: 0 <= i < |items| ==> Complete(items[i])
    decreases |items|
  {
    if items == [] then []
    else
      var prior := Exported(items[..|items| - 1], execute);
      var item := items[|items| - 1];
      assert Complete(item);
      match execute(Field(item, "db"), Field(item, "query"))
      case QueryFailed => prior
      case ResultSet(columns, rows) => Put(prior, Field(item, "filename"), Tsv(columns, rows))
  }

  /** The loop over the query list. `execute` stands for connecting to the database and running
      the query. `completed` is false when an entry without all three keys ended the loop. */
  method ExportQueries(items: seq<QueryItem>, execute: (string, string) -> QueryResult)
    returns (files: Dict<string, string>, completed: bool)
    ensures completed <==> CompletePrefix(items) == |items|
    ensures files == Exported(items[..CompletePrefix(items)], execute)
  {
    files := [];
    for i := 0 to |items|
      invariant i <= CompletePrefix(items)
      invariant files == Exported(items[..i], execute)
    {
      var item := items[i];
      GetKeys(item, "db");
      GetKeys(item, "query");
      GetKeys(item, "filename");
      if Get(item, "db").None? || Get(item, "query").None? || Get(item, "filename").None? {
        return files, false;
      }
      var db, query, filename := Get(item, "db").value, Get(item, "query").value, Get(item, "filename").value;
      CompleteStep(items, i);
      ExportedStep(items, i, execute);
      var result := execute(db, query);
      if result.ResultSet? {
        var text := WriteTsv(result.columns, result.rows);
        files := Put(files, filename, text);
      }
    }
    assert items[..|items|] == items;
    completed := true;
  }

  lemma CompleteStep(items: seq<QueryItem>, i: nat)
    requires i < |items| && i <= CompletePrefix(items) && Complete(items[i])
    ensures i + 1 <= CompletePrefix(items)
  {
  }

  lemma ExportedStep(items: seq<QueryItem>, i: nat, execute: (string, string) -> QueryResult)
    requires i < CompletePrefix(items)
    ensures var item := items[i];
      Exported(items[..i + 1], execute) ==
        match execute(Field(item, "db"), Field(item, "query"))
        case QueryFailed => Exported(items[..i], execute)
        case ResultSet(columns, rows) => Put(Exported(items[..i], execute), Field(item, "filename"), Tsv(columns, rows))
  {
    assert items[..i + 1][..i] == items[..i];
  }

  /** A failing query is reported and the loop goes on: it leaves the files as they were. */
  lemma FailedItemSkipped(items: seq<QueryItem>, item: QueryItem, execute: (string, string) -> QueryResult)
    requires forall i :: 0 <= i < |items| ==> Complete(items[i])
    requires Complete(item) && execute(Field(item, "db"), Field(item, "query")).QueryFailed?
    ensures Exported(items + [item], execute) == Exported(items, execute)
  {
    assert (items + [item])[..|items|] == items;
  }

  /** A successful query writes its file, replacing any earlier text under that name, and
      leaves every other file as it was. */
  lemma ExportedGet(items: seq<QueryItem>, item: QueryItem, execute: (string, string) -> QueryResult, name: string)
    requires forall i :: 0 <= i < |items| ==> Complete(items[i])
    requires Complete(item)
    ensures var r := execute(Field(item, "db"), Field(item, "query"));
      Get(Exported(items + [item], execute), name) ==
        if r.ResultSet? && name == Field(item, "filename") then Some(Tsv(r.columns, r.rows))
        else Get(Exported(items, execute), name)
  {
    assert (items + [item])[..|items|] == items;
    var r := execute(Field(item, "db"), Field(item, "query"));
    if r.ResultSet? {
      PutGet(Exported(items, execute), Field(item, "filename"), Tsv(r.columns, r.rows), name);
    }
  }

  /** No file name occurs twice. */
  lemma {:induction false} ExportedValid(items: seq<QueryItem>, execute: (string, string) -> QueryResult)
    requires forall i :: 0 <= i < |items| ==> Complete(items[i])
    ensures Valid(Exported(items, execute))
    decreases |items|
  {
    if items != [] {
      var init := items[..|items| - 1];
      var item := items[|items| - 1];
      ExportedValid(init, execute);
      var r := execute(Field(item, "db"), Field(item, "query"));
      if r.ResultSet? {
        PutValid(Exported(init, execute), Field(item, "filename"), Tsv(r.columns, r.rows));
      }
    }
  }
}
