/** The record rules of the bulk custom-record upload: cleaning the rows of a pipe-delimited
    file, numbering the kept rows, stripping private keys from the request payload, judging
    each reply, and checking the configuration. */
module CustomRecords {
  import opened Wrappers
  import opened Seqs
  import opened Text
  import opened Dicts
  import opened JsonValues
  import opened Config

  /** One value of a `csv.DictReader` row: the `None` filled in for a missing column, the text
      of a column, or the list of surplus values kept under the `None` key. */
  datatype Cell = Absent | Value(s: string) | Overflow(extra: seq<string>)

  /** A row as `DictReader` yields it; a key is `None` for the surplus values. */
  type RawRow = seq<(Option<string>, Cell)>

  /** A cleaned row: string keys, string values, and the row number added once kept. */
  type Record = Dict<string, Json>

  const RowNumberKey := "_row_number"

  /** The data rows are numbered from 2: the header is line 1 of the file. */
  const FirstDataRow := 2

  /** `key.strip() if key else f"field_{size}"`, where `size` is the number of keys the cleaned
      row holds so far. */
  function CleanKey(key: Option<string>, size: nat): string {
    match key
    case Some(k) => if k != "" then Strip(k) else "field_" + NatToString(size)
    case None => "field_" + NatToString(size)
  }

  /** `value.strip()` fails on a non-empty list of surplus values, which aborts the read. */
  predicate Raises(c: Cell) {
    c.Overflow? && c.extra != []
  }

  /** `value.strip() if value else ""`. */
  function CleanValue(c: Cell): string
    requires !Raises(c)
  {
    match c
    case Value(s) => if s != "" then Strip(s) else ""
    case _ => ""
  }

  /** The inner loop of the reader from the cleaned row `acc` on: each pair assigned in turn. */
  function CleanFrom(acc: Record, items: RawRow): Option<Record>
    decreases |items|
  {
    if items == [] then Some(acc)
    else if Raises(items[0].1) then None
    else CleanFrom(Put(acc, CleanKey(items[0].0, |acc|), Str(CleanValue(items[0].1))), items[1..])
  }

  /** The cleaned row, or `None` when cleaning raises. */
  function CleanRow(row: RawRow): Option<Record> {
    CleanFrom([], row)
  }

  /** `any(clean_row.values())`. */
  predicate HasContent(r: Record) {
    exists i :: 0 <= i < |r| && Truthy(r[i].1)
  }

  /** `clean_row['_row_number'] = n`. */
  function Numbered(r: Record, n: int): Record {
    Put(r, RowNumberKey, Int(n))
  }

  /** Every row cleaned, or `None` when cleaning any of them raises. */
  function CleanAll(rows: seq<RawRow>): (r: Option<seq<Record>>)
    ensures r.Some? ==> |r.value| == |rows|
  {
    if forall k :: 0 <= k < |rows| ==> CleanRow(rows[k]).Some?
    then Some(seq(|rows|, k requires 0 <= k < |rows| => CleanRow(rows[k]).value))
    else None
  }

  lemma CleanAllOf(rows: seq<RawRow>, cleaned: seq<Record>)
    requires |cleaned| == |rows|
    requires forall k :: 0 <= k < |rows| ==> CleanRow(rows[k]) == Some(cleaned[k])
    ensures CleanAll(rows) == Some(cleaned)
  {
    assert forall k :: 0 <= k < |rows| ==> CleanRow(rows[k]).Some?;
    var all := seq(|rows|, k requires 0 <= k < |rows| => CleanRow(rows[k]).value);
    assert forall k :: 0 <= k < |rows| ==> all[k] == cleaned[k];
    assert all == cleaned;
  }

  lemma CleanAllNone(rows: seq<RawRow>, i: nat)
    requires i < |rows| && CleanRow(rows[i]).None?
    ensures CleanAll(rows).None?
  {
  }

  /** One more row cleaned: its record extends the cleaned rows, and what it keeps extends the
      kept records. */
  lemma CleanedSnoc(rows: seq<RawRow>, cleaned: seq<Record>, c: Record, first: int)
    requires |cleaned| < |rows|
    requires forall k :: 0 <= k < |cleaned| ==> CleanRow(rows[k]) == Some(cleaned[k])
    requires CleanRow(rows[|cleaned|]) == Some(c)
    ensures forall k :: 0 <= k < |cleaned| + 1 ==> CleanRow(rows[k]) == Some((cleaned + [c])[k])
    ensures KeepNumbered(cleaned + [c], first) == KeepNumbered(cleaned, first) + Kept(c, first + |cleaned|)
  {
    KeepNumberedConcat(cleaned, [c], first);
    KeepNumberedSingle(c, first + |cleaned|);
  }

  /** The rows with content, in order, each numbered by its position counted from `first`. */
  function KeepNumbered(cleaned: seq<Record>, first: int): seq<Record>
    decreases |cleaned|
  {
    if cleaned == [] then []
    else Kept(cleaned[0], first) + KeepNumbered(cleaned[1..], first + 1)
  }

  /** What one cleaned row contributes: itself with its number when it has content. */
  function Kept(c: Record, n: int): seq<Record> {
    if HasContent(c) then [Numbered(c, n)] else []
  }

  /** The records read from `rows`, the first numbered `first`; `None` when a row raises. */
  function ReadRows(rows: seq<RawRow>, first: int): Option<seq<Record>> {
    match CleanAll(rows)
    case None => None
    case Some(cleaned) => Some(KeepNumbered(cleaned, first))
  }

  /** A cleaned entry: key and value both stripped, the value a string. */
  predicate CleanEntry(e: (string, Json)) {
    IsStripped(e.0) && e.1.Str? && IsStripped(e.1.s)
  }

  predicate AllClean(r: Record) {
    forall e :: e in r ==> CleanEntry(e)
  }

  lemma CleanKeyStripped(key: Option<string>, size: nat)
    ensures IsStripped(CleanKey(key, size))
  {
    if key.None? || key.value == "" {
      var digits := NatToString(size);
      var k := "field_" + digits;
      assert k[0] == 'f' && k[|k| - 1] == digits[|digits| - 1];
    }
  }

  /** Cleaning raises exactly when some pair holds a non-empty surplus list. */
  lemma {:induction false} CleanFromRaises(acc: Record, items: RawRow)
    ensures CleanFrom(acc, items).None? <==> exists i :: 0 <= i < |items| && Raises(items[i].1)
    decreases |items|
  {
    if items != [] && !Raises(items[0].1) {
      var next := Put(acc, CleanKey(items[0].0, |acc|), Str(CleanValue(items[0].1)));
      CleanFromRaises(next, items[1..]);
      if exists i :: 0 <= i < |items| && Raises(items[i].1) {
        var i :| 0 <= i < |items| && Raises(items[i].1);
        assert items[1..][i - 1] == items[i];
      }
      assert forall i :: 0 <= i < |items[1..]| ==> items[1..][i] == items[i + 1];
    }
  }

  /** Every key and every value of a cleaned row is stripped, no key occurs twice, and the row
      has no more entries than the raw row had pairs. */
  lemma {:induction false} CleanFromShape(acc: Record, items: RawRow)
    requires Valid(acc) && AllClean(acc)
    ensures CleanFrom(acc, items).Some? ==>
      var r := CleanFrom(acc, items).value;
      Valid(r) && AllClean(r) && |r| <= |acc| + |items|
    decreases |items|
  {
    if items != [] && !Raises(items[0].1) {
      var k := CleanKey(items[0].0, |acc|);
      var v := Str(CleanValue(items[0].1));
      var next := Put(acc, k, v);
      PutValid(acc, k, v);
      PutElems(acc, k, v);
      PutKeys(acc, k, v);
      CleanKeyStripped(items[0].0, |acc|);
      assert |next| <= |acc| + 1;
      CleanFromShape(next, items[1..]);
    }
  }

  /** A pair with a non-empty key whose cell does not raise. */
  predicate Plain(item: (Option<string>, Cell)) {
    item.0.Some? && item.0.value != "" && !Raises(item.1)
  }

  /** The stripped key of a pair, `""` for the `None` key. */
  function KeyText(item: (Option<string>, Cell)): string {
    Strip(item.0.GetOr(""))
  }

  /** The entry a plain pair becomes: its key and its value, both stripped. */
  function PlainEntry(item: (Option<string>, Cell)): (string, Json) {
    (KeyText(item), Str(if Raises(item.1) then "" else CleanValue(item.1)))
  }

  /** No key of `items` is already a key of `acc`. */
  predicate Fresh(acc: Record, items: RawRow) {
    forall i, j :: 0 <= i < |items| && 0 <= j < |acc| ==> acc[j].0 != KeyText(items[i])
  }

  /** The keys of `items` stay distinct after stripping. */
  predicate DistinctKeys(items: RawRow) {
    forall i, j :: 0 <= i < j < |items| ==> KeyText(items[i]) != KeyText(items[j])
  }

  lemma FreshStep(acc: Record, items: RawRow)
    requires items != [] && Fresh(acc, items) && DistinctKeys(items)
    ensures Fresh(acc + [PlainEntry(items[0])], items[1..]) && DistinctKeys(items[1..])
  {
    var next := acc + [PlainEntry(items[0])];
    var rest := items[1..];
    forall i, j | 0 <= i < |rest| && 0 <= j < |next| ensures next[j].0 != KeyText(rest[i]) {
      assert rest[i] == items[i + 1];
      if j < |acc| {
        assert next[j] == acc[j];
      }
    }
    forall i, j | 0 <= i < j < |rest| ensures KeyText(rest[i]) != KeyText(rest[j]) {
      assert rest[i] == items[i + 1] && rest[j] == items[j + 1];
    }
  }

  lemma CleanFromStep(acc: Record, items: RawRow)
    requires items != [] && Plain(items[0]) && Fresh(acc, items)
    ensures CleanFrom(acc, items) == CleanFrom(acc + [PlainEntry(items[0])], items[1..])
  {
    var e := PlainEntry(items[0]);
    PutKeys(acc, e.0, e.1);
    assert e.0 !in Keys(acc);
    assert CleanKey(items[0].0, |acc|) == e.0;
    assert Put(acc, e.0, e.1) == acc + [e];
  }

  /** When every key is present and stays distinct after stripping, cleaning keeps the pairs in
      place: the i-th entry is the i-th key and value, each stripped. */
  lemma {:induction false} CleanFromPlain(acc: Record, items: RawRow)
    requires forall i :: 0 <= i < |items| ==> Plain(items[i])
    requires Fresh(acc, items) && DistinctKeys(items)
    ensures CleanFrom(acc, items) == Some(acc + Map(PlainEntry, items))
    decreases |items|
  {
    if items != [] {
      var e := PlainEntry(items[0]);
      var next := acc + [e];
      var rest := items[1..];
      assert CleanFrom(acc, items) == CleanFrom(next, rest) by {
        CleanFromStep(acc, items);
      }
      assert CleanFrom(next, rest) == Some(next + Map(PlainEntry, rest)) by {
        FreshStep(acc, items);
        forall i | 0 <= i < |rest| ensures Plain(rest[i]) {
          assert rest[i] == items[i + 1];
        }
        CleanFromPlain(next, rest);
      }
      assert next + Map(PlainEntry, rest) == acc + Map(PlainEntry, items) by {
        MapCons(PlainEntry, items);
        AppendAssoc(acc, [e], Map(PlainEntry, rest));
      }
    } else {
      assert acc + Map(PlainEntry, items) == acc;
    }
  }

  /** A row whose keys are all present and distinct after stripping is cleaned in place. */
  lemma CleanRowPlain(row: RawRow)
    requires forall i :: 0 <= i < |row| ==> Plain(row[i])
    requires DistinctKeys(row)
    ensures CleanRow(row) == Some(Map(PlainEntry, row))
  {
    assert CleanFrom([], row) == Some([] + Map(PlainEntry, row)) by {
      CleanFromPlain([], row);
    }
    assert [] + Map(PlainEntry, row) == Map(PlainEntry, row);
  }

  /** The number a kept record carries. */
  function RowNumber(r: Record): Option<int> {
    var v := Get(r, RowNumberKey);
    if v.Some? && v.value.Int? then Some(v.value.i) else None
  }

  lemma NumberedRowNumber(c: Record, n: int)
    ensures RowNumber(Numbered(c, n)) == Some(n)
  {
    PutGet(c, RowNumberKey, Int(n), RowNumberKey);
  }

  lemma {:induction false} KeepNumberedConcat(a: seq<Record>, b: seq<Record>, first: int)
    ensures KeepNumbered(a + b, first) == KeepNumbered(a, first) + KeepNumbered(b, first + |a|)
    decreases |a|
  {
    if a == [] {
      assert a + b == b;
    } else {
      var c := a + b;
      assert c[0] == a[0] && c[1..] == a[1..] + b;
      assert KeepNumbered(c, first) == Kept(a[0], first) + KeepNumbered(a[1..] + b, first + 1);
      KeepNumberedConcat(a[1..], b, first + 1);
      assert first + 1 + |a[1..]| == first + |a|;
      AppendAssoc(Kept(a[0], first), KeepNumbered(a[1..], first + 1), KeepNumbered(b, first + |a|));
    }
  }

  /** The kept records are those of the rows before row `i`, then what row `i` keeps, then
      those of the rows after it: no row with content is dropped and none moves. */
  lemma KeepNumberedAt(cleaned: seq<Record>, first: int, i: nat)
    requires i < |cleaned|
    ensures KeepNumbered(cleaned, first) == KeepNumbered(cleaned[..i], first) +
      Kept(cleaned[i], first + i) + KeepNumbered(cleaned[i + 1..], first + i + 1)
  {
    var a, c, b := cleaned[..i], cleaned[i], cleaned[i + 1..];
    var rest := KeepNumbered([c] + b, first + i);
    assert rest == Kept(c, first + i) + KeepNumbered(b, first + i + 1) by {
      KeepNumberedConcat([c], b, first + i);
      KeepNumberedSingle(c, first + i);
    }
    assert KeepNumbered(cleaned, first) == KeepNumbered(a, first) + rest by {
      SplitAt(cleaned, i);
      KeepNumberedConcat(a, [c] + b, first);
    }
    AppendAssoc(KeepNumbered(a, first), Kept(c, first + i), KeepNumbered(b, first + i + 1));
  }

  lemma KeepNumberedSingle(c: Record, n: int)
    ensures KeepNumbered([c], n) == Kept(c, n)
  {
    assert [c][1..] == [];
  }

  /** The row a record came from: its cleaned form has content and the record is that row with
      its row number added. */
  predicate FromRow(cleaned: seq<Record>, first: int, r: Record) {
    RowNumber(r).Some? &&
    first <= RowNumber(r).value < first + |cleaned| &&
    var c := cleaned[RowNumber(r).value - first];
    HasContent(c) && r == Numbered(c, RowNumber(r).value)
  }

  /** Every kept record is a row with content plus its own row number; the numbers strictly
      increase, with a gap wherever a row was dropped. */
  lemma {:induction false} KeepNumberedRows(cleaned: seq<Record>, first: int)
    ensures var recs := KeepNumbered(cleaned, first);
      |recs| <= |cleaned| &&
      (forall k :: 0 <= k < |recs| ==> FromRow(cleaned, first, recs[k])) &&
      (forall k, l :: 0 <= k < l < |recs| ==> RowNumber(recs[k]).value < RowNumber(recs[l]).value)
    decreases |cleaned|
  {
    if cleaned != [] {
      var c := cleaned[0];
      var rest := cleaned[1..];
      KeepNumberedRows(rest, first + 1);
      var tail := KeepNumbered(rest, first + 1);
      forall k | 0 <= k < |tail| ensures FromRow(cleaned, first, tail[k]) {
        var n := RowNumber(tail[k]).value;
        assert rest[n - (first + 1)] == cleaned[n - first];
      }
      if HasContent(c) {
        NumberedRowNumber(c, first);
        var recs := [Numbered(c, first)] + tail;
        assert forall k :: 0 < k < |recs| ==> recs[k] == tail[k - 1];
      }
    }
  }

  /** The records that a successful read returns, stated on the raw rows. */
  lemma ReadRowsNumbered(rows: seq<RawRow>, first: int)
    requires ReadRows(rows, first).Some?
    ensures var recs := ReadRows(rows, first).value;
      |recs| <= |rows| &&
      (forall k :: 0 <= k < |recs| ==> FromRow(CleanAll(rows).value, first, recs[k])) &&
      (forall k, l :: 0 <= k < l < |recs| ==> RowNumber(recs[k]).value < RowNumber(recs[l]).value)
  {
    KeepNumberedRows(CleanAll(rows).value, first);
  }

  /** `k.startswith('_')`. */
  predicate IsPrivate(k: string) {
    |k| > 0 && k[0] == '_'
  }

  /** The request body: the record without its private keys. */
  function Payload(record: Record): (p: Record)
    ensures forall k :: Get(p, k) == if IsPrivate(k) then None else Get(record, k)
  {
    var p := FilterKeys(record, k => !IsPrivate(k));
    assert forall k :: Get(p, k) == if IsPrivate(k) then None else Get(record, k) by {
      forall k ensures Get(p, k) == if IsPrivate(k) then None else Get(record, k) {
        FilterKeysGet(record, k => !IsPrivate(k), k);
      }
    }
    p
  }

  /** What `response.json()` makes of a non-empty body: a JSON value, or the message of the
      decoding error it raises. */
  datatype Decoded = Decoded(value: Json) | DecodeError(message: string)

  /** What the create request got back: a status code, the body text and what decoding that
      text gives; or an exception raised by the request, with its message. */
  datatype Reply = Answered(code: int, text: string, json: Decoded) | Raised(message: string)

  datatype Status = Success | Failed(error: string)

  /** The result dict of one create call. `response` is the decoded body kept on success
      (`None` for an empty body); a failed result has none. */
  datatype UploadResult = UploadResult(status: Status, recordId: Option<Json>, response: Option<Json>,
                                       rowNumber: Option<Json>)

  predicate Accepted(code: int) {
    code == 200 || code == 201
  }

  /** The result of creating `record` when the server gives `reply`. On a 200 or 201 the body
      is decoded while the result is built, so a body that is not JSON raises inside the `try`
      and the record is reported as failed with the decoding error. */
  function Outcome(record: Record, reply: Reply): (r: UploadResult)
    ensures r.status.Success? <==>
      reply.Answered? && Accepted(reply.code) && (reply.text == "" || reply.json.Decoded?)
    ensures r.status.Success? ==> r.response == if reply.text == "" then None else Some(reply.json.value)
    ensures r.status.Failed? ==> r.response == None
    ensures r.status.Failed? && reply.Answered? && !Accepted(reply.code) ==>
      r.status.error == "HTTP " + IntToString(reply.code) + ": " + reply.text
    ensures r.status.Failed? && reply.Answered? && Accepted(reply.code) ==>
      reply.json.DecodeError? && r.status.error == reply.json.message
    ensures r.status.Failed? && reply.Raised? ==> r.status.error == reply.message
    ensures r.recordId == Get(record, "id") && r.rowNumber == Get(record, RowNumberKey)
  {
    var payload := Payload(record);
    var id := Get(payload, "id");
    var rowNumber := Get(record, RowNumberKey);
    match reply
    case Answered(code, text, json) =>
      if !Accepted(code) then UploadResult(Failed("HTTP " + IntToString(code) + ": " + text), id, None, rowNumber)
      else if text == "" then UploadResult(Success, id, None, rowNumber)
      else
        (match json
         case Decoded(value) => UploadResult(Success, id, Some(value), rowNumber)
         case DecodeError(message) => UploadResult(Failed(message), id, None, rowNumber))
    case Raised(message) => UploadResult(Failed(message), id, None, rowNumber)
  }

  predicate Succeeded(r: UploadResult) {
    r.status.Success?
  }

  predicate Unsucceeded(r: UploadResult) {
    !r.status.Success?
  }

  /** One more result adds one to exactly one of the two tallies. */
  lemma TallyStep(done: seq<UploadResult>, r: UploadResult)
    ensures |Filter(Succeeded, done + [r])| == |Filter(Succeeded, done)| + (if r.status.Success? then 1 else 0)
    ensures |Filter(Unsucceeded, done + [r])| == |Filter(Unsucceeded, done)| + (if r.status.Success? then 0 else 1)
  {
    FilterConcat(Succeeded, done, [r]);
    FilterConcat(Unsucceeded, done, [r]);
    assert [r][1..] == [];
  }

  /** The results of a run: one per record, in order, the i-th using the i-th reply. */
  function Outcomes(records: seq<Record>, replies: nat -> Reply): (rs: seq<UploadResult>)
    ensures |rs| == |records|
  {
    seq(|records|, i requires 0 <= i < |records| => Outcome(records[i], replies(i)))
  }

  lemma OutcomesSnoc(records: seq<Record>, replies: nat -> Reply, i: nat)
    requires i < |records|
    ensures Outcomes(records[..i + 1], replies) ==
      Outcomes(records[..i], replies) + [Outcome(records[i], replies(i))]
  {
  }

  const UploadRequired := ["server", "username", "password", "client_id", "client_secret",
    "customer_id", "library_id", "custom_table", "input_file_path"]

  /** `load_config`: the configuration when it parses, has every required field, and names an
      absolute input path as a string; `None` otherwise. */
  function LoadConfig(file: ConfigFile, isAbsolute: string -> bool): (r: Option<Dict<string, Json>>)
    ensures r.Some? ==> file.Parsed? && r.value == file.config
  {
    match file
    case NotFound => None
    case InvalidJson => None
    case Parsed(config) =>
      if MissingFields(config, UploadRequired) != [] then None
      else
        var path := Get(config, "input_file_path");
        if path.Some? && path.value.Str? && isAbsolute(path.value.s) then Some(config) else None
  }

  /** The conditions under which a parsed configuration is accepted. */
  predicate Acceptable(config: Dict<string, Json>, isAbsolute: string -> bool) {
    (forall f :: f in UploadRequired ==> f in Keys(config)) &&
    Get(config, "input_file_path").Some? &&
    Get(config, "input_file_path").value.Str? &&
    isAbsolute(Get(config, "input_file_path").value.s)
  }

  /** A configuration is accepted exactly when all nine fields are present and the input path is
      an absolute path given as a string. */
  lemma LoadConfigAccepts(file: ConfigFile, isAbsolute: string -> bool)
    ensures LoadConfig(file, isAbsolute).Some? <==> file.Parsed? && Acceptable(file.config, isAbsolute)
  {
    if file.Parsed? {
      MissingFieldsExact(file.config, UploadRequired);
    }
  }
}
