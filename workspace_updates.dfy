/** Updating the description of each workspace listed in a CSV file and sharing the rows out
    between a success log and a failure log. */
module WorkspaceUpdates {
  import opened Wrappers
  import opened Seqs
  import opened Dicts

  /** A row of the input file, as `csv.DictReader` gives it. */
  type Row = Dict<string, string>

  /** What the update request for a row gave: success, or a request exception with its text. */
  datatype PatchReply = Patched | PatchFailed(error: string)

  /** One update request: where it goes and the description it sets. */
  datatype PatchRequest = PatchRequest(url: string, description: string)

  /** A CSV file written by `csv.DictWriter`: its header and its rows. */
  datatype CsvFile = CsvFile(fieldnames: seq<string>, rows: seq<Row>)

  /** A run either stops with a `KeyError` on a row without `workspace_id` or `description`
      (nothing is written then), or ends with both lists and the files written. */
  datatype RunResult =
    | Aborted
    | Finished(successes: seq<Row>, failures: seq<Row>, successFile: Option<CsvFile>, failureFile: Option<CsvFile>)

  predicate Readable(row: Row) {
    "workspace_id" in Keys(row) && "description" in Keys(row)
  }

  /** The number of rows read before the first one that raises. */
  function ReadablePrefix(rows: seq<Row>): (n: nat)
    ensures n <= |rows|
    ensures forall i :: 0 <= i < n ==> Readable(rows[i])
    ensures n < |rows| ==> !Readable(rows[n])
  {
    if rows == [] || !Readable(rows[0]) then 0 else 1 + ReadablePrefix(rows[1..])
  }

  function WorkspaceUrl(host: string, customerId: string, libraryId: string, workspaceId: string): string {
    "https://" + host + "/work/api/v2/customers/" + customerId + "/libraries/" + libraryId +
    "/workspaces/" + workspaceId
  }

  /** The request for a readable row. */
  function RequestOf(host: string, customerId: string, libraryId: string, row: Row): PatchRequest
    requires Readable(row)
  {
    GetKeys(row, "workspace_id");
    GetKeys(row, "description");
    PatchRequest(WorkspaceUrl(host, customerId, libraryId, Get(row, "workspace_id").value),
                 Get(row, "description").value)
  }

  /** The requests sent for the first `n` rows, in order. */
  function Requests(host: string, customerId: string, libraryId: string, rows: seq<Row>, n: nat): (r: seq<PatchRequest>)
    requires n <= |rows| && forall i :: 0 <= i < n ==> Readable(rows[i])
    ensures |r| == n
  {
    seq(n, i requires 0 <= i < n => RequestOf(host, customerId, libraryId, rows[i]))
  }

  /** Each row with the reply its request got. */
  function Tagged(rows: seq<Row>, replies: nat -> PatchReply): (t: seq<(Row, PatchReply)>)
    ensures |t| == |rows|
  {
    seq(|rows|, i requires 0 <= i < |rows| => (rows[i], replies(i)))
  }

  predicate Updated(t: (Row, PatchReply)) {
    t.1.Patched?
  }

  predicate NotUpdated(t: (Row, PatchReply)) {
    t.1.PatchFailed?
  }

  /** A successful row is logged as it was read. */
  function AsRead(t: (Row, PatchReply)): Row {
    t.0
  }

  /** A failed row is logged with its `error` set to the exception's text. */
  function WithError(t: (Row, PatchReply)): Row {
    match t.1
    case Patched => t.0
    case PatchFailed(e) => Put(t.0, "error", e)
  }

  /** The rows whose update succeeded, in input order. */
  function Successes(rows: seq<Row>, replies: nat -> PatchReply): seq<Row> {
    Map(AsRead, Filter(Updated, Tagged(rows, replies)))
  }

  /** The rows whose update failed, each with its error, in input order. */
  function Failures(rows: seq<Row>, replies: nat -> PatchReply): seq<Row> {
    Map(WithError, Filter(NotUpdated, Tagged(rows, replies)))
  }

  /** A log is written only when it has a row, under the keys of its first row. */
  function LogFile(rows: seq<Row>): (f: Option<CsvFile>)
    ensures f.Some? <==> rows != []
    ensures f.Some? ==> f.value.fieldnames == Keys(rows[0]) && f.value.rows == rows
  {
    if rows == [] then None else Some(CsvFile(Keys(rows[0]), rows))
  }

  /** The row loop and the two log files. */
  method UpdateDescriptions(host: string, customerId: string, libraryId: string, rows: seq<Row>,
                            replies: nat -> PatchReply)
    returns (requests: seq<PatchRequest>, result: RunResult)
    ensures requests == Requests(host, customerId, libraryId, rows, ReadablePrefix(rows))
    ensures result.Aborted? <==> exists i :: 0 <= i < |rows| && !Readable(rows[i])
    ensures result.Finished? ==>
      result.successes == Successes(rows, replies) && result.failures == Failures(rows, replies) &&
      result.successFile == LogFile(result.successes) && result.failureFile == LogFile(result.failures)
  {
    requests := [];
    var successes: seq<Row> := [];
    var failures: seq<Row> := [];
    for i := 0 to |rows|
      invariant i <= ReadablePrefix(rows)
      invariant requests == Requests(host, customerId, libraryId, rows, i)
      invariant successes == Successes(rows[..i], replies)
      invariant failures == Failures(rows[..i], replies)
    {
      var row := rows[i];
      GetKeys(row, "workspace_id");
      GetKeys(row, "description");
      if Get(row, "workspace_id").None? || Get(row, "description").None? {
        return requests, Aborted;
      }
      var workspaceId := Get(row, "workspace_id").value;
      var description := Get(row, "description").value;
      ReadableStep(rows, i);
      RequestsSnoc(host, customerId, libraryId, rows, i);
      requests := requests + [PatchRequest(WorkspaceUrl(host, customerId, libraryId, workspaceId), description)];
      PartitionSnoc(rows, replies, i);
      match replies(i)
      case Patched =>
        successes := successes + [row];
      case PatchFailed(err) =>
        failures := failures + [Put(row, "error", err)];
    }
    assert rows[..|rows|] == rows;
    result := Finished(successes, failures, LogFile(successes), LogFile(failures));
  }

  lemma ReadableStep(rows: seq<Row>, i: nat)
    requires i < |rows| && i <= ReadablePrefix(rows) && Readable(rows[i])
    ensures i + 1 <= ReadablePrefix(rows)
  {
  }

  lemma RequestsSnoc(host: string, customerId: string, libraryId: string, rows: seq<Row>, i: nat)
    requires i < ReadablePrefix(rows)
    ensures Requests(host, customerId, libraryId, rows, i + 1) ==
      Requests(host, customerId, libraryId, rows, i) + [RequestOf(host, customerId, libraryId, rows[i])]
  {
  }

  lemma PartitionSnoc(rows: seq<Row>, replies: nat -> PatchReply, i: nat)
    requires i < |rows|
    ensures Successes(rows[..i + 1], replies) ==
      Successes(rows[..i], replies) + (if replies(i).Patched? then [rows[i]] else [])
    ensures Failures(rows[..i + 1], replies) ==
      Failures(rows[..i], replies) + (if replies(i).Patched? then [] else [Put(rows[i], "error", replies(i).error)])
  {
    var t := (rows[i], replies(i));
    assert Tagged(rows[..i + 1], replies) == Tagged(rows[..i], replies) + [t];
    FilterConcat(Updated, Tagged(rows[..i], replies), [t]);
    FilterConcat(NotUpdated, Tagged(rows[..i], replies), [t]);
    MapConcat(AsRead, Filter(Updated, Tagged(rows[..i], replies)), Filter(Updated, [t]));
    MapConcat(WithError, Filter(NotUpdated, Tagged(rows[..i], replies)), Filter(NotUpdated, [t]));
  }

  /** Every row lands in exactly one of the two logs. */
  lemma PartitionCount(rows: seq<Row>, replies: nat -> PatchReply)
    ensures |Successes(rows, replies)| + |Failures(rows, replies)| == |rows|
  {
    FilterComplement(Updated, NotUpdated, Tagged(rows, replies));
  }

  /** `x` is an input row, as read, whose update succeeded. */
  predicate SuccessOf(rows: seq<Row>, replies: nat -> PatchReply, x: Row) {
    exists i :: 0 <= i < |rows| && replies(i).Patched? && x == rows[i]
  }

  /** `x` is an input row whose update failed, with `error` set to the exception's text. */
  predicate FailureOf(rows: seq<Row>, replies: nat -> PatchReply, x: Row) {
    exists i :: 0 <= i < |rows| && replies(i).PatchFailed? &&
                x == Put(rows[i], "error", replies(i).error) && Get(x, "error") == Some(replies(i).error)
  }

  /** Each logged success is an input row, unchanged, whose update succeeded. */
  lemma SuccessesAreRows(rows: seq<Row>, replies: nat -> PatchReply)
    ensures forall j :: 0 <= j < |Successes(rows, replies)| ==> SuccessOf(rows, replies, Successes(rows, replies)[j])
  {
    var t := Tagged(rows, replies);
    var kept := Filter(Updated, t);
    forall j | 0 <= j < |Successes(rows, replies)|
      ensures SuccessOf(rows, replies, Successes(rows, replies)[j])
    {
      FilterElem(Updated, t, j);
      var i :| 0 <= i < |t| && t[i] == kept[j];
      assert Successes(rows, replies)[j] == AsRead(kept[j]) == rows[i];
    }
  }

  /** Each logged failure is an input row whose update failed, with `error` holding the
      exception's text and every other column as read. */
  lemma FailuresCarryError(rows: seq<Row>, replies: nat -> PatchReply)
    ensures forall j :: 0 <= j < |Failures(rows, replies)| ==> FailureOf(rows, replies, Failures(rows, replies)[j])
  {
    var t := Tagged(rows, replies);
    var kept := Filter(NotUpdated, t);
    forall j | 0 <= j < |Failures(rows, replies)|
      ensures FailureOf(rows, replies, Failures(rows, replies)[j])
    {
      FilterElem(NotUpdated, t, j);
      var i :| 0 <= i < |t| && t[i] == kept[j];
      assert Failures(rows, replies)[j] == WithError(kept[j]) == Put(rows[i], "error", replies(i).error);
      PutGet(rows[i], "error", replies(i).error, "error");
    }
  }

  /** A successful update puts nothing in the failure log, and a failed one nothing in the
      success log. */
  lemma AllUpdated(rows: seq<Row>, replies: nat -> PatchReply)
    requires forall i :: 0 <= i < |rows| ==> replies(i).Patched?
    ensures Successes(rows, replies) == rows && Failures(rows, replies) == []
  {
    var t := Tagged(rows, replies);
    FilterAll(Updated, t);
    FilterNone(NotUpdated, t);
    assert Successes(rows, replies) == Map(AsRead, t);
  }
}
