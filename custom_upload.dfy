/** The uploader object of the bulk custom-record upload: its settings, the token and headers
    that authentication sets, the reader of the pipe-delimited file, and the upload loop. */
module CustomUpload {
  import opened Wrappers
  import opened Seqs
  import opened Text
  import opened Dicts
  import opened JsonValues
  import opened CustomRecords

  /** What the token request gave: an exception, a status other than 200, or a 200 answer
      whose `access_token` member is read (`None` when it is absent). */
  datatype TokenReply = TokenRaised | TokenRefused(code: int) | TokenIssued(accessToken: Option<string>)

  function AuthHeaders(token: string): Dict<string, string> {
    [("Authorization", "Bearer " + token), ("Content-Type", "application/json")]
  }

  class CustomUploader {
    var server: string
    var customerId: string
    var libraryId: string
    var customTable: string
    var inputFilePath: string
    var accessToken: Option<string>
    var headers: Dict<string, string>

    /** The settings are taken from the configuration; the server loses its trailing slashes,
        and there is no token and no header yet. */
    constructor (server: string, customerId: string, libraryId: string, customTable: string,
                 inputFilePath: string)
      ensures this.server == RStrip(server, '/')
      ensures this.server == [] || this.server[|this.server| - 1] != '/'
      ensures this.customerId == customerId && this.libraryId == libraryId
      ensures this.customTable == customTable && this.inputFilePath == inputFilePath
      ensures accessToken == None && headers == []
    {
      this.server := RStrip(server, '/');
      this.customerId := customerId;
      this.libraryId := libraryId;
      this.customTable := customTable;
      this.inputFilePath := inputFilePath;
      accessToken := None;
      headers := [];
    }

    /** Authentication succeeds exactly when a 200 answer carries a non-empty token; the token
        read is kept even when it is empty, and only a success sets the headers. */
    method Authenticate(reply: TokenReply) returns (ok: bool)
      modifies this
      ensures ok <==> reply.TokenIssued? && reply.accessToken.Some? && reply.accessToken.value != ""
      ensures accessToken == if reply.TokenIssued? then reply.accessToken else old(accessToken)
      ensures headers == if ok then AuthHeaders(reply.accessToken.value) else old(headers)
      ensures server == old(server) && customerId == old(customerId) && libraryId == old(libraryId)
      ensures customTable == old(customTable) && inputFilePath == old(inputFilePath)
    {
      match reply
      case TokenRaised =>
        ok := false;
      case TokenRefused(_) =>
        ok := false;
      case TokenIssued(token) =>
        accessToken := token;
        if accessToken.Some? && accessToken.value != "" {
          headers := AuthHeaders(accessToken.value);
          ok := true;
        } else {
          ok := false;
        }
    }

    /** The endpoint of the custom table. */
    function RecordUrl(): string
      reads this
    {
      server + "/work/api/v2/customers/" + customerId + "/libraries/" + libraryId + "/customs/" +
      customTable
    }

    /** Reads the file: `None` when the path check fails, when there is no header, or when a
        row raises; otherwise the cleaned rows with content, numbered from 2 in the order the reader yields
        rows. */
    method ReadPipeDelimitedFile(pathValid: bool, fieldnames: Option<seq<string>>, rows: seq<RawRow>)
      returns (records: Option<seq<Record>>)
      ensures records ==
        if pathValid && fieldnames.Some? && fieldnames.value != [] then ReadRows(rows, FirstDataRow)
        else None
    {
      if !pathValid {
        return None;
      }
      if fieldnames.None? || fieldnames.value == [] {
        return None;
      }
      var recs: seq<Record> := [];
      ghost var cleaned: seq<Record> := [];
      var rowNum := FirstDataRow;
      var i := 0;
      while i < |rows|
        invariant 0 <= i <= |rows| && rowNum == FirstDataRow + i
        invariant |cleaned| == i
        invariant forall k :: 0 <= k < i ==> CleanRow(rows[k]) == Some(cleaned[k])
        invariant recs == KeepNumbered(cleaned, FirstDataRow)
      {
        var outcome := CleanOneRow(rows[i]);
        if outcome.None? {
          CleanAllNone(rows, i);
          return None;
        }
        var cleanRow := outcome.value;
        CleanedSnoc(rows, cleaned, cleanRow, FirstDataRow);
        if HasContent(cleanRow) {
          recs := recs + [Numbered(cleanRow, rowNum)];
        }
        cleaned := cleaned + [cleanRow];
        i := i + 1;
        rowNum := rowNum + 1;
      }
      CleanAllOf(rows, cleaned);
      records := Some(recs);
    }

    /** The inner loop of the reading: cleans one row pair by pair, `None` when a cell raises. */
    static method CleanOneRow(row: RawRow) returns (cleanRow: Option<Record>)
      ensures cleanRow == CleanRow(row)
    {
      var acc: Record := [];
      var j := 0;
      while j < |row|
        invariant 0 <= j <= |row|
        invariant CleanFrom(acc, row[j..]) == CleanRow(row)
      {
        var (key, value) := row[j];
        assert row[j..][1..] == row[j + 1..];
        if Raises(value) {
          return None;
        }
        var cleanKey := CleanKey(key, |acc|);
        var cleanValue := CleanValue(value);
        acc := Put(acc, cleanKey, Str(cleanValue));
        j := j + 1;
      }
      assert row[j..] == [];
      cleanRow := Some(acc);
    }

    /** One create request: the endpoint it posts to and the result it records. */
    method CreateCustomRecord(record: Record, reply: Reply) returns (url: string, result: UploadResult)
      ensures url == RecordUrl()
      ensures result == Outcome(record, reply)
    {
      url := server + "/work/api/v2/customers/" + customerId + "/libraries/" + libraryId +
        "/customs/" + customTable;
      result := Outcome(record, reply);
    }

    /** Reads the records and creates each in turn, the i-th getting `replies(i)`: `None` when
        there is nothing to upload, otherwise one result per record in order, with the tallies
        of successes and failures. */
    method ProcessBulkUpload(pathValid: bool, fieldnames: Option<seq<string>>, rows: seq<RawRow>,
                             replies: nat -> Reply)
      returns (results: Option<seq<UploadResult>>, successCount: nat, failureCount: nat)
      ensures var records := if pathValid && fieldnames.Some? && fieldnames.value != []
                             then ReadRows(rows, FirstDataRow) else None;
        if records.None? || records.value == [] then results == None
        else results == Some(Outcomes(records.value, replies))
      ensures results.Some? ==> successCount == |Filter(Succeeded, results.value)|
      ensures results.Some? ==> failureCount == |Filter(Unsucceeded, results.value)|
      ensures results.Some? ==> successCount + failureCount == |results.value|
    {
      var records := ReadPipeDelimitedFile(pathValid, fieldnames, rows);
      successCount, failureCount := 0, 0;
      if records.None? || records.value == [] {
        return None, successCount, failureCount;
      }
      var recs := records.value;
      var done: seq<UploadResult> := [];
      for i := 0 to |recs|
        invariant done == Outcomes(recs[..i], replies)
        invariant successCount == |Filter(Succeeded, done)|
        invariant failureCount == |Filter(Unsucceeded, done)|
      {
        var _, result := CreateCustomRecord(recs[i], replies(i));
        TallyStep(done, result);
        OutcomesSnoc(recs, replies, i);
        done := done + [result];
        if result.status.Success? {
          successCount := successCount + 1;
        } else {
          failureCount := failureCount + 1;
        }
      }
      assert recs[..|recs|] == recs;
      FilterComplement(Succeeded, Unsucceeded, done);
      results := Some(done);
    }
  }
}
