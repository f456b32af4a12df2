/**
 * The warehouse loader (cf-insert-bigquery/main.py): checks the processing
 * results posted to it, builds one row from them and appends it to the
 * results table, answering with the outcome of the insert.
 */
module InsertBigQuery {
  import opened Wrappers
  import opened Json
  import opened Http
  import JsonText
  import JsonParse
  import JsonRoundTrip

  /** The dataset and table the row is appended to. */
  const DatasetId: string := "file_processing_dataset"
  const TableId: string := "file_processing_results"

  /** One `insert_rows` call: the table, by dataset and name, and the rows. */
  datatype InsertCall = InsertCall(dataset: string, table: string, rows: seq<Value>)

  /** What the insert did: returned its list of per-row errors, or raised. */
  datatype InsertResponse = RowErrors(errors: seq<Value>) | InsertFailed(message: string)

  /** One invocation: the insert calls it made, in order, and its reply. */
  datatype Insertion = Insertion(inserts: seq<InsertCall>, reply: Reply)

  /** The six payload values, each `request_json.get(...)`. */
  datatype Fields = Fields(
    filename: Value, bucket: Value, sizeBytes: Value,
    uploadDate: Value, totalWords: Value, top10Words: Value)

  function Extract(members: seq<Member>): Fields {
    Fields(
      Get(members, "filename"), Get(members, "bucket"), Get(members, "size_bytes"),
      Get(members, "upload_date"), Get(members, "total_words"), Get(members, "top_10_words"))
  }

  /** The required-field check: the file name, bucket and upload date must
      be truthy, while the size, word count and top-10 list need only be
      present and not null, so 0 and [] are accepted for them. */
  predicate IsComplete(f: Fields) {
    && Truthy(f.filename) && Truthy(f.bucket) && f.sizeBytes != Null
    && Truthy(f.uploadDate) && f.totalWords != Null && f.top10Words != Null
  }

  /** The `top_10_words` column: a list or object becomes its JSON text, and
      any other value is stored as it is. */
  function ColumnValue(top: Value): (v: Value)
    ensures (top.Arr? || top.Obj?) ==> v.Str? && JsonParse.Parse(v.s) == Some(top)
    ensures !(top.Arr? || top.Obj?) ==> v == top
  {
    if top.Arr? || top.Obj? then
      JsonRoundTrip.RoundTrip(top);
      Str(JsonText.Dumps(top))
    else top
  }

  /** The column names of a row, in order. */
  const Columns: seq<string> := ["filename", "bucket", "size_bytes", "upload_date", "total_words", "top_10_words"]

  /** The row literal. */
  function Row(f: Fields): (row: Value)
    ensures row.Obj? && |row.members| == |Columns|
    ensures forall i :: 0 <= i < |Columns| ==> row.members[i].key == Columns[i]
  {
    Obj([
      Member("filename", f.filename),
      Member("bucket", f.bucket),
      Member("size_bytes", f.sizeBytes),
      Member("upload_date", f.uploadDate),
      Member("total_words", f.totalWords),
      Member("top_10_words", ColumnValue(f.top10Words))])
  }

  /** The reply to what the insert returned: an empty error list is success,
      a non-empty one is reported with the errors, and an exception is
      reported with its message. */
  function InsertReply(response: InsertResponse): (reply: Reply)
    ensures reply.Reply? && (reply.status == 200 <==> response == RowErrors([]))
    ensures response.RowErrors? && response.errors != [] ==>
      reply.body.Obj? && Get(reply.body.members, "errors") == Arr(response.errors)
    ensures response == RowErrors([]) ==> reply == Reply(200, Single("status", Str("success")))
    ensures response.RowErrors? && response.errors != [] ==>
      reply == Reply(500, Obj([Member("status", Str("error")), Member("errors", Arr(response.errors))]))
    ensures response.InsertFailed? ==> reply == ErrorReply(500, response.message)
  {
    match response
    case RowErrors(errors) =>
      if errors != [] then
        Reply(500, Obj([Member("status", Str("error")), Member("errors", Arr(errors))]))
      else
        Reply(200, Single("status", Str("success")))
    case InsertFailed(message) => ErrorReply(500, message)
  }

  /** No column name repeats. */
  lemma {:induction false} ColumnsDistinct()
    ensures forall i, k :: 0 <= i < k < |Columns| ==> Columns[i] != Columns[k]
  {
    forall i, k | 0 <= i < k < |Columns| ensures Columns[i] != Columns[k] {
      assert Columns[i][0] != Columns[k][0] || Columns[i][1] != Columns[k][1]
        || Columns[i][2] != Columns[k][2];
    }
  }

  /** A payload with one member per column, in column order, yields exactly
      those values. */
  lemma {:induction false} ExtractColumns(f: Fields)
    ensures Extract([
      Member("filename", f.filename), Member("bucket", f.bucket), Member("size_bytes", f.sizeBytes),
      Member("upload_date", f.uploadDate), Member("total_words", f.totalWords),
      Member("top_10_words", f.top10Words)]) == f
  {
    var ms := [
      Member("filename", f.filename), Member("bucket", f.bucket), Member("size_bytes", f.sizeBytes),
      Member("upload_date", f.uploadDate), Member("total_words", f.totalWords),
      Member("top_10_words", f.top10Words)];
    ColumnsDistinct();
    assert forall k :: 0 <= k < |ms| ==> ms[k].key == Columns[k];
    GetAt(ms, 0, "filename");
    GetAt(ms, 1, "bucket");
    GetAt(ms, 2, "size_bytes");
    GetAt(ms, 3, "upload_date");
    GetAt(ms, 4, "total_words");
    GetAt(ms, 5, "top_10_words");
  }

  /** Each column holds its payload value unchanged, except that a list or
      object `top_10_words` is stored as its JSON text. */
  lemma {:induction false} RowCarriesFields(f: Fields)
    ensures Get(Row(f).members, "filename") == f.filename
    ensures Get(Row(f).members, "bucket") == f.bucket
    ensures Get(Row(f).members, "size_bytes") == f.sizeBytes
    ensures Get(Row(f).members, "upload_date") == f.uploadDate
    ensures Get(Row(f).members, "total_words") == f.totalWords
    ensures Get(Row(f).members, "top_10_words") == ColumnValue(f.top10Words)
  {
    ExtractColumns(f.(top10Words := ColumnValue(f.top10Words)));
  }

  /** `insert_data_to_bigquery`: a falsy payload is rejected with 400; a
      truthy payload that is not an object has no `.get`, and the error
      escapes; an incomplete one is rejected with 400; otherwise exactly one
      insert of the one row built from the payload, answered as the insert's
      outcome says. A payload reaches the insert exactly when it is an object
      that passes the required-field check. */
  function InsertData(request: Request, insert: InsertCall -> InsertResponse): (run: Insertion)
    ensures IsInvalidJson(request) ==> run == Insertion([], ErrorReply(400, "Invalid JSON payload"))
    ensures !IsInvalidJson(request) && !request.value.Obj? ==> run == Insertion([], Unhandled)
    ensures !IsInvalidJson(request) && request.value.Obj? ==>
      var f := Extract(request.value.members);
      && (!IsComplete(f) ==> run == Insertion([], ErrorReply(400, "Missing required fields in payload")))
      && (IsComplete(f) ==>
            var call := InsertCall(DatasetId, TableId, [Row(f)]);
            run == Insertion([call], InsertReply(insert(call))))
    ensures |run.inserts| <= 1
    ensures |run.inserts| == 1 <==>
      !IsInvalidJson(request) && request.value.Obj? && IsComplete(Extract(request.value.members))
  {
    if IsInvalidJson(request) then Insertion([], ErrorReply(400, "Invalid JSON payload"))
    else if !request.value.Obj? then Insertion([], Unhandled)
    else
      var f := Extract(request.value.members);
      if !IsComplete(f) then Insertion([], ErrorReply(400, "Missing required fields in payload"))
      else
        var call := InsertCall(DatasetId, TableId, [Row(f)]);
        Insertion([call], InsertReply(insert(call)))
  }

  /** Zero counts and an empty top-10 list pass the check: only null is
      rejected for them. Such a payload is inserted, with the empty list
      stored as the text `[]`. */
  lemma {:induction false} ZeroValuesAccepted(members: seq<Member>, insert: InsertCall -> InsertResponse)
    requires Truthy(Get(members, "filename")) && Truthy(Get(members, "bucket")) && Truthy(Get(members, "upload_date"))
    requires Get(members, "size_bytes") == Num(0) && Get(members, "total_words") == Num(0)
    requires Get(members, "top_10_words") == Arr([])
    ensures |InsertData(Some(Obj(members)), insert).inserts| == 1
    ensures Get(InsertData(Some(Obj(members)), insert).inserts[0].rows[0].members, "top_10_words") == Str("[]")
  {
    var f := Extract(members);
    assert IsComplete(f);
    assert members != [] by {
      assert Get([], "filename") == Null;
    }
    assert !IsInvalidJson(Some(Obj(members)));
    assert InsertData(Some(Obj(members)), insert).inserts == [InsertCall(DatasetId, TableId, [Row(f)])];
    assert Get(Row(f).members, "top_10_words") == Str("[]") by {
      RowCarriesFields(f);
      assert ColumnValue(f.top10Words) == Str("[]");
    }
  }
}
