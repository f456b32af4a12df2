/**
 * What the HTTP Cloud Functions share: the reply they produce, the storage
 * object a request names, what reading that object did, and the request
 * check that `count_words` and `get_top_10_words` both perform before they
 * read anything (cf-word-count/main.py:14-22, cf-top-10-words/main.py:16-24).
 */
module Http {
  import opened Wrappers
  import opened Json

  /** A handler that returns a dict answers 200 with it, one that returns
      `(dict, code)` answers `code`, and an exception that escapes the
      handler makes the framework answer its own 500 page (`Unhandled`). */
  datatype Reply = Reply(status: nat, body: Value) | Unhandled

  /** `({'error': message}, status)`. */
  function ErrorReply(status: nat, message: string): Reply {
    Reply(status, Single("error", Str(message)))
  }

  /** The storage object a request names: the two request values, handed to
      the storage client as they are. */
  datatype ObjectRef = ObjectRef(bucket: Value, path: Value)

  /** What `storage_client.bucket(b).blob(p).download_as_text()` did: the
      object's text, or an exception carrying its message. */
  datatype Download = Text(contents: string) | Raised(message: string)

  /** One invocation of a storage-reading function: the objects it read, in
      order, and its reply. */
  datatype Run = Run(fetches: seq<ObjectRef>, reply: Reply)

  /** The outcome of the request check: the object to read, or the reply that
      ends the invocation before any read. */
  datatype Target = Read(ref: ObjectRef) | Rejected(reply: Reply)

  /** The request body `request.get_json(silent=True)` produced: `None` when
      the body is absent or not JSON. */
  type Request = Option<Value>

  /** The body is missing, not JSON, or a falsy JSON value. */
  predicate IsInvalidJson(request: Request) {
    request.None? || !Truthy(request.value)
  }

  /** The check that precedes every read: a falsy body is rejected with 400
      "Invalid JSON"; a truthy body that is not an object has no `.get`, and
      the AttributeError escapes; an object whose `bucket_name` or `file_path`
      is absent or falsy is rejected with 400; otherwise both values name the
      object to read. */
  function Locate(request: Request): (t: Target)
    ensures IsInvalidJson(request) ==> t == Rejected(ErrorReply(400, "Invalid JSON"))
    ensures !IsInvalidJson(request) && !request.value.Obj? ==> t == Rejected(Unhandled)
    ensures !IsInvalidJson(request) && request.value.Obj? ==>
      var bucket := Get(request.value.members, "bucket_name");
      var path := Get(request.value.members, "file_path");
      if Truthy(bucket) && Truthy(path) then t == Read(ObjectRef(bucket, path))
      else t == Rejected(ErrorReply(400, "Missing bucket_name or file_path"))
    ensures t.Read? ==> Truthy(t.ref.bucket) && Truthy(t.ref.path)
  {
    if IsInvalidJson(request) then Rejected(ErrorReply(400, "Invalid JSON"))
    else match request.value
      case Obj(members) =>
        var bucket := Get(members, "bucket_name");
        var path := Get(members, "file_path");
        if !Truthy(bucket) || !Truthy(path) then
          Rejected(ErrorReply(400, "Missing bucket_name or file_path"))
        else
          Read(ObjectRef(bucket, path))
      case _ => Rejected(Unhandled)
  }

  /** Runs a storage-reading function: reject, or read the named object once
      and answer with `analyse` applied to its text; a failed read answers
      `({'error': message}, 500)`. */
  function Serve(request: Request, fetch: ObjectRef -> Download, analyse: string -> Value): (run: Run)
    ensures Locate(request).Rejected? ==> run == Run([], Locate(request).reply)
    ensures Locate(request).Read? ==>
      var ref := Locate(request).ref;
      && run.fetches == [ref]
      && run.reply == match fetch(ref)
        case Text(contents) => Reply(200, analyse(contents))
        case Raised(message) => ErrorReply(500, message)
  {
    match Locate(request)
    case Rejected(reply) => Run([], reply)
    case Read(ref) =>
      var reply := match fetch(ref)
        case Text(contents) => Reply(200, analyse(contents))
        case Raised(message) => ErrorReply(500, message);
      Run([ref], reply)
  }
}
