/**
 * The upload trigger (cf-gcs-trigger/main.py): on a storage upload event it
 * starts one execution of the file-processing workflow, passing the object's
 * name and bucket as a JSON argument, unless the name is empty or marks a
 * directory.
 */
module GcsTrigger {
  import opened Wrappers
  import opened Json
  import JsonText
  import JsonParse
  import JsonRoundTrip

  /** The region and the name of the workflow the trigger starts. */
  const Location: string := "us-central1"
  const WorkflowName: string := "file-processing-workflow"

  /** The event payload: the object's attributes by name. */
  type Event = map<string, string>

  /** One `execute_workflow` call: the workflow, named by region and name,
      and the argument text. */
  datatype StartCall = StartCall(location: string, workflow: string, argument: string)

  /** What the workflow service did with a start request. */
  datatype StartResponse = Started(execution: string) | StartFailed(message: string)

  /** How an invocation ended: it returned, or an exception escaped it. */
  datatype Ending = Returned | KeyMissing(key: string) | StartError(message: string)

  /** One invocation: the start calls it made, in order, and how it ended. */
  datatype Trigger = Trigger(starts: seq<StartCall>, ending: Ending)

  /** An empty name, or one ending in `/`, which names a directory marker. */
  predicate IsSkipped(name: string) {
    name == [] || name[|name| - 1] == '/'
  }

  /** The workflow's input, `{"file_path": name, "bucket_name": bucket}`. */
  function Argument(bucket: string, name: string): Value {
    Obj([Member("file_path", Str(name)), Member("bucket_name", Str(bucket))])
  }

  /** The start call for an object. */
  function StartFor(bucket: string, name: string): StartCall {
    StartCall(Location, WorkflowName, JsonText.Dumps(Argument(bucket, name)))
  }

  /** `trigger_workflow`: `event['bucket']` then `event['name']` raise KeyError
      when absent; a skipped name returns without a call; otherwise exactly
      one start call, whose failure is re-raised. At most one start is ever
      made, and one is made exactly when both keys are present and the name
      is not skipped. */
  function TriggerWorkflow(event: Event, start: StartCall -> StartResponse): (t: Trigger)
    ensures "bucket" !in event ==> t == Trigger([], KeyMissing("bucket"))
    ensures "bucket" in event && "name" !in event ==> t == Trigger([], KeyMissing("name"))
    ensures "bucket" in event && "name" in event && IsSkipped(event["name"]) ==> t == Trigger([], Returned)
    ensures "bucket" in event && "name" in event && !IsSkipped(event["name"]) ==>
      var call := StartFor(event["bucket"], event["name"]);
      && t.starts == [call]
      && (start(call).Started? ==> t.ending == Returned)
      && (start(call).StartFailed? ==> t.ending == StartError(start(call).message))
    ensures |t.starts| <= 1
    ensures |t.starts| == 1 <==> "bucket" in event && "name" in event && !IsSkipped(event["name"])
  {
    if "bucket" !in event then Trigger([], KeyMissing("bucket"))
    else if "name" !in event then Trigger([], KeyMissing("name"))
    else
      var bucket, name := event["bucket"], event["name"];
      if IsSkipped(name) then Trigger([], Returned)
      else
        var call := StartFor(bucket, name);
        match start(call)
        case Started(_) => Trigger([call], Returned)
        case StartFailed(message) => Trigger([call], StartError(message))
  }

  /** The workflow reads back exactly what the trigger meant: the argument
      text decodes to an object with the two members `file_path` and
      `bucket_name`, holding the name and the bucket. */
  lemma {:induction false} ArgumentDecodes(bucket: string, name: string)
    ensures JsonParse.Parse(StartFor(bucket, name).argument) == Some(Argument(bucket, name))
    ensures Get(Argument(bucket, name).members, "file_path") == Str(name)
    ensures Get(Argument(bucket, name).members, "bucket_name") == Str(bucket)
    ensures forall i :: 0 <= i < |Argument(bucket, name).members| ==>
      Argument(bucket, name).members[i].key in {"file_path", "bucket_name"}
  {
    JsonRoundTrip.RoundTrip(Argument(bucket, name));
  }
}
