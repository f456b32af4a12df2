/**
 * How the services fit together, and the pipeline's worked scenario: the
 * object `gs://b/a.txt` holding "the cat sat on the mat the cat ran".
 *
 * The workflow that carries the trigger's argument to the counting services
 * and their results to the loader is not part of this model; these lemmas
 * state what each service does with what the previous one produced.
 */
module Pipeline {
  import opened Wrappers
  import opened Json
  import opened Http
  import opened Frequency
  import Runs
  import JsonParse
  import JsonRoundTrip
  import WordCount
  import TopWords
  import GcsTrigger
  import InsertBigQuery

  /** The trigger's argument, decoded, is a request the counting services
      check like any other: they read exactly the uploaded object when the
      bucket and the name are both non-empty, and reject it with 400
      otherwise. The trigger itself never checks the bucket name, so an
      empty one reaches the services. */
  lemma {:induction false} ArgumentLocated(bucket: string, name: string)
    ensures var request := JsonParse.Parse(GcsTrigger.StartFor(bucket, name).argument);
      && request == Some(GcsTrigger.Argument(bucket, name))
      && Locate(request) ==
           if bucket != [] && name != [] then Read(ObjectRef(Str(bucket), Str(name)))
           else Rejected(ErrorReply(400, "Missing bucket_name or file_path"))
  {
    GcsTrigger.ArgumentDecodes(bucket, name);
  }

  /** Every object the trigger starts the workflow for is one the counting
      services read, provided its bucket name is not empty. */
  lemma {:induction false} ArgumentIsValidRequest(bucket: string, name: string)
    requires bucket != [] && !GcsTrigger.IsSkipped(name)
    ensures Locate(JsonParse.Parse(GcsTrigger.StartFor(bucket, name).argument)) == Read(ObjectRef(Str(bucket), Str(name)))
  {
    ArgumentLocated(bucket, name);
  }

  /** "the cat sat on the mat the cat ran", written in three pieces. */
  const Sample: string := "the cat sat" + " " + ("on the mat" + " " + "the cat ran")
  const SampleWords: seq<string> := ["the", "cat", "sat", "on", "the", "mat", "the", "cat", "ran"]
  const SampleTop: seq<Freq> :=
    [Freq("the", 3), Freq("cat", 2), Freq("sat", 1), Freq("on", 1), Freq("mat", 1), Freq("ran", 1)]

  lemma {:induction false} SampleIsJoined()
    ensures Sample == Runs.JoinWith(SampleWords, ' ')
  {
    var a, b, c := ["the", "cat", "sat"], ["on", "the", "mat"], ["the", "cat", "ran"];
    assert Runs.JoinWith(a, ' ') == "the cat sat";
    assert Runs.JoinWith(b, ' ') == "on the mat";
    assert Runs.JoinWith(c, ' ') == "the cat ran";
    assert SampleWords == a + (b + c);
    Runs.JoinWithAppend(b, c, ' ');
    Runs.JoinWithAppend(a, b + c, ' ');
  }

  predicate IsLowerLetter(c: char) {
    'a' <= c <= 'z'
  }

  lemma {:induction false} SampleLetters()
    ensures forall i :: 0 <= i < |SampleWords| ==> SampleWords[i] != [] && Runs.All(SampleWords[i], IsLowerLetter)
  {
  }

  /** Words of lower-case letters are words to both tokenizers, and have no
      upper-case letter. */
  lemma {:induction false} LetterWords(ws: seq<string>)
    requires forall i :: 0 <= i < |ws| ==> ws[i] != [] && Runs.All(ws[i], IsLowerLetter)
    ensures forall i :: 0 <= i < |ws| ==> ws[i] != []
    ensures forall i :: 0 <= i < |ws| ==> Runs.All(ws[i], WordCount.InWord)
    ensures forall i :: 0 <= i < |ws| ==> Runs.All(ws[i], TopWords.IsWordChar)
    ensures forall i :: 0 <= i < |ws| ==> Runs.All(ws[i], TopWords.NotUpper)
  {
    forall i, k | 0 <= i < |ws| && 0 <= k < |ws[i]|
      ensures WordCount.InWord(ws[i][k]) && TopWords.IsWordChar(ws[i][k]) && TopWords.NotUpper(ws[i][k])
    {
      assert IsLowerLetter(ws[i][k]);
    }
  }

  /** The sample holds 9 words. */
  lemma {:induction false} SampleWordCount()
    ensures WordCount.TotalWords(Sample) == 9
  {
    SampleIsJoined();
    SampleLetters();
    LetterWords(SampleWords);
    Runs.RunsJoinWith(SampleWords, ' ', WordCount.InWord);
  }

  /** Its tokens are its words, in order. */
  lemma {:induction false} SampleTokens()
    ensures TopWords.Tokens(Sample) == SampleWords
  {
    SampleIsJoined();
    SampleLetters();
    LetterWords(SampleWords);
    Runs.JoinWithAll(SampleWords, ' ', TopWords.NotUpper);
    TopWords.LowerUnchanged(Sample);
    Runs.RunsJoinWith(SampleWords, ' ', TopWords.IsWordChar);
  }

  /** Counting the sample words, three at a time. */
  lemma {:induction false} SampleTally1()
    ensures Tally(["the", "cat", "sat"]) == [Freq("the", 1), Freq("cat", 1), Freq("sat", 1)]
  {
    assert ["the"] == [] + ["the"];
    TallyAppendNew([], "the");
    assert ["the", "cat"] == ["the"] + ["cat"];
    TallyAppendNew(["the"], "cat");
    assert ["the", "cat", "sat"] == ["the", "cat"] + ["sat"];
    TallyAppendNew(["the", "cat"], "sat");
  }

  lemma {:induction false} SampleTally2()
    ensures Tally(["the", "cat", "sat", "on", "the", "mat"]) == [Freq("the", 2), Freq("cat", 1), Freq("sat", 1), Freq("on", 1), Freq("mat", 1)]
  {
    SampleTally1();
    assert ["the", "cat", "sat", "on"] == ["the", "cat", "sat"] + ["on"];
    TallyAppendNew(["the", "cat", "sat"], "on");
    assert ["the", "cat", "sat", "on", "the"] == ["the", "cat", "sat", "on"] + ["the"];
    TallyAppendKnown(["the", "cat", "sat", "on"], "the", 0);
    assert ["the", "cat", "sat", "on", "the", "mat"] == ["the", "cat", "sat", "on", "the"] + ["mat"];
    TallyAppendNew(["the", "cat", "sat", "on", "the"], "mat");
  }

  lemma {:induction false} SampleTally3()
    ensures Tally(["the", "cat", "sat", "on", "the", "mat", "the", "cat", "ran"]) == [Freq("the", 3), Freq("cat", 2), Freq("sat", 1), Freq("on", 1), Freq("mat", 1), Freq("ran", 1)]
  {
    SampleTally2();
    assert ["the", "cat", "sat", "on", "the", "mat", "the"] == ["the", "cat", "sat", "on", "the", "mat"] + ["the"];
    TallyAppendKnown(["the", "cat", "sat", "on", "the", "mat"], "the", 0);
    assert ["the", "cat", "sat", "on", "the", "mat", "the", "cat"] == ["the", "cat", "sat", "on", "the", "mat", "the"] + ["cat"];
    TallyAppendKnown(["the", "cat", "sat", "on", "the", "mat", "the"], "cat", 1);
    assert ["the", "cat", "sat", "on", "the", "mat", "the", "cat", "ran"] == ["the", "cat", "sat", "on", "the", "mat", "the", "cat"] + ["ran"];
    TallyAppendNew(["the", "cat", "sat", "on", "the", "mat", "the", "cat"], "ran");
  }

  lemma {:induction false} SampleTally()
    ensures Tally(SampleWords) == SampleTop
  {
    SampleTally3();
  }

  /** Its top ten: "the" three times, "cat" twice, then the words seen once
      in order of first occurrence. */
  lemma {:induction false} SampleTop10()
    ensures TopWords.Top10(Sample) == SampleTop
  {
    SampleTokens();
    SampleTally();
    MostCommonOfOrdered(SampleTop, 10);
  }

  /** The counting services' request for the sample object. */
  const SampleRequest: Request :=
    Some(Obj([Member("bucket_name", Str("b")), Member("file_path", Str("a.txt"))]))

  const SampleObject: ObjectRef := ObjectRef(Str("b"), Str("a.txt"))

  lemma {:induction false} SampleLocated()
    ensures Locate(SampleRequest) == Read(SampleObject)
  {
    var ms := SampleRequest.value.members;
    GetAt(ms, 0, "bucket_name");
    GetAt(ms, 1, "file_path");
  }

  /** The word-count service reads `gs://b/a.txt` once and answers 200 with 9. */
  lemma {:induction false} SampleCountReply(fetch: ObjectRef -> Download)
    requires fetch(SampleObject) == Text(Sample)
    ensures WordCount.CountWords(SampleRequest, fetch) ==
      Run([SampleObject], Reply(200, Single("total_words", Num(9))))
  {
    SampleLocated();
    SampleWordCount();
  }

  /** The top-10 service reads `gs://b/a.txt` once and answers 200 with the six
      records of the sample's top list. */
  lemma {:induction false} SampleTopReply(fetch: ObjectRef -> Download)
    requires fetch(SampleObject) == Text(Sample)
    ensures TopWords.GetTop10Words(SampleRequest, fetch) ==
      Run([SampleObject], Reply(200, Single("top_10_words", Arr(TopWords.Format(SampleTop)))))
  {
    SampleLocated();
    SampleTop10();
  }

  /** The results the workflow posts to the loader for one object: its
      name, bucket, size and upload date, with the word total and the top
      list the two services answered for its text. */
  function MergedPayload(filename: string, bucket: string, sizeBytes: nat, uploadDate: string, total: nat, top: seq<Freq>): Value {
    Obj([
      Member("filename", Str(filename)),
      Member("bucket", Str(bucket)),
      Member("size_bytes", Num(sizeBytes)),
      Member("upload_date", Str(uploadDate)),
      Member("total_words", Num(total)),
      Member("top_10_words", Arr(TopWords.Format(top)))])
  }

  /** The loader accepts results of the shape the counting services produce,
      whatever their values, including 0 words and an empty list: it inserts
      one row whose `top_10_words` column is JSON text that decodes to the
      records, and answers success when the warehouse reports no row errors. */
  lemma {:induction false} PayloadLoaded(
    filename: string, bucket: string, sizeBytes: nat, uploadDate: string, total: nat, top: seq<Freq>,
    insert: InsertBigQuery.InsertCall -> InsertBigQuery.InsertResponse)
    requires filename != [] && bucket != [] && uploadDate != []
    requires forall call :: insert(call) == InsertBigQuery.RowErrors([])
    ensures var run := InsertBigQuery.InsertData(Some(MergedPayload(filename, bucket, sizeBytes, uploadDate, total, top)), insert);
      && |run.inserts| == 1
      && |run.inserts[0].rows| == 1
      && run.inserts[0].rows[0].Obj?
      && var column := Get(run.inserts[0].rows[0].members, "top_10_words");
      && column.Str?
      && JsonParse.Parse(column.s) == Some(Arr(TopWords.Format(top)))
      && run.reply == Reply(200, Single("status", Str("success")))
  {
    var f := InsertBigQuery.Fields(Str(filename), Str(bucket), Num(sizeBytes), Str(uploadDate), Num(total), Arr(TopWords.Format(top)));
    var payload := MergedPayload(filename, bucket, sizeBytes, uploadDate, total, top);
    var call := InsertBigQuery.InsertCall(InsertBigQuery.DatasetId, InsertBigQuery.TableId, [InsertBigQuery.Row(f)]);
    assert InsertBigQuery.InsertData(Some(payload), insert) ==
      InsertBigQuery.Insertion([call], Reply(200, Single("status", Str("success"))))
    by {
      assert InsertBigQuery.Extract(payload.members) == f by {
        InsertBigQuery.ExtractColumns(f);
      }
      assert InsertBigQuery.IsComplete(f);
      assert insert(call) == InsertBigQuery.RowErrors([]);
    }
    assert Get(InsertBigQuery.Row(f).members, "top_10_words") == InsertBigQuery.ColumnValue(f.top10Words) by {
      InsertBigQuery.RowCarriesFields(f);
    }
  }

  /** The loader accepts whatever the counting services answer for a text,
      even an empty one, and stores its top list as JSON text that decodes to
      the records. */
  lemma {:induction false} MergedResultsLoaded(
    filename: string, bucket: string, sizeBytes: nat, uploadDate: string, contents: string,
    insert: InsertBigQuery.InsertCall -> InsertBigQuery.InsertResponse)
    requires filename != [] && bucket != [] && uploadDate != []
    requires forall call :: insert(call) == InsertBigQuery.RowErrors([])
    ensures var run := InsertBigQuery.InsertData(Some(MergedPayload(filename, bucket, sizeBytes, uploadDate,
        WordCount.TotalWords(contents), TopWords.Top10(contents))), insert);
      && |run.inserts| == 1
      && JsonParse.Parse(Get(run.inserts[0].rows[0].members, "top_10_words").s) ==
           Some(Arr(TopWords.Format(TopWords.Top10(contents))))
      && run.reply == Reply(200, Single("status", Str("success")))
  {
    PayloadLoaded(filename, bucket, sizeBytes, uploadDate, WordCount.TotalWords(contents), TopWords.Top10(contents), insert);
  }
}
