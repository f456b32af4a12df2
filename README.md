# File-processing pipeline: a Dafny model

The pipeline reacts to text files uploaded to a storage bucket. Four Cloud
Functions do its work:

- **the upload trigger** (`trigger_workflow`) skips directory markers and
  empty names. For any other object it starts one execution of the
  file-processing workflow, passing `{"file_path", "bucket_name"}` as JSON text;
- **the word-count service** (`count_words`) reads the object and answers
  `{"total_words": n}`, where `n` is the number of whitespace-separated words;
- **the top-10 service** (`get_top_10_words`) reads the object, lower-cases it,
  extracts the `\w+` words, counts them and answers the ten most common as
  `{"word", "count"}` records;
- **the loader** (`insert_data_to_bigquery`) checks the merged results,
  builds one row and appends it to the results table. It answers with the
  outcome of the insert.

The model states each function's logic over values. Everything the functions
do through cloud clients becomes an input or an output:

- a storage read is a function `fetch` from the object named to its text or
  to the error it raised;
- the warehouse insert and the workflow start are returned as the calls
  issued, and what those services answered is an input.

Each handler returns the calls it made together with its reply or ending.
Requests are JSON values as `request.get_json(silent=True)` produces them.

Shared pieces:

- `Runs` is one maximal-runs tokenizer. It is both `str.split()` (runs of
  non-whitespace) and `re.findall(r'\b\w+\b', ...)` (runs of word
  characters). It is characterised as the unique way of cutting the text
  into alternating gaps and runs.
- `Frequency` is `collections.Counter` and its `most_common(n)`. `IsTopOf`
  defines the top-`n` list independently of how it is computed, and
  `TopUnique` shows that this definition determines the list.
- `JsonText` is `json.dumps` with Python's defaults. It is proved against a
  JSON decoder (`JsonParse`) by a round-trip lemma. This covers the workflow
  argument and the loader's `top_10_words` column.
- `Pipeline` connects the services. It also works through the scenario of
  the object `gs://b/a.txt` holding "the cat sat on the mat the cat ran".

Two facts about the code are worth stating plainly:

- The loader appends with `insert_rows` (cf-insert-bigquery/main.py:63).
  It performs no keyed upsert, so triggering twice for the same object
  inserts two rows, and the model promises no idempotence.
- The loader's field check mixes two kinds of test
  (cf-insert-bigquery/main.py:32). It rejects a falsy `filename`, `bucket`
  or `upload_date`, which includes an empty string. It rejects
  `size_bytes`, `total_words` and `top_10_words` only when absent or null,
  so 0 and an empty list pass.

## Model

| member | source | states |
|---|---|---|
| Json.GetLast | cf-word-count/main.py:18-19 | `dict.get`: null when no member has the key; otherwise the value of the last member with that key (a decoded object keeps the last duplicate) |
| Http.Locate | cf-word-count/main.py:14-22 | an absent, non-JSON or falsy body is rejected with 400 "Invalid JSON"; a truthy non-object body makes `.get` raise outside the `try` (unhandled); a falsy or absent `bucket_name` or `file_path` is rejected with 400 "Missing bucket_name or file_path"; otherwise the object to read is named by both values unchanged, both truthy |
| Http.Serve | cf-word-count/main.py:26-40 | a rejected request reads nothing and gets the rejection; an accepted one reads exactly the named object once and answers 200 with the analysis of its text, or 500 with the read's error message |
| WordCount.CountWords | cf-word-count/main.py:9-40 | `count_words`: the request check, nothing read on rejection, one read, then `{'total_words': n}` with 200, or `{'error': msg}` with 500 |
| WordCount.WordsSplitText | cf-word-count/main.py:32 | the words of `contents.split()` interleaved with whitespace gaps rebuild the text; every word is non-empty and whitespace-free; every gap is whitespace; the inner gaps are non-empty |
| WordCount.CountIsAnySplit | cf-word-count/main.py:32-33 | any such cutting of the text into words and gaps has exactly `total_words` words: the count is the number of maximal non-whitespace runs |
| WordCount.NoWordsIffBlank | cf-word-count/main.py:32-33 | `total_words` is 0 exactly when the text is empty or all whitespace |
| WordCount.CountBound | cf-word-count/main.py:33 | `2 * total_words <= len(contents) + 1`, so `0 <= total_words <= len(contents)` |
| WordCount.CountIgnoresPadding | cf-word-count/main.py:32 | leading and trailing whitespace do not change the count |
| Runs.SplitExists | cf-word-count/main.py:32 | the runs and gaps of any text are a decomposition of it: they rebuild the text, the runs are non-empty and in the class, and the gaps are outside the class and non-empty between runs |
| Runs.SplitUnique | cf-top-10-words/main.py:35 | any decomposition into runs and gaps is the one `Runs` and `Gaps` compute |
| Runs.RunsEmptyIff | cf-word-count/main.py:32 | a text has no runs exactly when none of its characters is in the class |
| Runs.RunsBound | cf-word-count/main.py:33 | runs are separated, so a text of length L has at most (L + 1) / 2 of them |
| Runs.RunsPadLeft | cf-word-count/main.py:32 | prepending gap characters leaves the runs unchanged |
| Runs.RunsPadRight | cf-word-count/main.py:32 | appending gap characters leaves the runs unchanged |
| Runs.RunsInherit | cf-top-10-words/main.py:35 | every character of every run is a character of the text, so any property of all the text's characters holds in every run |
| Runs.RunsJoinWith | cf-word-count/main.py:32 | splitting undoes joining: non-empty runs joined by one gap character are the runs of the joined text |
| TopWords.GetTop10Words | cf-top-10-words/main.py:11-51 | `get_top_10_words`: the same request check with nothing read on rejection, one read, then 200 with `{'top_10_words': records of most_common(10)}`, or 500 with the read's error message |
| TopWords.TokensSplitText | cf-top-10-words/main.py:35 | every token is a non-empty maximal run of word characters of the lower-cased text, and the tokens appear in text order, separated by non-word gaps |
| TopWords.TokensLowerCase | cf-top-10-words/main.py:35 | every token character is a word character and none is upper case |
| TopWords.LowerUnchanged | cf-top-10-words/main.py:35 | text without upper-case letters is its own lower-cased form |
| TopWords.LowerIdempotent | cf-top-10-words/main.py:35 | lower-casing twice is lower-casing once |
| TopWords.Top10CaseInsensitive | cf-top-10-words/main.py:35-41 | a text and its lower-cased form have the same top ten |
| Frequency.TallyCorrect | cf-top-10-words/main.py:38 | `Counter(words)` holds one entry for each distinct word and no other. Each entry's count is that word's number of occurrences, and entries are in order of first occurrence |
| Frequency.TallyTotal | cf-top-10-words/main.py:38 | the counts add up to the number of words |
| Frequency.TallySize | cf-top-10-words/main.py:38 | the counter has one entry per distinct word |
| Frequency.TallyAppendNew | cf-top-10-words/main.py:38 | counting one more word not seen before appends an entry with count 1 |
| Frequency.TallyAppendKnown | cf-top-10-words/main.py:38 | counting one more word already seen increments its entry in place and changes nothing else |
| Frequency.InsertByCount | cf-top-10-words/main.py:41 | inserting into the sorted list adds exactly that entry (multiset) |
| Frequency.SortByCount | cf-top-10-words/main.py:41 | the sort is a permutation of the counter (multiset equality) |
| Frequency.SortOrdered | cf-top-10-words/main.py:41 | the sort is stable: entries come out by descending count, and equal counts keep their input order |
| Frequency.SortOrderedList | cf-top-10-words/main.py:41 | a list already ordered by descending count is left as it is |
| Frequency.MostCommonCorrect | cf-top-10-words/main.py:38-41 | `Counter(ws).most_common(n)` meets `IsTopOf`: it has `min(n, distinct words)` entries; each is a word of `ws` with its number of occurrences; they are ordered by count non-increasing, equal counts by first occurrence; every word left out is beaten, tie-break included, by every word listed |
| Frequency.TopUnique | cf-top-10-words/main.py:41 | two lists that both meet `IsTopOf` are equal, so the definition fixes `most_common(n)` completely, tie order included |
| Frequency.TopDistinct | cf-top-10-words/main.py:38-41 | no word is listed twice in a top-`n` list |
| Frequency.MostCommonOfOrdered | cf-top-10-words/main.py:41 | when the counter is already in descending count order and has at most `n` entries, `most_common(n)` is the whole counter |
| TopWords.Top10Correct | cf-top-10-words/main.py:35-41 | the reply's list is the top-10 list of the tokens: at most 10 distinct words, each count the word's number of occurrences (so at least 1), by count non-increasing with ties in first-occurrence order, and no token left out has a larger count than any listed |
| TopWords.FormatReadsBack | cf-top-10-words/main.py:44 | every `{'word', 'count'}` record reads back as the entry it was made from, in the same position |
| GcsTrigger.TriggerWorkflow | cf-gcs-trigger/main.py:20-59 | a missing `bucket` key, and then a missing `name` key, raises before anything else. An empty or `/`-terminated name returns with no start. Otherwise exactly one start of `file-processing-workflow` in `us-central1` is issued with the `json.dumps` of `{file_path: name, bucket_name: bucket}`, and its failure is re-raised. At most one start happens, and one happens exactly when both keys are present and the name is not skipped |
| GcsTrigger.ArgumentDecodes | cf-gcs-trigger/main.py:39-42 | the argument text decodes to the object whose only keys are `file_path` and `bucket_name`, holding the name and the bucket |
| JsonRoundTrip.RoundTrip | cf-gcs-trigger/main.py:39-42 | what `json.dumps` writes (ASCII-only escapes, surrogate pairs, ", " and ": " separators) decodes back to the same value |
| JsonRoundTrip.EscapeRoundTrip | cf-insert-bigquery/main.py:43 | a string's escaped body, followed by the closing quote, decodes back to the string and leaves the rest of the text untouched |
| InsertBigQuery.InsertData | cf-insert-bigquery/main.py:19-74 | a falsy body gives 400 "Invalid JSON payload"; a truthy non-object is unhandled; a payload failing the field check gives 400 "Missing required fields in payload" with no insert; otherwise exactly one insert into `file_processing_dataset.file_processing_results` of the one row built from the payload. At most one insert happens, and one happens exactly when the payload is an object passing the check |
| InsertBigQuery.ZeroValuesAccepted | cf-insert-bigquery/main.py:32-33 | `size_bytes = 0`, `total_words = 0` and `top_10_words = []` pass the check (only null is rejected for them); such a payload is inserted with the empty list stored as the text `[]` |
| InsertBigQuery.ColumnValue | cf-insert-bigquery/main.py:42-45 | a list or object `top_10_words` becomes JSON text that decodes back to it; any other value is passed through unchanged |
| InsertBigQuery.Row | cf-insert-bigquery/main.py:50-59 | the row has exactly the six columns, in the source's order |
| InsertBigQuery.RowCarriesFields | cf-insert-bigquery/main.py:50-59 | `filename`, `bucket`, `size_bytes`, `upload_date` and `total_words` hold the payload values unchanged; `top_10_words` holds the serialized or passed-through value |
| InsertBigQuery.InsertReply | cf-insert-bigquery/main.py:65-74 | an empty error list is answered 200 `{'status': 'success'}`. A non-empty list is answered 500 `{'status': 'error', 'errors': errors}`, and an exception 500 `{'error': message}`. The reply is 200 exactly when the error list is empty |
| Pipeline.ArgumentIsValidRequest | cf-gcs-trigger/main.py:39-42 | the trigger's argument, decoded, is a request both counting services accept, and they read exactly the uploaded object (given a non-empty bucket name) |
| Pipeline.ArgumentLocated | cf-gcs-trigger/main.py:20-42 | the trigger's argument decodes to `{file_path: name, bucket_name: bucket}`; the counting services read exactly that object when both are non-empty and reject it with 400 "Missing bucket_name or file_path" otherwise; the trigger does not check the bucket, so an empty one reaches the services |
| Pipeline.PayloadLoaded | cf-insert-bigquery/main.py:24-70 | a payload with the fields the workflow posts passes the loader's check whatever the counts, 0 and an empty list included; exactly one row is inserted; its `top_10_words` column is JSON text that decodes to the records; no row errors means a 200 success reply |
| Pipeline.MergedResultsLoaded | cf-insert-bigquery/main.py:24-70 | the results the two services answer for any text, even an empty one, pass the loader's check; exactly one row is inserted, its `top_10_words` column decodes to the text's top-10 records, and no row errors means success |
| Pipeline.SampleWordCount | cf-word-count/main.py:32-33 | "the cat sat on the mat the cat ran" has 9 words |
| Pipeline.SampleTokens | cf-top-10-words/main.py:35 | its tokens are its nine words in order |
| Pipeline.SampleTally | cf-top-10-words/main.py:38 | its counter is the=3, cat=2, sat=1, on=1, mat=1, ran=1, in order of first occurrence |
| Pipeline.SampleTop10 | cf-top-10-words/main.py:41 | its top ten are those six entries in that order: ties among the words seen once keep first-occurrence order |
| Pipeline.SampleCountReply | cf-word-count/main.py:14-36 | the word-count service reads `gs://b/a.txt` once and answers 200 `{'total_words': 9}` |
| Pipeline.SampleTopReply | cf-top-10-words/main.py:16-47 | the top-10 service reads it once and answers 200 with the six records |

## Left out

- Cloud clients are not modelled. Storage downloads, `insert_rows` and `execute_workflow` are inputs or returned calls. The module-level client construction, `workflow_path` and the `GCP_PROJECT` lookup are left out; the start call carries the region and workflow name instead of the resource path.
- `print` logging is left out. It has no effect on replies.
- An exception's `str(e)` text is an input of the failing call (`Download.Raised`, `InsertFailed`, `StartFailed`). It is not derived from the exception.
- `request.get_json(silent=True)` is modelled by its result: a JSON value, or none when the body is missing or not JSON.
- Flask's answer to an exception that escapes a handler is not modelled. It is represented as `Reply.Unhandled`.
- JSON numbers are integers. Fractions and exponents are neither produced nor decoded, so float payload values are not modelled.
- JSON objects are sequences of members. Lookups follow `dict` semantics: the last duplicate key wins.
- JsonText.Dumps writes every member of an object, including repeated keys. A decoded Python dict holds each key once, at its first position, with the last value, so `json.dumps` of it writes one member per key. Objects with repeated keys, in a request or in `top_10_words` via `InsertBigQuery.ColumnValue`, are serialised with all their members. Lookups with `Get` agree with Python either way.
- Dafny characters are Unicode scalar values, so strings with lone surrogates cannot occur, and the decoder rejects a lone `\ud800`-style escape. `json.loads` would accept one.
- TopWords.IsWordChar: `\w` is restricted to ASCII letters, digits and `_`. Python's Unicode word characters (accented letters, other scripts, other digits) are not modelled.
- TopWords.LowerChar: `str.lower()` is restricted to mapping `A`-`Z`. Unicode case mappings, including those that change the length of a string, are not modelled.
- WordCount.IsSpace is not restricted: it is the full set of characters `str.split()` treats as whitespace.
- `heapq.nlargest` is not modelled step by step. `most_common(n)` is modelled by its documented equivalent, a stable sort by descending count followed by the first `n` entries.
- The `TypeError` fallback to `str(top_10_words_data)` (cf-insert-bigquery/main.py:46-48) is not modelled. `json.dumps` cannot fail on a decoded JSON value, so the fallback is unreachable here.
- The trigger's `context` argument and the event's other attributes are left out, because the code does not read them.
- The workflow that calls the services is not among the source files. How it passes the trigger's argument to the counting services, and how it merges their answers into the loader's payload, are not modelled; `Pipeline.MergedPayload` states that merge as an assumption. The loader appends with `insert_rows` and has no keyed upsert, so no idempotent-write property is modelled.
