/**
 * The word-count service (cf-word-count/main.py): reads one text object and
 * answers with the number of whitespace-separated words in it, the length of
 * Python's `str.split()` with no argument.
 */
module WordCount {
  import opened Json
  import opened Http
  import Runs

  /** The characters `str.isspace()` accepts, which `str.split()` treats as
      separators: the ASCII controls TAB to CR, the four information
      separators, SPACE, NEL, NO-BREAK SPACE, OGHAM SPACE MARK, the spaces
      U+2000 to U+200A, the line and paragraph separators, NARROW NO-BREAK
      SPACE, MEDIUM MATHEMATICAL SPACE and IDEOGRAPHIC SPACE. */
  predicate IsSpace(c: char) {
    var n := c as int;
    || 0x09 <= n <= 0x0D
    || 0x1C <= n <= 0x20
    || n == 0x85 || n == 0xA0 || n == 0x1680
    || 0x2000 <= n <= 0x200A
    || n == 0x2028 || n == 0x2029 || n == 0x202F || n == 0x205F || n == 0x3000
  }

  /** A character that belongs to a word. */
  predicate InWord(c: char) {
    !IsSpace(c)
  }

  /** `contents.split()`: the maximal runs of non-whitespace, in order. */
  function Words(contents: string): seq<string> {
    Runs.Runs(contents, InWord)
  }

  /** `len(contents.split())`. */
  function TotalWords(contents: string): nat {
    |Words(contents)|
  }

  /** The reply body `{'total_words': total_words}`. */
  function Summary(contents: string): Value {
    Single("total_words", Num(TotalWords(contents)))
  }

  /** `count_words`: the shared request check, one read of the named object,
      then 200 with the word count, or 500 with the read's error message. */
  function CountWords(request: Request, fetch: ObjectRef -> Download): (run: Run)
    ensures Locate(request).Rejected? ==> run == Run([], Locate(request).reply)
    ensures Locate(request).Read? ==>
      var ref := Locate(request).ref;
      && run.fetches == [ref]
      && (fetch(ref).Text? ==> run.reply == Reply(200, Single("total_words", Num(TotalWords(fetch(ref).contents)))))
      && (fetch(ref).Raised? ==> run.reply == ErrorReply(500, fetch(ref).message))
  {
    Serve(request, fetch, Summary)
  }

  /** The words are exactly the pieces of the text between whitespace: the
      text is the words interleaved with whitespace gaps, the inner gaps
      non-empty and the words non-empty and free of whitespace. Any such
      decomposition has exactly `TotalWords` words. */
  lemma {:induction false} WordsSplitText(contents: string)
    ensures Runs.IsSplit(contents, InWord, Runs.Gaps(contents, InWord), Words(contents))
  {
    Runs.SplitExists(contents, InWord);
  }

  lemma {:induction false} CountIsAnySplit(contents: string, gaps: seq<string>, words: seq<string>)
    requires Runs.IsSplit(contents, InWord, gaps, words)
    ensures TotalWords(contents) == |words|
  {
    Runs.SplitUnique(contents, InWord, gaps, words);
  }

  /** No words exactly when the text is empty or all whitespace. */
  lemma {:induction false} NoWordsIffBlank(contents: string)
    ensures TotalWords(contents) == 0 <==> forall i :: 0 <= i < |contents| ==> IsSpace(contents[i])
  {
    Runs.RunsEmptyIff(contents, InWord);
  }

  /** Words need a separator between them: at most half the text, rounded up. */
  lemma {:induction false} CountBound(contents: string)
    ensures 2 * TotalWords(contents) <= |contents| + 1
    ensures TotalWords(contents) <= |contents|
  {
    Runs.RunsBound(contents, InWord);
  }

  /** Leading and trailing whitespace do not change the count. */
  lemma {:induction false} CountIgnoresPadding(left: string, contents: string, right: string)
    requires forall i :: 0 <= i < |left| ==> IsSpace(left[i])
    requires forall i :: 0 <= i < |right| ==> IsSpace(right[i])
    ensures TotalWords(left + contents + right) == TotalWords(contents)
  {
    Runs.RunsPadRight(left + contents, right, InWord);
    Runs.RunsPadLeft(left, contents, InWord);
  }
}
