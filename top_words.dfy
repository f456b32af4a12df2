/**
 * The top-10 service (cf-top-10-words/main.py): reads one text object,
 * lower-cases it, extracts the words matched by `\b\w+\b`, counts them and
 * answers with the ten most common as `{'word': ..., 'count': ...}` records.
 *
 * Word characters and case mapping are those of ASCII: letters, digits and
 * the underscore, and `A`-`Z` mapped to `a`-`z`.
 */
module TopWords {
  import opened Wrappers
  import opened Json
  import opened Http
  import opened Frequency
  import Runs

  /** A character `\w` matches. */
  predicate IsWordChar(c: char) {
    'a' <= c <= 'z' || 'A' <= c <= 'Z' || '0' <= c <= '9' || c == '_'
  }

  predicate IsUpper(c: char) {
    'A' <= c <= 'Z'
  }

  predicate NotUpper(c: char) {
    !IsUpper(c)
  }

  /** `str.lower()` on one character. */
  function LowerChar(c: char): (d: char)
    ensures !IsUpper(d)
    ensures IsUpper(c) ==> d as int == c as int + 32
    ensures !IsUpper(c) ==> d == c
  {
    if IsUpper(c) then (c as int + 32) as char else c
  }

  /** `str.lower()`. */
  function Lower(s: string): (r: string)
    ensures |r| == |s|
    ensures forall i :: 0 <= i < |s| ==> r[i] == LowerChar(s[i])
  {
    seq(|s|, i requires 0 <= i < |s| => LowerChar(s[i]))
  }

  /** `re.findall(r'\b\w+\b', contents.lower())`: a match starts where a word
      character follows a non-word character or the start of the text, and
      `\w+` runs greedily to the next non-word character, where `\b` holds;
      the matches are the maximal runs of word characters. */
  function Tokens(contents: string): seq<string> {
    Runs.Runs(Lower(contents), IsWordChar)
  }

  /** `Counter(words).most_common(10)`. */
  function Top10(contents: string): seq<Freq> {
    MostCommon(Tally(Tokens(contents)), 10)
  }

  /** `{'word': word, 'count': count}`. */
  function Record(f: Freq): Value {
    Obj([Member("word", Str(f.word)), Member("count", Num(f.count))])
  }

  /** The list comprehension over `most_common`'s pairs. */
  function Format(top: seq<Freq>): (records: seq<Value>)
    ensures |records| == |top|
    ensures forall i :: 0 <= i < |top| ==> records[i] == Record(top[i])
  {
    seq(|top|, i requires 0 <= i < |top| => Record(top[i]))
  }

  /** The reply body `{'top_10_words': top_10_list}`. */
  function Summary(contents: string): Value {
    Single("top_10_words", Arr(Format(Top10(contents))))
  }

  /** `get_top_10_words`: the shared request check, one read of the named
      object, then 200 with the formatted top ten, or 500 with the read's
      error message. */
  function GetTop10Words(request: Request, fetch: ObjectRef -> Download): (run: Run)
    ensures Locate(request).Rejected? ==> run == Run([], Locate(request).reply)
    ensures Locate(request).Read? ==>
      var ref := Locate(request).ref;
      && run.fetches == [ref]
      && (fetch(ref).Text? ==>
            run.reply == Reply(200, Single("top_10_words", Arr(Format(Top10(fetch(ref).contents))))))
      && (fetch(ref).Raised? ==> run.reply == ErrorReply(500, fetch(ref).message))
  {
    Serve(request, fetch, Summary)
  }

  /** Reading a record back: the entry a `{word, count}` object stands for. */
  function RecordEntry(v: Value): Option<Freq> {
    if !v.Obj? then None
    else
      match (Get(v.members, "word"), Get(v.members, "count"))
      case (Str(w), Num(n)) => if n >= 0 then Some(Freq(w, n)) else None
      case _ => None
  }

  /** Nothing is lost in formatting: each record reads back as the entry it
      was made from, in the same position. */
  lemma {:induction false} FormatReadsBack(top: seq<Freq>)
    ensures forall i :: 0 <= i < |top| ==> RecordEntry(Format(top)[i]) == Some(top[i])
  {
    forall i | 0 <= i < |top| ensures RecordEntry(Format(top)[i]) == Some(top[i]) {
      var ms := [Member("word", Str(top[i].word)), Member("count", Num(top[i].count))];
      assert Get(ms, "word") == Str(top[i].word);
      assert Get(ms, "count") == Num(top[i].count);
    }
  }

  /** The tokens are the lower-cased text cut into alternating gaps of
      non-word characters and runs of word characters: each token is a
      non-empty maximal run of word characters, in text order. */
  lemma {:induction false} TokensSplitText(contents: string)
    ensures Runs.IsSplit(Lower(contents), IsWordChar, Runs.Gaps(Lower(contents), IsWordChar), Tokens(contents))
  {
    Runs.SplitExists(Lower(contents), IsWordChar);
  }

  /** No token holds an upper-case letter. */
  lemma {:induction false} TokensLowerCase(contents: string)
    ensures forall k, i :: 0 <= k < |Tokens(contents)| && 0 <= i < |Tokens(contents)[k]| ==>
      IsWordChar(Tokens(contents)[k][i]) && !IsUpper(Tokens(contents)[k][i])
  {
    var t := Lower(contents);
    Runs.SplitExists(t, IsWordChar);
    Runs.RunsInherit(t, IsWordChar, NotUpper);
  }

  /** Text without upper-case letters is its own lower-cased form. */
  lemma {:induction false} LowerUnchanged(s: string)
    requires Runs.All(s, NotUpper)
    ensures Lower(s) == s
  {
    assert forall i :: 0 <= i < |s| ==> Lower(s)[i] == s[i];
  }

  lemma {:induction false} LowerIdempotent(s: string)
    ensures Lower(Lower(s)) == Lower(s)
  {
    assert forall i :: 0 <= i < |s| ==> Lower(Lower(s))[i] == Lower(s)[i];
  }

  /** Case does not matter: text and its lower-cased form have the same top ten. */
  lemma {:induction false} Top10CaseInsensitive(contents: string)
    ensures Top10(Lower(contents)) == Top10(contents)
  {
    LowerIdempotent(contents);
  }

  /** What the reply lists: `min(10, distinct tokens)` entries; each a token
      with its number of occurrences, so at least 1; by count non-increasing,
      equal counts in order of the word's first occurrence; and no token left
      out beats any token listed. */
  lemma {:induction false} Top10Correct(contents: string)
    ensures IsTopOf(Top10(contents), Tokens(contents), 10)
    ensures Distinct(Words(Top10(contents)))
    ensures forall i :: 0 <= i < |Top10(contents)| ==> Top10(contents)[i].count >= 1
    ensures forall w :: w in Tokens(contents) && w !in Words(Top10(contents)) ==>
      forall i :: 0 <= i < |Top10(contents)| ==> Occurrences(Tokens(contents), w) <= Top10(contents)[i].count
  {
    var ws := Tokens(contents);
    var r := Top10(contents);
    MostCommonCorrect(ws, 10);
    TopDistinct(ws, 10, r);
    forall i | 0 <= i < |r| ensures r[i].count >= 1 {
      assert r[i].word in multiset(ws);
    }
  }
}
