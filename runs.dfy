/**
 * Maximal runs of characters drawn from one character class.
 *
 * Both text analyses of the pipeline are "maximal runs" tokenizers over a
 * different class: `str.split()` yields the maximal runs of non-whitespace
 * characters, and `re.findall(r'\b\w+\b', ...)` yields the maximal runs of
 * word characters. This module defines the tokenizer once, characterises its
 * output as the unique decomposition of the text into alternating gaps and
 * runs, and proves the counting facts both services rely on.
 */
module Runs {

  /** Every character of `s` belongs to the class `p`. */
  predicate All(s: string, p: char -> bool) {
    forall i :: 0 <= i < |s| ==> p(s[i])
  }

  /** No character of `s` belongs to the class `p`. */
  predicate NoneOf(s: string, p: char -> bool) {
    forall i :: 0 <= i < |s| ==> !p(s[i])
  }

  /** Length of the longest prefix of `s` whose characters all belong to `p`. */
  function RunLength(s: string, p: char -> bool): (n: nat)
    ensures n <= |s|
    ensures All(s[..n], p)
    ensures n < |s| ==> !p(s[n])
  {
    if s == [] || !p(s[0]) then 0
    else
      var m := RunLength(s[1..], p);
      assert s[..1 + m] == [s[0]] + s[1..][..m];
      1 + m
  }

  /** The maximal runs of `p`-characters of `s`, in text order. */
  function Runs(s: string, p: char -> bool): (runs: seq<string>)
    decreases |s|
  {
    if s == [] then []
    else if !p(s[0]) then Runs(s[1..], p)
    else
      var n := RunLength(s, p);
      [s[..n]] + Runs(s[n..], p)
  }

  /** The gaps around the runs of `Runs(s, p)`: before the first run, between
      consecutive runs, and after the last one. */
  function Gaps(s: string, p: char -> bool): (gaps: seq<string>)
    ensures |gaps| == |Runs(s, p)| + 1
    decreases |s|
  {
    if s == [] then [[]]
    else if !p(s[0]) then
      var g := Gaps(s[1..], p);
      [[s[0]] + g[0]] + g[1..]
    else
      var n := RunLength(s, p);
      [[]] + Gaps(s[n..], p)
  }

  /** gaps[0] + runs[0] + gaps[1] + runs[1] + ... + gaps[|runs|]. */
  function Join(gaps: seq<string>, runs: seq<string>): string
    requires |gaps| == |runs| + 1
    decreases |runs|
  {
    if runs == [] then gaps[0]
    else gaps[0] + runs[0] + Join(gaps[1..], runs[1..])
  }

  /** `runs` are the maximal `p`-runs of `s` and `gaps` what lies around them:
      the text is the alternation of the two, no gap holds a `p`-character,
      every run is a non-empty block of `p`-characters, and two consecutive
      runs are separated by a non-empty gap. */
  ghost predicate IsSplit(s: string, p: char -> bool, gaps: seq<string>, runs: seq<string>) {
    && |gaps| == |runs| + 1
    && s == Join(gaps, runs)
    && (forall k :: 0 <= k < |gaps| ==> NoneOf(gaps[k], p))
    && (forall k :: 0 < k < |runs| ==> gaps[k] != [])
    && (forall k :: 0 <= k < |runs| ==> runs[k] != [] && All(runs[k], p))
  }

  lemma {:induction false} JoinPrepend(w: string, gaps: seq<string>, runs: seq<string>)
    requires |gaps| == |runs| + 1
    ensures Join([w + gaps[0]] + gaps[1..], runs) == w + Join(gaps, runs)
  {
    var gs := [w + gaps[0]] + gaps[1..];
    assert gs[1..] == gaps[1..];
  }

  lemma {:induction false} JoinAppend(w: string, gaps: seq<string>, runs: seq<string>)
    requires |gaps| == |runs| + 1
    ensures Join(gaps[..|runs|] + [gaps[|runs|] + w], runs) == Join(gaps, runs) + w
    decreases |runs|
  {
    var gs := gaps[..|runs|] + [gaps[|runs|] + w];
    if runs != [] {
      var tail := gaps[1..];
      assert gs[0] == gaps[0];
      assert gs[1..] == tail[..|runs| - 1] + [tail[|runs| - 1] + w];
      calc {
        Join(gs, runs);
        gs[0] + runs[0] + Join(gs[1..], runs[1..]);
        { JoinAppend(w, tail, runs[1..]); }
        gaps[0] + runs[0] + (Join(tail, runs[1..]) + w);
      }
    }
  }

  /** A text that starts with a gap character starts a gap. */
  lemma {:induction false} JoinHead(gaps: seq<string>, runs: seq<string>)
    requires |gaps| == |runs| + 1
    requires gaps[0] != []
    ensures Join(gaps, runs) != [] && Join(gaps, runs)[0] == gaps[0][0]
  {
  }

  /** The run starting a text ends exactly where its `p`-prefix ends. */
  lemma {:induction false} RunLengthOfPrefix(a: string, b: string, p: char -> bool)
    requires All(a, p)
    requires b == [] || !p(b[0])
    ensures RunLength(a + b, p) == |a|
    decreases |a|
  {
    if a != [] {
      assert (a + b)[1..] == a[1..] + b;
      RunLengthOfPrefix(a[1..], b, p);
    }
  }

  /** A gap character in front of a decomposed text joins its first gap. */
  lemma {:induction false} PrependGap(c: char, t: string, p: char -> bool, g: seq<string>, r: seq<string>)
    requires !p(c) && IsSplit(t, p, g, r)
    ensures IsSplit([c] + t, p, [[c] + g[0]] + g[1..], r)
  {
    var gs := [[c] + g[0]] + g[1..];
    JoinPrepend([c], g, r);
    assert NoneOf(g[0], p);
    forall k | 0 <= k < |gs| ensures NoneOf(gs[k], p) {
      if k > 0 { assert gs[k] == g[k]; }
    }
    forall k | 0 < k < |r| ensures gs[k] != [] {
      assert gs[k] == g[k];
    }
  }

  /** A run in front of a decomposed text that starts with a gap character,
      or is empty, becomes its first run, after an empty gap. */
  lemma {:induction false} PrependRun(w: string, t: string, p: char -> bool, g: seq<string>, r: seq<string>)
    requires w != [] && All(w, p) && (t == [] || !p(t[0]))
    requires IsSplit(t, p, g, r)
    ensures IsSplit(w + t, p, [[]] + g, [w] + r)
  {
    var gs, rs := [[]] + g, [w] + r;
    assert gs[1..] == g && rs[1..] == r;
    assert Join(gs, rs) == [] + w + t;
    assert [] + w + t == w + t;
    if r != [] {
      assert t == g[0] + r[0] + Join(g[1..], r[1..]);
      assert t[|g[0]|] == r[0][0];
    }
    forall k | 0 < k < |rs| ensures gs[k] != [] {
      assert gs[k] == g[k - 1];
    }
    forall k | 0 <= k < |gs| ensures NoneOf(gs[k], p) {
      if k > 0 { assert gs[k] == g[k - 1]; }
    }
    forall k | 0 <= k < |rs| ensures rs[k] != [] && All(rs[k], p) {
      if k > 0 { assert rs[k] == r[k - 1]; }
    }
  }

  /** Existence: `Runs` and `Gaps` decompose the text. */
  lemma {:induction false} SplitExists(s: string, p: char -> bool)
    ensures IsSplit(s, p, Gaps(s, p), Runs(s, p))
    decreases |s|
  {
    if s == [] {
    } else if !p(s[0]) {
      SplitExists(s[1..], p);
      PrependGap(s[0], s[1..], p, Gaps(s[1..], p), Runs(s[1..], p));
      assert [s[0]] + s[1..] == s;
    } else {
      var n := RunLength(s, p);
      SplitExists(s[n..], p);
      PrependRun(s[..n], s[n..], p, Gaps(s[n..], p), Runs(s[n..], p));
      assert s[..n] + s[n..] == s;
    }
  }

  /** A decomposition whose first gap is not empty: the text starts with that
      gap's first character, and the rest of the text is decomposed likewise
      with the gap shortened by one. */
  lemma {:induction false} DropGapChar(s: string, p: char -> bool, gaps: seq<string>, runs: seq<string>)
    requires IsSplit(s, p, gaps, runs) && gaps[0] != []
    ensures s != [] && s[0] == gaps[0][0] && !p(s[0])
    ensures gaps == [[s[0]] + gaps[0][1..]] + gaps[1..]
    ensures IsSplit(s[1..], p, [gaps[0][1..]] + gaps[1..], runs)
  {
    JoinHead(gaps, runs);
    var gs := [gaps[0][1..]] + gaps[1..];
    JoinPrepend([gaps[0][0]], gs, runs);
    assert [gaps[0][0]] + gaps[0][1..] == gaps[0];
    assert [[gaps[0][0]] + gs[0]] + gs[1..] == gaps;
    assert s == [s[0]] + Join(gs, runs);
    assert s[1..] == Join(gs, runs);
    assert NoneOf(gaps[0], p);
    forall k | 0 <= k < |gs| ensures NoneOf(gs[k], p) {
      if k > 0 { assert gs[k] == gaps[k]; }
    }
    forall k | 0 < k < |runs| ensures gs[k] != [] {
      assert gs[k] == gaps[k];
    }
  }

  /** A decomposition whose first gap is empty and which has a run: the text
      starts with that run, which is the text's leading `p`-run, and the rest
      is decomposed by the remaining gaps and runs. */
  lemma {:induction false} DropRun(s: string, p: char -> bool, gaps: seq<string>, runs: seq<string>)
    requires IsSplit(s, p, gaps, runs) && gaps[0] == [] && runs != []
    ensures s != [] && p(s[0])
    ensures RunLength(s, p) == |runs[0]| && s[..|runs[0]|] == runs[0]
    ensures IsSplit(s[|runs[0]|..], p, gaps[1..], runs[1..])
  {
    var rest := Join(gaps[1..], runs[1..]);
    assert s == runs[0] + rest;
    if rest != [] {
      if runs[1..] == [] {
        assert rest == gaps[1];
        assert NoneOf(gaps[1], p);
      } else {
        assert gaps[1..][0] == gaps[1] != [];
        JoinHead(gaps[1..], runs[1..]);
        assert NoneOf(gaps[1], p);
      }
    }
    RunLengthOfPrefix(runs[0], rest, p);
    var n := |runs[0]|;
    assert s[0] == runs[0][0];
    assert s[..n] == runs[0] && s[n..] == rest;
    forall k | 0 <= k < |gaps[1..]| ensures NoneOf(gaps[1..][k], p) {
      assert gaps[1..][k] == gaps[k + 1];
    }
    forall k | 0 < k < |runs[1..]| ensures gaps[1..][k] != [] {
      assert gaps[1..][k] == gaps[k + 1];
    }
    forall k | 0 <= k < |runs[1..]| ensures runs[1..][k] != [] && All(runs[1..][k], p) {
      assert runs[1..][k] == runs[k + 1];
    }
  }

  /** Uniqueness: any decomposition of the text into gaps and runs is the one
      `Runs` and `Gaps` compute. Together with `SplitExists`, `runs` is the
      tokenization of `s` exactly when such gaps exist. */
  lemma {:induction false} SplitUnique(s: string, p: char -> bool, gaps: seq<string>, runs: seq<string>)
    requires IsSplit(s, p, gaps, runs)
    ensures runs == Runs(s, p) && gaps == Gaps(s, p)
    decreases |s|
  {
    if gaps[0] != [] {
      DropGapChar(s, p, gaps, runs);
      var gs := [gaps[0][1..]] + gaps[1..];
      SplitUnique(s[1..], p, gs, runs);
    } else if runs == [] {
      assert s == [];
    } else {
      DropRun(s, p, gaps, runs);
      SplitUnique(s[|runs[0]|..], p, gaps[1..], runs[1..]);
      assert gaps == [[]] + gaps[1..];
      assert runs == [runs[0]] + runs[1..];
    }
  }

  /** A text has no run exactly when it holds no `p`-character. */
  lemma {:induction false} RunsEmptyIff(s: string, p: char -> bool)
    ensures Runs(s, p) == [] <==> NoneOf(s, p)
    decreases |s|
  {
    if s != [] && !p(s[0]) {
      RunsEmptyIff(s[1..], p);
      if NoneOf(s[1..], p) {
        forall i | 0 <= i < |s| ensures !p(s[i]) {
          if i > 0 { assert s[i] == s[1..][i - 1]; }
        }
      }
    }
  }

  /** Runs are non-empty and separated, so a text of length L has at most
      (L + 1) / 2 of them. */
  lemma {:induction false} RunsBound(s: string, p: char -> bool)
    ensures 2 * |Runs(s, p)| <= |s| + 1
    decreases |s|
  {
    if s == [] {
    } else if !p(s[0]) {
      RunsBound(s[1..], p);
    } else {
      var n := RunLength(s, p);
      var t := s[n..];
      if t != [] {
        assert !p(t[0]);
        assert Runs(t, p) == Runs(t[1..], p);
        RunsBound(t[1..], p);
      }
    }
  }

  /** Prepending gap characters leaves the runs unchanged. */
  lemma {:induction false} RunsPadLeft(w: string, s: string, p: char -> bool)
    requires NoneOf(w, p)
    ensures Runs(w + s, p) == Runs(s, p)
  {
    var gaps, runs := Gaps(s, p), Runs(s, p);
    SplitExists(s, p);
    var gs := [w + gaps[0]] + gaps[1..];
    JoinPrepend(w, gaps, runs);
    forall k | 0 <= k < |gs| ensures NoneOf(gs[k], p) {
      if k == 0 {
        assert NoneOf(gaps[0], p);
        forall i | 0 <= i < |gs[0]| ensures !p(gs[0][i]) {
          if i >= |w| { assert gs[0][i] == gaps[0][i - |w|]; }
        }
      } else {
        assert gs[k] == gaps[k];
      }
    }
    forall k | 0 < k < |runs| ensures gs[k] != [] {
      assert gs[k] == gaps[k];
    }
    SplitUnique(w + s, p, gs, runs);
  }

  /** Appending gap characters leaves the runs unchanged. */
  lemma {:induction false} RunsPadRight(s: string, w: string, p: char -> bool)
    requires NoneOf(w, p)
    ensures Runs(s + w, p) == Runs(s, p)
  {
    var gaps, runs := Gaps(s, p), Runs(s, p);
    SplitExists(s, p);
    var last := |runs|;
    var gs := gaps[..last] + [gaps[last] + w];
    JoinAppend(w, gaps, runs);
    forall k | 0 <= k < |gs| ensures NoneOf(gs[k], p) {
      if k == last {
        assert NoneOf(gaps[last], p);
        forall i | 0 <= i < |gs[last]| ensures !p(gs[last][i]) {
          if i < |gaps[last]| { assert gs[last][i] == gaps[last][i]; }
          else { assert gs[last][i] == w[i - |gaps[last]|]; }
        }
      } else {
        assert gs[k] == gaps[k];
      }
    }
    forall k | 0 < k < |runs| ensures gs[k] != [] {
      assert gs[k] == gaps[k];
    }
    SplitUnique(s + w, p, gs, runs);
  }

  /** Runs are pieces of the text: whatever holds of every character of the
      text holds of every character of every run. */
  lemma {:induction false} RunsInherit(s: string, p: char -> bool, q: char -> bool)
    requires All(s, q)
    ensures forall k :: 0 <= k < |Runs(s, p)| ==> All(Runs(s, p)[k], q)
    decreases |s|
  {
    if s != [] {
      if !p(s[0]) {
        RunsInherit(s[1..], p, q);
      } else {
        var n := RunLength(s, p);
        RunsInherit(s[n..], p, q);
        assert All(s[..n], q);
      }
    }
  }

  /** A run followed by a gap: the run is the first one, and the runs of the
      rest follow. */
  lemma {:induction false} RunsCons(w: string, g: string, rest: string, p: char -> bool)
    requires w != [] && All(w, p)
    requires g != [] && NoneOf(g, p)
    ensures Runs(w + g + rest, p) == [w] + Runs(rest, p)
  {
    var s := w + g + rest;
    assert s == w + (g + rest);
    RunLengthOfPrefix(w, g + rest, p);
    assert s[..|w|] == w && s[|w|..] == g + rest;
    RunsPadLeft(g, rest, p);
  }

  /** A text that is one run has exactly that run. */
  lemma {:induction false} RunsSingle(w: string, p: char -> bool)
    requires w != [] && All(w, p)
    ensures Runs(w, p) == [w]
  {
    RunLengthOfPrefix(w, [], p);
    assert w + [] == w;
  }

  /** `c.join(ws)`: the strings with one separator character between them. */
  function JoinWith(ws: seq<string>, c: char): string
    decreases |ws|
  {
    if ws == [] then []
    else if |ws| == 1 then ws[0]
    else ws[0] + [c] + JoinWith(ws[1..], c)
  }

  /** Joining two non-empty lists is joining each and putting the separator
      between them. */
  lemma {:induction false} JoinWithAppend(a: seq<string>, b: seq<string>, c: char)
    requires a != [] && b != []
    ensures JoinWith(a + b, c) == JoinWith(a, c) + [c] + JoinWith(b, c)
    decreases |a|
  {
    if |a| == 1 {
      assert (a + b)[1..] == b;
    } else {
      assert (a + b)[1..] == a[1..] + b;
      JoinWithAppend(a[1..], b, c);
    }
  }

  /** Joining strings of `p`-characters with a `p`-character gives a string of
      `p`-characters. */
  lemma {:induction false} JoinWithAll(ws: seq<string>, c: char, p: char -> bool)
    requires p(c)
    requires forall i :: 0 <= i < |ws| ==> All(ws[i], p)
    ensures All(JoinWith(ws, c), p)
    decreases |ws|
  {
    if |ws| > 1 {
      JoinWithAll(ws[1..], c, p);
      var a, b := ws[0] + [c], JoinWith(ws[1..], c);
      assert All(a, p) by {
        assert All(ws[0], p);
      }
      forall i | 0 <= i < |a + b| ensures p((a + b)[i]) {
        if i >= |a| {
          assert (a + b)[i] == b[i - |a|];
        }
      }
    } else if |ws| == 1 {
      assert All(ws[0], p);
    }
  }

  /** Splitting undoes joining: non-empty runs joined by a gap character are
      exactly the runs of the joined text. */
  lemma {:induction false} RunsJoinWith(ws: seq<string>, c: char, p: char -> bool)
    requires !p(c)
    requires forall i :: 0 <= i < |ws| ==> ws[i] != [] && All(ws[i], p)
    ensures Runs(JoinWith(ws, c), p) == ws
    decreases |ws|
  {
    if |ws| == 1 {
      RunsSingle(ws[0], p);
    } else if |ws| > 1 {
      RunsJoinWith(ws[1..], c, p);
      RunsCons(ws[0], [c], JoinWith(ws[1..], c), p);
    }
  }
}
