/**
 * `collections.Counter` built from a list of words, and its `most_common(n)`.
 *
 * A counter keeps its entries in the order their words first occurred.
 * `most_common(n)` is documented as `sorted(items, key=count, reverse=True)[:n]`
 * (`heapq.nlargest` keeps that order among equal counts), so among words with
 * equal counts the one that occurred first comes first.
 */
module Frequency {

  /** One counter entry: a word and how many times it occurred. */
  datatype Freq = Freq(word: string, count: nat)

  /** How many times `w` occurs in `ws`. */
  function Occurrences(ws: seq<string>, w: string): nat {
    multiset(ws)[w]
  }

  /** The position of the first occurrence of `w` in `ws`; `|ws|` when `w`
      does not occur. */
  function FirstIndex(ws: seq<string>, w: string): (k: nat)
    ensures k <= |ws|
    ensures k < |ws| <==> w in ws
    ensures k < |ws| ==> ws[k] == w
    ensures forall j :: 0 <= j < k ==> ws[j] != w
    decreases |ws|
  {
    if ws == [] then 0
    else if ws[0] == w then 0
    else 1 + FirstIndex(ws[1..], w)
  }

  /** The words of a counter, entry by entry. */
  function Words(t: seq<Freq>): (ws: seq<string>)
    ensures |ws| == |t|
    ensures forall i :: 0 <= i < |t| ==> ws[i] == t[i].word
  {
    seq(|t|, i requires 0 <= i < |t| => t[i].word)
  }

  predicate Distinct(ws: seq<string>) {
    forall i, j :: 0 <= i < j < |ws| ==> ws[i] != ws[j]
  }

  /** The set of distinct words in `ws`. */
  ghost function Vocabulary(ws: seq<string>): set<string> {
    set w | w in ws
  }

  /** `counter[w] += 1`: the entry for `w` counts one more, or a new entry with
      count 1 is appended. */
  function Bump(t: seq<Freq>, w: string): seq<Freq>
    decreases |t|
  {
    if t == [] then [Freq(w, 1)]
    else if t[0].word == w then [Freq(w, t[0].count + 1)] + t[1..]
    else [t[0]] + Bump(t[1..], w)
  }

  /** `Counter(ws)`: the words counted one after the other. */
  function Tally(ws: seq<string>): seq<Freq>
    decreases |ws|
  {
    if ws == [] then [] else Bump(Tally(ws[..|ws| - 1]), ws[|ws| - 1])
  }

  /** What a counter of `ws` holds: one entry per distinct word of `ws`, with
      that word's number of occurrences, in order of first occurrence. */
  ghost predicate IsTallyOf(t: seq<Freq>, ws: seq<string>) {
    && (forall i :: 0 <= i < |t| ==> t[i].word in ws && t[i].count == Occurrences(ws, t[i].word))
    && (forall i, j :: 0 <= i < j < |t| ==> FirstIndex(ws, t[i].word) < FirstIndex(ws, t[j].word))
    && (forall w :: w in ws ==> w in Words(t))
  }

  /** The sum of the counts. */
  function Total(t: seq<Freq>): nat
    decreases |t|
  {
    if t == [] then 0 else t[0].count + Total(t[1..])
  }

  lemma {:induction false} BumpEntries(t: seq<Freq>, w: string)
    requires Distinct(Words(t))
    ensures w in Words(t) ==> |Bump(t, w)| == |t|
    ensures w in Words(t) ==> forall i :: 0 <= i < |t| ==>
      Bump(t, w)[i] == if t[i].word == w then Freq(w, t[i].count + 1) else t[i]
    ensures w !in Words(t) ==> Bump(t, w) == t + [Freq(w, 1)]
    decreases |t|
  {
    if t == [] {
    } else if t[0].word == w {
      assert forall i :: 0 < i < |t| ==> t[i].word != w by {
        forall i | 0 < i < |t| ensures t[i].word != w {
          assert Words(t)[0] != Words(t)[i];
        }
      }
    } else {
      var u := t[1..];
      assert Words(u) == Words(t)[1..];
      BumpEntries(u, w);
      assert w in Words(t) <==> w in Words(u) by {
        assert Words(t) == [t[0].word] + Words(u);
      }
    }
  }

  lemma {:induction false} FirstIndexOf(ws: seq<string>, w: string, k: nat)
    requires k < |ws| && ws[k] == w
    requires forall j :: 0 <= j < k ==> ws[j] != w
    ensures FirstIndex(ws, w) == k
  {
  }

  lemma {:induction false} TallyDistinct(t: seq<Freq>, ws: seq<string>)
    requires IsTallyOf(t, ws)
    ensures Distinct(Words(t))
  {
    forall i, j | 0 <= i < j < |t| ensures Words(t)[i] != Words(t)[j] {
      assert FirstIndex(ws, t[i].word) < FirstIndex(ws, t[j].word);
    }
  }

  lemma {:induction false} FirstIndexAppend(p: seq<string>, x: string)
    ensures forall w :: w in p ==> FirstIndex(p + [x], w) == FirstIndex(p, w)
    ensures x !in p ==> FirstIndex(p + [x], x) == |p|
  {
    forall w | w in p ensures FirstIndex(p + [x], w) == FirstIndex(p, w) {
      FirstIndexOf(p + [x], w, FirstIndex(p, w));
    }
    if x !in p {
      FirstIndexOf(p + [x], x, |p|);
    }
  }

  /** The counts of a counter that is stepped from `p` to `p + [x]` entry by
      entry; `r` keeps the words of `t`, with only the entry for `x` changed
      or added. */
  lemma {:induction false} StepCounts(t: seq<Freq>, p: seq<string>, x: string, r: seq<Freq>)
    requires IsTallyOf(t, p)
    requires |t| <= |r| <= |t| + 1
    requires forall i :: 0 <= i < |t| ==> r[i] == if t[i].word == x then Freq(x, t[i].count + 1) else t[i]
    requires |r| == |t| + 1 <==> x !in p
    requires |r| == |t| + 1 ==> r[|t|] == Freq(x, 1)
    ensures forall i :: 0 <= i < |r| ==> r[i].word in p + [x] && r[i].count == Occurrences(p + [x], r[i].word)
  {
    assert multiset(p + [x]) == multiset(p) + multiset{x};
    forall i | 0 <= i < |r| ensures r[i].word in p + [x] && r[i].count == Occurrences(p + [x], r[i].word) {
      if i < |t| {
        assert r[i].word == t[i].word;
      }
    }
  }

  lemma {:induction false} StepOrder(t: seq<Freq>, p: seq<string>, x: string, r: seq<Freq>)
    requires IsTallyOf(t, p)
    requires |t| <= |r| <= |t| + 1
    requires forall i :: 0 <= i < |t| ==> r[i].word == t[i].word
    requires |r| == |t| + 1 ==> x !in p && r[|t|].word == x
    ensures forall i, j :: 0 <= i < j < |r| ==> FirstIndex(p + [x], r[i].word) < FirstIndex(p + [x], r[j].word)
  {
    FirstIndexAppend(p, x);
    forall i, j | 0 <= i < j < |r| ensures FirstIndex(p + [x], r[i].word) < FirstIndex(p + [x], r[j].word) {
      assert r[i].word == t[i].word && r[i].word in p;
    }
  }

  lemma {:induction false} StepCovers(t: seq<Freq>, p: seq<string>, x: string, r: seq<Freq>)
    requires IsTallyOf(t, p)
    requires |t| <= |r|
    requires forall i :: 0 <= i < |t| ==> r[i].word == t[i].word
    requires x in Words(r)
    ensures forall w :: w in p + [x] ==> w in Words(r)
  {
    forall w | w in p + [x] ensures w in Words(r) {
      if w != x {
        assert w in p;
        var k :| 0 <= k < |t| && Words(t)[k] == w;
        assert Words(r)[k] == w;
      }
    }
  }

  /** Counting a word that has occurred before increments its entry. */
  lemma {:induction false} BumpKnown(t: seq<Freq>, p: seq<string>, x: string)
    requires IsTallyOf(t, p) && x in p
    ensures IsTallyOf(Bump(t, x), p + [x])
  {
    var r := Bump(t, x);
    assert x in Words(t);
    assert |r| == |t| && forall i :: 0 <= i < |t| ==>
      r[i] == if t[i].word == x then Freq(x, t[i].count + 1) else t[i]
    by {
      TallyDistinct(t, p);
      BumpEntries(t, x);
    }
    StepCounts(t, p, x, r);
    StepOrder(t, p, x, r);
    assert x in Words(r) by {
      var k :| 0 <= k < |t| && Words(t)[k] == x;
      assert Words(r)[k] == x;
    }
    StepCovers(t, p, x, r);
  }

  /** Counting a new word appends an entry with count 1. */
  lemma {:induction false} BumpNew(t: seq<Freq>, p: seq<string>, x: string)
    requires IsTallyOf(t, p) && x !in p
    ensures IsTallyOf(Bump(t, x), p + [x])
  {
    var r := t + [Freq(x, 1)];
    assert Bump(t, x) == r by {
      TallyDistinct(t, p);
      BumpEntries(t, x);
    }
    assert forall i :: 0 <= i < |t| ==> r[i] == t[i] && t[i].word != x;
    StepCounts(t, p, x, r);
    StepOrder(t, p, x, r);
    assert Words(r)[|t|] == x;
    StepCovers(t, p, x, r);
  }

  /** The counter's characterisation: `Tally(ws)` holds exactly the distinct
      words of `ws`, each with its number of occurrences, in order of first
      occurrence. */
  lemma {:induction false} TallyCorrect(ws: seq<string>)
    ensures IsTallyOf(Tally(ws), ws)
    decreases |ws|
  {
    if ws != [] {
      var p, x := ws[..|ws| - 1], ws[|ws| - 1];
      assert ws == p + [x];
      TallyCorrect(p);
      if x in p {
        BumpKnown(Tally(p), p, x);
      } else {
        BumpNew(Tally(p), p, x);
      }
    }
  }

  /** Counting one more word that has not occurred appends an entry with
      count 1. */
  lemma {:induction false} TallyAppendNew(ws: seq<string>, x: string)
    requires x !in ws
    ensures Tally(ws + [x]) == Tally(ws) + [Freq(x, 1)]
  {
    assert (ws + [x])[..|ws|] == ws;
    TallyCorrect(ws);
    TallyDistinct(Tally(ws), ws);
    BumpEntries(Tally(ws), x);
  }

  /** Counting one more word that has occurred increments its entry in place. */
  lemma {:induction false} TallyAppendKnown(ws: seq<string>, x: string, k: nat)
    requires k < |Tally(ws)| && Tally(ws)[k].word == x
    ensures Tally(ws + [x]) == Tally(ws)[k := Freq(x, Tally(ws)[k].count + 1)]
  {
    var t := Tally(ws);
    assert (ws + [x])[..|ws|] == ws;
    TallyCorrect(ws);
    TallyDistinct(t, ws);
    assert Words(t)[k] == x;
    BumpEntries(t, x);
    var r := Bump(t, x);
    var u := t[k := Freq(x, t[k].count + 1)];
    forall i | 0 <= i < |t| ensures r[i] == u[i] {
      if i != k {
        assert Words(t)[i] != Words(t)[k];
      }
    }
    assert r == u;
  }

  lemma {:induction false} TotalBump(t: seq<Freq>, w: string)
    ensures Total(Bump(t, w)) == Total(t) + 1
    decreases |t|
  {
    if t != [] && t[0].word != w {
      TotalBump(t[1..], w);
      assert Bump(t, w)[1..] == Bump(t[1..], w);
    } else if t != [] {
      assert Bump(t, w)[1..] == t[1..];
    }
  }

  /** Every word is counted exactly once: the counts add up to the number of
      words. */
  lemma {:induction false} TallyTotal(ws: seq<string>)
    ensures Total(Tally(ws)) == |ws|
    decreases |ws|
  {
    if ws != [] {
      TallyTotal(ws[..|ws| - 1]);
      TotalBump(Tally(ws[..|ws| - 1]), ws[|ws| - 1]);
    }
  }

  lemma {:induction false} DistinctCard(ws: seq<string>)
    requires Distinct(ws)
    ensures |Vocabulary(ws)| == |ws|
    decreases |ws|
  {
    if ws != [] {
      var u := ws[1..];
      assert Distinct(u);
      DistinctCard(u);
      assert Vocabulary(ws) == Vocabulary(u) + {ws[0]};
      assert ws[0] !in Vocabulary(u);
    }
  }

  /** A counter has one entry per distinct word. */
  lemma {:induction false} TallySize(ws: seq<string>)
    ensures |Tally(ws)| == |Vocabulary(ws)|
  {
    var t := Tally(ws);
    TallyCorrect(ws);
    TallyDistinct(t, ws);
    DistinctCard(Words(t));
    assert Vocabulary(Words(t)) == Vocabulary(ws);
  }

  /** Inserts `x` into a list ordered by descending count, before the first
      entry whose count is not larger: `x` goes after the entries that beat it
      and before those it ties with. */
  function InsertByCount(x: Freq, s: seq<Freq>): (r: seq<Freq>)
    ensures multiset(r) == multiset(s) + multiset{x}
    decreases |s|
  {
    if s == [] || s[0].count <= x.count then [x] + s
    else
      assert s == [s[0]] + s[1..];
      [s[0]] + InsertByCount(x, s[1..])
  }

  /** `sorted(t, key=count, reverse=True)`: a stable sort by descending count. */
  function SortByCount(t: seq<Freq>): (r: seq<Freq>)
    ensures multiset(r) == multiset(t)
    decreases |t|
  {
    if t == [] then []
    else
      assert t == [t[0]] + t[1..];
      InsertByCount(t[0], SortByCount(t[1..]))
  }

  /** A list already ordered by descending count is left as it is. */
  lemma {:induction false} SortOrderedList(t: seq<Freq>)
    requires forall i, j :: 0 <= i < j < |t| ==> t[i].count >= t[j].count
    ensures SortByCount(t) == t
    decreases |t|
  {
    if t != [] {
      SortOrderedList(t[1..]);
      assert t == [t[0]] + t[1..];
    }
  }

  function Min(a: nat, b: nat): nat {
    if a <= b then a else b
  }

  /** `counter.most_common(n)`: the first `n` entries by descending count. */
  function MostCommon(t: seq<Freq>, n: nat): seq<Freq> {
    var s := SortByCount(t);
    s[..Min(n, |s|)]
  }

  /** `t` is ordered by `key`, strictly increasing. */
  ghost predicate Ascending(t: seq<Freq>, key: Freq -> int) {
    forall i, j :: 0 <= i < j < |t| ==> key(t[i]) < key(t[j])
  }

  /** `a` goes before `b` in the order `most_common` produces: a larger count
      first, and on equal counts the smaller key first. */
  ghost predicate Precedes(a: Freq, b: Freq, key: Freq -> int) {
    a.count > b.count || (a.count == b.count && key(a) < key(b))
  }

  ghost predicate OrderedBy(t: seq<Freq>, key: Freq -> int) {
    forall i, j :: 0 <= i < j < |t| ==> Precedes(t[i], t[j], key)
  }

  lemma {:induction false} InsertOrdered(x: Freq, s: seq<Freq>, key: Freq -> int)
    requires OrderedBy(s, key)
    requires forall i :: 0 <= i < |s| ==> key(x) < key(s[i])
    ensures OrderedBy(InsertByCount(x, s), key)
    decreases |s|
  {
    if s == [] || s[0].count <= x.count {
      var r := [x] + s;
      forall i, j | 0 <= i < j < |r| ensures Precedes(r[i], r[j], key) {
        if i == 0 && j > 1 {
          assert Precedes(s[0], s[j - 1], key);
        }
      }
    } else {
      var u := InsertByCount(x, s[1..]);
      InsertOrdered(x, s[1..], key);
      var r := [s[0]] + u;
      forall k | 0 <= k < |u| ensures Precedes(s[0], u[k], key) {
        assert u[k] in multiset(u);
        if u[k] != x {
          assert u[k] in multiset(s[1..]);
          var m :| 0 <= m < |s[1..]| && s[1..][m] == u[k];
          assert Precedes(s[0], s[m + 1], key);
        }
      }
      forall i, j | 0 <= i < j < |r| ensures Precedes(r[i], r[j], key) {
        if i == 0 {
          assert r[j] == u[j - 1];
        } else {
          assert r[i] == u[i - 1] && r[j] == u[j - 1];
        }
      }
    }
  }

  /** The sort is stable: a list whose keys increase comes out by descending
      count, and by increasing key among equal counts. */
  lemma {:induction false} SortOrdered(t: seq<Freq>, key: Freq -> int)
    requires Ascending(t, key)
    ensures OrderedBy(SortByCount(t), key)
    decreases |t|
  {
    if t != [] {
      var s := SortByCount(t[1..]);
      SortOrdered(t[1..], key);
      forall i | 0 <= i < |s| ensures key(t[0]) < key(s[i]) {
        assert s[i] in multiset(s);
        assert s[i] in multiset(t[1..]);
        var m :| 0 <= m < |t[1..]| && t[1..][m] == s[i];
        assert t[m + 1] == s[i];
      }
      InsertOrdered(t[0], s, key);
    }
  }

  /** When the counter is already ordered by descending count and has at
      most `n` entries, `most_common(n)` is the whole counter as it stands. */
  lemma {:induction false} MostCommonOfOrdered(t: seq<Freq>, n: nat)
    requires |t| <= n
    requires forall i, j :: 0 <= i < j < |t| ==> t[i].count >= t[j].count
    ensures MostCommon(t, n) == t
  {
    SortOrderedList(t);
  }

  /** The order `most_common` lists the words of `ws` in: the larger count
      first, and on equal counts the word that occurred first in `ws`. */
  ghost predicate Beats(ws: seq<string>, a: Freq, b: Freq) {
    a.count > b.count || (a.count == b.count && FirstIndex(ws, a.word) < FirstIndex(ws, b.word))
  }

  /** What `Counter(ws).most_common(n)` is: `min(n, distinct words)` entries,
      each a word of `ws` with its number of occurrences, listed in the
      `Beats` order, and every word left out beaten by every word listed. */
  ghost predicate IsTopOf(r: seq<Freq>, ws: seq<string>, n: nat) {
    && |r| == Min(n, |Vocabulary(ws)|)
    && (forall i :: 0 <= i < |r| ==> r[i].word in ws && r[i].count == Occurrences(ws, r[i].word))
    && (forall i, j :: 0 <= i < j < |r| ==> Beats(ws, r[i], r[j]))
    && (forall w :: w in ws && w !in Words(r) ==>
          forall i :: 0 <= i < |r| ==> Beats(ws, r[i], Freq(w, Occurrences(ws, w))))
  }

  /** Each entry of a reordering of the counter is a word of `ws` with its count. */
  lemma {:induction false} SortedEntries(ws: seq<string>, t: seq<Freq>, s: seq<Freq>)
    requires IsTallyOf(t, ws) && multiset(s) == multiset(t)
    ensures forall i :: 0 <= i < |s| ==> s[i].word in ws && s[i].count == Occurrences(ws, s[i].word)
  {
    forall i | 0 <= i < |s| ensures s[i].word in ws && s[i].count == Occurrences(ws, s[i].word) {
      assert s[i] in multiset(s);
      var k :| 0 <= k < |t| && t[k] == s[i];
    }
  }

  /** Every word of `ws` has an entry in a reordering of the counter. */
  lemma {:induction false} SortedCovers(ws: seq<string>, t: seq<Freq>, s: seq<Freq>)
    requires IsTallyOf(t, ws) && multiset(s) == multiset(t)
    ensures forall w :: w in ws ==> w in Words(s)
  {
    forall w | w in ws ensures w in Words(s) {
      assert w in Words(t);
      var k :| 0 <= k < |t| && Words(t)[k] == w;
      assert t[k] in multiset(t);
      assert t[k] in multiset(s);
      var p :| 0 <= p < |s| && s[p] == t[k];
      assert Words(s)[p] == w;
    }
  }

  /** The sorted counter is in the `Beats` order. */
  lemma {:induction false} SortedBeats(ws: seq<string>)
    ensures forall i, j :: 0 <= i < j < |SortByCount(Tally(ws))| ==>
      Beats(ws, SortByCount(Tally(ws))[i], SortByCount(Tally(ws))[j])
  {
    var t := Tally(ws);
    TallyCorrect(ws);
    var key := (f: Freq) => FirstIndex(ws, f.word);
    assert Ascending(t, key);
    SortOrdered(t, key);
    var s := SortByCount(t);
    forall i, j | 0 <= i < j < |s| ensures Beats(ws, s[i], s[j]) {
      assert Precedes(s[i], s[j], key);
    }
  }

  /** The whole sorted counter ranks every word of `ws`. */
  lemma {:induction false} SortedRanking(ws: seq<string>)
    ensures IsTopOf(SortByCount(Tally(ws)), ws, |Vocabulary(ws)|)
    ensures forall w :: w in ws ==> w in Words(SortByCount(Tally(ws)))
  {
    var t := Tally(ws);
    var s := SortByCount(t);
    TallyCorrect(ws);
    TallySize(ws);
    assert |s| == |t| by {
      assert |multiset(s)| == |multiset(t)|;
    }
    assert |s| == Min(|Vocabulary(ws)|, |Vocabulary(ws)|);
    SortedEntries(ws, t, s);
    SortedCovers(ws, t, s);
    SortedBeats(ws);
  }

  /** The first `n` entries of a ranking of every word are the top-`n` list. */
  lemma {:induction false} RankingPrefix(ws: seq<string>, s: seq<Freq>, n: nat)
    requires IsTopOf(s, ws, |Vocabulary(ws)|)
    requires forall w :: w in ws ==> w in Words(s)
    ensures IsTopOf(s[..Min(n, |s|)], ws, n)
  {
    var m := Min(n, |s|);
    var r := s[..m];
    assert forall q :: 0 <= q < m ==> Words(r)[q] == Words(s)[q];
    forall w | w in ws && w !in Words(r)
      ensures forall i :: 0 <= i < |r| ==> Beats(ws, r[i], Freq(w, Occurrences(ws, w)))
    {
      var p :| 0 <= p < |s| && Words(s)[p] == w;
      forall i | 0 <= i < |r| ensures Beats(ws, r[i], Freq(w, Occurrences(ws, w))) {
        assert Beats(ws, s[i], s[p]);
      }
    }
  }

  /** `most_common(n)` of the counter of `ws` is the top-`n` list of `ws`. */
  lemma {:induction false} MostCommonCorrect(ws: seq<string>, n: nat)
    ensures IsTopOf(MostCommon(Tally(ws), n), ws, n)
  {
    SortedRanking(ws);
    RankingPrefix(ws, SortByCount(Tally(ws)), n);
  }

  /** No word is listed twice. */
  lemma {:induction false} TopDistinct(ws: seq<string>, n: nat, r: seq<Freq>)
    requires IsTopOf(r, ws, n)
    ensures Distinct(Words(r))
  {
    forall i, j | 0 <= i < j < |r| ensures Words(r)[i] != Words(r)[j] {
      assert Beats(ws, r[i], r[j]);
    }
  }

  /** Entry `k` beats every word of `ws` not listed before it. */
  lemma {:induction false} TopEntry(ws: seq<string>, n: nat, r: seq<Freq>, k: nat)
    requires IsTopOf(r, ws, n) && k < |r|
    ensures forall w :: w in ws && w !in Words(r[..k]) ==>
      w == r[k].word || Beats(ws, r[k], Freq(w, Occurrences(ws, w)))
  {
    forall w | w in ws && w !in Words(r[..k])
      ensures w == r[k].word || Beats(ws, r[k], Freq(w, Occurrences(ws, w)))
    {
      if w in Words(r[k..]) {
        var p :| 0 <= p < |r[k..]| && Words(r[k..])[p] == w;
        if p > 0 {
          assert Beats(ws, r[k], r[k + p]);
        }
      } else {
        assert w !in Words(r) by {
          assert Words(r) == Words(r[..k]) + Words(r[k..]);
        }
      }
    }
  }

  lemma {:induction false} TopStep(ws: seq<string>, n: nat, r1: seq<Freq>, r2: seq<Freq>, k: nat)
    requires IsTopOf(r1, ws, n) && IsTopOf(r2, ws, n)
    requires k < |r1| && forall i :: 0 <= i < k ==> r1[i] == r2[i]
    ensures r1[k] == r2[k]
  {
    TopDistinct(ws, n, r1);
    TopDistinct(ws, n, r2);
    assert r1[..k] == r2[..k];
    assert r1[k].word !in Words(r1[..k]) by {
      forall p | 0 <= p < k ensures Words(r1[..k])[p] != r1[k].word {
        assert Words(r1)[p] != Words(r1)[k];
      }
    }
    assert r2[k].word !in Words(r2[..k]) by {
      forall p | 0 <= p < k ensures Words(r2[..k])[p] != r2[k].word {
        assert Words(r2)[p] != Words(r2)[k];
      }
    }
    TopEntry(ws, n, r1, k);
    TopEntry(ws, n, r2, k);
  }

  lemma {:induction false} TopPrefix(ws: seq<string>, n: nat, r1: seq<Freq>, r2: seq<Freq>, k: nat)
    requires IsTopOf(r1, ws, n) && IsTopOf(r2, ws, n)
    requires k <= |r1|
    ensures forall i :: 0 <= i < k ==> r1[i] == r2[i]
    decreases k
  {
    if k > 0 {
      TopPrefix(ws, n, r1, r2, k - 1);
      TopStep(ws, n, r1, r2, k - 1);
    }
  }

  /** The top-`n` list of `ws` is determined: `IsTopOf` is a definition of
      `most_common(n)` independent of how it is computed. */
  lemma {:induction false} TopUnique(ws: seq<string>, n: nat, r1: seq<Freq>, r2: seq<Freq>)
    requires IsTopOf(r1, ws, n) && IsTopOf(r2, ws, n)
    ensures r1 == r2
  {
    TopPrefix(ws, n, r1, r2, |r1|);
  }
}
