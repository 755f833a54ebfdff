/**
 What the `collections.Counter` of build_stoplist.py holds after it has been
 fed a sequence of words: the count of each word, and the order in which the
 words were first inserted (ranking breaks ties by that order).
 */
module Frequency {

  /* ---------- specification of the counter's state ---------- */

  predicate Distinct(s: seq<string>)
  {
    forall i, j :: 0 <= i < j < |s| ==> s[i] != s[j]
  }

  /**
   Count of each word in `ws`, built as `Counter.update` builds it: one
   increment per word. Its keys are exactly the words that occur.
   */
  function Tally(ws: seq<string>): (r: map<string, nat>)
    decreases |ws|
  {
    if ws == [] then map[]
    else
      var m := Tally(ws[..|ws| - 1]);
      var w := ws[|ws| - 1];
      assert ws == ws[..|ws| - 1] + [w];
      m[w := (if w in m then m[w] else 0) + 1]
  }

  /**
   The distinct words of `ws`, in the order of their first occurrence (dict
   insertion order): every word of `ws` exactly once.
   */
  function FirstSeen(ws: seq<string>): (r: seq<string>)
    ensures Distinct(r)
    decreases |ws|
  {
    if ws == [] then []
    else
      var p := FirstSeen(ws[..|ws| - 1]);
      var w := ws[|ws| - 1];
      assert ws == ws[..|ws| - 1] + [w];
      if w in p then p else p + [w]
  }

  /** Position of the first occurrence of `w` in `ws`. */
  function IndexOf(ws: seq<string>, w: string): (i: nat)
    requires w in ws
    ensures i < |ws| && ws[i] == w && w !in ws[..i]
  {
    if ws[0] == w then 0 else 1 + IndexOf(ws[1..], w)
  }

  /** Sum of the counts of `keys`. */
  function SumCounts(m: map<string, nat>, keys: seq<string>): nat
    requires forall k :: k in keys ==> k in m
    decreases |keys|
  {
    if keys == [] then 0 else SumCounts(m, keys[..|keys| - 1]) + m[keys[|keys| - 1]]
  }

  /* ---------- properties of the specification ---------- */

  /** The count of a word is the number of its occurrences; words never seen are absent. */
  lemma {:induction false} TallyCountsOccurrences(ws: seq<string>)
    ensures forall w :: w in Tally(ws) <==> w in ws
    ensures forall w :: w in Tally(ws) ==> Tally(ws)[w] == multiset(ws)[w]
    decreases |ws|
  {
    if ws != [] {
      var p := ws[..|ws| - 1];
      TallyCountsOccurrences(p);
      assert ws == p + [ws[|ws| - 1]];
    }
  }

  /** First-seen order lists every word of `ws` and nothing else. */
  lemma {:induction false} FirstSeenWords(ws: seq<string>)
    ensures forall w :: w in FirstSeen(ws) <==> w in ws
    decreases |ws|
  {
    if ws != [] {
      var p := ws[..|ws| - 1];
      FirstSeenWords(p);
      assert ws == p + [ws[|ws| - 1]];
    }
  }

  lemma {:induction false} IndexOfAppend(ws: seq<string>, x: string, w: string)
    requires w in ws
    ensures IndexOf(ws + [x], w) == IndexOf(ws, w)
    decreases |ws|
  {
    if ws[0] != w {
      assert (ws + [x])[1..] == ws[1..] + [x];
      IndexOfAppend(ws[1..], x, w);
    }
  }

  /** Words earlier in first-seen order occur for the first time earlier in `ws`. */
  lemma {:induction false} FirstSeenOrdered(ws: seq<string>)
    ensures forall i, j :: 0 <= i < j < |FirstSeen(ws)| ==>
      FirstSeen(ws)[i] in ws && FirstSeen(ws)[j] in ws &&
      IndexOf(ws, FirstSeen(ws)[i]) < IndexOf(ws, FirstSeen(ws)[j])
    decreases |ws|
  {
    if ws != [] {
      var p := ws[..|ws| - 1];
      var x := ws[|ws| - 1];
      assert ws == p + [x];
      FirstSeenOrdered(p);
      FirstSeenWords(p);
      var f := FirstSeen(p);
      if x !in f {
        assert x !in p;
        assert FirstSeen(ws) == f + [x];
        assert IndexOf(ws, x) == |p| by {
          assert ws[..|p|] == p;
        }
        forall i, j | 0 <= i < j < |f| + 1
          ensures (f + [x])[i] in ws && (f + [x])[j] in ws
          ensures IndexOf(ws, (f + [x])[i]) < IndexOf(ws, (f + [x])[j])
        {
          assert f[i] in p;
          IndexOfAppend(p, x, f[i]);
          if j < |f| {
            assert f[j] in p;
            IndexOfAppend(p, x, f[j]);
            assert IndexOf(p, f[i]) < IndexOf(p, f[j]);
          } else {
            assert (f + [x])[j] == x;
          }
        }
      } else {
        assert FirstSeen(ws) == f;
        forall i, j | 0 <= i < j < |f|
          ensures f[i] in ws && f[j] in ws && IndexOf(ws, f[i]) < IndexOf(ws, f[j])
        {
          assert f[i] in p && f[j] in p;
          IndexOfAppend(p, x, f[i]);
          IndexOfAppend(p, x, f[j]);
          assert IndexOf(p, f[i]) < IndexOf(p, f[j]);
        }
      }
    } else {
      assert FirstSeen(ws) == [];
    }
  }

  /** Counting one more word: its count goes up by one, and a new word joins the order at the end. */
  lemma CountOneMore(ws: seq<string>, w: string)
    ensures w in Tally(ws) <==> w in FirstSeen(ws)
    ensures w in Tally(ws) ==> Tally(ws + [w]) == Tally(ws)[w := Tally(ws)[w] + 1] && FirstSeen(ws + [w]) == FirstSeen(ws)
    ensures w !in Tally(ws) ==> Tally(ws + [w]) == Tally(ws)[w := 1] && FirstSeen(ws + [w]) == FirstSeen(ws) + [w]
  {
    TallyCountsOccurrences(ws);
    FirstSeenWords(ws);
    assert (ws + [w])[..|ws|] == ws;
  }

  /** The keys of the table are exactly the words in first-seen order. */
  lemma TallyKeys(ws: seq<string>)
    ensures forall w :: w in Tally(ws) <==> w in FirstSeen(ws)
    ensures |Tally(ws)| == |FirstSeen(ws)|
  {
    TallyCountsOccurrences(ws);
    FirstSeenWords(ws);
    DistinctCardinality(FirstSeen(ws));
    assert Tally(ws).Keys == set w | w in FirstSeen(ws);
  }

  lemma {:induction false} DistinctCardinality(s: seq<string>)
    requires Distinct(s)
    ensures |set w | w in s| == |s|
    decreases |s|
  {
    if s != [] {
      var p := s[..|s| - 1];
      DistinctCardinality(p);
      assert (set w | w in s) == (set w | w in p) + {s[|s| - 1]};
    }
  }

  lemma {:induction false} SumCountsFrame(m: map<string, nat>, keys: seq<string>, w: string, c: nat)
    requires forall k :: k in keys ==> k in m
    requires w !in keys
    ensures SumCounts(m[w := c], keys) == SumCounts(m, keys)
    decreases |keys|
  {
    if keys != [] {
      SumCountsFrame(m, keys[..|keys| - 1], w, c);
    }
  }

  lemma {:induction false} SumCountsBump(m: map<string, nat>, keys: seq<string>, w: string)
    requires forall k :: k in keys ==> k in m
    requires Distinct(keys) && w in keys
    ensures SumCounts(m[w := m[w] + 1], keys) == SumCounts(m, keys) + 1
    decreases |keys|
  {
    var p := keys[..|keys| - 1];
    var last := keys[|keys| - 1];
    if last == w {
      assert w !in p;
      SumCountsFrame(m, p, w, m[w] + 1);
    } else {
      SumCountsBump(m, p, w);
    }
  }

  /** The counts add up to the number of words counted. */
  lemma {:induction false} SumOfCountsIsLength(ws: seq<string>)
    ensures forall k :: k in FirstSeen(ws) ==> k in Tally(ws)
    ensures SumCounts(Tally(ws), FirstSeen(ws)) == |ws|
    decreases |ws|
  {
    TallyCountsOccurrences(ws);
    FirstSeenWords(ws);
    if ws != [] {
      var p := ws[..|ws| - 1];
      SumOfCountsIsLength(p);
      assert ws == p + [ws[|ws| - 1]];
      SumCountsStep(p, ws[|ws| - 1]);
    }
  }

  /** Counting one more word adds one to the sum of the counts. */
  lemma SumCountsStep(ws: seq<string>, x: string)
    ensures forall k :: k in FirstSeen(ws) ==> k in Tally(ws)
    ensures SumCounts(Tally(ws + [x]), FirstSeen(ws + [x])) == SumCounts(Tally(ws), FirstSeen(ws)) + 1
  {
    OrderedWordsAreKeys(ws);
    CountOneMore(ws, x);
    var m, f := Tally(ws), FirstSeen(ws);
    if x in f {
      assert Tally(ws + [x]) == m[x := m[x] + 1] && FirstSeen(ws + [x]) == f;
      SumCountsBump(m, f, x);
    } else {
      assert Tally(ws + [x]) == m[x := 1] && FirstSeen(ws + [x]) == f + [x];
      SumCountsFrame(m, f, x, 1);
      assert (f + [x])[..|f|] == f;
      assert SumCounts(m[x := 1], f + [x]) == SumCounts(m[x := 1], f) + 1;
    }
  }

  /** Every word of the first-seen order is a key of the table. */
  lemma OrderedWordsAreKeys(ws: seq<string>)
    ensures forall k :: k in FirstSeen(ws) ==> k in Tally(ws)
  {
    TallyCountsOccurrences(ws);
    FirstSeenWords(ws);
  }

  /** Counts depend only on how often each word occurs, not on the order of the words. */
  lemma TallyDependsOnMultiset(a: seq<string>, b: seq<string>)
    requires multiset(a) == multiset(b)
    ensures Tally(a) == Tally(b)
  {
    TallyCountsOccurrences(a);
    TallyCountsOccurrences(b);
    forall w ensures w in a <==> w in b {
      assert w in a <==> w in multiset(a);
      assert w in b <==> w in multiset(b);
    }
  }
}
