/**
 `Counter.most_common(n)`: the entries sorted by count, highest first, by a
 stable sort over insertion order, cut to the first `n`.
 */
module Ranking {
  import opened Frequency

  /** One `(word, count)` pair of the ranking. */
  datatype Entry = Entry(word: string, count: nat)

  /** `counter.items()`: one entry per word of the order, in that order. */
  function Items(counts: map<string, nat>, order: seq<string>): (r: seq<Entry>)
    requires forall w :: w in order ==> w in counts
    ensures |r| == |order|
  {
    seq(|order|, i requires 0 <= i < |order| => Entry(order[i], counts[order[i]]))
  }

  /** The items are exactly the pairs of a word of the order with its count. */
  lemma ItemsArePairs(counts: map<string, nat>, order: seq<string>)
    requires forall w :: w in order ==> w in counts
    ensures forall e: Entry :: e in Items(counts, order) <==> e.word in order && e.count == counts[e.word]
  {
    var r := Items(counts, order);
    forall e: Entry | e.word in order && e.count == counts[e.word] ensures e in r {
      assert r[IndexOf(order, e.word)] == e;
    }
  }

  /**
   The ranking order: a higher count first; on equal counts, the word
   inserted into the counter first.
   */
  predicate RanksBefore(order: seq<string>, x: Entry, y: Entry)
    requires x.word in order && y.word in order
  {
    x.count > y.count || (x.count == y.count && IndexOf(order, x.word) < IndexOf(order, y.word))
  }

  predicate WordsIn(s: seq<Entry>, order: seq<string>)
  {
    forall i :: 0 <= i < |s| ==> s[i].word in order
  }

  predicate Ranked(s: seq<Entry>, order: seq<string>)
    requires WordsIn(s, order)
  {
    forall i, j :: 0 <= i < j < |s| ==> RanksBefore(order, s[i], s[j])
  }

  /** Place `e` after every entry whose count is at least its own. */
  function Insert(s: seq<Entry>, e: Entry): (r: seq<Entry>)
    ensures multiset(r) == multiset(s) + multiset{e}
    ensures |r| == |s| + 1
  {
    if s == [] then [e]
    else if s[0].count >= e.count then
      assert s == [s[0]] + s[1..];
      [s[0]] + Insert(s[1..], e)
    else [e] + s
  }

  /** `sorted(items, key=count, reverse=True)`, stable: insertion sort, left to right. */
  function SortByCount(s: seq<Entry>): (r: seq<Entry>)
    ensures multiset(r) == multiset(s)
    ensures |r| == |s|
    decreases |s|
  {
    if s == [] then []
    else
      assert s == s[..|s| - 1] + [s[|s| - 1]];
      Insert(SortByCount(s[..|s| - 1]), s[|s| - 1])
  }

  function Min(a: nat, b: nat): nat { if a < b then a else b }

  /** `counter.most_common(n)`. */
  function MostCommon(counts: map<string, nat>, order: seq<string>, n: nat): (r: seq<Entry>)
    requires forall w :: w in order ==> w in counts
    ensures |r| == Min(n, |order|)
  {
    var sorted := SortByCount(Items(counts, order));
    sorted[..Min(n, |sorted|)]
  }

  /* ---------- the sort is the stable sort by descending count ---------- */

  lemma RankedCons(x: Entry, s: seq<Entry>, order: seq<string>)
    requires x.word in order && WordsIn(s, order)
    requires Ranked(s, order)
    requires forall j :: 0 <= j < |s| ==> RanksBefore(order, x, s[j])
    ensures WordsIn([x] + s, order)
    ensures Ranked([x] + s, order)
  {
    var r := [x] + s;
    forall i, j | 0 <= i < j < |r| ensures RanksBefore(order, r[i], r[j]) {
      if i > 0 {
        assert r[i] == s[i - 1] && r[j] == s[j - 1];
      } else {
        assert r[j] == s[j - 1];
      }
    }
  }

  lemma {:induction false} InsertRanked(s: seq<Entry>, e: Entry, order: seq<string>)
    requires WordsIn(s, order) && e.word in order
    requires Ranked(s, order)
    requires forall i :: 0 <= i < |s| ==> IndexOf(order, s[i].word) < IndexOf(order, e.word)
    ensures WordsIn(Insert(s, e), order)
    ensures Ranked(Insert(s, e), order)
    decreases |s|
  {
    if s == [] {
    } else if s[0].count >= e.count {
      var t := s[1..];
      assert Ranked(t, order) by {
        forall i, j | 0 <= i < j < |t| ensures RanksBefore(order, t[i], t[j]) {
          assert t[i] == s[i + 1] && t[j] == s[j + 1];
        }
      }
      InsertRanked(t, e, order);
      var u := Insert(t, e);
      forall j | 0 <= j < |u| ensures RanksBefore(order, s[0], u[j]) {
        assert u[j] in multiset(t) + multiset{e};
        if u[j] != e {
          assert u[j] in t;
          var k :| 0 <= k < |t| && t[k] == u[j];
          assert s[k + 1] == u[j];
        }
      }
      RankedCons(s[0], u, order);
    } else {
      forall j | 0 <= j < |s| ensures RanksBefore(order, e, s[j]) {
        if j > 0 { assert RanksBefore(order, s[0], s[j]); }
      }
      RankedCons(e, s, order);
    }
  }

  lemma {:induction false} SortByCountRanked(s: seq<Entry>, order: seq<string>)
    requires WordsIn(s, order)
    requires forall i, j :: 0 <= i < j < |s| ==> IndexOf(order, s[i].word) < IndexOf(order, s[j].word)
    ensures WordsIn(SortByCount(s), order)
    ensures Ranked(SortByCount(s), order)
    decreases |s|
  {
    if s != [] {
      var p := s[..|s| - 1];
      var e := s[|s| - 1];
      SortByCountRanked(p, order);
      var q := SortByCount(p);
      forall i | 0 <= i < |q| ensures IndexOf(order, q[i].word) < IndexOf(order, e.word) {
        assert q[i] in multiset(p);
        var k :| 0 <= k < |p| && p[k] == q[i];
        assert s[k] == q[i];
      }
      InsertRanked(q, e, order);
    }
  }

  /**
   With distinct words in `order`, the entries sorted by `SortByCount` are a
   permutation of `counter.items()` in which every entry ranks before each
   later one: by count, highest first, ties in insertion order.
   */
  lemma SortedItems(counts: map<string, nat>, order: seq<string>)
    requires forall w :: w in order ==> w in counts
    requires Distinct(order)
    ensures WordsIn(SortByCount(Items(counts, order)), order)
    ensures Ranked(SortByCount(Items(counts, order)), order)
  {
    var items := Items(counts, order);
    forall k | 0 <= k < |order| ensures IndexOf(order, order[k]) == k {
      IndexOfDistinct(order, k);
    }
    SortByCountRanked(items, order);
  }

  lemma RankedTail(s: seq<Entry>, order: seq<string>)
    requires s != [] && WordsIn(s, order) && Ranked(s, order)
    ensures WordsIn(s[1..], order) && Ranked(s[1..], order)
  {
    var t := s[1..];
    forall i, j | 0 <= i < j < |t| ensures RanksBefore(order, t[i], t[j]) {
      assert t[i] == s[i + 1] && t[j] == s[j + 1];
    }
  }

  /** Two ranked arrangements of the same entries start with the same entry. */
  lemma RankedHeads(a: seq<Entry>, b: seq<Entry>, order: seq<string>)
    requires a != [] && WordsIn(a, order) && WordsIn(b, order)
    requires Ranked(a, order) && Ranked(b, order)
    requires multiset(a) == multiset(b)
    ensures b != [] && a[0] == b[0]
  {
    assert a[0] in multiset(b);
    assert b[0] in multiset(a);
    var k :| 0 <= k < |b| && b[k] == a[0];
    var m :| 0 <= m < |a| && a[m] == b[0];
    if k > 0 && m > 0 {
      assert false;
    }
  }

  /**
   Ranking order is a strict total order on entries of distinct words, so
   there is only one ranked arrangement of a given set of entries: the
   stable sort is the only possible answer.
   */
  lemma {:induction false} RankedIsUnique(a: seq<Entry>, b: seq<Entry>, order: seq<string>)
    requires WordsIn(a, order) && WordsIn(b, order)
    requires Ranked(a, order) && Ranked(b, order)
    requires multiset(a) == multiset(b)
    ensures a == b
    decreases |a|
  {
    if a == [] {
      assert |b| == |multiset(b)| == 0;
    } else {
      RankedHeads(a, b, order);
      RankedTail(a, order);
      RankedTail(b, order);
      SameTails(a, b);
      RankedIsUnique(a[1..], b[1..], order);
      assert a == [a[0]] + a[1..] && b == [b[0]] + b[1..];
    }
  }

  /** Two lists with the same elements and the same head have the same elements after it. */
  lemma SameTails(a: seq<Entry>, b: seq<Entry>)
    requires a != [] && b != [] && a[0] == b[0]
    requires multiset(a) == multiset(b)
    ensures multiset(a[1..]) == multiset(b[1..])
  {
    assert a == [a[0]] + a[1..] && b == [b[0]] + b[1..];
    assert multiset(a[1..]) == multiset(a) - multiset{a[0]};
    assert multiset(b[1..]) == multiset(b) - multiset{b[0]};
  }

  /**
   The sort gives the one arrangement of `counter.items()` that is ranked by
   count with ties in insertion order.
   */
  lemma SortIsTheRanking(counts: map<string, nat>, order: seq<string>, r: seq<Entry>)
    requires forall w :: w in order ==> w in counts
    requires Distinct(order)
    requires WordsIn(r, order) && Ranked(r, order)
    requires multiset(r) == multiset(Items(counts, order))
    ensures SortByCount(Items(counts, order)) == r
  {
    SortedItems(counts, order);
    RankedIsUnique(SortByCount(Items(counts, order)), r, order);
  }

  lemma {:induction false} IndexOfDistinct(s: seq<string>, k: nat)
    requires Distinct(s) && k < |s|
    ensures IndexOf(s, s[k]) == k
  {
    var i := IndexOf(s, s[k]);
    assert s[i] == s[k];
  }

  /* ---------- most_common(n) ---------- */

  /** The entries of `most_common(n)`: one per word, and how many there are. */
  lemma MostCommonEntries(counts: map<string, nat>, order: seq<string>, n: nat)
    requires forall w :: w in counts <==> w in order
    requires Distinct(order)
    ensures |MostCommon(counts, order, n)| == Min(n, |counts|)
    ensures forall i :: 0 <= i < |MostCommon(counts, order, n)| ==>
      var e := MostCommon(counts, order, n)[i]; e.word in counts && e.count == counts[e.word]
  {
    var items := Items(counts, order);
    var sorted := SortByCount(items);
    var r := MostCommon(counts, order, n);
    DistinctCardinality(order);
    assert counts.Keys == set w | w in order;
    forall i | 0 <= i < |r| ensures r[i].word in counts && r[i].count == counts[r[i].word] {
      assert r[i] == sorted[i];
      assert sorted[i] in multiset(items);
      var k :| 0 <= k < |items| && items[k] == sorted[i];
    }
  }

  /** `most_common(n)` is ranked: by count, highest first, ties in insertion order. */
  lemma MostCommonRanked(counts: map<string, nat>, order: seq<string>, n: nat)
    requires forall w :: w in order ==> w in counts
    requires Distinct(order)
    ensures WordsIn(MostCommon(counts, order, n), order)
    ensures Ranked(MostCommon(counts, order, n), order)
  {
    var sorted := SortByCount(Items(counts, order));
    var r := MostCommon(counts, order, n);
    SortedItems(counts, order);
    assert forall i :: 0 <= i < |r| ==> r[i] == sorted[i];
  }

  /**
   Every entry `most_common(n)` returns ranks before every word it leaves
   out; in particular no word left out has a higher count than the last
   entry, and a word left out happens only when `n` entries were returned.
   */
  lemma MostCommonCutoff(counts: map<string, nat>, order: seq<string>, n: nat)
    requires forall w :: w in counts <==> w in order
    requires Distinct(order)
    ensures WordsIn(MostCommon(counts, order, n), order)
    ensures forall w :: w in counts && (forall i :: 0 <= i < |MostCommon(counts, order, n)| ==> MostCommon(counts, order, n)[i].word != w) ==>
      |MostCommon(counts, order, n)| == n &&
      forall i :: 0 <= i < n ==> RanksBefore(order, MostCommon(counts, order, n)[i], Entry(w, counts[w]))
  {
    MostCommonEntries(counts, order, n);
    forall w | w in counts && (forall i :: 0 <= i < |MostCommon(counts, order, n)| ==> MostCommon(counts, order, n)[i].word != w)
      ensures |MostCommon(counts, order, n)| == n
      ensures forall i :: 0 <= i < n ==> RanksBefore(order, MostCommon(counts, order, n)[i], Entry(w, counts[w]))
    {
      OmittedRanksAfter(counts, order, n, w);
    }
  }

  /** The cutoff for one word left out. */
  lemma OmittedRanksAfter(counts: map<string, nat>, order: seq<string>, n: nat, w: string)
    requires forall w :: w in counts <==> w in order
    requires Distinct(order)
    requires w in counts
    requires forall i :: 0 <= i < |MostCommon(counts, order, n)| ==> MostCommon(counts, order, n)[i].word != w
    ensures |MostCommon(counts, order, n)| == n
    ensures WordsIn(MostCommon(counts, order, n), order)
    ensures forall i :: 0 <= i < n ==> RanksBefore(order, MostCommon(counts, order, n)[i], Entry(w, counts[w]))
  {
    var items := Items(counts, order);
    var sorted := SortByCount(items);
    var r := MostCommon(counts, order, n);
    SortedItems(counts, order);
    var e := Entry(w, counts[w]);
    ItemsArePairs(counts, order);
    assert e in multiset(items);
    assert e in multiset(sorted);
    assert forall i :: 0 <= i < |r| ==> r[i] == sorted[i];
    RankedPrefixBefore(sorted, order, |r|, e);
  }

  /** In a ranked list, an entry missing from a prefix ranks after everything in it, and lies beyond it. */
  lemma RankedPrefixBefore(s: seq<Entry>, order: seq<string>, p: nat, e: Entry)
    requires WordsIn(s, order) && Ranked(s, order)
    requires e in s && p <= |s|
    requires forall i :: 0 <= i < p ==> s[i].word != e.word
    ensures p < |s|
    ensures e.word in order
    ensures forall i :: 0 <= i < p ==> RanksBefore(order, s[i], e)
  {
    var m :| 0 <= m < |s| && s[m] == e;
    assert m >= p;
  }
}
