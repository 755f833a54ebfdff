/**
 The `collections.Counter` object of build_stoplist.py: a dictionary from
 word to count, updated in place, that keeps its keys in insertion order.
 */
module Counters {
  import opened Frequency
  import opened Ranking

  /**
   A `Counter` that has been fed the words of `history`: `counts` maps each
   word to its count, and `order` lists the words in insertion order.
   */
  class Counter {
    var counts: map<string, nat>
    var order: seq<string>
    ghost var history: seq<string>

    ghost predicate Valid()
      reads this
    {
      counts == Tally(history) && order == FirstSeen(history)
    }

    /** `Counter()`: empty. */
    constructor ()
      ensures Valid() && history == []
      ensures counts == map[] && order == []
    {
      counts := map[];
      order := [];
      history := [];
    }

    /** `self[w] = self.get(w, 0) + 1`: one more occurrence of `w`; a new word joins the order at the end. */
    method Increment(w: string)
      requires Valid()
      modifies this
      ensures Valid()
      ensures history == old(history) + [w]
    {
      ghost var h := history + [w];
      CountOneMore(history, w);
      if w in counts {
        counts := counts[w := counts[w] + 1];
      } else {
        counts := counts[w := 1];
        order := order + [w];
      }
      history := h;
    }

    /** `counter.update(words)`: one increment per word, in order. */
    method Update(words: seq<string>)
      requires Valid()
      modifies this
      ensures Valid()
      ensures history == old(history) + words
    {
      for i := 0 to |words|
        invariant Valid()
        invariant history == old(history) + words[..i]
      {
        Increment(words[i]);
        assert words[..i + 1] == words[..i] + [words[i]];
      }
      assert words[..|words|] == words;
    }

    /**
     `counter.most_common(n)`: `min(n, number of words)` entries, each word
     with the number of times it occurs in `history`, ranked by count with
     ties in insertion order.
     */
    function MostCommon(n: nat): (r: seq<Entry>)
      reads this
      requires Valid()
      ensures |r| == Min(n, |counts|)
      ensures forall i :: 0 <= i < |r| ==> r[i].word in history && r[i].count == multiset(history)[r[i].word]
      ensures WordsIn(r, order) && Ranked(r, order)
      ensures forall w :: w in counts <==> w in order
      ensures forall w :: w in counts && (forall i :: 0 <= i < |r| ==> r[i].word != w) ==>
        |r| == n && forall i :: 0 <= i < |r| ==> RanksBefore(order, r[i], Entry(w, counts[w]))
    {
      TallyKeys(history);
      TallyCountsOccurrences(history);
      MostCommonEntries(counts, order, n);
      MostCommonRanked(counts, order, n);
      MostCommonCutoff(counts, order, n);
      Ranking.MostCommon(counts, order, n)
    }
  }
}
