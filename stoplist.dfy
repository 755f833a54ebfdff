/**
 `main` of build_stoplist.py: count the words of every file of the input
 folder, rank the 50 most common, and write one line per ranked word.

 The folder is given as its contents: `None` when it does not exist, else
 the decoded texts of its regular files in the order of their sorted paths.
 */
module Stoplist {
  import opened Wrappers
  import opened Tokenizer
  import opened Frequency
  import opened Ranking
  import opened StoplistFormat
  import opened Counters

  /** How many words the stop list keeps (`most_common(50)`). */
  const TopCount: nat := 50

  /** The two ways a run stops before counting anything. */
  datatype Fault = FolderNotFound | NoTextFiles

  /** What a successful run produces: the ranking and the text of the output file. */
  datatype Output = Output(top: seq<Entry>, file: string)

  /** The tokens of all documents, document after document. */
  function AllTokens(docs: seq<string>): seq<string>
    decreases |docs|
  {
    if docs == [] then [] else AllTokens(docs[..|docs| - 1]) + Tokenize(docs[|docs| - 1])
  }

  /**
   The outcome of a run on a folder, as a function of its contents. A
   missing folder and an empty one each stop the run with their fault and
   no output; any other folder succeeds.
   */
  function Outcome(folder: Option<seq<string>>): (r: Result<Output, Fault>)
    ensures folder.None? <==> r == Failure(FolderNotFound)
    ensures folder == Some([]) <==> r == Failure(NoTextFiles)
    ensures folder.Some? && folder.value != [] <==> r.Success?
  {
    match folder
    case None => Failure(FolderNotFound)
    case Some(docs) =>
      if docs == [] then Failure(NoTextFiles)
      else
        var ws := AllTokens(docs);
        TallyKeys(ws);
        var top := MostCommon(Tally(ws), FirstSeen(ws), TopCount);
        Success(Output(top, Render(top, 1)))
  }

  /** The loop that writes `f"{i:2d}. {w}\t{c}\n"` for each ranked entry, from rank 1. */
  method WriteLines(top: seq<Entry>) returns (text: string)
    ensures text == Render(top, 1)
  {
    text := "";
    for i := 0 to |top|
      invariant text == Render(top[..i], 1)
    {
      RenderSnoc(top[..i], top[i], 1);
      assert top[..i + 1] == top[..i] + [top[i]];
      text := text + FormatLine(i + 1, top[i]);
    }
    assert top[..|top|] == top;
  }

  /** `main`: check the folder, count document by document, rank, write. */
  method BuildStoplist(folder: Option<seq<string>>) returns (r: Result<Output, Fault>)
    ensures r == Outcome(folder)
  {
    if folder.None? {
      return Failure(FolderNotFound);
    }
    var counter := new Counter();
    var docs := folder.value;
    if docs == [] {
      return Failure(NoTextFiles);
    }
    for i := 0 to |docs|
      invariant counter.Valid()
      invariant counter.history == AllTokens(docs[..i])
    {
      assert docs[..i + 1][..i] == docs[..i];
      counter.Update(Tokenize(docs[i]));
    }
    assert docs[..|docs|] == docs;
    var top := counter.MostCommon(TopCount);
    var text := WriteLines(top);
    r := Success(Output(top, text));
  }

  /* ---------- properties of a run ---------- */

  lemma {:induction false} AllTokensAppend(a: seq<string>, b: seq<string>)
    ensures AllTokens(a + b) == AllTokens(a) + AllTokens(b)
    decreases |b|
  {
    if b == [] {
      assert a + b == a;
    } else {
      var b' := b[..|b| - 1];
      assert (a + b)[..|a + b| - 1] == a + b';
      AllTokensAppend(a, b');
    }
  }

  /** Processing the documents in another order yields the same multiset of tokens. */
  lemma {:induction false} AllTokensPermutation(docs: seq<string>, docs': seq<string>)
    requires multiset(docs) == multiset(docs')
    ensures multiset(AllTokens(docs)) == multiset(AllTokens(docs'))
    decreases |docs|
  {
    if docs == [] {
      assert docs' == [];
    } else {
      var p := docs[..|docs| - 1];
      var x := docs[|docs| - 1];
      assert docs == p + [x];
      assert x in multiset(docs');
      var j :| 0 <= j < |docs'| && docs'[j] == x;
      RemoveOne(docs', j);
      assert multiset(p) == multiset(docs) - multiset{x};
      AllTokensPermutation(p, docs'[..j] + docs'[j + 1..]);
      AllTokensAround(docs', j);
      MultisetMiddle(AllTokens(docs'[..j]), Tokenize(x), AllTokens(docs'[j + 1..]));
    }
  }

  /** The tokens of a folder around one document, with and without it. */
  lemma AllTokensAround(docs: seq<string>, j: nat)
    requires j < |docs|
    ensures AllTokens(docs) == AllTokens(docs[..j]) + Tokenize(docs[j]) + AllTokens(docs[j + 1..])
    ensures AllTokens(docs[..j] + docs[j + 1..]) == AllTokens(docs[..j]) + AllTokens(docs[j + 1..])
  {
    var pre, x, post := docs[..j], docs[j], docs[j + 1..];
    RemoveOne(docs, j);
    AllTokensAppend(pre + [x], post);
    AllTokensAppend(pre, [x]);
    AllTokensAppend(pre, post);
    assert AllTokens([x]) == Tokenize(x) by {
      assert [x][..0] == [];
    }
    assert AllTokens(pre + [x]) == AllTokens(pre) + Tokenize(x);
  }

  /** Moving a middle block to the end keeps the multiset. */
  lemma MultisetMiddle(a: seq<string>, t: seq<string>, b: seq<string>)
    ensures multiset(a + t + b) == multiset(a + b) + multiset(t)
  {
  }

  /** Taking out the element at `j` takes one copy of it out of the multiset. */
  lemma RemoveOne(s: seq<string>, j: nat)
    requires j < |s|
    ensures s == s[..j] + [s[j]] + s[j + 1..]
    ensures multiset(s[..j] + s[j + 1..]) == multiset(s) - multiset{s[j]}
  {
    assert s == s[..j] + [s[j]] + s[j + 1..];
    assert multiset(s) == multiset(s[..j]) + multiset{s[j]} + multiset(s[j + 1..]);
  }

  /** Final counts do not depend on the order in which the documents are processed. */
  lemma CountsIndependentOfOrder(docs: seq<string>, docs': seq<string>)
    requires multiset(docs) == multiset(docs')
    ensures Tally(AllTokens(docs)) == Tally(AllTokens(docs'))
  {
    AllTokensPermutation(docs, docs');
    TallyDependsOnMultiset(AllTokens(docs), AllTokens(docs'));
  }

  /** A document without ASCII letters adds nothing to the counts. */
  lemma NoLetterDocumentAddsNothing(docs: seq<string>, doc: string)
    requires NoLetters(doc)
    ensures AllTokens(docs + [doc]) == AllTokens(docs)
  {
    NoTokensIffNoLetters(doc);
    assert (docs + [doc])[..|docs|] == docs;
  }

  /**
   A successful run ranks `min(50, number of distinct words)` words, each
   with its number of occurrences across all documents, by count with ties
   in first-seen order.
   */
  lemma RunRanking(docs: seq<string>)
    requires docs != []
    ensures Outcome(Some(docs)).Success?
    ensures var ws := AllTokens(docs); var top := Outcome(Some(docs)).value.top;
      && |top| == Min(TopCount, |set w | w in ws|)
      && (forall i :: 0 <= i < |top| ==> top[i].word in ws && top[i].count == multiset(ws)[top[i].word])
      && WordsIn(top, FirstSeen(ws)) && Ranked(top, FirstSeen(ws))
  {
    var ws := AllTokens(docs);
    var counts, order := Tally(ws), FirstSeen(ws);
    TallyKeys(ws);
    TallyCountsOccurrences(ws);
    assert counts.Keys == set w | w in ws;
    MostCommonEntries(counts, order, TopCount);
    MostCommonRanked(counts, order, TopCount);
  }

  /** The output file of a successful run reads back as its ranking, numbered 1, 2, ... */
  lemma RunFileReadsBack(docs: seq<string>)
    requires docs != []
    ensures Outcome(Some(docs)).Success?
    ensures ParseStoplist(Outcome(Some(docs)).value.file, 1) == Some(Outcome(Some(docs)).value.top)
  {
    var ws := AllTokens(docs);
    var top := Outcome(Some(docs)).value.top;
    RunRanking(docs);
    AllTokensAreWords(docs);
    forall k | 0 <= k < |top| ensures '\t' !in top[k].word && '\n' !in top[k].word {
      assert top[k].word in ws;
      var j :| 0 <= j < |ws| && ws[j] == top[k].word;
      assert IsToken(ws[j]);
    }
    RenderRoundTrip(top, 1);
  }

  /** Every counted token is a non-empty lowercase word. */
  lemma {:induction false} AllTokensAreWords(docs: seq<string>)
    ensures forall j :: 0 <= j < |AllTokens(docs)| ==> IsToken(AllTokens(docs)[j])
    decreases |docs|
  {
    if docs != [] {
      var p := AllTokens(docs[..|docs| - 1]);
      var t := Tokenize(docs[|docs| - 1]);
      AllTokensAreWords(docs[..|docs| - 1]);
      assert forall j :: |p| <= j < |p| + |t| ==> (p + t)[j] == t[j - |p|];
    }
  }

  /** A word left out of a successful run's ranking ranks after every word in it. */
  lemma RunCutoff(docs: seq<string>, w: string)
    requires docs != []
    requires w in AllTokens(docs)
    requires forall i :: 0 <= i < |Outcome(Some(docs)).value.top| ==> Outcome(Some(docs)).value.top[i].word != w
    ensures |Outcome(Some(docs)).value.top| == TopCount
    ensures forall i :: 0 <= i < TopCount ==>
      var ws := AllTokens(docs); var e := Outcome(Some(docs)).value.top[i];
      e.word in FirstSeen(ws) && w in FirstSeen(ws) &&
      RanksBefore(FirstSeen(ws), e, Entry(w, multiset(ws)[w]))
  {
    var ws := AllTokens(docs);
    var counts, order := Tally(ws), FirstSeen(ws);
    var top := Outcome(Some(docs)).value.top;
    TallyKeys(ws);
    TallyCountsOccurrences(ws);
    assert top == MostCommon(counts, order, TopCount);
    assert w in counts && counts[w] == multiset(ws)[w];
    MostCommonCutoff(counts, order, TopCount);
  }
}
