/** Worked runs of the stop-list builder on small folders. */
module Scenarios {
  import opened Wrappers
  import opened Tokenizer
  import opened Frequency
  import opened Ranking
  import opened StoplistFormat
  import opened Stoplist

  lemma OneFileLower()
    ensures Lower("Cat dog CAT. Dog dog!") == "cat dog cat. dog dog!"
  {
    var text := "Cat dog CAT. Dog dog!";
    var low := "cat dog cat. dog dog!";
    forall i | 0 <= i < |text| ensures LowerChar(text[i]) == low[i] {
    }
  }

  lemma OneFileWeave()
    ensures Weave(["", " ", " ", ". ", " ", "!"], ["cat", "dog", "cat", "dog", "dog"]) == "cat dog cat. dog dog!"
  {
    OneFileWeaveTail();
    WeaveStep(" ", "dog", [" ", ". ", " ", "!"], ["cat", "dog", "dog"]);
    WeaveStep("", "cat", [" ", " ", ". ", " ", "!"], ["dog", "cat", "dog", "dog"]);
  }

  lemma OneFileWeaveTail()
    ensures Weave([" ", ". ", " ", "!"], ["cat", "dog", "dog"]) == " cat. dog dog!"
  {
    WeaveStep(" ", "dog", ["!"], []);
    WeaveStep(". ", "dog", [" ", "!"], ["dog"]);
    WeaveStep(" ", "cat", [". ", " ", "!"], ["dog", "dog"]);
  }

  lemma OneFileTokens()
    ensures Tokenize("Cat dog CAT. Dog dog!") == ["cat", "dog", "cat", "dog", "dog"]
  {
    var toks := ["cat", "dog", "cat", "dog", "dog"];
    var gaps := ["", " ", " ", ". ", " ", "!"];
    OneFileLower();
    OneFileWeave();
    assert forall k :: 0 <= k < |toks| ==> |toks[k]| > 0 && AllLetters(toks[k]);
    assert forall k :: 0 <= k < |gaps| ==> NoLetters(gaps[k]);
    SplitIsFindAll("cat dog cat. dog dog!", gaps, toks);
  }

  lemma OneFileCounts()
    ensures Tally(["cat", "dog", "cat", "dog", "dog"]) == map["cat" := 2, "dog" := 3]
    ensures FirstSeen(["cat", "dog", "cat", "dog", "dog"]) == ["cat", "dog"]
  {
    var t: seq<string> := [];
    CountOneMore(t, "cat");
    t := t + ["cat"];
    assert Tally(t) == map["cat" := 1] && FirstSeen(t) == ["cat"];
    CountOneMore(t, "dog");
    t := t + ["dog"];
    assert Tally(t) == map["cat" := 1, "dog" := 1] && FirstSeen(t) == ["cat", "dog"];
    CountOneMore(t, "cat");
    t := t + ["cat"];
    assert Tally(t) == map["cat" := 2, "dog" := 1] && FirstSeen(t) == ["cat", "dog"];
    CountOneMore(t, "dog");
    t := t + ["dog"];
    assert Tally(t) == map["cat" := 2, "dog" := 2] && FirstSeen(t) == ["cat", "dog"];
    CountOneMore(t, "dog");
    t := t + ["dog"];
    assert Tally(t) == map["cat" := 2, "dog" := 3] && FirstSeen(t) == ["cat", "dog"];
    assert t == ["cat", "dog", "cat", "dog", "dog"];
  }

  lemma OneFileRanking()
    ensures MostCommon(map["cat" := 2, "dog" := 3], ["cat", "dog"], TopCount) == [Entry("dog", 3), Entry("cat", 2)]
  {
    var items := Items(map["cat" := 2, "dog" := 3], ["cat", "dog"]);
    assert items == [Entry("cat", 2), Entry("dog", 3)];
    assert items[..1] == [Entry("cat", 2)];
    assert items[..1][..0] == [];
    assert SortByCount(items[..1]) == [Entry("cat", 2)];
    assert SortByCount(items) == [Entry("dog", 3), Entry("cat", 2)];
  }

  /** One file `Cat dog CAT. Dog dog!`: `dog` 3 times, then `cat` 2 times. */
  lemma OneFileRun()
    ensures Outcome(Some(["Cat dog CAT. Dog dog!"])).value.top == [Entry("dog", 3), Entry("cat", 2)]
  {
    OneFileTokens();
    assert ["Cat dog CAT. Dog dog!"][..0] == [];
    assert AllTokens(["Cat dog CAT. Dog dog!"]) == ["cat", "dog", "cat", "dog", "dog"];
    OneFileCounts();
    OneFileRanking();
  }

  lemma TwoFileCounts()
    ensures Tally(["a", "a", "a", "b", "b"]) == map["a" := 3, "b" := 2]
    ensures FirstSeen(["a", "a", "a", "b", "b"]) == ["a", "b"]
  {
    var t: seq<string> := [];
    CountOneMore(t, "a");
    t := t + ["a"];
    assert Tally(t) == map["a" := 1] && FirstSeen(t) == ["a"];
    CountOneMore(t, "a");
    t := t + ["a"];
    assert Tally(t) == map["a" := 2] && FirstSeen(t) == ["a"];
    CountOneMore(t, "a");
    t := t + ["a"];
    assert Tally(t) == map["a" := 3] && FirstSeen(t) == ["a"];
    CountOneMore(t, "b");
    t := t + ["b"];
    assert Tally(t) == map["a" := 3, "b" := 1] && FirstSeen(t) == ["a", "b"];
    CountOneMore(t, "b");
    t := t + ["b"];
    assert Tally(t) == map["a" := 3, "b" := 2] && FirstSeen(t) == ["a", "b"];
    assert t == ["a", "a", "a", "b", "b"];
  }

  lemma TokensOfAAA()
    ensures Tokenize("a a a") == ["a", "a", "a"]
  {
    var ts := ["a", "a", "a"];
    assert JoinSpaces(ts[2..]) == "a";
    assert JoinSpaces(ts[1..]) == "a a";
    assert JoinSpaces(ts) == "a a a";
    forall i | 0 <= i < 5 ensures LowerChar("a a a"[i]) == "a a a"[i] {}
    assert Lower("a a a") == "a a a";
    FindAllJoin(ts);
  }

  lemma TokensOfBB()
    ensures Tokenize("b b") == ["b", "b"]
  {
    var ts := ["b", "b"];
    assert JoinSpaces(ts[1..]) == "b";
    assert JoinSpaces(ts) == "b b";
    forall i | 0 <= i < 3 ensures LowerChar("b b"[i]) == "b b"[i] {}
    assert Lower("b b") == "b b";
    FindAllJoin(ts);
  }

  lemma TwoFileTokens()
    ensures AllTokens(["a a a", "b b"]) == ["a", "a", "a", "b", "b"]
  {
    TokensOfAAA();
    TokensOfBB();
    var docs := ["a a a", "b b"];
    assert docs[..1] == ["a a a"];
    assert docs[..1][..0] == [];
    assert AllTokens(docs[..1]) == ["a", "a", "a"];
  }

  lemma TwoFileRanking()
    ensures MostCommon(map["a" := 3, "b" := 2], ["a", "b"], TopCount) == [Entry("a", 3), Entry("b", 2)]
  {
    var items := Items(map["a" := 3, "b" := 2], ["a", "b"]);
    assert items == [Entry("a", 3), Entry("b", 2)];
    assert items[..1] == [Entry("a", 3)];
    assert items[..1][..0] == [];
    assert SortByCount(items[..1]) == [Entry("a", 3)];
    assert SortByCount(items) == [Entry("a", 3), Entry("b", 2)];
  }

  /** Files `a a a` and `b b`: `a` 3 times, then `b` 2 times. */
  lemma TwoFileRun()
    ensures Outcome(Some(["a a a", "b b"])).value.top == [Entry("a", 3), Entry("b", 2)]
  {
    TwoFileTokens();
    TwoFileCounts();
    TwoFileRanking();
  }

  /** The file written for that ranking begins with the line ` 1. a<TAB>3`. */
  lemma TwoFileOutput()
    ensures Render([Entry("a", 3), Entry("b", 2)], 1) == " 1. a\t3\n 2. b\t2\n"
  {
    var top := [Entry("a", 3), Entry("b", 2)];
    assert top[1..] == [Entry("b", 2)];
    assert top[1..][1..] == [];
    assert FormatLine(1, top[0]) == " 1. a\t3\n";
    assert FormatLine(2, top[1]) == " 2. b\t2\n";
  }

  /** A file of digits and punctuation only gives no tokens. */
  lemma NoLetterFile()
    ensures Tokenize("123 !!! ---") == []
  {
    var t := "123 !!! ---";
    assert NoLetters(t) by {
      forall i | 0 <= i < |t| ensures !IsLetter(t[i]) {
      }
    }
    NoTokensIffNoLetters(t);
  }

  /** A file holding one lowercase word gives that word. */
  lemma OneWordFile(x: string)
    requires IsToken(x)
    ensures Tokenize(x) == [x]
  {
    assert Lower(x) == x;
    assert JoinSpaces([x]) == x;
    FindAllJoin([x]);
  }

  /** Two files of one word each: both counted once, the first file's word ranked first. */
  lemma TwoOneWordFiles(x: string, y: string)
    requires IsToken(x) && IsToken(y) && x != y
    ensures Outcome(Some([x, y])).value.top == [Entry(x, 1), Entry(y, 1)]
  {
    OneWordFile(x);
    OneWordFile(y);
    assert [x, y][..1] == [x];
    assert [x][..0] == [];
    assert AllTokens([x]) == [x];
    var ws := AllTokens([x, y]);
    assert ws == [x, y];
    CountOneMore([], x);
    CountOneMore([x], y);
    assert ws == [x] + [y];
    assert Tally(ws) == map[x := 1, y := 1];
    assert FirstSeen(ws) == [x, y];
    var items := Items(map[x := 1, y := 1], [x, y]);
    assert items == [Entry(x, 1), Entry(y, 1)];
    assert items[..1] == [Entry(x, 1)];
    assert items[..1][..0] == [];
    assert SortByCount(items[..1]) == [Entry(x, 1)];
    assert SortByCount(items) == [Entry(x, 1), Entry(y, 1)];
  }

  /** Swapping the two files swaps the tied words in the ranking. */
  lemma TieOrderFollowsFileOrder()
    ensures Outcome(Some(["a", "b"])).value.top == [Entry("a", 1), Entry("b", 1)]
    ensures Outcome(Some(["b", "a"])).value.top == [Entry("b", 1), Entry("a", 1)]
    ensures Outcome(Some(["a", "b"])).value.top != Outcome(Some(["b", "a"])).value.top
  {
    TwoOneWordFiles("a", "b");
    TwoOneWordFiles("b", "a");
  }
}
