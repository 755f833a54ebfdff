/**
 Tokenizing as done by `tokenize` in build_stoplist.py: the text is lowered,
 then every maximal run of ASCII letters (the pattern `[A-Za-z]+`) is
 returned, in the order the runs occur.
 */
module Tokenizer {

  predicate IsUpper(c: char) { 'A' <= c <= 'Z' }

  predicate IsLower(c: char) { 'a' <= c <= 'z' }

  /** A character matched by the class `[A-Za-z]`. */
  predicate IsLetter(c: char) { IsUpper(c) || IsLower(c) }

  predicate AllLetters(s: string) { forall i :: 0 <= i < |s| ==> IsLetter(s[i]) }

  predicate NoLetters(s: string) { forall i :: 0 <= i < |s| ==> !IsLetter(s[i]) }

  /** A well-formed token: a non-empty word of the letters `a` to `z`. */
  predicate IsToken(w: string) { |w| > 0 && forall i :: 0 <= i < |w| ==> IsLower(w[i]) }

  /** `str.lower()` restricted to ASCII: only `A`-`Z` change. */
  function LowerChar(c: char): (d: char)
    ensures IsLetter(d) <==> IsLetter(c)
    ensures !IsUpper(d)
    ensures IsLower(c) || !IsLetter(c) ==> d == c
    ensures IsUpper(c) ==> d as int - 'a' as int == c as int - 'A' as int
  {
    if IsUpper(c) then (c as int - 'A' as int + 'a' as int) as char else c
  }

  function Lower(s: string): (r: string)
    ensures |r| == |s|
    ensures forall i :: 0 <= i < |s| ==> r[i] == LowerChar(s[i])
  {
    seq(|s|, i requires 0 <= i < |s| => LowerChar(s[i]))
  }

  /** Length of the run of letters that starts `s`. */
  function LeadingLetters(s: string): (k: nat)
    ensures k <= |s|
    ensures AllLetters(s[..k])
    ensures k == |s| || !IsLetter(s[k])
  {
    if s == [] || !IsLetter(s[0]) then 0 else 1 + LeadingLetters(s[1..])
  }

  /** Length of the run of non-letters that starts `s`. */
  function LeadingGap(s: string): (k: nat)
    ensures k <= |s|
    ensures NoLetters(s[..k])
    ensures k == |s| || IsLetter(s[k])
  {
    if s == [] || IsLetter(s[0]) then 0 else 1 + LeadingGap(s[1..])
  }

  /** `findall` of `[A-Za-z]+`: the maximal letter runs, left to right. */
  function FindAll(s: string): seq<string>
    decreases |s|
  {
    if s == [] then []
    else if !IsLetter(s[0]) then FindAll(s[1..])
    else
      var k := LeadingLetters(s);
      [s[..k]] + FindAll(s[k..])
  }

  /** build_stoplist.py `tokenize`: `findall` over the lowered text; every token is a word over `a`-`z`. */
  function Tokenize(text: string): (r: seq<string>)
    ensures forall k :: 0 <= k < |r| ==> IsToken(r[k])
  {
    LoweredRunsAreWords(Lower(text));
    FindAll(Lower(text))
  }

  /* ---------- what the tokens are ---------- */

  /** Every run found is non-empty and made of letters only. */
  lemma {:induction false} FindAllLetters(s: string)
    ensures forall k :: 0 <= k < |FindAll(s)| ==> |FindAll(s)[k]| > 0 && AllLetters(FindAll(s)[k])
    decreases |s|
  {
    if s == [] {
    } else if !IsLetter(s[0]) {
      FindAllLetters(s[1..]);
    } else {
      var k := LeadingLetters(s);
      FindAllLetters(s[k..]);
    }
  }

  /** In a text without upper-case letters, every run found is a word over `a`-`z`. */
  lemma {:induction false} LoweredRunsAreWords(s: string)
    requires forall i :: 0 <= i < |s| ==> !IsUpper(s[i])
    ensures forall k :: 0 <= k < |FindAll(s)| ==> IsToken(FindAll(s)[k])
  {
    FindAllLetters(s);
    forall k | 0 <= k < |FindAll(s)| ensures IsToken(FindAll(s)[k]) {
      FindAllSubstring(s, k);
    }
  }

  /** Each run found is a piece of the text it was found in (so it keeps the text's case). */
  lemma {:induction false} FindAllSubstring(s: string, k: nat)
    requires k < |FindAll(s)|
    ensures exists lo, hi :: 0 <= lo <= hi <= |s| && FindAll(s)[k] == s[lo..hi]
    decreases |s|
  {
    if !IsLetter(s[0]) {
      assert FindAll(s) == FindAll(s[1..]);
      FindAllSubstring(s[1..], k);
      var lo, hi :| 0 <= lo <= hi <= |s[1..]| && FindAll(s[1..])[k] == s[1..][lo..hi];
      SliceOfSlice(s, 1, lo, hi);
      assert FindAll(s)[k] == s[lo + 1..hi + 1];
    } else {
      var n := LeadingLetters(s);
      assert FindAll(s) == [s[..n]] + FindAll(s[n..]);
      if k == 0 {
        assert FindAll(s)[0] == s[0..n];
      } else {
        FindAllSubstring(s[n..], k - 1);
        var lo, hi :| 0 <= lo <= hi <= |s[n..]| && FindAll(s[n..])[k - 1] == s[n..][lo..hi];
        SliceOfSlice(s, n, lo, hi);
        assert FindAll(s)[k] == s[lo + n..hi + n];
      }
    }
  }

  lemma {:induction false} SliceOfSlice(s: string, a: nat, lo: nat, hi: nat)
    requires a <= |s| && lo <= hi <= |s| - a
    ensures s[a..][lo..hi] == s[a + lo..a + hi]
  {
  }

  /* ---------- runs are maximal and in order ---------- */

  /** `gaps[0] + toks[0] + gaps[1] + ... + toks[n-1] + gaps[n]`. */
  function Weave(gaps: seq<string>, toks: seq<string>): string
    requires |gaps| == |toks| + 1
  {
    if toks == [] then gaps[0] else gaps[0] + toks[0] + Weave(gaps[1..], toks[1..])
  }

  /**
   `s` cut into letter runs `toks` separated by letter-free `gaps`; the gaps
   between two runs are non-empty, so no run can be extended on either side.
   */
  ghost predicate IsSplit(s: string, gaps: seq<string>, toks: seq<string>)
  {
    && |gaps| == |toks| + 1
    && (forall k :: 0 <= k < |toks| ==> |toks[k]| > 0 && AllLetters(toks[k]))
    && (forall k :: 0 <= k < |gaps| ==> NoLetters(gaps[k]))
    && (forall k :: 0 < k < |toks| ==> gaps[k] != [])
    && s == Weave(gaps, toks)
  }

  /** The separators between the runs that `FindAll` returns. */
  ghost function Gaps(s: string): (g: seq<string>)
    ensures |g| == |FindAll(s)| + 1
    ensures g[0] == s[..LeadingGap(s)]
    decreases |s|
  {
    if s == [] then [[]]
    else if !IsLetter(s[0]) then
      var g := Gaps(s[1..]);
      [[s[0]] + g[0]] + g[1..]
    else
      [[]] + Gaps(s[LeadingLetters(s)..])
  }

  lemma {:induction false} WeavePrefix(p: string, gaps: seq<string>, toks: seq<string>)
    requires |gaps| == |toks| + 1
    ensures Weave([p + gaps[0]] + gaps[1..], toks) == p + Weave(gaps, toks)
  {
    var g' := [p + gaps[0]] + gaps[1..];
    assert g'[1..] == gaps[1..];
  }

  /** The runs found, with their separators, rebuild the text exactly. */
  lemma {:induction false} FindAllSplits(s: string)
    ensures IsSplit(s, Gaps(s), FindAll(s))
  {
    FindAllLetters(s);
    GapsHaveNoLetters(s);
    InnerGapsNonEmpty(s);
    GapsWeave(s);
  }

  /** No separator holds a letter. */
  lemma {:induction false} GapsHaveNoLetters(s: string)
    ensures forall k :: 0 <= k < |Gaps(s)| ==> NoLetters(Gaps(s)[k])
    decreases |s|
  {
    if s == [] {
    } else if !IsLetter(s[0]) {
      GapsHaveNoLetters(s[1..]);
      NoLetterGapsCons([s[0]], Gaps(s[1..]));
    } else {
      GapsHaveNoLetters(s[LeadingLetters(s)..]);
      NoLetterGapsCons([], Gaps(s[LeadingLetters(s)..]));
    }
  }

  /** Putting letter-free text in front of the first gap keeps every gap letter-free. */
  lemma {:induction false} NoLetterGapsCons(p: string, gaps: seq<string>)
    requires NoLetters(p) && gaps != []
    requires forall k :: 0 <= k < |gaps| ==> NoLetters(gaps[k])
    ensures forall k :: 0 <= k < |gaps| ==> NoLetters(([p + gaps[0]] + gaps[1..])[k])
    ensures forall k :: 0 <= k <= |gaps| ==> NoLetters(([p] + gaps)[k])
  {
  }

  /** Two runs found next to each other are always separated by at least one character. */
  lemma {:induction false} InnerGapsNonEmpty(s: string)
    ensures forall k :: 0 < k < |FindAll(s)| ==> Gaps(s)[k] != []
    decreases |s|
  {
    if s == [] {
    } else if !IsLetter(s[0]) {
      InnerGapsNonEmpty(s[1..]);
      InnerGapsPrefix([s[0]], Gaps(s[1..]), |FindAll(s[1..])|);
    } else {
      var k := LeadingLetters(s);
      var rest := s[k..];
      InnerGapsNonEmpty(rest);
      if FindAll(rest) != [] {
        assert !IsLetter(rest[0]);
        assert LeadingGap(rest) > 0;
      }
      InnerGapsRun(Gaps(rest), |FindAll(rest)|);
    }
  }

  lemma {:induction false} InnerGapsPrefix(p: string, gaps: seq<string>, n: nat)
    requires |gaps| == n + 1
    requires forall k :: 0 < k < n ==> gaps[k] != []
    ensures forall k :: 0 < k < n ==> ([p + gaps[0]] + gaps[1..])[k] != []
  {
  }

  /** A run in front: the old first gap becomes an inner gap, so it must be non-empty if a run follows it. */
  lemma {:induction false} InnerGapsRun(gaps: seq<string>, n: nat)
    requires |gaps| == n + 1
    requires forall k :: 0 < k < n ==> gaps[k] != []
    requires n > 0 ==> gaps[0] != []
    ensures forall k :: 0 < k < n + 1 ==> ([[]] + gaps)[k] != []
  {
  }

  /** Writing out the separators and runs in turn gives back the text. */
  lemma {:induction false} GapsWeave(s: string)
    ensures s == Weave(Gaps(s), FindAll(s))
    decreases |s|
  {
    if s == [] {
    } else if !IsLetter(s[0]) {
      GapsWeave(s[1..]);
      WeaveAfterGap(s);
    } else {
      GapsWeave(s[LeadingLetters(s)..]);
      WeaveAfterRun(s);
    }
  }

  lemma {:induction false} WeaveAfterGap(s: string)
    requires s != [] && !IsLetter(s[0])
    requires s[1..] == Weave(Gaps(s[1..]), FindAll(s[1..]))
    ensures s == Weave(Gaps(s), FindAll(s))
  {
    GapsAfterGap(s);
    TakeDropJoin(s, 1);
    WeavePrefix(s[..1], Gaps(s[1..]), FindAll(s[1..]));
  }

  lemma {:induction false} WeaveAfterRun(s: string)
    requires s != [] && IsLetter(s[0])
    requires s[LeadingLetters(s)..] == Weave(Gaps(s[LeadingLetters(s)..]), FindAll(s[LeadingLetters(s)..]))
    ensures s == Weave(Gaps(s), FindAll(s))
  {
    var k := LeadingLetters(s);
    GapsAfterRun(s);
    TakeDropJoin(s, k);
    WeaveStep([], s[..k], Gaps(s[k..]), FindAll(s[k..]));
  }

  lemma {:induction false} TakeDropJoin(s: string, k: nat)
    requires k <= |s|
    ensures s[..k] + s[k..] == s
    ensures k == 1 ==> s[..k] == [s[0]]
  {
  }

  lemma {:induction false} GapsAfterGap(s: string)
    requires s != [] && !IsLetter(s[0])
    ensures FindAll(s) == FindAll(s[1..])
    ensures Gaps(s) == [[s[0]] + Gaps(s[1..])[0]] + Gaps(s[1..])[1..]
  {
  }

  lemma {:induction false} GapsAfterRun(s: string)
    requires s != [] && IsLetter(s[0])
    ensures FindAll(s) == [s[..LeadingLetters(s)]] + FindAll(s[LeadingLetters(s)..])
    ensures Gaps(s) == [[]] + Gaps(s[LeadingLetters(s)..])
  {
  }

  /** One step of the weave: the first gap, then the first run, then the rest. */
  lemma {:induction false} WeaveStep(g: string, w: string, gaps: seq<string>, toks: seq<string>)
    requires |gaps| == |toks| + 1
    ensures Weave([g] + gaps, [w] + toks) == g + w + Weave(gaps, toks)
    ensures g == [] ==> Weave([g] + gaps, [w] + toks) == w + Weave(gaps, toks)
  {
    assert ([g] + gaps)[1..] == gaps;
    assert ([w] + toks)[1..] == toks;
  }

  lemma {:induction false} NoLettersNoRuns(s: string)
    requires NoLetters(s)
    ensures FindAll(s) == []
    decreases |s|
  {
    if s != [] {
      NoLettersNoRuns(s[1..]);
    }
  }

  lemma {:induction false} LeadingLettersOfRun(w: string, rest: string)
    requires AllLetters(w)
    requires rest == [] || !IsLetter(rest[0])
    ensures LeadingLetters(w + rest) == |w|
    decreases |w|
  {
    if w == [] {
      assert w + rest == rest;
    } else {
      assert (w + rest)[0] == w[0] && IsLetter(w[0]);
      assert (w + rest)[1..] == w[1..] + rest;
      LeadingLettersOfRun(w[1..], rest);
    }
  }

  /** A split of the text into runs and gaps can only be the one `FindAll` gives. */
  lemma {:induction false} SplitIsFindAll(s: string, gaps: seq<string>, toks: seq<string>)
    requires IsSplit(s, gaps, toks)
    ensures toks == FindAll(s)
    decreases |s|
  {
    if toks == [] {
      NoLettersNoRuns(s);
    } else if gaps[0] != [] {
      var g' := [gaps[0][1..]] + gaps[1..];
      WeavePrefix([gaps[0][0]], g', toks);
      assert [gaps[0][0]] + g'[0] == gaps[0];
      assert [[gaps[0][0]] + g'[0]] + g'[1..] == gaps;
      assert s == [gaps[0][0]] + Weave(g', toks);
      assert !IsLetter(s[0]);
      assert s[1..] == Weave(g', toks);
      assert forall k :: 0 <= k < |g'| ==> NoLetters(g'[k]) by {
        forall k | 0 <= k < |g'| ensures NoLetters(g'[k]) {
          if k == 0 {
            assert forall i :: 0 <= i < |g'[0]| ==> g'[0][i] == gaps[0][i + 1];
          } else {
            assert g'[k] == gaps[k];
          }
        }
      }
      SplitIsFindAll(s[1..], g', toks);
    } else {
      var rest := Weave(gaps[1..], toks[1..]);
      assert s == toks[0] + rest;
      assert rest == [] || !IsLetter(rest[0]) by {
        if toks[1..] == [] {
          assert rest == gaps[1];
          if rest != [] { assert NoLetters(gaps[1]); }
        } else {
          assert gaps[1] != [];
          assert rest == gaps[1] + (toks[1..][0] + Weave(gaps[2..], toks[2..]));
          assert rest[0] == gaps[1][0];
        }
      }
      LeadingLettersOfRun(toks[0], rest);
      assert s[..|toks[0]|] == toks[0];
      assert s[|toks[0]|..] == rest;
      SplitIsFindAll(rest, gaps[1..], toks[1..]);
    }
  }

  /**
   The tokens of a text are exactly the maximal letter runs of the (lowered)
   text in their order: `Tokenize(text) == toks` holds precisely when the
   lowered text splits into `toks` and letter-free separators.
   */
  lemma {:induction false} TokenizeIsSplit(text: string, toks: seq<string>)
    ensures toks == Tokenize(text) <==> exists gaps :: IsSplit(Lower(text), gaps, toks)
  {
    FindAllSplits(Lower(text));
    if exists gaps :: IsSplit(Lower(text), gaps, toks) {
      var gaps :| IsSplit(Lower(text), gaps, toks);
      SplitIsFindAll(Lower(text), gaps, toks);
    }
  }

  /** A text yields no tokens exactly when it has no ASCII letter. */
  lemma {:induction false} NoTokensIffNoLetters(text: string)
    ensures Tokenize(text) == [] <==> NoLetters(text)
  {
    var s := Lower(text);
    FindAllSplits(s);
    if NoLetters(text) {
      NoLettersNoRuns(s);
    } else {
      var i :| 0 <= i < |text| && IsLetter(text[i]);
      assert IsLetter(s[i]);
    }
  }

  /* ---------- idempotence ---------- */

  /** Python's `" ".join(words)`. */
  function JoinSpaces(words: seq<string>): (r: string)
  {
    if |words| == 0 then ""
    else if |words| == 1 then words[0]
    else words[0] + " " + JoinSpaces(words[1..])
  }

  lemma {:induction false} FindAllJoin(ts: seq<string>)
    requires forall k :: 0 <= k < |ts| ==> |ts[k]| > 0 && AllLetters(ts[k])
    ensures FindAll(JoinSpaces(ts)) == ts
    decreases |ts|
  {
    if |ts| == 1 {
      LeadingLettersOfRun(ts[0], []);
      assert ts[0] + [] == ts[0];
      assert ts[0][|ts[0]|..] == [];
    } else if |ts| > 1 {
      var rest := " " + JoinSpaces(ts[1..]);
      assert JoinSpaces(ts) == ts[0] + rest;
      LeadingLettersOfRun(ts[0], rest);
      assert (ts[0] + rest)[..|ts[0]|] == ts[0];
      assert (ts[0] + rest)[|ts[0]|..] == rest;
      assert rest[1..] == JoinSpaces(ts[1..]);
      FindAllJoin(ts[1..]);
    }
  }

  lemma {:induction false} JoinOfTokensIsLower(ts: seq<string>)
    requires forall k :: 0 <= k < |ts| ==> IsToken(ts[k])
    ensures forall i :: 0 <= i < |JoinSpaces(ts)| ==> IsLower(JoinSpaces(ts)[i]) || JoinSpaces(ts)[i] == ' '
    decreases |ts|
  {
    if |ts| > 1 {
      JoinOfTokensIsLower(ts[1..]);
      var j := JoinSpaces(ts[1..]);
      assert JoinSpaces(ts) == ts[0] + " " + j;
      forall i | 0 <= i < |JoinSpaces(ts)|
        ensures IsLower(JoinSpaces(ts)[i]) || JoinSpaces(ts)[i] == ' '
      {
        if i > |ts[0]| { assert JoinSpaces(ts)[i] == j[i - |ts[0]| - 1]; }
      }
    }
  }

  /** Re-tokenizing the tokens joined by spaces gives the same tokens. */
  lemma {:induction false} TokenizeIdempotent(text: string)
    ensures Tokenize(JoinSpaces(Tokenize(text))) == Tokenize(text)
  {
    var ts := Tokenize(text);
    JoinOfTokensIsLower(ts);
    var j := JoinSpaces(ts);
    assert Lower(j) == j;
    forall k | 0 <= k < |ts| ensures |ts[k]| > 0 && AllLetters(ts[k]) {
      assert IsToken(ts[k]);
    }
    FindAllJoin(ts);
  }

  /* ---------- case folding ---------- */

  /** Lowering keeps each run of letters where it was. */
  lemma {:induction false} LeadingLettersOfLower(s: string)
    ensures LeadingLetters(Lower(s)) == LeadingLetters(s)
    decreases |s|
  {
    if s != [] && IsLetter(s[0]) {
      assert Lower(s)[1..] == Lower(s[1..]);
      LeadingLettersOfLower(s[1..]);
    }
  }

  /** `Lower` applied to each word. */
  function LowerEach(ws: seq<string>): (r: seq<string>)
    ensures |r| == |ws| && forall k :: 0 <= k < |ws| ==> r[k] == Lower(ws[k])
  {
    seq(|ws|, k requires 0 <= k < |ws| => Lower(ws[k]))
  }

  lemma {:induction false} LowerEachCons(w: string, ws: seq<string>)
    ensures LowerEach([w] + ws) == [Lower(w)] + LowerEach(ws)
  {
  }

  /** Lowering commutes with taking a piece of the text. */
  lemma {:induction false} LowerSlice(s: string, i: nat, j: nat)
    requires i <= j <= |s|
    ensures Lower(s)[i..j] == Lower(s[i..j])
  {
  }

  /**
   The tokens are the letter runs of the original text, each lowered, so a
   word counts the same whatever the case of its letters.
   */
  lemma {:induction false} TokensAreLoweredRuns(s: string)
    ensures Tokenize(s) == LowerEach(FindAll(s))
    decreases |s|
  {
    var l := Lower(s);
    if s == [] {
    } else if !IsLetter(s[0]) {
      LowerSlice(s, 1, |s|);
      assert l[1..|s|] == l[1..] && s[1..|s|] == s[1..];
      TokensAreLoweredRuns(s[1..]);
      assert FindAll(l) == FindAll(l[1..]);
      assert FindAll(s) == FindAll(s[1..]);
    } else {
      var k := LeadingLetters(s);
      LeadingLettersOfLower(s);
      LowerSlice(s, 0, k);
      LowerSlice(s, k, |s|);
      assert s[0..k] == s[..k] && s[k..|s|] == s[k..];
      assert l[0..k] == l[..k] && l[k..|l|] == l[k..];
      TokensAreLoweredRuns(s[k..]);
      LowerEachCons(s[..k], FindAll(s[k..]));
      assert FindAll(l) == [l[..k]] + FindAll(l[k..]);
      assert FindAll(s) == [s[..k]] + FindAll(s[k..]);
    }
  }
}
