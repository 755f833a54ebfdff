/**
 The lines written to the stop-list file: `f"{i:2d}. {w}\t{c}\n"` for each
 ranked entry, numbered from 1. A parser for that layout is the partner of
 the formatter: reading the file back gives the ranked entries again.
 */
module StoplistFormat {
  import opened Wrappers
  import opened Ranking

  predicate IsDigit(c: char) { '0' <= c <= '9' }

  predicate AllDigits(s: string) { forall i :: 0 <= i < |s| ==> IsDigit(s[i]) }

  function DigitChar(d: nat): (c: char)
    requires d < 10
    ensures IsDigit(c)
  {
    ('0' as int + d) as char
  }

  function DigitValue(c: char): (d: nat)
    requires IsDigit(c)
    ensures d < 10 && DigitChar(d) == c
  {
    c as int - '0' as int
  }

  /** `str(n)` for a non-negative integer: decimal digits, no leading zero. */
  function Decimal(n: nat): (s: string)
    ensures |s| > 0 && AllDigits(s)
    ensures |s| > 1 ==> s[0] != '0'
  {
    if n < 10 then [DigitChar(n)] else Decimal(n / 10) + [DigitChar(n % 10)]
  }

  /** The value of a string of decimal digits. */
  function ParseDecimal(s: string): nat
    requires AllDigits(s)
  {
    if s == [] then 0 else 10 * ParseDecimal(s[..|s| - 1]) + DigitValue(s[|s| - 1])
  }

  /** `f"{i:2d}"`: the decimal rank, right-aligned to width 2 with a space. */
  function PadRank(i: nat): (r: string)
    ensures |r| >= 2
    ensures r[0] == ' ' <==> i < 10
    ensures forall k :: 1 <= k < |r| ==> IsDigit(r[k])
  {
    DecimalWidth(i);
    var d := Decimal(i);
    if |d| < 2 then [' '] + d else d
  }

  /** One line of the stop-list file without its newline: `f"{i:2d}. {w}\t{c}"`. */
  function LineText(rank: nat, e: Entry): string
  {
    PadRank(rank) + ". " + e.word + "\t" + Decimal(e.count)
  }

  /** One line of the stop-list file: `f"{i:2d}. {w}\t{c}\n"`. */
  function FormatLine(rank: nat, e: Entry): string
  {
    LineText(rank, e) + "\n"
  }

  /** The file body: the lines of `top`, the first numbered `first`. */
  function Render(top: seq<Entry>, first: nat): string
    decreases |top|
  {
    if top == [] then "" else FormatLine(first, top[0]) + Render(top[1..], first + 1)
  }

  /* ---------- reading the layout back ---------- */

  /** Splits `s` at the first `c`: the part before it and the part after it. */
  function SplitAt(s: string, c: char): (r: Option<(string, string)>)
    ensures r.None? <==> c !in s
    ensures r.Some? ==> s == r.value.0 + [c] + r.value.1 && c !in r.value.0
  {
    if s == [] then None
    else if s[0] == c then
      assert s == [] + [c] + s[1..];
      Some(([], s[1..]))
    else
      match SplitAt(s[1..], c)
      case None => None
      case Some((a, b)) =>
        assert s == [s[0]] + a + [c] + b;
        Some(([s[0]] + a, b))
  }

  function TrimSpaces(s: string): (r: string)
    ensures r == [] || r[0] != ' '
    ensures |r| <= |s|
  {
    if s != [] && s[0] == ' ' then TrimSpaces(s[1..]) else s
  }

  /** A non-empty run of decimal digits, read as a number. */
  function ParseNumber(s: string): Option<nat>
  {
    if s == [] || !AllDigits(s) then None else Some(ParseDecimal(s))
  }

  /** The part after the rank's period: a space, the word, a tab, the count. */
  function ParseEntry(rest: string): Option<Entry>
  {
    if rest == [] || rest[0] != ' ' then None
    else
      match SplitAt(rest[1..], '\t')
      case None => None
      case Some((w, cnt)) =>
        match ParseNumber(cnt)
        case None => None
        case Some(c) => Some(Entry(w, c))
  }

  /** Reads one line (without its newline) back into its rank and entry. */
  function ParseLine(line: string): Option<(nat, Entry)>
  {
    match SplitAt(line, '.')
    case None => None
    case Some((pad, rest)) =>
      match ParseNumber(TrimSpaces(pad))
      case None => None
      case Some(rank) =>
        match ParseEntry(rest)
        case None => None
        case Some(e) => Some((rank, e))
  }

  /** Reads a whole file back, checking that the ranks run `first`, `first + 1`, ... */
  function ParseStoplist(text: string, first: nat): Option<seq<Entry>>
    decreases |text|
  {
    if text == [] then Some([])
    else
      match SplitAt(text, '\n')
      case None => None
      case Some((line, rest)) =>
        match ParseLine(line)
        case None => None
        case Some((rank, e)) =>
          if rank != first then None
          else
            match ParseStoplist(rest, first + 1)
            case None => None
            case Some(es) => Some([e] + es)
  }

  /* ---------- properties ---------- */

  /** Reading the digits back gives the number. */
  lemma {:induction false} DecimalRoundTrip(n: nat)
    ensures ParseDecimal(Decimal(n)) == n
  {
    if n >= 10 {
      DecimalRoundTrip(n / 10);
      var d := Decimal(n);
      assert d[..|d| - 1] == Decimal(n / 10);
    }
  }

  /** One digit below 10, two digits from 10 to 99. */
  lemma DecimalWidth(n: nat)
    ensures |Decimal(n)| == 1 <==> n < 10
    ensures 10 <= n < 100 ==> |Decimal(n)| == 2
  {
    if n >= 10 {
      assert |Decimal(n / 10)| >= 1;
    }
  }

  /**
   The rank field is two characters wide for ranks below 100, starts with a
   space (not a zero) exactly for ranks below 10, never contains a period,
   and reads back as the rank once its leading spaces are dropped.
   */
  lemma PadRankLayout(i: nat)
    ensures i < 100 ==> |PadRank(i)| == 2
    ensures i < 100 ==> (PadRank(i)[0] == ' ' <==> i < 10)
    ensures i >= 10 ==> PadRank(i) == Decimal(i)
    ensures '.' !in PadRank(i) && '\n' !in PadRank(i)
    ensures TrimSpaces(PadRank(i)) == Decimal(i)
    ensures ParseDecimal(TrimSpaces(PadRank(i))) == i
  {
    DecimalWidth(i);
    DecimalRoundTrip(i);
    var d := Decimal(i);
    if |d| < 2 {
      assert ([' '] + d)[1..] == d;
    }
  }

  /** The concrete first line for a word `a` counted 3 times. */
  lemma FirstLineExample()
    ensures FormatLine(1, Entry("a", 3)) == " 1. a\t3\n"
  {
  }

  lemma {:induction false} SplitAtJoin(a: string, c: char, b: string)
    requires c !in a
    ensures SplitAt(a + [c] + b, c) == Some((a, b))
    decreases |a|
  {
    var s := a + [c] + b;
    if a == [] {
      assert s[0] == c && s[1..] == b;
    } else {
      assert s[0] == a[0] && a[0] != c;
      assert s[1..] == a[1..] + [c] + b;
      SplitAtJoin(a[1..], c, b);
      assert [a[0]] + a[1..] == a;
    }
  }

  lemma ParseEntryFields(w: string, cnt: string)
    requires '\t' !in w
    requires cnt != [] && AllDigits(cnt)
    ensures ParseEntry(" " + w + "\t" + cnt) == Some(Entry(w, ParseDecimal(cnt)))
  {
    var rest := " " + w + "\t" + cnt;
    assert rest[1..] == w + ['\t'] + cnt;
    SplitAtJoin(w, '\t', cnt);
  }

  lemma ParseLineFields(pad: string, w: string, cnt: string)
    requires '.' !in pad && '\t' !in w
    requires TrimSpaces(pad) != [] && AllDigits(TrimSpaces(pad))
    requires cnt != [] && AllDigits(cnt)
    ensures ParseLine(pad + ". " + w + "\t" + cnt) == Some((ParseDecimal(TrimSpaces(pad)), Entry(w, ParseDecimal(cnt))))
  {
    var rest := " " + w + "\t" + cnt;
    var line := pad + ". " + w + "\t" + cnt;
    assert line == pad + ['.'] + rest;
    SplitAtJoin(pad, '.', rest);
    assert SplitAt(line, '.') == Some((pad, rest));
    ParseEntryFields(w, cnt);
    assert ParseNumber(TrimSpaces(pad)) == Some(ParseDecimal(TrimSpaces(pad)));
    ParseLineOf(line, pad, rest);
  }

  /** A line split at its first dot into a good rank and a good entry reads back as both. */
  lemma ParseLineOf(line: string, pad: string, rest: string)
    requires SplitAt(line, '.') == Some((pad, rest))
    requires ParseNumber(TrimSpaces(pad)).Some? && ParseEntry(rest).Some?
    ensures ParseLine(line) == Some((ParseNumber(TrimSpaces(pad)).value, ParseEntry(rest).value))
  {
  }

  /** A formatted line holds no other newline and reads back as its rank and entry. */
  lemma FormatLineRoundTrip(rank: nat, e: Entry)
    requires '\t' !in e.word && '\n' !in e.word
    ensures '\n' !in LineText(rank, e)
    ensures ParseLine(LineText(rank, e)) == Some((rank, e))
  {
    PadRankLayout(rank);
    DecimalRoundTrip(e.count);
    ParseLineFields(PadRank(rank), e.word, Decimal(e.count));
  }

  lemma ParseStoplistCons(line: string, rest: string, first: nat, e: Entry, es: seq<Entry>)
    requires '\n' !in line
    requires ParseLine(line) == Some((first, e))
    requires ParseStoplist(rest, first + 1) == Some(es)
    ensures ParseStoplist(line + ['\n'] + rest, first) == Some([e] + es)
  {
    SplitAtJoin(line, '\n', rest);
  }

  /** Reading the file back gives the ranked entries, numbered consecutively from `first`. */
  lemma {:induction false} RenderRoundTrip(top: seq<Entry>, first: nat)
    requires forall k :: 0 <= k < |top| ==> '\t' !in top[k].word && '\n' !in top[k].word
    ensures ParseStoplist(Render(top, first), first) == Some(top)
    decreases |top|
  {
    if top != [] {
      var line := LineText(first, top[0]);
      FormatLineRoundTrip(first, top[0]);
      var rest := Render(top[1..], first + 1);
      assert Render(top, first) == line + ['\n'] + rest;
      RenderRoundTrip(top[1..], first + 1);
      ParseStoplistCons(line, rest, first, top[0], top[1..]);
      assert [top[0]] + top[1..] == top;
    }
  }

  /** Appending an entry appends its line, numbered after the others. */
  lemma {:induction false} RenderSnoc(top: seq<Entry>, e: Entry, first: nat)
    ensures Render(top + [e], first) == Render(top, first) + FormatLine(first + |top|, e)
    decreases |top|
  {
    if top == [] {
      assert [e][1..] == [];
    } else {
      RenderSnoc(top[1..], e, first + 1);
      RenderSnocStep(top, e, first);
    }
  }

  lemma RenderSnocStep(top: seq<Entry>, e: Entry, first: nat)
    requires top != []
    requires Render(top[1..] + [e], first + 1) == Render(top[1..], first + 1) + FormatLine(first + |top|, e)
    ensures Render(top + [e], first) == Render(top, first) + FormatLine(first + |top|, e)
  {
    assert (top + [e])[1..] == top[1..] + [e];
    var head, tail, last := FormatLine(first, top[0]), Render(top[1..], first + 1), FormatLine(first + |top|, e);
    assert Render(top + [e], first) == head + (tail + last);
    assert head + (tail + last) == head + tail + last;
  }
}
