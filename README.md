# Stop-list builder, modelled in Dafny

`build_stoplist.py` reads every regular file of a folder (in sorted path
order), splits each text into lowercase ASCII words, counts the words with a
`collections.Counter`, keeps the 50 most common (`most_common(50)`) and writes
them one per line as `f"{i:2d}. {w}\t{c}\n"`. A missing folder, or one with no
regular files, stops the run before anything is counted or written.

This project models that pipeline and proves what it promises:

- `tokenizer.dfy` (module `Tokenizer`): `tokenize` as `Tokenize(text) ==
  FindAll(Lower(text))`. The tokens are characterised exactly: the lowered text
  is `gap0 + tok0 + gap1 + ... + gapN`, with letter-free gaps, non-empty gaps
  between tokens, and tokens made of letters; and that split is unique, so it
  is both what `FindAll` returns and the only possible answer. The tokens are
  the letter runs of the original text, each lowered, so `Cat` and `cat` are
  the same word. Tokenizing is idempotent.
- `frequency.dfy` (module `Frequency`): what a `Counter` holds after counting a
  sequence of words. `Tally` gives the counts and `FirstSeen` gives the keys in
  insertion order. Counts equal occurrences. The counts sum to the number of
  words. Counts do not depend on the order of the words.
- `counter.dfy` (module `Counters`): the `Counter` object itself, a class whose
  `Update` method increments its map and extends its insertion order in place.
  Its invariant ties these fields to `Tally`/`FirstSeen` of the words fed so far.
  `MostCommon` reads the fields and returns the top `n` entries.
- `ranking.dfy` (module `Ranking`): `most_common(n)` as the stable sort by
  descending count of `items()` (insertion order), cut to `n`. The ranking is
  proved ordered by count, with ties in insertion order, and it is the only
  arrangement of the items ordered that way. It has `min(n, #words)`
  entries, each with its true count. Every entry kept ranks before every word
  left out.
- `format.dfy` (module `StoplistFormat`): the line layout, `str(int)`, the
  `{i:2d}` padding, and a parser for the file. Parsing the rendered file gives
  back the ranking, with the ranks checked to run 1, 2, ...
- `stoplist.dfy` (module `Stoplist`): `main` as the method `BuildStoplist`. It
  checks the folder, runs the per-file counting loop over a `Counter`, ranks,
  and runs the line-writing loop. It is proved equal to the function `Outcome`,
  and lemmas state the properties of a run.
- `scenarios.dfy` (module `Scenarios`): worked runs on small folders.
- `wrappers.dfy` (module `Wrappers`): `Option` and `Result`.

The folder is an input `Option<seq<string>>`. `None` means the folder does not
exist. `Some(texts)` holds the decoded texts of its regular files, already in
sorted path order.

`{i:2d}` pads the rank with a space to width 2, so rank 1 is written ` 1.`
(`PadRankLayout`, `FirstLineExample`).

## Model

| member | source | states |
|---|---|---|
| Tokenizer.LowerChar | build_stoplist.py:17 | lowering maps each of `A`-`Z` to the lowercase letter at the same alphabet position and leaves every other character unchanged |
| Tokenizer.Lower | build_stoplist.py:17 | `text.lower()` keeps the length and lowers each character in place |
| Tokenizer.LeadingLetters | build_stoplist.py:13 | the run of letters at the start is all letters and is followed by a non-letter or the end (maximal munch of `[A-Za-z]+`) |
| Tokenizer.FindAll | build_stoplist.py:13 | `findall("[A-Za-z]+")`: the maximal runs of ASCII letters, left to right, as `FindAllLetters`, `FindAllSplits` and `SplitIsFindAll` prove |
| Tokenizer.FindAllLetters | build_stoplist.py:13 | every run `findall` returns is non-empty and made of ASCII letters |
| Tokenizer.Tokenize | build_stoplist.py:15-17 | every token of `tokenize` is a non-empty word over `a`-`z`; `TokenizeIsSplit` characterises the tokens exactly |
| Tokenizer.LoweredRunsAreWords | build_stoplist.py:15-17 | in a text without upper-case letters every run found is a word over `a`-`z` |
| Tokenizer.FindAllSubstring | build_stoplist.py:13-17 | every run returned is a contiguous piece of the text |
| Tokenizer.FindAllSplits | build_stoplist.py:13-17 | the text is exactly its runs interleaved with letter-free separators, non-empty between two runs, so each run is maximal and the runs are in source order |
| Tokenizer.GapsHaveNoLetters | build_stoplist.py:13 | the text between the runs that `findall` returns holds no letter |
| Tokenizer.InnerGapsNonEmpty | build_stoplist.py:13 | between two consecutive runs there is at least one non-letter, so runs are maximal |
| Tokenizer.GapsWeave | build_stoplist.py:13 | the runs and the text between them, written in turn, rebuild the text exactly |
| Tokenizer.SplitIsFindAll | build_stoplist.py:13-17 | any such split of the text into maximal runs and separators has exactly the runs `findall` returns |
| Tokenizer.TokenizeIsSplit | build_stoplist.py:15-17 | `tokenize(text) == toks` if and only if the lowered text splits into `toks` and letter-free separators |
| Tokenizer.NoTokensIffNoLetters | build_stoplist.py:15-17 | a text yields no token if and only if it contains no ASCII letter |
| Tokenizer.FindAllJoin | build_stoplist.py:13 | `findall` on letter words joined by spaces returns those words |
| Tokenizer.TokenizeIdempotent | build_stoplist.py:15-17 | `tokenize(" ".join(tokenize(t))) == tokenize(t)` |
| Tokenizer.LeadingLettersOfLower | build_stoplist.py:13-17 | lowering does not move where a run of letters ends |
| Tokenizer.TokensAreLoweredRuns | build_stoplist.py:13-17 | the tokens are the letter runs of the original text, each lowered, so a word counts the same in any case |
| Frequency.IndexOf | build_stoplist.py:24 | position of the first occurrence of a word (the insertion point of a dict key) |
| Frequency.Tally | build_stoplist.py:30-34 | the counter's counts, one increment per word; `TallyCountsOccurrences` proves the keys are the words seen and each count is the word's number of occurrences |
| Frequency.FirstSeen | build_stoplist.py:24-34 | the counter's insertion order lists no word twice; `FirstSeenWords` and `FirstSeenOrdered` prove it lists exactly the words seen, by first occurrence |
| Frequency.FirstSeenWords | build_stoplist.py:24 | the insertion order holds exactly the words counted |
| Frequency.TallyCountsOccurrences | build_stoplist.py:30-34 | after counting, a word is a key exactly when it occurred, and its count is its number of occurrences |
| Frequency.FirstSeenOrdered | build_stoplist.py:24 | words earlier in insertion order first occurred earlier |
| Frequency.CountOneMore | build_stoplist.py:34 | counting one word adds one to its count; a new word gets count 1 and is appended to the insertion order |
| Frequency.TallyKeys | build_stoplist.py:24-34 | the counter's keys are exactly the words of its insertion order, as many as there are keys |
| Frequency.SumOfCountsIsLength | build_stoplist.py:30-34 | the counts add up to the total number of tokens counted |
| Frequency.SumCountsStep | build_stoplist.py:34 | counting one more word adds one to the sum of the counts |
| Frequency.TallyDependsOnMultiset | build_stoplist.py:30-34 | the counts depend only on how often each word occurs, not on the order of the words |
| Counters.Counter.constructor | build_stoplist.py:24 | `Counter()` starts empty |
| Counters.Counter.Increment | build_stoplist.py:34 | one counted word: the counts and insertion order become those of all words so far plus this one |
| Counters.Counter.Update | build_stoplist.py:34 | `counter.update(tokens)` leaves the counts and insertion order of all words counted so far followed by `tokens` |
| Counters.Counter.MostCommon | build_stoplist.py:37 | `most_common(n)` returns `min(n, #keys)` entries, each word with its occurrence count, ranked by count with ties in insertion order, and any word left out means `n` entries were returned, each ranking before it |
| Ranking.Items | build_stoplist.py:37 | `counter.items()` has one entry per key of the insertion order, and its entries are exactly the pairs of a key with its count |
| Ranking.ItemsArePairs | build_stoplist.py:37 | an entry is among `counter.items()` exactly when its word is a key and its count is that key's count |
| Ranking.Insert | build_stoplist.py:37 | inserting an entry into the sorted list adds exactly that entry |
| Ranking.SortByCount | build_stoplist.py:37 | the sort returns a permutation of the items |
| Ranking.MostCommon | build_stoplist.py:37 | `most_common(n)` has `min(n, #items)` entries |
| Ranking.InsertRanked | build_stoplist.py:37 | inserting an entry inserted later into the counter keeps the list ranked by count, ties by insertion order |
| Ranking.SortByCountRanked | build_stoplist.py:37 | the stable descending sort of entries listed in insertion order is ranked by count, ties by insertion order |
| Ranking.SortedItems | build_stoplist.py:37 | `sorted(counter.items(), key=count, reverse=True)` is ranked by count, ties by insertion order |
| Ranking.RankedIsUnique | build_stoplist.py:37 | two arrangements of the same entries that are both ranked by count, ties by insertion order, are equal |
| Ranking.SortIsTheRanking | build_stoplist.py:37 | the sort is the only arrangement of `counter.items()` ranked by count with ties in insertion order |
| Ranking.MostCommonEntries | build_stoplist.py:37 | `most_common(n)` has `min(n, #words)` entries, each a counted word with its count |
| Ranking.MostCommonRanked | build_stoplist.py:37 | `most_common(n)` has non-increasing counts, and equal counts come in first-seen order |
| Ranking.MostCommonCutoff | build_stoplist.py:37 | for every word left out, `n` entries were returned and each ranks before it, so no omitted word has a higher count than the last entry |
| Ranking.OmittedRanksAfter | build_stoplist.py:37 | the same cutoff for one given word left out |
| StoplistFormat.Decimal | build_stoplist.py:42 | `str(c)` is a non-empty string of digits with no leading zero |
| StoplistFormat.DecimalRoundTrip | build_stoplist.py:42 | reading `str(c)` back gives `c` |
| StoplistFormat.DecimalWidth | build_stoplist.py:42 | one digit below 10, two digits from 10 to 99 |
| StoplistFormat.PadRank | build_stoplist.py:42 | `{i:2d}` is at least two characters, begins with a space exactly when the rank is below 10, and is digits after that |
| StoplistFormat.FormatLine | build_stoplist.py:42 | one line `f"{i:2d}. {w}\t{c}\n"`; `FormatLineRoundTrip` proves it has no inner newline and reads back as its rank and entry |
| StoplistFormat.Render | build_stoplist.py:40-42 | the lines of all entries, ranks counting up from the first; `RenderRoundTrip` proves the text reads back as the entries and `RenderSnoc` that each entry adds its own line at the end |
| StoplistFormat.PadRankLayout | build_stoplist.py:42 | `{i:2d}` is two characters for ranks below 100 and begins with a space exactly below 10; it reads back as the rank |
| StoplistFormat.FirstLineExample | build_stoplist.py:42 | the first line for `a` counted 3 times is `" 1. a\t3\n"` |
| StoplistFormat.FormatLineRoundTrip | build_stoplist.py:42 | a line has no inner newline and reads back as its rank, word and count |
| StoplistFormat.RenderRoundTrip | build_stoplist.py:40-42 | the written file reads back as the ranked entries, ranks consecutive from 1 |
| StoplistFormat.RenderSnoc | build_stoplist.py:41-42 | writing one more entry appends its line with the next rank |
| Stoplist.AllTokens | build_stoplist.py:30-33 | the tokens of all files, file after file; `AllTokensAreWords` proves each is a non-empty lowercase word and `AllTokensPermutation` that another file order gives the same multiset |
| Stoplist.Outcome | build_stoplist.py:19-42 | a missing folder and an empty folder each end the run with their fault and no output; any other folder succeeds (its ranking and file are described by `RunRanking` and `RunFileReadsBack`) |
| Stoplist.WriteLines | build_stoplist.py:40-42 | the writing loop produces exactly the rendered lines, ranks from 1 |
| Stoplist.BuildStoplist | build_stoplist.py:19-42 | `main` gives the fault for a missing or empty folder, otherwise the top 50 of the counts over all files in order, and their file text |
| Stoplist.AllTokensPermutation | build_stoplist.py:25-34 | processing the files in another order gives the same multiset of tokens |
| Stoplist.CountsIndependentOfOrder | build_stoplist.py:25-34 | the final counts do not depend on the order the files are processed |
| Stoplist.NoLetterDocumentAddsNothing | build_stoplist.py:32-34 | a file without ASCII letters changes no count |
| Stoplist.RunRanking | build_stoplist.py:30-37 | a run ranks `min(50, #distinct words)` words with their total occurrence counts, by count, ties in first-seen order |
| Stoplist.RunFileReadsBack | build_stoplist.py:37-42 | the output file of a run reads back as its ranking, numbered 1, 2, ... |
| Stoplist.AllTokensAreWords | build_stoplist.py:30-33 | every counted token is a non-empty lowercase word |
| Stoplist.RunCutoff | build_stoplist.py:37 | a word left out of the stop list ranks after every word in it |
| Scenarios.OneFileRun | build_stoplist.py:30-37 | one file `Cat dog CAT. Dog dog!` ranks `dog` 3 then `cat` 2 |
| Scenarios.TwoFileRun | build_stoplist.py:30-37 | files `a a a` and `b b` rank `a` 3 then `b` 2 |
| Scenarios.TwoFileOutput | build_stoplist.py:40-42 | that ranking is written as `" 1. a\t3\n 2. b\t2\n"` |
| Scenarios.NoLetterFile | build_stoplist.py:15-17 | `123 !!! ---` gives no token |
| Scenarios.OneWordFile | build_stoplist.py:15-17 | a file holding one lowercase word gives that word |
| Scenarios.TwoOneWordFiles | build_stoplist.py:30-37 | two files of one different word each rank both words with count 1, the first file's word first |
| Scenarios.TieOrderFollowsFileOrder | build_stoplist.py:30-37 | files `a`, `b` rank `a` then `b`, files `b`, `a` rank `b` then `a`: tied words follow first-seen order, so the ranking depends on file order |

## Left out

- The file system: the existence check, `iterdir`/`is_file`, sorting the paths,
  `read_text`, `resolve`, opening and writing the output file, and
  `SystemExit`. The folder is an input (`None` when missing, else the file
  texts in sorted path order). The two fatal cases are a `Failure` value that
  carries no output.
- A path that exists but is not a directory: `iterdir` raises there. That is
  file-system behaviour and is not modelled.
- UTF-8 decoding with `errors="ignore"`: the texts are taken already decoded.
- Unicode `str.lower()`: lowering is modelled on ASCII only. A few non-ASCII
  characters lower to ASCII letters in Python (KELVIN SIGN U+212A lowers to
  `k`; U+0130 lowers to `i` plus a combining dot). The model assumes the texts
  do not rely on that.
- Console output: the progress lines, the header, the `{w:15s}` display table
  and the closing message. These are display only.
- The heap inside `Counter.most_common`: only the result it is documented to
  equal is modelled, the stable sort by descending count cut to `n`.
