# OpenReview rating statistics, modelled in Dafny

`main.js` of openreview_rating_stats visits the forum page of every paper of an
OpenReview venue. On each page it looks for the label "Preliminary Rating" in the
markup. It reads the first number after every other occurrence of the label. It
keeps those numbers and their mean per paper, and then prints a summary of the
venue:
- the mean of the paper averages;
- the mean of all reviewer ratings;
- how many papers lie above each of these means;
- a histogram of the averages over [1,2), [2,3), [3,4) and [4,5].

The scan resumes its search keyword length + 1 characters past each hit. An
occurrence that starts within that window is therefore never visited, not even one
directly adjacent to the previous hit.

This project models the part of `main.js` that computes. `extractNumbersFromString`
and `average` are pure functions. The keyword scan inside `extract_stats` and the
summary loops are imperative, and they are modelled as methods with loops. Each
method is proved equal to a specification function, and the properties the program
relies on are proved about those functions.

Modules:
- `Wrappers` (wrappers.dfy): `Option`.
- `Sequences` (sequences.dfy): a generic `Map` over sequences, with its index and
  append facts.
- `Averaging` (averaging.dfy): `average` over exact reals.
- `NumberExtraction` (number_extraction.dfy): the first match of `\d+\.?\d*` and its
  value, with the regular expression stated as a predicate (`IsFirstMatch`).
- `ScoreExtractor` (score_extractor.dfy): `indexOf`, `substring` and `split('\n')[0]`
  with JavaScript's clamping rules; the scan loop (`ScanRatings`); the per-paper
  records (`ExtractStats`).
- `Summary` (summary.dfy): the summary loops over the paper records.

Page loading (`page.goto` / `page.content()`) is the parameter `pageContent`, a
function from a URL to the page markup. The in-browser HTML-to-text conversion
(main.js:95-99) is the parameter `innerText`.

## Model

| member | source | states |
|---|---|---|
| NumberExtraction.ExtractFirstNumberMeaning | main.js:8-16 | The sentinel (None) is returned exactly when the string holds no decimal digit. Otherwise the value is that of the leftmost, longest match of `\d+\.?\d*`. |
| NumberExtraction.MatchEndIsLongest | main.js:9-10 | The greedy match starting at a digit is a numeral, and no longer numeral starts there. |
| NumberExtraction.FirstMatchIsUnique | main.js:9-12 | Only one substring satisfies "first match", so `[0]` of the matches is well defined. |
| NumberExtraction.DigitsValueOfDecimal | main.js:12 | `Number` applied to the decimal text of a natural number gives that number. |
| NumberExtraction.ExtractAfterLabel | main.js:8-16 | Text without digits, then a whole number, then a non-digit that is not a point: extraction yields that number. |
| NumberExtraction.ExtractPreliminaryRating | main.js:8-16 | "Preliminary Rating: 7 out of 10" yields 7. |
| Averaging.Average | main.js:18-23 | The empty list averages to 0; otherwise average times length equals the sum. |
| Averaging.SumAppend | main.js:21 | The `reduce` sum of a concatenation is the sum of the two parts. |
| Averaging.SumPermutation | main.js:21 | Reordering the numbers does not change the sum. |
| Averaging.AveragePermutation | main.js:18-23 | Reordering the numbers does not change the average. |
| Averaging.AverageSingleton | main.js:18-23 | `average([a])` is `a`. |
| Averaging.AverageWithinBounds | main.js:18-23 | The average of a non-empty list lies between any lower and upper bound of its elements. |
| Averaging.NotAllAboveAverage | main.js:18-23 | Some element of a non-empty list is at most its average. |
| ScoreExtractor.IndexOfMeaning | main.js:90 | `indexOf(keyword, from)` returns a genuine occurrence at or after the clamped start, with no occurrence between the start and it. It returns -1 only when no occurrence exists from there on. |
| ScoreExtractor.SubstringShape | main.js:93 | `substring(start, end)` is no longer than the distance between its arguments. Within range it is the slice of the page between them. |
| ScoreExtractor.FirstLineShape | main.js:93 | `split('\n')[0]` is a prefix without line breaks that stops only at a line break or at the end. |
| ScoreExtractor.SnippetShape | main.js:93 | The snippet has at most 100 characters and no line break. Within the page it is the text right at the start position. It ends at the first line break, after 100 characters, or at the end of the page, whichever comes first. |
| ScoreExtractor.HitsAreSpacedOccurrences | main.js:90-106 | Every occurrence the scan visits is a genuine occurrence of the keyword. Consecutive visited occurrences are at least keyword length + 1 apart, so `startIndex` strictly increases. |
| ScoreExtractor.HitsCoverOccurrences | main.js:90-106 | Every occurrence of the keyword at or after the start is visited, unless it starts within keyword-length characters after a visited one. |
| ScoreExtractor.ScanSkipsAdjacentOccurrence | main.js:103-105 | The skipped window is real: in "abab" the scan for "ab" visits only position 0, not the occurrence at 2. |
| ScoreExtractor.EvenIndexedShape | main.js:91-104 | Of k visited occurrences, ceil(k/2) are kept: those numbered 0, 2, 4, …, in order. |
| ScoreExtractor.RatingsShape | main.js:88-107 | `data` has ceil(k/2) entries for k visited occurrences. Entry i is the first number of the text of the snippet after occurrence 2·i. |
| ScoreExtractor.RatingAt | main.js:91-101 | Rating i exists only for an occurrence 2·i that was visited, and it is read after that occurrence. |
| ScoreExtractor.SnippetFollowsKeyword | main.js:90-93 | The snippet behind each visited occurrence is taken from the page immediately after the keyword. It has at most 100 characters and contains no `'\n'`. It ends at the first line break, after 100 characters, or at the end of the page. |
| ScoreExtractor.ScanRatings | main.js:84-107 | The scan loop terminates. The `data` it builds equals the specification `Ratings` of the page. |
| ScoreExtractor.NumbersMeaning | main.js:109 | A value is kept exactly when some rating holds it. Only sentinels are dropped. |
| ScoreExtractor.NumbersMultiset | main.js:109 | Each value is kept as many times as the ratings hold it. |
| ScoreExtractor.NumbersAppend | main.js:109 | Dropping sentinels commutes with concatenation, so the kept values stay in rating order. |
| ScoreExtractor.PaperAverageWithinRatings | main.js:109 | A paper's average lies between its smallest and largest numeric rating. |
| ScoreExtractor.SentinelBreaksAverage | main.js:14-21 | As written, ratings 7, none, 5 average to 25. The model's average of the same ratings is 6. |
| ScoreExtractor.ExtractStats | main.js:67-118 | One record per page, in visiting order: its URL, its `data` and the average of its numeric ratings. |
| ScoreExtractor.MetadataAt | main.js:74-111 | There are as many records as URLs, and record i describes page i. |
| Summary.CollectAverages | main.js:139-142 | `scores` is the list of paper averages, in order. |
| Summary.CollectRatings | main.js:147-151 | `scores_r` lists every stored rating as a `Number`, paper after paper. |
| Summary.AllRatingsMeaning | main.js:147-151 | `scores_r` has one entry per stored rating. Rating j of paper i sits at position (ratings of the earlier papers) + j. |
| Summary.CountPapersAbove | main.js:155-160 | `count` is the number of papers whose average is strictly above the given mean. |
| Summary.CountAboveBounds | main.js:155-160 | `count` is at most the number of papers. It equals it exactly when every average exceeds the mean. |
| Summary.AboveMeanIsNotAll | main.js:144-160 | In exact arithmetic, `count` above the mean of the paper averages stays below the number of papers. |
| Summary.CountPapersWithRatingAbove | main.js:163-170 | `count_r` is the number of papers with at least one rating strictly above the mean. The `break` makes each paper add at most one. |
| Summary.CountWithRatingAboveBounds | main.js:163-170 | `count_r` is at most the number of papers, and at most the number of individual ratings above the mean. |
| Summary.BucketMeaning | main.js:178-188 | The if-chain places an average in bucket b exactly when it lies in b's range [1,2), [2,3), [3,4) or [4,5]. |
| Summary.RangesDisjoint | main.js:178-188 | The four ranges are pairwise disjoint. |
| Summary.BucketOfThree | main.js:183 | An average of exactly 3 is counted in [3,4). |
| Summary.BucketNone | main.js:178-188 | Exactly the averages outside [1,5] fall in no bucket. |
| Summary.Histogram | main.js:173-188 | The four counters are the numbers of papers in each bucket. |
| Summary.HistogramPartition | main.js:178-188 | Bucket counts plus papers in no bucket equal the number of papers. The four printed counts therefore sum to at most it. |
| Summary.Summarize | main.js:137-192 | The printed figures are those of the specification `ReportOf`. |
| Summary.ReportBounds | main.js:155-188 | In exact arithmetic: both above-average counts are at most the number of papers. The first is strictly smaller for a non-empty venue. The histogram counts sum to at most the number of papers. |

## Left out

- Browser work is I/O with nothing to state: launching puppeteer, navigation, waits, pagination clicks, and link collection in `get_paper_urls` / `get_new_links` (main.js:4-6, 25-65, 69-78, 113-116).
- HTML-to-text conversion (main.js:95-99) runs inside the page. It is the function parameter `innerText`.
- Page markup (`page.content()`, main.js:86) is the function parameter `pageContent` of the URL.
- The CLI (yargs), progress bars, console output and the JSON and summary files (main.js:120-135, 189-208) are I/O.
- Numbers are exact reals, not IEEE doubles.
- `toFixed(2)` (main.js:110, 145, 153) is left out, so `average_rating` is the exact mean. The summary therefore compares and buckets exact means rather than the two-decimal strings, which can differ at a rounding boundary (an average of 1.996 prints as "2.00").
- ScoreExtractor.ExtractStats: the paper average drops the "no number" sentinel before averaging. As written, `average` on a list containing `[]` turns the sum into string concatenation (see Findings).
- Summary.CollectRatings: stored sentinels are still included here as 0, exactly as `Number([])` does (main.js:150). Comparing a sentinel with a number also treats it as 0 (main.js:166).
- ScoreExtractor.ExtractStats: the `metadata` object is a sequence of records in visiting order. With a repeated URL, the object would keep one key with the last record. URLs come from a `Set` (main.js:39, 64), so they are distinct.
- ScoreExtractor.IndexOf, ScoreExtractor.Substring, ScoreExtractor.Snippet: positions and the 100 limit count characters (Unicode scalar values), not UTF-16 code units as JavaScript's `indexOf` and `substring` do. Example: the label, 60 U+1F600 characters, then "7". JavaScript's 100 units hold only 50 of the emoji and no digit, giving `[]`. The model's 100 characters reach the "7".
- Summary.AboveMeanIsNotAll: holds in exact arithmetic only. In doubles, three papers stored as "5.67" sum to 17.009999999999998, whose third is 5.669999999999999. All three then compare above the mean, and the program prints a count equal to the number of papers. Summary.ReportBounds inherits this for its strict bound.
- ScoreExtractor.ScanRatings: requires a non-empty keyword. With an empty keyword `indexOf` never moves past the end of the page and the JavaScript loop never ends. The program only ever passes "Preliminary Rating".
- ScoreExtractor.SentinelBreaksAverage: the as-written average is modelled for whole-number ratings only. Turning a fractional JavaScript number into a string is out of scope.

## Findings

| source | as written | input that shows it | evidently intended | confidence | as-written member | corrected member |
|---|---|---|---|---|---|---|
| main.js:14, main.js:21 | `extractNumbersFromString` returns `[]` when a snippet holds no digit. `average` then adds it with `+`, which turns the running sum into a string, and every later rating is appended as text. | ratings 7, (none), 5 give `0 + 7 + [] + 5` = "75", and "75" / 3 = 25 | the mean of the numeric ratings, 6 | not executed; follows from JavaScript's `+` on an array | ScoreExtractor.SentinelBreaksAverage | ScoreExtractor.PaperAverageWithinRatings |
