# NIPS paper-title trend analysis: the hand-written core, in Dafny

The analysis script loads the NIPS paper table, cleans the paper titles,
joins them into one text for a word cloud, counts vocabulary terms over the
corpus to show the ten most common words, fits an LDA topic model and prints
the heaviest words of every topic. Almost all of that is library code; this
project models the three pieces of logic written by hand between the library
calls, and proves what they promise:

- **Title normaliser** (`TitleNormalizer`, normalizer.dfy): each title loses
  every `,` `.` `!` `?` and is lower-cased; the column keeps one entry per
  paper; the processed titles are joined by single spaces.
- **Corpus term-frequency summary** (`TermFrequency`, term_frequency.dfy):
  `plot_10_most_common_words` without its plot. A zero array of vocabulary
  size is updated in place with every row of the document-term count matrix
  (a method with a loop over an `array<nat>`), then the totals are zipped
  with the words, stably sorted by count, largest first, and cut to ten.
- **Top-N terms per topic** (`TopicReport`, topic_report.dfy): `print_topics`.
  For every topic weight row, `argsort()[:-n-1:-1]` picks the `n` heaviest
  indices, heaviest first; they are mapped to words and printed under a
  `Topic #<index>:` header.

The stable descending sort behind `sorted(..., reverse=True)` is the generic
insertion sort of `Ranking` (ranking.dfy), with its ordering, element and
stability lemmas. The vocabulary, the document-term count matrix and the
topic-term weight matrix are produced by scikit-learn and are inputs here:
the count matrix as rows `seq<seq<nat>>`, each as wide as the vocabulary, and
the weight matrix as rows `seq<seq<int>>` (only the order of weights matters).

Two facts about the code shape the model:

- numpy's default `argsort` is not stable, so it fixes no order among equal
  weights, and neither does the topic report: ties are not broken by
  vocabulary index. The top-N property is therefore stated for every valid
  argsort.
- The script has no checks of its own: scikit-learn raises at
  Local_Project1.py:177 on an empty vocabulary and at Local_Project1.py:217
  on a topic count below one. Where a dimension must match, the model
  requires it.

## Model

| member | source | states |
|---|---|---|
| `TitleNormalizer.ToLower` | Local_Project1.py:95 | an ASCII capital becomes the letter 32 code points higher, every other character is unchanged |
| `TitleNormalizer.StripPunctuation` | Local_Project1.py:91 | the substitution never lengthens a title and leaves no `,` `.` `!` `?` in it |
| `TitleNormalizer.Lower` | Local_Project1.py:95 | lower-casing one title (ASCII letters) keeps its length and every position; a capital becomes the letter 32 code points higher, nothing else changes, and no capital remains |
| `TitleNormalizer.NormalizeTitle` | Local_Project1.py:91-95 | a processed title is no longer than the raw one, contains none of the four punctuation characters and no ASCII capital |
| `TitleNormalizer.StripColumn` | Local_Project1.py:91 | the substituted column has one entry per title, entry `i` being the substitution applied to title `i` (entry by entry, as `map` does), each no longer than its title and free of the four punctuation characters |
| `TitleNormalizer.LowerColumn` | Local_Project1.py:95 | the lower-cased column has one entry per row, entry `i` being the lower-casing of row `i` (entry by entry, as `.str.lower()` does), each as long as the row's string and free of ASCII capitals |
| `TitleNormalizer.NormalizeColumn` | Local_Project1.py:91-95 | the processed column has exactly one entry per paper, in row order, each the processed form of the title in the same row (substitution first, then lower-casing) |
| `TitleNormalizer.KeptIndices` | Local_Project1.py:91 | the positions a title keeps are strictly increasing, none holds punctuation, and every non-punctuation position is among them |
| `TitleNormalizer.StripIsKeptIndices` | Local_Project1.py:91 | the substituted title is exactly the characters at the kept positions, in order |
| `TitleNormalizer.NormalizeKeepsEverythingElse` | Local_Project1.py:91-95 | a processed title is the raw title with exactly the four punctuation characters deleted: every other character, whitespace included, survives lower-cased and in its original order, and nothing else appears |
| `TitleNormalizer.StripWithoutPunctuation` | Local_Project1.py:91 | the substitution leaves a title without punctuation unchanged |
| `TitleNormalizer.NormalizeIdempotent` | Local_Project1.py:91-95 | processing an already processed title returns it unchanged |
| `TitleNormalizer.StripConcat` | Local_Project1.py:91 | the substitution distributes over concatenation |
| `TitleNormalizer.NormalizeConcat` | Local_Project1.py:91-95 | the processing distributes over concatenation, and one character becomes nothing if it is punctuation and its lower-case form otherwise |
| `SpaceJoin.Join` | Local_Project1.py:114-115 | joining no titles gives the empty string, joining one title gives it unchanged, and otherwise the word-cloud input is as long as all titles together plus one separator between each pair of neighbours |
| `SpaceJoin.JoinConcat` | Local_Project1.py:114-115 | joining two non-empty lists of titles is joining each and putting one space between |
| `TitleNormalizer.JoinOfProcessedIsClean` | Local_Project1.py:91-115 | the joined word-cloud input of processed titles contains no punctuation of the four kinds and no ASCII capital |
| `Ranking.SortDesc` | Local_Project1.py:158 | the sorted list is as long as the input, has exactly the input's elements (as a multiset) and non-increasing keys |
| `Ranking.SortDescStable` | Local_Project1.py:158 | for every key value, the elements having it appear in the sorted list in their input order (Python's sort is stable) |
| `Ranking.SortDescDistinct` | Local_Project1.py:208 | sorting a list without repetitions gives a list without repetitions |
| `TermFrequency.AddRow` | Local_Project1.py:155 | `total_counts += row` adds each entry of the row to the matching total and changes nothing else |
| `TermFrequency.TotalCounts` | Local_Project1.py:152-155 | after the zero initialisation and the loop over rows, the totals have one entry per vocabulary word and entry `j` is the sum of column `j` over all documents |
| `TermFrequency.CorpusTotalsSum` | Local_Project1.py:152-155 | the totals add up to the number of counted tokens in the whole matrix |
| `TermFrequency.CorpusTotalsAppend` | Local_Project1.py:154-155 | one more document raises each total by exactly that document's count for the term |
| `TermFrequency.Unzip` | Local_Project1.py:159-160 | the word list and the count list are as long as the pair list, and pair `k` is word `k` with count `k` |
| `TermFrequency.Zip` | Local_Project1.py:157 | zipping the words with the totals gives one pair per word, and unzipping the pairs gives back both lists |
| `TermFrequency.MostCommon` | Local_Project1.py:157-158 | the most-common list has exactly `min(10, vocabulary size)` entries |
| `TermFrequency.MostCommonEntries` | Local_Project1.py:157-158 | every entry is a vocabulary word paired with its own total, and no pair appears more often than in the zipped list |
| `TermFrequency.MostCommonRanked` | Local_Project1.py:158 | the counts never increase along the list, and no word left out has a larger total than the last entry kept |
| `TermFrequency.MostCommonStable` | Local_Project1.py:158 | for every count, the kept entries with that count are the first vocabulary words having it, in vocabulary order |
| `TermFrequency.PlotTenMostCommonWords` | Local_Project1.py:150-160 | the word list and count list handed to the chart have `min(10, vocabulary size)` entries, are the unzipped most-common list over the accumulated totals, and each word comes with its own corpus total |
| `TopicReport.SortedIndicesAreArgsort` | Local_Project1.py:208 | sorting the indices by ascending weight gives a permutation of the indices along which weights never decrease |
| `TopicReport.Argsort` | Local_Project1.py:208 | the chosen argsort satisfies the argsort contract |
| `TopicReport.ClampDown` | Local_Project1.py:208 | a slice bound under step -1 is normalised as Python does: negatives count from the end, and out-of-range values clamp to -1 or the last index |
| `TopicReport.ReverseSlice` | Local_Project1.py:208 | `p[start:stop:-1]` follows Python's slice rule for step -1: with both bounds normalised, it holds `p[start - k]` for `k` from 0 while the index stays above `stop`, and is empty when `start` does not lie above `stop` |
| `TopicReport.TopIndices` | Local_Project1.py:208 | `p[:-n-1:-1]` is the last `min(n, len(p))` entries of `p`, last one first |
| `TopicReport.TopIndicesAreTopN` | Local_Project1.py:207-208 | for every valid argsort, whatever its tie order, the slice gives `min(n, len(w))` distinct in-range indices by non-increasing weight, and no index left out weighs more than the last one kept |
| `TopicReport.WordsAt` | Local_Project1.py:207-208 | the comprehension `[words[i] for i in ids]` gives one word per index, the word at that index, in the order of the indices |
| `TopicReport.TopicTerms` | Local_Project1.py:207-208 | the words listed for a topic are the words of a top-`n` selection of its weights, heaviest first |
| `TopicReport.Decimal` | Local_Project1.py:206 | `%d` prints a non-empty string of decimal digits, a single digit exactly below ten and otherwise without a leading zero |
| `TopicReport.DecimalRoundTrip` | Local_Project1.py:206 | the printed digits read back as the topic index |
| `TopicReport.Header` | Local_Project1.py:206 | the header is the fixed prefix `\nTopic #`, then decimal digits without a leading zero that read back as the topic index, then a colon |
| `TopicReport.TopicLineOf` | Local_Project1.py:206-208 | the two lines printed for one topic are that topic's header and the space-joined words of a top-`n` selection of its weights |
| `TopicReport.PrintTopics` | Local_Project1.py:203-208 | the report has one entry per topic, in topic order; entry `t` carries the header of topic `t` and the space-joined words of a top-`n` selection of that topic's weights |

## Left out

- Loading the CSV, dropping columns, printing `head`/`shape`, grouping by year (Local_Project1.py:34-73): table I/O and pandas plumbing with no logic of its own.
- Rendering: the area plot, the word-cloud image and the bar chart (Local_Project1.py:73, 118-129, 161-169). The model stops at the values handed to them: the joined string, the word and count lists.
- `CountVectorizer` tokenisation and its English stop-word list (Local_Project1.py:173-177): library code not part of this model; the vocabulary and the count matrix are inputs whose rows are as wide as the vocabulary.
- LDA fitting (Local_Project1.py:216-217): floating-point variational inference inside scikit-learn; `components_` is an input matrix of comparable weights.
- TitleNormalizer.ToLower: lower-cases ASCII letters only; Python's `str.lower` also lower-cases non-ASCII letters, can turn one character into two (`'İ'` becomes `'i'` followed by U+0307) and can depend on the neighbouring characters (a capital sigma at the end of a word becomes the final sigma `'ς'`).
- TitleNormalizer.Lower: keeps the length and works position by position only because it is ASCII lower-casing; for Python on titles like those above neither holds.
- TitleNormalizer.NormalizeTitle: "no longer than the raw title" relies on ASCII lower-casing; with Python's `str.lower` a title holding `'İ'` can come out longer.
- TitleNormalizer.NormalizeKeepsEverythingElse: the one-to-one match between kept positions and output characters relies on ASCII lower-casing; it fails for Python on titles holding a character whose lower-case form is two characters long.
- TitleNormalizer.NormalizeConcat: splitting a title anywhere and processing character by character relies on ASCII lower-casing; for Python it fails where lower-casing depends on context (the final sigma) or lengthens a character.
- TermFrequency.TotalCounts: counts are natural numbers; the float array of `np.zeros` and its rounding are not modelled.
- TopicReport.PrintTopics: topic weights are integers; float weights, and NaN in particular, are not modelled.
- TopicReport.PrintTopics: uses one particular argsort (ties in index order). numpy's default argsort is not stable, so the order it gives to equal weights is not fixed; TopicReport.TopIndicesAreTopN is therefore stated for every valid argsort, and nothing is claimed about tie order.
- TopicReport.PrintTopics: `n_top_words` is a natural number; the slice that a negative value would produce is not modelled (the script passes 10).
- TopicReport.PrintTopics: writing to standard output is modelled as the returned list of header and term lines; the newlines `print` adds are not modelled.
- Dimension mismatches (a count row or weight row not as wide as the vocabulary) are preconditions. In the script they cannot arise: the count matrix and the topic weights both come from the same fitted vectoriser, so every row is as wide as the vocabulary. On other widths the script behaves as follows. A count row of another width makes numpy raise, except a row of width 1, which is broadcast and added to every total. A weight row of another width, narrower or wider, raises only when a selected index lies past the end of the vocabulary; otherwise the words at the selected indices are listed without error. None of this is modelled.
- The `warnings` filter (Local_Project1.py:194-196) and the trailing constant (Local_Project1.py:228): no behaviour to model.
