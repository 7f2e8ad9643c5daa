# Content-based book recommender, modelled in Dafny

This project models the scoring pipeline of `recommender.py`, a content-based book
recommender. For one user it does the following:

- takes the user's three best ratings and looks those books up in the catalog;
- builds a taste profile from them: title keywords, lower-cased authors and publication years;
- scores every candidate book against the profile with two measures, a Jaccard-weighted
  score and a Dice-weighted score, each with an author bonus and a best-year multiplier;
- sorts the candidates by each score and keeps the top ten of each;
- merges the two top-ten lists into a "golden standard" list;
- counts how often the lists agree position by position.

The model is split by component, one module each:

- `Results` and `Records`: the data.
- `Sorting`: the stable sort that stands for `DataFrame.sort_values` and `list.sort`.
- `KeywordExtractor`: `getKeywords`.
- `Profiles`: the rating and profile helpers, lines 10-89.
- `Scoring`: `calcJaccard`, `calcDice` and `similarity`.
- `Golden`: `getGoldenStandard`.
- `Ranking`: the candidate scan, the top-ten cut and the overlap counts of the driver loop.
- `Session`: one pass of the driver loop for one user.

Where the Python code changes lists step by step, the model is a method with a loop. Each
such method is proved equal to a reference function, or proved to have the properties
the code promises. The pure index computations are functions.

Python exceptions become a `Result` value:

- `ZeroDivisionError` when a candidate and the profile both have no keywords, raised at line 96;
- `IndexError` when a fixed ten-step copy runs past the end of a list, at lines 160 and 225-226.

Inputs the code gets from libraries are parameters:

- the tokenizer `tokenize`, which stands for lower-casing, `re.sub(r'[^\w]', ' ', …)` and
  NLTK's `word_tokenize`;
- the stop-word set;
- the lower-casing function `lower`, Python's `str.lower`.

Behaviours of the code that the model keeps as written:

- Line 156 sorts the golden list ascending by the key `(x[4], -x[5])`. So entries found in only
  one list (occurrence 1) come before entries found in both (occurrence 2), and a higher total
  comes first among equal occurrences.
- Line 116 starts the best-year multiplier at 0, and line 119 only ever raises it. So it is never
  negative, however far apart the years are.
- Line 74 extends the profile with each title's keywords, so a word repeated across titles is
  kept once per title.
- Line 96 raises `ZeroDivisionError` when the candidate and the profile both have no keywords.
- Line 160 raises `IndexError` when the merged golden list has fewer than ten entries. In the
  driver this cannot happen, because ten Jaccard books always give ten entries
  (`Golden.TenJaccardBooksSuffice`).
- A profile with keywords a, b, b, c, author "smith" and year 2000 scores a candidate with
  keywords b, c by "smith" from 2000 at 14/15 (Jaccard-weighted) and 9/10 (Dice-weighted)
  (`Scoring.ProfileScenario`).

## Model

| member | source | states |
|---|---|---|
| `Sorting.SortBySorted` | recommender.py:216-217 | the sort puts the list in the order of the comparison key |
| `Sorting.SortByStable` | recommender.py:216-217 | the sort is stable: for every key, the elements with that key keep their original order |
| `Sorting.SortedPrefixLeftOut` | recommender.py:156-160 | no element left out of the first k of a sorted list may be placed before the last one kept |
| `Sorting.TopOfSorted` | recommender.py:224-226 | the first k entries of a sorted list plus the rest are the whole list, and no entry left out may come before the last one kept |
| `KeywordExtractor.GetKeywords` | recommender.py:64-67 | the loop's "not yet in keywords" test yields exactly the eligible tokens, each at its first occurrence, in token order |
| `KeywordExtractor.KeywordsMembers` | recommender.py:64-67 | a word is a keyword iff it is a token, not a stop word, not one of the five blacklisted words, and at least 2 characters long |
| `KeywordExtractor.KeywordsDistinct` | recommender.py:64-67 | no keyword appears twice |
| `KeywordExtractor.KeywordsInFirstOccurrenceOrder` | recommender.py:64-67 | keywords are in the order of their first occurrence among the tokens, so they form a subsequence of the tokens |
| `KeywordExtractor.GreatNovelExample` | recommender.py:49-67 | the tokens of "The Great Novel, Paperback Edition!" give ["great"] when "the" is a stop word |
| `Profiles.RatedBooks` | recommender.py:11-12 | the user's ratings are exactly the (ISBN, rating) pairs of the ratings rows with that user id |
| `Profiles.RatedIsbns` | recommender.py:15-19 | the ISBN column of the user's ratings, in order |
| `Profiles.TopRatingsFromInput` | recommender.py:26-27 | after the descending sort, the first n ratings are ratings of the user, with no rating used more often than it occurs |
| `Profiles.TopRatingsDescend` | recommender.py:26-27 | after the descending sort, the first n ratings are non-increasing |
| `Profiles.TopRatingsBeatLeftOut` | recommender.py:26-27 | after the descending sort, no rating left out of the first n is above the last one kept |
| `Profiles.TopThreeRatings` | recommender.py:23-32 | at most 3 of the user's ratings (fewer only when the user has fewer), non-increasing, and every rating left out is at most the smallest kept |
| `Profiles.Lookup` | recommender.py:39 | the catalog query returns exactly the details of the catalog rows with that ISBN |
| `Profiles.LookupMissing` | recommender.py:39-41 | an ISBN missing from the catalog contributes no row |
| `Profiles.LookupAtMostOne` | recommender.py:39 | with unique catalog ISBNs a lookup finds at most one row |
| `Profiles.TopThreeBooks` | recommender.py:36-42 | the result is the concatenation, in rating order, of the rows found for each rated ISBN |
| `Profiles.LookupAllBound` | recommender.py:36-42 | with unique catalog ISBNs there are no more book details than top ratings |
| `Profiles.TopThreeKeywords` | recommender.py:71-75 | the profile keywords are each title's keywords concatenated in book order |
| `Profiles.ProfileKeywordsMembers` | recommender.py:71-75 | a word is a profile keyword iff it is an eligible token of one of the titles |
| `Profiles.ProfileKeywordsKeepRepeats` | recommender.py:74 | repeats across titles are kept: two copies of a title with keyword "dune" give ["dune", "dune"] |
| `Profiles.TopThreeAuthors` | recommender.py:78-82 | one lower-cased author per book, in book order |
| `Profiles.TopThreeYears` | recommender.py:85-89 | one publication year per book, in book order |
| `Scoring.Jaccard` | recommender.py:93-96 | the Jaccard index of two non-empty-union word lists lies in [0, 1] |
| `Scoring.Dice` | recommender.py:99-103 | the Dice coefficient of two word lists, not both empty, lies in [0, 1] |
| `Scoring.JaccardSymmetric` | recommender.py:93-96 | the Jaccard index does not depend on the order of its arguments |
| `Scoring.DiceSymmetric` | recommender.py:99-103 | the Dice coefficient does not depend on the order of its arguments |
| `Scoring.JaccardOneIffSameWords` | recommender.py:93-96 | the Jaccard index is 1 iff the two lists hold the same set of words |
| `Scoring.JaccardZeroIffDisjoint` | recommender.py:93-96 | the Jaccard index is 0 iff the two lists share no word |
| `Scoring.DiceOneIffSameWords` | recommender.py:99-103 | the Dice coefficient is 1 iff the two lists hold the same set of words |
| `Scoring.DiceZeroIffDisjoint` | recommender.py:99-103 | the Dice coefficient is 0 iff the two lists share no word |
| `Scoring.IndicesIgnoreRepeats` | recommender.py:94-95 | both indices depend only on the sets of words, so repeated words change neither |
| `Scoring.BestYear` | recommender.py:116-120 | the running maximum computed by the loop is the best-year multiplier |
| `Scoring.BestYearMultiplier` | recommender.py:116-120 | the multiplier lies in [0, 1], is at least every profile year's 1 - \|userYear - year\|/2005, and is 0 or one of them: the maximum of 0 and all of them (0 for no profile years) |
| `Scoring.SameYearGivesFullMultiplier` | recommender.py:116-120 | a profile year equal to the candidate's year gives the multiplier 1 |
| `Scoring.SimilarityScores` | recommender.py:106-125 | ZeroDivisionError iff both keyword lists are empty; otherwise both scores lie in [0, 1] |
| `Scoring.Similarity` | recommender.py:106-125 | the accumulated scores are exactly 0.2·J + 0.4·[author in profile] + 0.4·m and 0.5·D + 0.3·[author in profile] + 0.2·m, with m the best-year multiplier; the title is unused |
| `Scoring.PerfectMatchScoresOne` | recommender.py:106-125 | the same words, a profile author and a profile year give 1 on both scales |
| `Scoring.ProfileScenario` | recommender.py:106-125 | profile keywords a, b, b, c, author "smith", year 2000 against candidate keywords b, c by "smith" from 2000 give 14/15 and 9/10 |
| `Golden.MatchesOf` | recommender.py:137 | the list comprehension holds only entries of topDice with that ISBN, is empty iff the ISBN is not on the Dice list, and starts with the first such entry |
| `Golden.JaccardPass` | recommender.py:135-145 | the first loop yields one entry per Jaccard book, and the checked ISBNs are the Jaccard list's ISBNs in order |
| `Golden.DicePass` | recommender.py:148-152 | the second loop appends exactly the entries of the Dice books whose ISBN is not checked, in Dice order |
| `Golden.FirstTen` | recommender.py:159-160 | IndexError iff the sorted list has fewer than 10 entries; otherwise its first 10 entries |
| `Golden.GoldenStandard` | recommender.py:129-162 | IndexError iff the merged list has fewer than 10 entries; otherwise the first 10 entries of the merged list sorted by (occurrences, -total) |
| `Golden.MergedShape` | recommender.py:135-152 | one entry per Jaccard book, in order: occurrence 2 with the mean score of the first Dice match iff its ISBN is on the Dice list, otherwise occurrence 1 with its own score; then the Dice-only entries: each is the occurrence-1 entry, carrying its Dice score, of a Dice book whose ISBN is not on the Jaccard list, and every such Dice book has its entry there; at least as many entries as Jaccard books |
| `Golden.DiceOnlyEntriesComplete` | recommender.py:148-152 | every Dice book whose ISBN was not checked gets its occurrence-1 entry |
| `Golden.OccurrencesCountLists` | recommender.py:135-152 | an entry has occurrence 2 exactly when its ISBN is on both lists, and occurrence 1 when it is on exactly one |
| `Golden.TenJaccardBooksSuffice` | recommender.py:159-160 | with at least 10 Jaccard books the merged list has the 10 entries the fixed copy needs |
| `Golden.GoldenOrder` | recommender.py:156-162 | the sorted list is a stable permutation of the merged list; the 10 kept entries are ordered by occurrence ascending and then total descending; every entry left out sorts after the tenth |
| `Ranking.ScanCandidates` | recommender.py:199-213 | the scan as written: the result is that of the scan with the variable ISBN rebound to each scored candidate's ISBN, or the first ZeroDivisionError |
| `Ranking.RatedBookScoredAsWritten` | recommender.py:204-207 | as written, a rated book after the first scored candidate is scored too; the intended scan skips it |
| `Ranking.RatedBookAsWritten` | recommender.py:204-207 | as written, the catalog "0002", "0001" with "0001" rated scores both books |
| `Ranking.RatedBookIntended` | recommender.py:204-205 | the intended scan over the same catalog scores "0002" only |
| `Ranking.RatedIsbnNotInCandidate` | recommender.py:204 | once `ISBN` is "0002", the rated "0001" is not excluded |
| `Ranking.PieceOfIsbnSkippedAsWritten` | recommender.py:204-207 | as written, after the first scored candidate, line 204 tests against the last scored candidate's ISBN, so the unrated "012" after "0123" is skipped; the intended scan scores it |
| `Ranking.ScanUnratedCandidates` | recommender.py:203-213 | the scan with the intended exclusion computes the intended scan's result |
| `Ranking.ScanIntendedIsbns` | recommender.py:203-213 | the Jaccard and Dice lists of the intended scan both name the unrated catalog books, in catalog order |
| `Ranking.UnratedIsbnsUnrated` | recommender.py:204 | no ISBN of a rated book is among the unrated ISBNs |
| `Ranking.ScanIntendedScoresUnrated` | recommender.py:203-213 | the intended scan scores exactly the unrated catalog books, in catalog order, with both lists in step and never a rated book |
| `Ranking.ScanIntendedStepFails` | recommender.py:203-211 | one more catalog row makes the intended scan raise iff it had raised already, or the row is unrated and both keyword lists are empty |
| `Ranking.ScanIntendedFails` | recommender.py:203-211 | the intended scan raises iff the profile has no keywords and some unrated candidate has none either |
| `Ranking.PositionalMatchesAll` | recommender.py:224-228 | all n positions match iff the two prefixes of length n are equal |
| `Ranking.OverlapOfTen` | recommender.py:227-229 | the share of matching positions among ten lies in [0, 1] and is 1 iff the first ten ISBNs agree |
| `Ranking.TopTen` | recommender.py:215-229 | IndexError iff a graded list has fewer than 10 entries; otherwise each top list is the first 10 of its list sorted by score, and the list similarity is the share of positions with the same ISBN |
| `Ranking.TopTenIsBest` | recommender.py:216-226 | a top list has non-increasing scores, is taken from its graded list, and no graded book left out scores above the tenth; ties keep catalog order |
| `Ranking.GoldenOverlap` | recommender.py:248-259 | the golden-Jaccard and golden-Dice similarities are the shares of the ten positions where the golden list names the same ISBN as each top list |
| `Session.TopOfUnrated` | recommender.py:216-226 | a top list cut from unrated books holds unrated books only |
| `Session.GoldenOfUnrated` | recommender.py:135-162 | a golden list built from two lists of unrated books holds unrated books only |
| `Ranking.ScanIntendedRaisesDivision` | recommender.py:203-211 | the only exception the intended scan raises is ZeroDivisionError |
| `Sorting.SortedPrefixMembers` | recommender.py:224-226 | the first n entries of a sorted list are entries of the list |
| `Session.UserProfile` | recommender.py:182-196 | the top ratings have length min(3, n), come from the user's ratings, are non-increasing, and no rating left out beats the last one kept; the profile's keywords are every title keyword of those books in order, with one lower-cased author and one year per book |
| `Session.RankForProfile` | recommender.py:201-260 | the scan raises ZeroDivisionError exactly when the profile has no keyword and some unrated catalog book has none either, and IndexError only if fewer than 10 catalog books are unrated; it succeeds otherwise; on success the two top lists are the first 10 of the stable score sort of the intended scan against that profile, no recommended book is rated, the golden list is the first 10 of the sorted merge of the two top lists, and the three similarities are the positional overlaps of the first ten ISBNs, each in [0, 1] |
| `Session.RecommendForUser` | recommender.py:179-263 | one iteration of the loop over users: the top three ratings and the profile built from their books, exactly as `Session.UserProfile` states, then the ranking against that profile and the user's rated ISBNs, exactly as `Session.RankForProfile` states |

## Findings

| source | as written | input that shows it | evidently intended | confidence | as-written member | corrected member |
|---|---|---|---|---|---|---|
| recommender.py:207 | `ISBN` is rebound to the scored candidate's ISBN string, so after the first scored candidate, line 204 tests each row against the last scored candidate's ISBN | user rated only "0001"; catalog "0002", then "0001": both are scored | skip every book the user rated (the list from line 186) | high; not executed | `Ranking.RatedBookScoredAsWritten` | `Ranking.ScanUnratedCandidates` |
| recommender.py:204 | once `ISBN` is a string, `in` is a substring test, and after the first scored candidate line 204 tests against the last scored candidate's ISBN | user rated nothing; catalog "0123", then "012": "012" is skipped | score every unrated book | high; not executed | `Ranking.PieceOfIsbnSkippedAsWritten` | `Ranking.ScanUnratedCandidates` |

## Left out

- Loading the CSV tables with pandas (lines 164-173). This is I/O. The tables are sequences of records here.
- The random choice of five users (line 177). It is nondeterministic. `Session.RecommendForUser` models one iteration of the loop over users.
- Writing result files and all `print` output (lines 191-192, 231-241, 245-246, 261-265). This is I/O.
- The `warnings` filter (lines 7-8).
- NLTK's stop-word list and `word_tokenize`, `str.lower` and the Unicode meaning of `re.sub(r'[^\w]', ' ', …)`. These are library calls. They are the parameters `stopWords`, `tokenize` and `lower`.
- IEEE-754 rounding. Scores and shares are exact `real` values.
- The internals of `DataFrame.query`, `sort_values` and `list.sort`. Queries are filters over sequences, and sorts are one stable insertion sort.
- Profiles.TopThreeRatings: the model takes the stable order among equal ratings, one of the orders pandas' default (unstable) sort may produce. Its contract states only what holds for every tie order.
- Session.RecommendForUser: uses the corrected scan `Ranking.ScanUnratedCandidates`, not the scan as written. `Ranking.ScanCandidates` models the code as written.
- Python's dynamic typing, such as `int(userYear)` on a year that is not a number. Years and ratings are integers here.
