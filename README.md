# Study assistant: extractive summariser and student memory

This project models the logic of the Flask study assistant in `app.py`. The
centre of the model is `StudyAssistant.summarize_text`, the extractive
summariser:

- `clean_text` normalises the text in three regular-expression passes and
  then strips it;
- the text is split into sentences, and each sentence into filtered words;
- a document-wide word-frequency table (a `Counter`) is built;
- every sentence is scored from four heuristics: frequency, position, length
  and keyword density;
- the `max(1, min(4, n // 3))` best sentences are selected and joined in
  document order;
- key points are the sentences scoring at least 1.2 times the mean, with a
  best-two fallback and a cap of five;
- a confidence value compares the mean selected score with the mean score;
- the Flesch reading ease is bucketed into a reading level.

Beside the summariser the model covers:

- the per-student memory (`add_to_memory` and the quiz-performance update of
  the `/check_answer` route), as a class holding a map;
- the recommendations rule of the `/recommendations` route;
- `check_quiz_answer`;
- `estimate_reading_time`;
- `analyze_difficulty_distribution`;
- the deterministic quotas of `select_optimal_questions`.

The library calls the summariser makes are parameters of the model. These are
NLTK's `sent_tokenize` and `word_tokenize` (applied to the lower-cased
sentence), the English stopword set, and textstat's two Flesch numbers, which
are `None` where textstat raises. Timestamps are inputs.

Modules, one file each:

- `Text` (`text.dfy`): Python's `str.isspace`, `strip`, `split` and
  `' '.join`, and `clean_text`.
- `Counting`, `Ranking` and `Stats`: multiset counting over index sequences,
  the stable descending sort followed by `[:k]` (by rank), and sums and means.
- `Scoring`: the token filter, the frequency loop, `most_common(10)`, the four
  heuristics and the scoring loop.
- `KeyPoints`: `extract_enhanced_key_points`.
- `Confidence`: `calculate_summary_confidence`.
- `Readability`: `get_readability_score`.
- `Summarizer`: `summarize_text`.
- `Quiz`: `check_quiz_answer`, `estimate_reading_time`,
  `analyze_difficulty_distribution` and the question quotas.
- `Memory`: the student memory and the recommendations.

A stable sort followed by `[:k]` keeps exactly the indices whose rank is below
`k`. The rank of index `j` counts the indices with a higher score, or with an
equal score and a lower index. Python's `sorted(..., reverse=True)` keeps tied
items in their original order. `Counter.most_common` orders ties by first
insertion, which is first occurrence in the document, so the same construction
serves both.

The model follows these behaviours of the code:

- Consecutive sentence marks such as `a..` come out of `clean_text` as `a. .`.
  The third pass puts a space after every mark, so a space can stand before a
  mark. `Text.CleanText` states the weaker fact that holds: such a space sits
  inside a run of marks.
- A key point is shortened only when it has more than 150 characters *and*
  more than 20 words.
- Key points that pass the threshold are kept in document order. Only the
  best-two fallback is in score order.

## Model

| member | source | states |
|---|---|---|
| Text.Strip | app.py:86 | `text.strip()` has no whitespace at either end, keeps every visible character in order, and is empty exactly when the text has no visible character (so blank input is detected) |
| Text.CleanText | app.py:177-185 | the cleaned text keeps every visible character in order and is empty iff the input is blank; it has no whitespace at either end, only plain spaces, never two spaces in a row, a space after every sentence mark but the last character, and a space before a mark only inside a run of marks; between two neighbouring visible characters there is a space exactly when the first is a sentence mark, or the input had whitespace there and the second is not a sentence mark (so `a b` stays `a b`) |
| Text.WordsOfText | app.py:215 | `str.split()` yields non-empty words without whitespace whose concatenation is exactly the visible characters of the text |
| Text.WordsOfJoin | app.py:217 | joining words with single spaces and splitting again gives the same words back |
| Ranking.TopIndices | app.py:154-156 | the selection has `min(k, n)` indices, all in range, strictly ascending, and holds exactly the indices of rank below `k` under the stable descending sort |
| Ranking.RanksPermutation | app.py:155 | the ranks of the stable descending sort are distinct and below `n`, so they are a permutation of `0..n-1` |
| Ranking.TopBeatsRest | app.py:155-156 | a selected index beats every unselected one: a higher score, or an equal score and an earlier position |
| Ranking.FirstBeatsAll | app.py:222 | the first item of the stable descending sort beats every other index |
| Ranking.SecondBeatsRest | app.py:222 | the second item of the stable descending sort beats every index except the first |
| Scoring.FilterWords | app.py:112 | a word is among the filtered words exactly when it is a token that is ASCII-alphanumeric, not a stopword and longer than two characters, and there are no more filtered words than tokens |
| Scoring.FilterWordsAppend | app.py:112 | filtering two token lists one after the other gives the same as filtering their concatenation, so the kept tokens stay in their order |
| Scoring.FilterWordsOccurrences | app.py:112 | a kept word occurs in the filtered list as often as among the tokens, and any other word does not occur at all |
| Scoring.CountWords | app.py:113-114 | counting the words of a sentence extends the frequency table to all words seen so far, with new words appended to the key order |
| Scoring.BuildFrequency | app.py:106-114 | the table's keys are exactly the filtered words of the document, each mapped to its number of occurrences, and the key order is first occurrence |
| Scoring.CountedIsFrequencies | app.py:106-114 | the table the loop builds is the frequency function of the document's words |
| Scoring.OccurrencesPositive | app.py:126 | a word occurs a positive number of times exactly when it is in the document |
| Scoring.KeywordsAreMostFrequent | app.py:197 | every keyword occurs at least as often as every non-keyword, and at equal counts it occurred first in the document |
| Scoring.KeywordsCount | app.py:197 | there are ten keywords, or as many as there are distinct words when there are fewer than ten |
| Scoring.KeywordShare | app.py:193-200 | the keyword score lies in [0, 1] and is 0 for a sentence with no filtered words |
| Scoring.PositionScore | app.py:128-133 | position is 1.0 exactly for the first and last sentence, 0.8 exactly for other sentences in the first 30%, and 0.5 exactly for the other sentences from 30% on |
| Scoring.LengthScore | app.py:135-140 | length is 1.0 exactly for 5 to 30 words, 0.5 exactly below 5 words, and 0.7 exactly above 30 words |
| Scoring.SentenceScore | app.py:121-151 | a score is never negative, and it is 0 exactly when the sentence has no filtered words |
| Scoring.ScoreSentences | app.py:117-151 | the loop gives one score per sentence, the combined score of that sentence at its position |
| Scoring.ScoresOfNonEmptySentences | app.py:121-151 | a sentence with at least one filtered word scores at least 0.6, since each of its words occurs at least once |
| Scoring.SummaryLength | app.py:154 | the summary length `k` is between 1 and 4; for three or more sentences it is at most a third of them and below their number; it is `n // 3` for 3 to 14 sentences and 4 from 12 on |
| Scoring.SentenceScores | app.py:117-151 | every sentence score is non-negative, so their mean is too |
| KeyPoints.ShortenKeepsFirstWords | app.py:213-217 | a shortened point is its first 20 words joined by single spaces, then `...`, and splitting that head gives the same 20 words back |
| KeyPoints.KeptIndicesFacts | app.py:209-210 | the kept indices are, in ascending order, exactly the sentences whose score reaches the threshold |
| KeyPoints.KeptPointsInOrder | app.py:208-218 | the kept points are the stripped and shortened sentences at the kept indices, in document order |
| KeyPoints.KeepAboveThreshold | app.py:208-218 | the loop builds exactly that list of kept points |
| KeyPoints.ShortenPoint | app.py:212-217 | the truncation step computes the shortened point |
| KeyPoints.SomeSentenceBelowThreshold | app.py:205-206 | with a positive total score, some sentence falls below 1.2 times the mean, so the threshold path never keeps every sentence |
| KeyPoints.Fallback | app.py:221-223 | the fallback holds two sentences, or one when there is one score |
| KeyPoints.FallbackHasBestTwo | app.py:221-223 | the fallback is the best sentence, then the runner-up, unshortened; no other sentence scores higher than either |
| KeyPoints.KeyPoints | app.py:202-225 | there are at most five key points, and at least two whenever there are at least two sentences |
| KeyPoints.ExtractKeyPoints | app.py:202-225 | the method returns the key points of the sentences and scores |
| Confidence.SummaryConfidence | app.py:227-240 | the confidence is 0.5 when the scores or the selection are empty, and never above 1.0 |
| Confidence.ConfidenceNonNegative | app.py:227-240 | with non-negative scores the denominator is positive and the confidence is non-negative |
| Confidence.TopMeanAtLeastMean | app.py:235-236 | the mean of the top-`k` scores is at least the mean of all scores |
| Confidence.ConfidenceOfTop | app.py:235-239 | for a top-`k` selection the confidence is at least `min(1, mean / (mean + 0.1))` |
| Readability.LevelIndex | app.py:672-685 | the level index counts how many of the floors 90, 80, 70, 60, 50 and 30 the ease score falls below |
| Readability.LevelMonotone | app.py:672-685 | a higher ease score never gives a harder level |
| Readability.LevelBands | app.py:672-685 | each middle level is taken exactly on its half-open band of ease scores |
| Readability.ReadabilityOf | app.py:665-696 | when textstat raises, the result is 0, 0 and "Unknown"; otherwise the two scores pass through and the level is the named level of the ease score's band |
| Summarizer.Scores | app.py:110-151 | there is one score per sentence, and their mean is non-negative |
| Summarizer.Summarize | app.py:84-175 | blank input gives only the error message; up to two sentences give the cleaned text, the sentence list and confidence 1.0; otherwise the full summary holds |
| Summarizer.SummarizeSentences | app.py:102-175 | the full summary joins the selected sentences with single spaces in ascending index order and has `SummaryLength` of them; there are 2 to 5 key points; the confidence lies in [0, 1]; and the counts, readability and key points are those of the sentences |
| Summarizer.SummaryHasBestSentences | app.py:154-156 | a summary sentence scores at least as high as any left-out sentence, and wins a tie only by coming first |
| Summarizer.SummaryConfidenceAtLeast | app.py:165 | the confidence of the summary is at least `mean / (mean + 0.1)` |
| Quiz.CheckQuizAnswer | app.py:656-663 | the answer is correct exactly when the selected and correct options are equal, and both are echoed back |
| Quiz.NatToString | app.py:307 | a number prints as a non-empty string of decimal digits without a leading zero |
| Quiz.NatToStringRoundTrip | app.py:307 | reading the printed digits back gives the number |
| Quiz.ReadingMinutes | app.py:302-304 | the minutes are at least 1, exactly 1 below 338 words, and otherwise the nearest whole number to words / 225 |
| Quiz.MinutesText | app.py:305-307 | one minute prints as "1 minute"; any other count prints as its decimal digits followed by " minutes" |
| Quiz.ReadingTime | app.py:300-307 | the estimate is "1 minute" exactly when the text has fewer than 338 words |
| Quiz.CountOf | app.py:651-653 | a difficulty is counted at most once per question |
| Quiz.AnalyzeDifficultyDistribution | app.py:648-654 | the loop computes the distribution of the questions, or the `KeyError` of the first unknown difficulty |
| Quiz.KeyErrorPersists | app.py:651-653 | once a `KeyError` has been raised, the later questions do not change the result |
| Quiz.DistributionCounts | app.py:648-654 | when every difficulty is known, each count is that difficulty's number of questions (a missing one counts as medium), and the counts add up to the number of questions |
| Quiz.DistributionKeyError | app.py:651-653 | the first question with an unknown difficulty raises `KeyError` naming it |
| Quiz.BucketSize | app.py:629-631 | a difficulty bucket holds at most all the questions |
| Quiz.HardQuotaNegative | app.py:625-627 | the hard quota as written is negative exactly when at most one question is asked for |
| Quiz.PlanAsWritten | app.py:614-636 | as written, the selection raises `ValueError` exactly when there are more questions than asked for and at most one is asked for |
| Quiz.OneQuestionQuizFails | app.py:625-636 | a two-question bank with one question asked for raises `ValueError` |
| Quiz.Quotas | app.py:625-627 | the corrected quotas: easy and medium are at least 1; from two questions on they add up to the number asked for; from three on, easy and medium are `num // 3` and hard is at least as many |
| Quiz.SelectionPlan | app.py:616-636 | with the corrected quotas the selection never raises `ValueError`; the input is returned unchanged exactly when it is no longer than asked for; otherwise each draw fits its bucket and the draws total at most `max(num, 2)` |
| Quiz.PlansAgree | app.py:614-636 | wherever the code as written does not raise, it draws what the corrected plan draws |
| Memory.Bump | app.py:73-76 | the count of a topic goes up by 1 from 0 or its old value; other counts are unchanged |
| Memory.Added | app.py:64-76 | adding an interaction appends exactly that interaction and counts its topic only when the topic is truthy; quiz performance and preferences are untouched |
| Memory.AddedWellFormed | app.py:64-76 | adding an interaction keeps the record well formed: `correct <= total` for every quiz topic, the quiz-topic order lists each quiz topic once, and every studied topic has a count of at least 1 |
| Memory.AddInteraction | app.py:64-76 | the in-place steps compute the added record |
| Memory.StudentMemory.constructor | app.py:38-41 | the memory starts empty, which is what loading leaves when there is no file |
| Memory.StudentMemory.AddToMemory | app.py:54-78 | an unseen student gets a fresh four-field record; the student's record becomes the added record; every other student is unchanged |
| Memory.Answered | app.py:792-797 | a quiz topic is created at 0/0 when new; its total goes up by 1 and its correct count by 1 only on a match; other topics, the interactions and the studied topics are unchanged |
| Memory.AnsweredWellFormed | app.py:792-797 | counting an answer keeps `correct <= total` for every topic |
| Memory.AnswersKeepCorrectAtMostTotal | app.py:795-797 | after an answer is counted, the topic has `correct <= total` |
| Memory.CountAnswer | app.py:792-797 | the in-place steps compute the answered record |
| Memory.StudentMemory.RecordAnswer | app.py:791-797 | a student on record has the answer counted; without a record nothing changes |
| Memory.StudentMemory.CheckAnswer | app.py:771-801 | the route returns the checked answer, logs it as a `quiz_answer` interaction of the topic, and counts it in the quiz performance of that one student |
| Memory.Accuracy | app.py:828 | accuracy is `correct / total`, or 0 with no answers, and lies in [0, 1] when `correct <= total` |
| Memory.AccuracyBelow | app.py:828-829 | accuracy below 70% means no answers yet, or fewer than 7 correct out of every 10 |
| Memory.Reviews | app.py:826-830 | there are at most as many reviews as quiz topics, each names a quiz topic, and no topic is reviewed twice when the quiz topics are listed once each |
| Memory.ReviewsExactly | app.py:826-830 | a topic is recommended for review exactly when it has a quiz record with accuracy below 70% |
| Memory.CollectReviews | app.py:826-830 | the loop computes those reviews in quiz-topic order |
| Memory.RecommendationsOf | app.py:823-841 | the recommendation list is never empty |
| Memory.KeepGoingExactly | app.py:834-841 | the encouragement appears exactly when every quiz topic is at 70% or more and neither follow-on topic applies |
| Memory.Recommend | app.py:818-843 | the route returns the recommendations of the student's record |

## Left out

- NLTK's tokenizers, its stopword list and textstat's Flesch formulas are
  foreign library code. They are parameters of `Summarizer.Summarize`, and the
  model proves nothing about their output.
- Scoring.FilterWords: `str.isalnum()` is modelled over ASCII letters and
  digits only, because Unicode character classes are not modelled.
- `str.lower()` is folded into the word-tokenizer parameter, because Unicode
  case mapping is not modelled.
- Python floats are modelled as exact reals.
- Scoring.PositionScore: the float test `i < n * 0.3` is taken as the exact
  `10 * i < 3 * n`. The two could differ only where the rounded product
  `n * 0.3` crosses a whole number, and the model does not capture that.
- Rounding is not modelled: confidence to 2 decimals, the Flesch scores to 1
  decimal, and the `:.1%` percentage in review messages (`Memory.Review`
  carries the exact accuracy).
- The `summary_ratio` field (app.py:174) is left out, because it is a rounded
  float ratio.
- Confidence.SummaryConfidence: requires the mean score plus 0.1 to be
  non-zero, so the `ZeroDivisionError` app.py:239 would raise for a mean of
  exactly -0.1 is not modelled. The summariser's scores are never negative, so
  it cannot reach that case.
- `Summarizer.Summarize`: the full summary's word count is the length of the
  tokenizer's output, which is a parameter.
- The random part of `select_optimal_questions` (app.py:633-646) is
  nondeterministic: `random.sample`, the fill loop, `random.choice` and
  `random.shuffle`. The model stops at the quotas and the per-bucket draw
  sizes. `Quiz.SelectionPlan` and `Quiz.PlanAsWritten` do not model which
  questions are drawn or their order.
- `Memory.StudentMemory.AddToMemory` and `Memory.StudentMemory.CheckAnswer`:
  `save_memory`, `load_memory` (JSON file I/O) and `datetime.now()` are left
  out. The timestamp is a parameter.
- Python dictionaries keep insertion order. The model keeps quiz topics in a
  map plus a separate sequence `quizOrder` holding the order topics were first
  answered. The recommendations loop follows that sequence.
- The Flask routes, sessions, `uuid`, `jsonify`, the static content tables
  and `demo.py` are web plumbing or fixed data.
- `Memory.StudentMemory.CheckAnswer`: the route reads its inputs from the
  request with defaults, which are not modelled. The topic is always
  recorded, as `Some(topic)`, so an empty topic is counted in the quiz
  performance but not in the studied topics, just as in the code.

## Findings

| source | as written | input that shows it | evidently intended | confidence | as-written member | corrected member |
|---|---|---|---|---|---|---|
| app.py:625-636 | `hard_count = num_questions - 2 * max(1, num_questions // 3)` is -1 for `num_questions = 1`, and `random.sample(hard_questions, min(-1, len(hard_questions)))` then raises `ValueError` whenever there are more questions than asked for | two questions, one easy and one hard, with `num_questions = 1` | the hard quota is never negative, so asking for one question draws instead of failing | not executed | Quiz.OneQuestionQuizFails | Quiz.SelectionPlan |
