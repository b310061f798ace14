/** StudyAssistant.summarize_text (app.py:84-175): blank input is refused, text
    of at most two sentences is returned as it is, and longer text gets an
    extractive summary of its best sentences in document order, key points and
    a confidence value.

    NLTK's tokenizers and textstat are outside this model: they are the fields
    of a Tools value, and the stopword list is a set parameter. */
module Summarizer {
  import opened Text
  import opened Ranking
  import opened Scoring
  import opened Stats
  import opened Confidence
  import KP = KeyPoints
  import R = Readability

  /** The library calls summarize_text makes. */
  datatype Tools = Tools(
    sentTokenize: string -> seq<string>,     // nltk sent_tokenize(text)
    lowerTokens: string -> seq<string>,      // word_tokenize(sentence.lower())
    wordTokenize: string -> seq<string>,     // word_tokenize(text)
    flesch: string -> R.Option<(real, real)> // textstat's ease and grade, None when it raises
  )

  /** The dictionary summarize_text returns, one constructor per shape. */
  datatype Summary =
    | Error(message: string)
    | Short(summary: string, keyPoints: seq<string>, readability: R.Readability, confidence: real)
    | Full(summary: string, keyPoints: seq<string>, readability: R.Readability,
           wordCount: nat, sentenceCount: nat, confidence: real)

  /** The sentences of the cleaned text. */
  function Sentences(text: string, tools: Tools): seq<string> {
    tools.sentTokenize(CleanText(text))
  }

  /** The score of each sentence. */
  function Scores(sentences: seq<string>, tools: Tools, stop: set<string>): (scores: seq<real>)
    ensures |scores| == |sentences|
    ensures sentences != [] ==> Mean(scores) >= 0.0
  {
    var tokens := seq(|sentences|, i requires 0 <= i < |sentences| => tools.lowerTokens(sentences[i]));
    SentenceScores(FilteredSentences(tokens, stop))
  }

  /** The indices of the summary sentences, ascending. */
  function Selected(scores: seq<real>): seq<nat> {
    TopIndices(scores, SummaryLength(|scores|))
  }

  /** What a full summary of the cleaned text `cleaned`, split into `sentences`,
      holds. */
  ghost predicate IsFullSummary(out: Summary, cleaned: string, sentences: seq<string>, tools: Tools, stop: set<string>)
    requires |sentences| >= 3
  {
    var scores := Scores(sentences, tools, stop);
    var sel := Selected(scores);
    && out.Full?
    && out.sentenceCount == |sentences|
    && |sel| == SummaryLength(|sentences|)
    && out.summary == Join(" ", Pick(sentences, sel))
    && out.keyPoints == KP.KeyPoints(sentences, scores)
    && 2 <= |out.keyPoints| <= 5
    && out.confidence == SummaryConfidence(scores, sel)
    && 0.0 <= out.confidence <= 1.0
    && out.readability == R.ReadabilityOf(tools.flesch(cleaned))
    && out.wordCount == |tools.wordTokenize(cleaned)|
  }

  /** The extractive path of app.py:102-175, for at least three sentences. */
  method SummarizeSentences(cleaned: string, sentences: seq<string>, tools: Tools, stop: set<string>)
    returns (out: Summary)
    requires |sentences| >= 3
    ensures IsFullSummary(out, cleaned, sentences, tools, stop)
  {
    var n := |sentences|;
    var tokens := seq(n, i requires 0 <= i < n => tools.lowerTokens(sentences[i]));
    var filtered := FilteredSentences(tokens, stop);
    var vocab, freq := BuildFrequency(filtered);
    CountedIsFrequencies(Flatten(filtered), vocab, freq);
    var keywords := Keywords(vocab, freq);
    var scores := ScoreSentences(filtered, freq, keywords);
    assert scores == SentenceScores(filtered);
    var sel := TopIndices(scores, SummaryLength(n));
    var summary := Join(" ", Pick(sentences, sel));
    var keyPoints := KP.ExtractKeyPoints(sentences, scores);
    ConfidenceNonNegative(scores, sel);
    var confidence := SummaryConfidence(scores, sel);
    out := Full(summary, keyPoints, R.ReadabilityOf(tools.flesch(cleaned)),
                |tools.wordTokenize(cleaned)|, n, confidence);
  }

  method Summarize(text: string, tools: Tools, stop: set<string>) returns (out: Summary)
    ensures out.Error? <==> Strip(text) == []
    ensures out.Error? ==> out.message == "Please provide text to summarize"
    ensures out.Short? <==> Strip(text) != [] && |Sentences(text, tools)| <= 2
    ensures out.Short? ==> out == Short(CleanText(text), Sentences(text, tools),
                                        R.ReadabilityOf(tools.flesch(CleanText(text))), 1.0)
    ensures out.Full? <==> Strip(text) != [] && |Sentences(text, tools)| >= 3
    ensures out.Full? ==> IsFullSummary(out, CleanText(text), Sentences(text, tools), tools, stop)
  {
    if Strip(text) == [] {
      return Error("Please provide text to summarize");
    }
    var cleaned := CleanText(text);
    var sentences := tools.sentTokenize(cleaned);
    if |sentences| <= 2 {
      return Short(cleaned, sentences, R.ReadabilityOf(tools.flesch(cleaned)), 1.0);
    }
    out := SummarizeSentences(cleaned, sentences, tools, stop);
  }

  /** Every summary sentence scores at least as well as every sentence left out,
      and on a tie it comes earlier in the document. */
  lemma SummaryHasBestSentences(scores: seq<real>, i: nat, j: nat)
    requires i < |scores| && j < |scores|
    requires i in Selected(scores) && j !in Selected(scores)
    ensures scores[i] >= scores[j]
    ensures scores[i] == scores[j] ==> i < j
  {
    TopBeatsRest(scores, SummaryLength(|scores|), i, j);
  }

  /** The summary sentences average at least the mean score, so the confidence is
      at least mean / (mean + 0.1). Scores guarantees the non-negative mean. */
  lemma SummaryConfidenceAtLeast(scores: seq<real>)
    requires scores != [] && Mean(scores) >= 0.0
    ensures SummaryConfidence(scores, Selected(scores)) >= Mean(scores) / (Mean(scores) + 0.1)
  {
    ConfidenceOfTop(scores, SummaryLength(|scores|));
  }
}
