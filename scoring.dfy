/** Sentence scoring of StudyAssistant.summarize_text (app.py:102-151) and
    calculate_keyword_score (app.py:187-200).

    Each sentence arrives as the token list word_tokenize(sentence.lower())
    produced; the tokenizer itself is not part of this model. Scores are the
    exact reals the float expressions approximate. */
module Scoring {
  import opened Ranking
  import opened Stats

  // ---------------------------------------------------------------------------
  // The token filter (app.py:112, 191)
  // ---------------------------------------------------------------------------

  predicate IsAsciiAlnum(c: char) {
    ('a' <= c <= 'z') || ('A' <= c <= 'Z') || ('0' <= c <= '9')
  }

  /** str.isalnum(): non-empty and made of letters and digits only. */
  predicate IsAlnum(w: string) {
    w != [] && forall i :: 0 <= i < |w| ==> IsAsciiAlnum(w[i])
  }

  /** Whether the summariser keeps a token: alphanumeric, not a stopword, and
      longer than two characters. */
  predicate Keep(w: string, stop: set<string>) {
    IsAlnum(w) && w !in stop && |w| > 2
  }

  /** `[word for word in tokens if keep(word)]`. */
  function FilterWords(tokens: seq<string>, stop: set<string>): (ws: seq<string>)
    ensures |ws| <= |tokens|
    ensures forall w :: w in ws <==> w in tokens && Keep(w, stop)
  {
    if tokens == [] then []
    else
      var rest := FilterWords(tokens[1..], stop);
      assert forall w :: w in tokens <==> w == tokens[0] || w in tokens[1..];
      if Keep(tokens[0], stop) then [tokens[0]] + rest else rest
  }

  // ---------------------------------------------------------------------------
  // The word-frequency Counter (app.py:106-114)
  // ---------------------------------------------------------------------------

  /** All words of all sentences, in document order. */
  function Flatten(ss: seq<seq<string>>): (ws: seq<string>) {
    if ss == [] then [] else Flatten(ss[..|ss| - 1]) + ss[|ss| - 1]
  }

  /** How often w occurs in ws. */
  function Occurrences(ws: seq<string>, w: string): nat {
    if ws == [] then 0 else Occurrences(ws[..|ws| - 1], w) + (if ws[|ws| - 1] == w then 1 else 0)
  }

  /** The distinct words of ws in order of first occurrence: the key order of a
      Counter filled from ws. */
  function FirstOccurrences(ws: seq<string>): (vs: seq<string>)
    ensures forall w :: w in vs <==> w in ws
    ensures forall a, b :: 0 <= a < b < |vs| ==> vs[a] != vs[b]
  {
    if ws == [] then []
    else
      var p := FirstOccurrences(ws[..|ws| - 1]);
      assert forall w :: w in ws <==> w in ws[..|ws| - 1] || w == ws[|ws| - 1];
      if ws[|ws| - 1] in p then p else p + [ws[|ws| - 1]]
  }

  lemma {:induction false} OccurrencesAppend(a: seq<string>, b: seq<string>, w: string)
    ensures Occurrences(a + b, w) == Occurrences(a, w) + Occurrences(b, w)
    decreases |b|
  {
    if b == [] {
      assert a + b == a;
    } else {
      assert (a + b)[..|a + b| - 1] == a + b[..|b| - 1];
      OccurrencesAppend(a, b[..|b| - 1], w);
    }
  }

  /** Filtering a concatenation filters each part: the filter keeps the
      document order of the tokens it keeps. */
  lemma {:induction false} FilterWordsAppend(a: seq<string>, b: seq<string>, stop: set<string>)
    ensures FilterWords(a + b, stop) == FilterWords(a, stop) + FilterWords(b, stop)
  {
    if a == [] {
      assert a + b == b;
    } else {
      assert (a + b)[0] == a[0] && (a + b)[1..] == a[1..] + b;
      FilterWordsAppend(a[1..], b, stop);
      var fa, fb := FilterWords(a[1..], stop), FilterWords(b, stop);
      assert [a[0]] + (fa + fb) == ([a[0]] + fa) + fb;
    }
  }

  /** Every kept word survives as often as it occurs; every other word is gone. */
  lemma {:induction false} FilterWordsOccurrences(tokens: seq<string>, stop: set<string>, w: string)
    ensures Occurrences(FilterWords(tokens, stop), w) == if Keep(w, stop) then Occurrences(tokens, w) else 0
    decreases |tokens|
  {
    if tokens != [] {
      var init, last := tokens[..|tokens| - 1], tokens[|tokens| - 1];
      assert tokens == init + [last];
      FilterWordsAppend(init, [last], stop);
      assert FilterWords([last], stop) == if Keep(last, stop) then [last] else [] by {
        assert [last][1..] == [];
      }
      OccurrencesAppend(FilterWords(init, stop), FilterWords([last], stop), w);
      FilterWordsOccurrences(init, stop, w);
    }
  }

  lemma {:induction false} OccurrencesPositive(ws: seq<string>, w: string)
    ensures Occurrences(ws, w) > 0 <==> w in ws
  {
    if ws != [] {
      OccurrencesPositive(ws[..|ws| - 1], w);
      assert w in ws <==> w in ws[..|ws| - 1] || w == ws[|ws| - 1];
    }
  }

  /** What the Counter holds after counting every word of `seen`. */
  ghost predicate Counted(seen: seq<string>, vocab: seq<string>, freq: map<string, nat>) {
    && vocab == FirstOccurrences(seen)
    && (forall w :: w in freq <==> w in seen)
    && (forall w :: w in freq ==> freq[w] == Occurrences(seen, w))
  }

  lemma CountOne(seen: seq<string>, vocab: seq<string>, freq: map<string, nat>, w: string)
    requires Counted(seen, vocab, freq)
    ensures w in freq ==> Counted(seen + [w], vocab, freq[w := freq[w] + 1])
    ensures w !in freq ==> Counted(seen + [w], vocab + [w], freq[w := 1])
  {
    var s := seen + [w];
    assert s[..|s| - 1] == seen;
    OccurrencesPositive(seen, w);
  }

  /** Counting words[j] after seen and the words before it. */
  lemma CountNext(seen: seq<string>, words: seq<string>, j: nat, vocab: seq<string>, freq: map<string, nat>)
    requires j < |words| && Counted(seen + words[..j], vocab, freq)
    ensures var w := words[j];
      && (w in freq ==> Counted(seen + words[..j + 1], vocab, freq[w := freq[w] + 1]))
      && (w !in freq ==> Counted(seen + words[..j + 1], vocab + [w], freq[w := 1]))
  {
    CountOne(seen + words[..j], vocab, freq, words[j]);
    assert seen + words[..j + 1] == seen + words[..j] + [words[j]];
  }

  /** The inner loop of app.py:113-114: count every word of one sentence. */
  method CountWords(ghost seen: seq<string>, vocab: seq<string>, freq: map<string, nat>, words: seq<string>)
    returns (vocab': seq<string>, freq': map<string, nat>)
    requires Counted(seen, vocab, freq)
    ensures Counted(seen + words, vocab', freq')
  {
    vocab', freq' := vocab, freq;
    var j := 0;
    assert seen + words[..0] == seen;
    while j < |words|
      invariant 0 <= j <= |words|
      invariant Counted(seen + words[..j], vocab', freq')
    {
      var w := words[j];
      CountNext(seen, words, j, vocab', freq');
      if w in freq' {
        freq' := freq'[w := freq'[w] + 1];
      } else {
        freq' := freq'[w := 1];
        vocab' := vocab' + [w];
      }
      j := j + 1;
    }
    assert words[..j] == words;
  }

  /** The two loops of app.py:110-114: `word_freq[word] += 1` for every kept
      word of every sentence. Returns the Counter as its keys in insertion
      order and its counts. */
  method BuildFrequency(filtered: seq<seq<string>>) returns (vocab: seq<string>, freq: map<string, nat>)
    ensures Counted(Flatten(filtered), vocab, freq)
  {
    vocab, freq := [], map[];
    var i := 0;
    while i < |filtered|
      invariant 0 <= i <= |filtered|
      invariant Counted(Flatten(filtered[..i]), vocab, freq)
    {
      vocab, freq := CountWords(Flatten(filtered[..i]), vocab, freq, filtered[i]);
      assert filtered[..i + 1][..i] == filtered[..i];
      i := i + 1;
    }
    assert filtered[..i] == filtered;
  }

  /** The Counter after counting every word of `seen`, as a map. */
  function Frequencies(seen: seq<string>): (freq: map<string, nat>)
    ensures forall w :: w in freq <==> w in seen
  {
    map w | w in seen :: Occurrences(seen, w)
  }

  /** BuildFrequency's table is the Counter of all kept words and its key order
      the order of first occurrence. */
  lemma CountedIsFrequencies(seen: seq<string>, vocab: seq<string>, freq: map<string, nat>)
    requires Counted(seen, vocab, freq)
    ensures freq == Frequencies(seen) && vocab == FirstOccurrences(seen)
  {
  }

  /** `word_freq.get(w, 0)`. */
  function Get(freq: map<string, nat>, w: string): nat {
    if w in freq then freq[w] else 0
  }

  // ---------------------------------------------------------------------------
  // Keywords: the top ten of Counter.most_common (app.py:197)
  // ---------------------------------------------------------------------------

  /** The counts of the Counter's keys, in insertion order. */
  function CountsOf(vocab: seq<string>, freq: map<string, nat>): (cs: seq<real>)
    ensures |cs| == |vocab|
    ensures forall j :: 0 <= j < |vocab| ==> cs[j] == Get(freq, vocab[j]) as real
  {
    seq(|vocab|, j requires 0 <= j < |vocab| => Get(freq, vocab[j]) as real)
  }

  /** `set(word for word, _ in word_freq.most_common(10))`: most_common sorts the
      keys by count, stably, so equal counts keep insertion order. */
  function Keywords(vocab: seq<string>, freq: map<string, nat>): (kw: set<string>)
    ensures forall w :: w in kw ==> w in vocab
  {
    var sel := TopIndices(CountsOf(vocab, freq), 10);
    set a | 0 <= a < |sel| :: vocab[sel[a]]
  }

  /** The keywords are the most frequent words: each occurs at least as often as
      every word left out, and on a tie the keyword is the one counted first. */
  lemma KeywordsAreMostFrequent(vocab: seq<string>, freq: map<string, nat>, i: nat, j: nat)
    requires forall a, b :: 0 <= a < b < |vocab| ==> vocab[a] != vocab[b]
    requires i < |vocab| && j < |vocab|
    requires vocab[i] in Keywords(vocab, freq) && vocab[j] !in Keywords(vocab, freq)
    ensures Get(freq, vocab[i]) >= Get(freq, vocab[j])
    ensures Get(freq, vocab[i]) == Get(freq, vocab[j]) ==> i < j
  {
    var key := CountsOf(vocab, freq);
    var sel := TopIndices(key, 10);
    var a :| 0 <= a < |sel| && vocab[sel[a]] == vocab[i];
    assert sel[a] == i;
    TopBeatsRest(key, 10, i, j);
  }

  /** Ten keywords, or every word when there are fewer than ten. */
  lemma KeywordsCount(vocab: seq<string>, freq: map<string, nat>)
    requires forall a, b :: 0 <= a < b < |vocab| ==> vocab[a] != vocab[b]
    ensures |Keywords(vocab, freq)| == if |vocab| < 10 then |vocab| else 10
  {
    var sel := TopIndices(CountsOf(vocab, freq), 10);
    var top := seq(|sel|, a requires 0 <= a < |sel| => vocab[sel[a]]);
    forall w ensures w in Keywords(vocab, freq) <==> w in set a | 0 <= a < |top| :: top[a] {
      if w in Keywords(vocab, freq) {
        var a :| 0 <= a < |sel| && vocab[sel[a]] == w;
        assert top[a] == w;
      }
    }
    assert Keywords(vocab, freq) == set a | 0 <= a < |top| :: top[a];
    DistinctCard(top);
  }

  /** A sequence without repeats has as many distinct elements as entries. */
  lemma {:induction false} DistinctCard(xs: seq<string>)
    requires forall a, b :: 0 <= a < b < |xs| ==> xs[a] != xs[b]
    ensures |set a | 0 <= a < |xs| :: xs[a]| == |xs|
    decreases |xs|
  {
    if xs != [] {
      var init := xs[..|xs| - 1];
      DistinctCard(init);
      var si := set a | 0 <= a < |init| :: init[a];
      assert (set a | 0 <= a < |xs| :: xs[a]) == si + {xs[|xs| - 1]};
    }
  }

  // ---------------------------------------------------------------------------
  // The four heuristics and the combined score (app.py:120-151, 193-200)
  // ---------------------------------------------------------------------------

  /** Sum of `word_freq.get(w, 0)` over ws. */
  function SumFreq(ws: seq<string>, freq: map<string, nat>): nat {
    if ws == [] then 0 else SumFreq(ws[..|ws| - 1], freq) + Get(freq, ws[|ws| - 1])
  }

  /** How many words of ws are keywords. */
  function CountIn(ws: seq<string>, kw: set<string>): (c: nat)
    ensures c <= |ws|
  {
    if ws == [] then 0 else CountIn(ws[..|ws| - 1], kw) + (if ws[|ws| - 1] in kw then 1 else 0)
  }

  /** The mean count of the sentence's words in the document. */
  function FreqScore(ws: seq<string>, freq: map<string, nat>): (r: real)
    ensures r >= 0.0
  {
    if ws == [] then 0.0 else SumFreq(ws, freq) as real / |ws| as real
  }

  /** calculate_keyword_score: the share of the sentence's words that are keywords. */
  function KeywordShare(ws: seq<string>, kw: set<string>): (r: real)
    ensures 0.0 <= r <= 1.0
    ensures ws == [] ==> r == 0.0
  {
    if ws == [] then 0.0 else CountIn(ws, kw) as real / |ws| as real
  }

  /** Sentence i of n: the first and the last sentence score 1.0, others in the
      first 30% (`i < n * 0.3`, that is 10 i < 3 n) 0.8, the rest 0.5. */
  function PositionScore(i: nat, n: nat): (r: real)
    requires i < n
    ensures 0.5 <= r <= 1.0
    ensures r == 1.0 <==> i == 0 || i == n - 1
    ensures r == 0.8 <==> 0 < i < n - 1 && 10 * i < 3 * n
    ensures r == 0.5 <==> 0 < i < n - 1 && 10 * i >= 3 * n
  {
    if i == 0 || i == n - 1 then 1.0
    else if 10 * i < 3 * n then 0.8
    else 0.5
  }

  /** Sentences of 5 to 30 kept words score 1.0, shorter ones 0.5, longer ones 0.7. */
  function LengthScore(m: nat): (r: real)
    ensures 0.5 <= r <= 1.0
    ensures r == 1.0 <==> 5 <= m <= 30
    ensures r == 0.5 <==> m < 5
    ensures r == 0.7 <==> m > 30
  {
    if m < 5 then 0.5
    else if m > 30 then 0.7
    else 1.0
  }

  /** The weighted score of sentence i of n with kept words ws; 0 for a sentence
      with no kept word. */
  function SentenceScore(ws: seq<string>, i: nat, n: nat, freq: map<string, nat>, kw: set<string>): (r: real)
    requires i < n
    ensures r >= 0.0
    ensures r == 0.0 <==> ws == []
  {
    if ws == [] then 0.0
    else
      FreqScore(ws, freq) * 0.4 + PositionScore(i, n) * 0.2
        + LengthScore(|ws|) * 0.2 + KeywordShare(ws, kw) * 0.2
  }

  lemma {:induction false} SumFreqAtLeast(ws: seq<string>, freq: map<string, nat>)
    requires forall w :: w in ws ==> Get(freq, w) >= 1
    ensures SumFreq(ws, freq) >= |ws|
  {
    if ws != [] {
      assert ws[|ws| - 1] in ws;
      assert forall w :: w in ws[..|ws| - 1] ==> w in ws;
      SumFreqAtLeast(ws[..|ws| - 1], freq);
    }
  }

  lemma DivAtLeastOne(x: real, y: real)
    requires y > 0.0 && x >= y
    ensures x / y >= 1.0
  {
  }

  /** A sentence that keeps a word scores at least 0.6 once every kept word has
      been counted: its frequency score is then at least 1. */
  lemma ScoreOfCountedSentence(ws: seq<string>, i: nat, n: nat, freq: map<string, nat>, kw: set<string>)
    requires i < n && ws != []
    requires forall w :: w in ws ==> Get(freq, w) >= 1
    ensures SentenceScore(ws, i, n, freq, kw) >= 0.6
  {
    SumFreqAtLeast(ws, freq);
    DivAtLeastOne(SumFreq(ws, freq) as real, |ws| as real);
  }

  /** The scoring loop of app.py:117-151: one score per sentence. */
  method ScoreSentences(filtered: seq<seq<string>>, freq: map<string, nat>, kw: set<string>)
    returns (scores: seq<real>)
    ensures |scores| == |filtered|
    ensures forall i :: 0 <= i < |filtered| ==>
      scores[i] == SentenceScore(filtered[i], i, |filtered|, freq, kw)
  {
    scores := [];
    var i := 0;
    while i < |filtered|
      invariant 0 <= i <= |filtered| && |scores| == i
      invariant forall k :: 0 <= k < i ==>
        scores[k] == SentenceScore(filtered[k], k, |filtered|, freq, kw)
    {
      scores := scores + [SentenceScore(filtered[i], i, |filtered|, freq, kw)];
      i := i + 1;
    }
  }

  /** `max(1, min(4, n // 3))`, the number of summary sentences. */
  function SummaryLength(n: nat): (k: nat)
    ensures 1 <= k <= 4
    ensures n >= 3 ==> k <= n / 3 && k < n
    ensures 3 <= n < 15 ==> k == n / 3
    ensures n >= 12 ==> k == 4
  {
    if n / 3 < 4 then (if n / 3 < 1 then 1 else n / 3) else 4
  }

  // ---------------------------------------------------------------------------
  // The whole scoring pass as functions of the sentences' tokens
  // ---------------------------------------------------------------------------

  /** The kept words of every sentence; tokens[i] is word_tokenize(sentences[i].lower()). */
  function FilteredSentences(tokens: seq<seq<string>>, stop: set<string>): (filtered: seq<seq<string>>)
    ensures |filtered| == |tokens|
    ensures forall i :: 0 <= i < |tokens| ==> filtered[i] == FilterWords(tokens[i], stop)
  {
    seq(|tokens|, i requires 0 <= i < |tokens| => FilterWords(tokens[i], stop))
  }

  /** The score of every sentence, with the Counter and the keywords of the
      whole document. */
  function SentenceScores(filtered: seq<seq<string>>): (scores: seq<real>)
    ensures |scores| == |filtered|
    ensures forall i :: 0 <= i < |filtered| ==> scores[i] >= 0.0
    ensures filtered != [] ==> Mean(scores) >= 0.0
  {
    var seen := Flatten(filtered);
    var freq := Frequencies(seen);
    var kw := Keywords(FirstOccurrences(seen), freq);
    var scores := seq(|filtered|, i requires 0 <= i < |filtered| => SentenceScore(filtered[i], i, |filtered|, freq, kw));
    if filtered == [] then scores else MeanAtLeast(scores, 0.0); scores
  }

  /** Every word of a sentence is a word of the document. */
  lemma {:induction false} InFlatten(ss: seq<seq<string>>, i: nat, w: string)
    requires i < |ss| && w in ss[i]
    ensures w in Flatten(ss)
  {
    if i < |ss| - 1 {
      InFlatten(ss[..|ss| - 1], i, w);
    }
  }

  /** Every sentence that keeps a word scores at least 0.6: its words were all
      counted at least once. */
  lemma ScoresOfNonEmptySentences(filtered: seq<seq<string>>, i: nat)
    requires i < |filtered| && filtered[i] != []
    ensures SentenceScores(filtered)[i] >= 0.6
  {
    var seen := Flatten(filtered);
    var freq := Frequencies(seen);
    forall w | w in filtered[i] ensures Get(freq, w) >= 1 {
      InFlatten(filtered, i, w);
      OccurrencesPositive(seen, w);
    }
    ScoreOfCountedSentence(filtered[i], i, |filtered|, freq, Keywords(FirstOccurrences(seen), freq));
  }
}
