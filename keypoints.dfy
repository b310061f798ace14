/** StudyAssistant.extract_enhanced_key_points (app.py:202-225): the sentences
    scoring at least 1.2 times the mean, in document order and shortened when
    long, or else the two best sentences; at most five either way. */
module KeyPoints {
  import opened Text
  import opened Ranking
  import opened Stats

  /** `avg_score * 1.2`. */
  function Threshold(scores: seq<real>): real
    requires scores != []
  {
    Mean(scores) * 1.2
  }

  /** Whether the words of c fill more than 150 characters and number more than 20. */
  predicate TooLong(c: string) {
    |c| > 150 && |Words(c)| > 20
  }

  /** A kept sentence, already stripped, cut to its first 20 words and "..." when it
      is too long. */
  function Shorten(c: string): string {
    if TooLong(c) then Join(" ", Words(c)[..20]) + "..." else c
  }

  lemma {:induction false} AllWordsPrefix(ws: seq<string>, m: nat)
    requires AllWords(ws) && m <= |ws|
    ensures AllWords(ws[..m])
  {
    if m > 0 {
      assert ws[..m][1..] == ws[1..][..m - 1];
      AllWordsPrefix(ws[1..], m - 1);
    }
  }

  /** A shortened point is the sentence's first 20 words, single-spaced, then
      "...": splitting what precedes the dots gives those 20 words back. */
  lemma ShortenKeepsFirstWords(c: string)
    requires TooLong(c)
    ensures var head := Join(" ", Words(c)[..20]);
      Shorten(c) == head + "..." && Words(head) == Words(c)[..20]
  {
    WordsOfText(c);
    AllWordsPrefix(Words(c), 20);
    WordsOfJoin(Words(c)[..20]);
  }

  /** The indices below m scoring at least t, ascending. */
  function KeptIndices(scores: seq<real>, t: real, m: nat): seq<nat>
    requires m <= |scores|
  {
    if m == 0 then []
    else if scores[m - 1] >= t then KeptIndices(scores, t, m - 1) + [m - 1]
    else KeptIndices(scores, t, m - 1)
  }

  /** KeptIndices lists, in ascending order, exactly the indices below m whose
      score reaches t. */
  lemma {:induction false} KeptIndicesFacts(scores: seq<real>, t: real, m: nat)
    requires m <= |scores|
    ensures var idx := KeptIndices(scores, t, m);
      && (forall a :: 0 <= a < |idx| ==> idx[a] < m && scores[idx[a]] >= t)
      && (forall a, b :: 0 <= a < b < |idx| ==> idx[a] < idx[b])
      && (forall i :: 0 <= i < m && scores[i] >= t ==> i in idx)
  {
    if m > 0 {
      KeptIndicesFacts(scores, t, m - 1);
    }
  }

  /** Every sentence as it would be kept: stripped, then shortened. */
  function Points(sentences: seq<string>): (pts: seq<string>)
    ensures |pts| == |sentences|
    ensures forall i :: 0 <= i < |sentences| ==> pts[i] == Shorten(Strip(sentences[i]))
  {
    seq(|sentences|, i requires 0 <= i < |sentences| => Shorten(Strip(sentences[i])))
  }

  /** The points the loop has appended after looking at the first m sentences. */
  function KeptPoints(pts: seq<string>, scores: seq<real>, t: real, m: nat): (ps: seq<string>)
    requires |pts| == |scores| && m <= |scores|
  {
    if m == 0 then []
    else if scores[m - 1] >= t then KeptPoints(pts, scores, t, m - 1) + [pts[m - 1]]
    else KeptPoints(pts, scores, t, m - 1)
  }

  /** ps lists the entries of pts at the positions idx, in the order of idx. */
  ghost predicate PickedAt(ps: seq<string>, pts: seq<string>, idx: seq<nat>) {
    |ps| == |idx| && forall a :: 0 <= a < |ps| ==> idx[a] < |pts| && ps[a] == pts[idx[a]]
  }

  lemma PickedAtAppend(ps: seq<string>, pts: seq<string>, idx: seq<nat>, i: nat)
    requires PickedAt(ps, pts, idx) && i < |pts|
    ensures PickedAt(ps + [pts[i]], pts, idx + [i])
  {
    assert forall a :: 0 <= a < |ps| ==> (ps + [pts[i]])[a] == ps[a] && (idx + [i])[a] == idx[a];
  }

  /** The kept points are those of the sentences scoring at least t, in document
      order; KeptIndicesFacts says which indices those are. */
  lemma {:induction false} KeptPointsInOrder(pts: seq<string>, scores: seq<real>, t: real, m: nat)
    requires |pts| == |scores| && m <= |scores|
    ensures PickedAt(KeptPoints(pts, scores, t, m), pts, KeptIndices(scores, t, m))
  {
    if m > 0 {
      KeptPointsInOrder(pts, scores, t, m - 1);
      if scores[m - 1] >= t {
        PickedAtAppend(KeptPoints(pts, scores, t, m - 1), pts, KeptIndices(scores, t, m - 1), m - 1);
      }
    }
  }

  /** `[sentences[i] for i, _ in sorted(scores.items(), key, reverse=True)[:2]]`:
      the best sentence and the runner-up, unshortened. */
  function Fallback(sentences: seq<string>, scores: seq<real>): (ps: seq<string>)
    requires |sentences| == |scores| > 0
    ensures |ps| == if |scores| < 2 then 1 else 2
  {
    if |scores| < 2 then [sentences[ByRank(scores, 0)]]
    else [sentences[ByRank(scores, 0)], sentences[ByRank(scores, 1)]]
  }

  /** The fallback holds the best sentence, then the runner-up: no other sentence
      scores higher than either. */
  lemma FallbackHasBestTwo(sentences: seq<string>, scores: seq<real>, j: nat)
    requires |sentences| == |scores| >= 2 && j < |scores|
    ensures var b0, b1 := ByRank(scores, 0), ByRank(scores, 1);
      && b0 != b1
      && Fallback(sentences, scores) == [sentences[b0], sentences[b1]]
      && (j != b0 ==> scores[b0] >= scores[j])
      && (j != b0 && j != b1 ==> scores[b1] >= scores[j])
  {
    var b0, b1 := ByRank(scores, 0), ByRank(scores, 1);
    if j != b0 {
      FirstBeatsAll(scores, j);
      if j != b1 {
        SecondBeatsRest(scores, j);
      }
    }
  }

  /** What extract_enhanced_key_points returns. */
  function KeyPoints(sentences: seq<string>, scores: seq<real>): (ps: seq<string>)
    requires |sentences| == |scores| > 0
    ensures |ps| <= 5
    ensures |scores| >= 2 ==> |ps| >= 2
  {
    var kept := KeptPoints(Points(sentences), scores, Threshold(scores), |scores|);
    var ps := if |kept| < 2 then Fallback(sentences, scores) else kept;
    if |ps| <= 5 then ps else ps[..5]
  }

  /** The truncation of app.py:212-217 on one stripped sentence. */
  method ShortenPoint(c: string) returns (p: string)
    ensures p == Shorten(c)
  {
    p := c;
    if |c| > 150 {
      var words := Words(c);
      if |words| > 20 {
        p := Join(" ", words[..20]) + "...";
      }
    }
  }

  /** The loop of app.py:208-218: the points of the sentences scoring at least
      the threshold, in document order. */
  method KeepAboveThreshold(sentences: seq<string>, scores: seq<real>, threshold: real)
    returns (kept: seq<string>)
    requires |sentences| == |scores|
    ensures kept == KeptPoints(Points(sentences), scores, threshold, |scores|)
  {
    ghost var pts := Points(sentences);
    kept := [];
    var i := 0;
    while i < |sentences|
      invariant 0 <= i <= |sentences|
      invariant kept == KeptPoints(pts, scores, threshold, i)
    {
      KeptPointsNext(pts, scores, threshold, i);
      if scores[i] >= threshold {
        var point := ShortenPoint(Strip(sentences[i]));
        kept := kept + [point];
      }
      i := i + 1;
    }
  }

  /** One more sentence looked at: its point is appended exactly when it scores at
      least t. */
  lemma KeptPointsNext(pts: seq<string>, scores: seq<real>, t: real, i: nat)
    requires |pts| == |scores| && i < |scores|
    ensures KeptPoints(pts, scores, t, i + 1)
      == if scores[i] >= t then KeptPoints(pts, scores, t, i) + [pts[i]] else KeptPoints(pts, scores, t, i)
  {
  }

  /** extract_enhanced_key_points: the loop, then the fallback and the cap. */
  method ExtractKeyPoints(sentences: seq<string>, scores: seq<real>) returns (ps: seq<string>)
    requires |sentences| == |scores| > 0
    ensures ps == KeyPoints(sentences, scores)
  {
    var threshold := Threshold(scores);
    var kept := KeepAboveThreshold(sentences, scores, threshold);
    var chosen := if |kept| < 2 then Fallback(sentences, scores) else kept;
    ps := if |chosen| <= 5 then chosen else chosen[..5];
  }

  /** When the scores are not all zero, some sentence falls below the threshold:
      the threshold path never keeps every sentence. */
  lemma SomeSentenceBelowThreshold(scores: seq<real>)
    requires scores != [] && Sum(scores) > 0.0
    ensures exists i :: 0 <= i < |scores| && scores[i] < Threshold(scores)
  {
    if forall i :: 0 <= i < |scores| ==> scores[i] >= Threshold(scores) {
      SumAtLeast(scores, Threshold(scores));
    }
  }
}
