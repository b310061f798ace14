/** The deterministic parts of quiz handling and topic explanation:
    check_quiz_answer (app.py:656-663), analyze_difficulty_distribution
    (app.py:648-654), the difficulty quotas of select_optimal_questions
    (app.py:614-627) and estimate_reading_time (app.py:300-307). */
module Quiz {
  import opened Text

  datatype Option<T> = None | Some(value: T)

  // ---------------------------------------------------------------------------
  // Answers
  // ---------------------------------------------------------------------------

  /** The dictionary check_quiz_answer returns. */
  datatype AnswerResult = AnswerResult(isCorrect: bool, selected: int, correct: int)

  /** The answer is right exactly when the chosen option is the correct one; the
      question index plays no part. */
  function CheckQuizAnswer(questionIndex: int, selected: int, correct: int): (r: AnswerResult)
    ensures r.isCorrect <==> selected == correct
    ensures r.selected == selected && r.correct == correct
  {
    AnswerResult(selected == correct, selected, correct)
  }

  // ---------------------------------------------------------------------------
  // Decimal text of integers, as f-strings print them
  // ---------------------------------------------------------------------------

  function DigitChar(d: nat): (c: char)
    requires d < 10
    ensures '0' <= c <= '9'
  {
    "0123456789"[d]
  }

  /** The decimal digits of n, without leading zeros. */
  function NatToString(n: nat): (s: string)
    ensures s != [] && forall i :: 0 <= i < |s| ==> '0' <= s[i] <= '9'
    ensures |s| > 1 ==> s[0] != '0'
  {
    if n < 10 then [DigitChar(n)] else NatToString(n / 10) + [DigitChar(n % 10)]
  }

  function IntToString(i: int): (s: string)
    ensures s != []
  {
    if i < 0 then "-" + NatToString(-i) else NatToString(i)
  }

  /** The value of a string of decimal digits. */
  function DigitsValue(s: string): nat
    requires forall i :: 0 <= i < |s| ==> '0' <= s[i] <= '9'
  {
    if s == [] then 0 else 10 * DigitsValue(s[..|s| - 1]) + (s[|s| - 1] as int - '0' as int)
  }

  /** Reading the digits back gives the number. */
  lemma {:induction false} NatToStringRoundTrip(n: nat)
    ensures DigitsValue(NatToString(n)) == n
  {
    if n >= 10 {
      NatToStringRoundTrip(n / 10);
      var s := NatToString(n);
      assert s[..|s| - 1] == NatToString(n / 10);
      DigitCharValue(n % 10);
      assert n == 10 * (n / 10) + n % 10;
    }
  }

  lemma DigitCharValue(d: nat)
    requires d < 10
    ensures DigitChar(d) as int - '0' as int == d
  {
  }

  // ---------------------------------------------------------------------------
  // Reading time
  // ---------------------------------------------------------------------------

  /** `max(1, round(words / 225))`. words / 225 is never exactly halfway between
      two integers (2 words is even, 225 (2 m + 1) odd), so Python's rounding is
      the integer division below. */
  function ReadingMinutes(words: nat): (m: nat)
    ensures m >= 1
    ensures m == 1 <==> words < 338
    ensures m > 1 ==> 225 * (2 * m - 1) < 2 * words < 225 * (2 * m + 1)
  {
    var rounded := (2 * words + 225) / 450;
    if rounded < 1 then 1 else rounded
  }

  predicate IsDigits(s: string) {
    forall i :: 0 <= i < |s| ==> '0' <= s[i] <= '9'
  }

  /** "1 minute", or the count of minutes in decimal and " minutes". */
  function MinutesText(m: nat): (r: string)
    ensures m == 1 ==> r == "1 minute"
    ensures m != 1 ==>
      && |r| > 8 && r[|r| - 8..] == " minutes"
      && IsDigits(r[..|r| - 8]) && DigitsValue(r[..|r| - 8]) == m
  {
    if m == 1 then "1 minute"
    else
      var digits := NatToString(m);
      NatToStringRoundTrip(m);
      assert (digits + " minutes")[..|digits|] == digits;
      digits + " minutes"
  }

  /** estimate_reading_time: one minute for fewer than 338 words. */
  function ReadingTime(text: string): (r: string)
    ensures r == "1 minute" <==> |Words(text)| < 338
  {
    MinutesText(ReadingMinutes(|Words(text)|))
  }

  // ---------------------------------------------------------------------------
  // Difficulty distribution
  // ---------------------------------------------------------------------------

  /** A question; only its difficulty matters here, and it may be missing. */
  datatype Question = Question(question: string, difficulty: Option<string>)

  /** `q.get("difficulty", "medium")`. */
  function DifficultyOf(q: Question): string {
    if q.difficulty.Some? then q.difficulty.value else "medium"
  }

  predicate Known(d: string) {
    d == "easy" || d == "medium" || d == "hard"
  }

  datatype Distribution = Distribution(easy: nat, medium: nat, hard: nat)

  /** The counts, or the KeyError the first unknown difficulty raises. */
  datatype Tally = Counts(counts: Distribution) | KeyError(key: string)

  /** How many questions have difficulty d. */
  function CountOf(qs: seq<Question>, d: string): (c: nat)
    ensures c <= |qs|
  {
    if qs == [] then 0 else CountOf(qs[..|qs| - 1], d) + (if DifficultyOf(qs[|qs| - 1]) == d then 1 else 0)
  }

  /** The outcome of analyze_difficulty_distribution on qs. */
  function DistributionOf(qs: seq<Question>): Tally {
    if qs == [] then Counts(Distribution(0, 0, 0))
    else
      var d := DifficultyOf(qs[|qs| - 1]);
      match DistributionOf(qs[..|qs| - 1])
      case KeyError(k) => KeyError(k)
      case Counts(c) =>
        if d == "easy" then Counts(c.(easy := c.easy + 1))
        else if d == "medium" then Counts(c.(medium := c.medium + 1))
        else if d == "hard" then Counts(c.(hard := c.hard + 1))
        else KeyError(d)
  }

  /** The loop of app.py:650-654. */
  method AnalyzeDifficultyDistribution(qs: seq<Question>) returns (r: Tally)
    ensures r == DistributionOf(qs)
  {
    var counts := Distribution(0, 0, 0);
    var i := 0;
    while i < |qs|
      invariant 0 <= i <= |qs|
      invariant DistributionOf(qs[..i]) == Counts(counts)
    {
      assert qs[..i + 1][..i] == qs[..i];
      var d := DifficultyOf(qs[i]);
      if d == "easy" {
        counts := counts.(easy := counts.easy + 1);
      } else if d == "medium" {
        counts := counts.(medium := counts.medium + 1);
      } else if d == "hard" {
        counts := counts.(hard := counts.hard + 1);
      } else {
        KeyErrorPersists(qs, i + 1);
        assert qs[..|qs|] == qs;
        return KeyError(d);
      }
      i := i + 1;
    }
    assert qs[..i] == qs;
    r := Counts(counts);
  }

  /** Once a prefix raises, the whole list raises the same error. */
  lemma {:induction false} KeyErrorPersists(qs: seq<Question>, m: nat)
    requires m <= |qs| && DistributionOf(qs[..m]).KeyError?
    ensures DistributionOf(qs) == DistributionOf(qs[..m])
    decreases |qs| - m
  {
    if m < |qs| {
      assert qs[..m + 1][..m] == qs[..m];
      KeyErrorPersists(qs, m + 1);
    } else {
      assert qs[..m] == qs;
    }
  }

  /** Without an unknown difficulty the three counts are the numbers of easy,
      medium and hard questions, and they add up to the number of questions. */
  lemma {:induction false} DistributionCounts(qs: seq<Question>)
    requires forall i :: 0 <= i < |qs| ==> Known(DifficultyOf(qs[i]))
    ensures DistributionOf(qs).Counts?
    ensures DistributionOf(qs).counts
      == Distribution(CountOf(qs, "easy"), CountOf(qs, "medium"), CountOf(qs, "hard"))
    ensures var c := DistributionOf(qs).counts; c.easy + c.medium + c.hard == |qs|
  {
    if qs != [] {
      DistributionCounts(qs[..|qs| - 1]);
    }
  }

  /** An unknown difficulty anywhere raises KeyError, naming the first one. */
  lemma {:induction false} DistributionKeyError(qs: seq<Question>, i: nat)
    requires i < |qs| && !Known(DifficultyOf(qs[i]))
    requires forall j :: 0 <= j < i ==> Known(DifficultyOf(qs[j]))
    ensures DistributionOf(qs) == KeyError(DifficultyOf(qs[i]))
  {
    assert forall j :: 0 <= j < i ==> qs[..i][j] == qs[j];
    DistributionCounts(qs[..i]);
    assert qs[..i + 1][..i] == qs[..i];
    KeyErrorPersists(qs, i + 1);
  }

  // ---------------------------------------------------------------------------
  // Difficulty quotas of select_optimal_questions
  // ---------------------------------------------------------------------------

  /** What select_optimal_questions does before its random draws: hand the
      questions back, draw the given numbers of easy, medium and hard questions,
      or fail with ValueError from random.sample. */
  datatype Selection = Unchanged | Draw(easy: nat, medium: nat, hard: nat) | ValueError

  /** How many questions carry exactly the difficulty d (`q.get("difficulty") == d`,
      so a missing difficulty is in no bucket). */
  function BucketSize(qs: seq<Question>, d: string): (c: nat)
    ensures c <= |qs|
  {
    if qs == [] then 0
    else BucketSize(qs[..|qs| - 1], d) + (if qs[|qs| - 1].difficulty == Some(d) then 1 else 0)
  }

  function Max(a: int, b: int): int {
    if a < b then b else a
  }

  function Min(a: int, b: int): int {
    if a < b then a else b
  }

  /** The quotas as written: a third each for easy and medium (at least one) and
      the rest for hard. */
  function QuotasAsWritten(num: int): (int, int, int) {
    var easy := Max(1, num / 3);
    var medium := Max(1, num / 3);
    (easy, medium, num - easy - medium)
  }

  /** The hard quota is negative exactly when at most one question is asked for. */
  lemma HardQuotaNegative(num: int)
    ensures QuotasAsWritten(num).2 < 0 <==> num <= 1
  {
  }

  /** The plan with the quotas as written. */
  function PlanAsWritten(qs: seq<Question>, num: int): (p: Selection)
    ensures p.ValueError? <==> |qs| > num && num <= 1
  {
    if |qs| <= num then Unchanged
    else
      var (e, m, h) := QuotasAsWritten(num);
      HardQuotaNegative(num);
      var de, dm, dh := Min(e, BucketSize(qs, "easy")), Min(m, BucketSize(qs, "medium")), Min(h, BucketSize(qs, "hard"));
      if de < 0 || dm < 0 || dh < 0 then ValueError else Draw(de, dm, dh)
  }

  /** A one-question quiz on a topic with two questions fails. */
  lemma OneQuestionQuizFails()
    ensures PlanAsWritten([Question("q1", Some("easy")), Question("q2", Some("hard"))], 1) == ValueError
  {
    HardQuotaNegative(1);
  }

  /** The quotas with the hard quota held at zero or more. */
  function Quotas(num: int): (q: (nat, nat, nat))
    ensures q.0 >= 1 && q.1 >= 1
    ensures num >= 2 ==> q.0 + q.1 + q.2 == num
    ensures num >= 3 ==> q.0 == q.1 == num / 3 && q.2 >= q.0
  {
    var (e, m, h) := QuotasAsWritten(num);
    (e, m, Max(0, h))
  }

  /** The plan with the corrected quotas: it never fails, and it draws no more
      questions than asked for (or two, when one is asked for). */
  function SelectionPlan(qs: seq<Question>, num: int): (p: Selection)
    ensures !p.ValueError?
    ensures p.Unchanged? <==> |qs| <= num
    ensures p.Draw? ==>
      && p.easy <= BucketSize(qs, "easy") && p.medium <= BucketSize(qs, "medium")
      && p.hard <= BucketSize(qs, "hard")
      && p.easy + p.medium + p.hard <= Max(num, 2)
  {
    if |qs| <= num then Unchanged
    else
      var (e, m, h) := Quotas(num);
      Draw(Min(e, BucketSize(qs, "easy")), Min(m, BucketSize(qs, "medium")), Min(h, BucketSize(qs, "hard")))
  }

  /** Where the quotas as written do not fail, the two plans agree. */
  lemma PlansAgree(qs: seq<Question>, num: int)
    requires !PlanAsWritten(qs, num).ValueError?
    ensures SelectionPlan(qs, num) == PlanAsWritten(qs, num)
  {
    HardQuotaNegative(num);
  }
}
