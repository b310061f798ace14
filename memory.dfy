/** The per-student memory of StudyAssistant: add_to_memory (app.py:54-78), the
    quiz-performance update of the /check_answer route (app.py:771-801) and the
    rule of the /recommendations route (app.py:818-843). Loading and saving the
    JSON file and the clock are outside this model: a timestamp is an input. */
module Memory {
  import opened Quiz

  /** One entry of a student's `interactions` list. */
  datatype Interaction = Interaction(timestamp: string, kind: string, content: string, topic: Option<string>)

  /** One entry of `quiz_performance`. */
  datatype Performance = Performance(correct: nat, total: nat)

  /** The four-field record of a student. A JSON object keeps its keys in the
      order they were added; for `quiz_performance`, whose order the
      recommendations follow, that order is kept in quizOrder. */
  datatype StudentRecord = StudentRecord(
    interactions: seq<Interaction>,
    topicsStudied: map<string, nat>,
    quizPerformance: map<string, Performance>,
    quizOrder: seq<string>,
    preferences: map<string, string>)

  /** The record of a student seen for the first time. */
  function NewRecord(): StudentRecord {
    StudentRecord([], map[], map[], [], map[])
  }

  /** The record of id, or an empty one (`self.memory.get(student_id, {})`). */
  function Lookup(memory: map<string, StudentRecord>, id: string): StudentRecord {
    if id in memory then memory[id] else NewRecord()
  }

  /** What the methods below keep true of every record: no topic is answered
      correctly more often than it was answered, the key order lists each quiz
      topic once, and every studied topic was studied at least once. */
  ghost predicate WellFormed(r: StudentRecord) {
    && (forall t :: t in r.quizPerformance ==> r.quizPerformance[t].correct <= r.quizPerformance[t].total)
    && (forall t :: t in r.quizPerformance <==> t in r.quizOrder)
    && (forall a, b :: 0 <= a < b < |r.quizOrder| ==> r.quizOrder[a] != r.quizOrder[b])
    && (forall t :: t in r.topicsStudied ==> r.topicsStudied[t] >= 1)
  }

  /** Python truthiness of the optional topic: present and non-empty. */
  predicate Truthy(topic: Option<string>) {
    topic.Some? && topic.value != ""
  }

  /** `counts[key] += 1`, starting from 0 for a new key. */
  function Bump(counts: map<string, nat>, key: string): (r: map<string, nat>)
    ensures r.Keys == counts.Keys + {key}
    ensures r[key] == (if key in counts then counts[key] else 0) + 1
    ensures forall k :: k in counts && k != key ==> r[k] == counts[k]
  {
    counts[key := (if key in counts then counts[key] else 0) + 1]
  }

  /** The record after add_to_memory: one more interaction, and one more study of
      the topic when there is one. */
  function Added(r: StudentRecord, i: Interaction): (s: StudentRecord)
    ensures s.interactions == r.interactions + [i]
    ensures Truthy(i.topic) ==> s.topicsStudied == Bump(r.topicsStudied, i.topic.value)
    ensures !Truthy(i.topic) ==> s.topicsStudied == r.topicsStudied
    ensures s.quizPerformance == r.quizPerformance && s.quizOrder == r.quizOrder
    ensures s.preferences == r.preferences
  {
    var s := r.(interactions := r.interactions + [i]);
    if Truthy(i.topic) then s.(topicsStudied := Bump(r.topicsStudied, i.topic.value)) else s
  }

  /** The record after one answer on topic: total one higher, correct one higher
      exactly when the answer was right. */
  function Answered(r: StudentRecord, topic: string, isCorrect: bool): (s: StudentRecord)
    ensures topic in s.quizPerformance
    ensures var before := if topic in r.quizPerformance then r.quizPerformance[topic] else Performance(0, 0);
      && s.quizPerformance[topic].total == before.total + 1
      && s.quizPerformance[topic].correct == before.correct + (if isCorrect then 1 else 0)
    ensures forall t :: t in r.quizPerformance && t != topic ==> t in s.quizPerformance && s.quizPerformance[t] == r.quizPerformance[t]
    ensures s.quizPerformance.Keys == r.quizPerformance.Keys + {topic}
    ensures s.quizOrder == if topic in r.quizPerformance then r.quizOrder else r.quizOrder + [topic]
    ensures s.interactions == r.interactions && s.topicsStudied == r.topicsStudied
  {
    var isNew := topic !in r.quizPerformance;
    var before := if isNew then Performance(0, 0) else r.quizPerformance[topic];
    var after := Performance(before.correct + (if isCorrect then 1 else 0), before.total + 1);
    r.(quizPerformance := r.quizPerformance[topic := after],
       quizOrder := if isNew then r.quizOrder + [topic] else r.quizOrder)
  }

  lemma AddedWellFormed(r: StudentRecord, i: Interaction)
    requires WellFormed(r)
    ensures WellFormed(Added(r, i))
  {
  }

  lemma AnsweredWellFormed(r: StudentRecord, topic: string, isCorrect: bool)
    requires WellFormed(r)
    ensures WellFormed(Answered(r, topic, isCorrect))
  {
    var s := Answered(r, topic, isCorrect);
    if topic !in r.quizPerformance {
      assert forall a :: 0 <= a < |r.quizOrder| ==> s.quizOrder[a] == r.quizOrder[a];
      assert forall t :: t in s.quizOrder <==> t in r.quizOrder || t == topic;
    }
  }

  /** The steps of app.py:792-797 on one record: add the topic with no answers
      when it is new, then count the answer. */
  method CountAnswer(r: StudentRecord, topic: string, isCorrect: bool) returns (s: StudentRecord)
    ensures s == Answered(r, topic, isCorrect)
  {
    s := r;
    if topic !in s.quizPerformance {
      s := s.(quizPerformance := s.quizPerformance[topic := Performance(0, 0)], quizOrder := s.quizOrder + [topic]);
    }
    var p := s.quizPerformance[topic];
    p := p.(total := p.total + 1);
    if isCorrect {
      p := p.(correct := p.correct + 1);
    }
    assert s.quizPerformance[topic := p] == r.quizPerformance[topic := p];
    s := s.(quizPerformance := s.quizPerformance[topic := p]);
  }

  /** The steps of app.py:64-76 on one record: append the interaction, then count
      the topic when there is one. */
  method AddInteraction(r: StudentRecord, i: Interaction) returns (s: StudentRecord)
    ensures s == Added(r, i)
  {
    s := r.(interactions := r.interactions + [i]);
    if i.topic.Some? && i.topic.value != "" {
      var t := i.topic.value;
      var studied := if t in s.topicsStudied then s.topicsStudied[t] else 0;
      s := s.(topicsStudied := s.topicsStudied[t := studied + 1]);
    }
  }

  /** "Answered question <index>: correct" or "...: incorrect". */
  function AnswerContent(questionIndex: int, isCorrect: bool): string {
    "Answered question " + IntToString(questionIndex) + ": " + (if isCorrect then "correct" else "incorrect")
  }

  class StudentMemory {
    /** student id -> record, `self.memory`. */
    var memory: map<string, StudentRecord>

    ghost predicate Valid()
      reads this
    {
      forall id :: id in memory ==> WellFormed(memory[id])
    }

    /** The memory as load_memory leaves it when there is no file yet. */
    constructor()
      ensures memory == map[] && Valid()
    {
      memory := map[];
    }

    /** add_to_memory: create the record of an unseen student, append the
        interaction and count the topic; other students are untouched. */
    method AddToMemory(studentId: string, kind: string, content: string, topic: Option<string>, timestamp: string)
      requires Valid()
      modifies this
      ensures Valid()
      ensures memory == old(memory)[studentId := Added(Lookup(old(memory), studentId),
                                                       Interaction(timestamp, kind, content, topic))]
    {
      var record := if studentId in memory then memory[studentId] else NewRecord();
      var interaction := Interaction(timestamp, kind, content, topic);
      AddedWellFormed(record, interaction);
      record := AddInteraction(record, interaction);
      memory := memory[studentId := record];
    }

    /** The quiz-performance update of app.py:791-797, for a student on record. */
    method RecordAnswer(studentId: string, topic: string, isCorrect: bool)
      requires Valid()
      modifies this
      ensures Valid()
      ensures studentId in old(memory) ==>
        memory == old(memory)[studentId := Answered(old(memory)[studentId], topic, isCorrect)]
      ensures studentId !in old(memory) ==> memory == old(memory)
    {
      if studentId in memory {
        var record := CountAnswer(memory[studentId], topic, isCorrect);
        AnsweredWellFormed(memory[studentId], topic, isCorrect);
        memory := memory[studentId := record];
      }
    }

    /** The /check_answer route: check the answer, log it as an interaction and
        count it. */
    method CheckAnswer(studentId: string, questionIndex: int, selected: int, correct: int,
                       topic: string, timestamp: string)
      returns (result: AnswerResult)
      requires Valid()
      modifies this
      ensures Valid()
      ensures result == CheckQuizAnswer(questionIndex, selected, correct)
      ensures var logged := Interaction(timestamp, "quiz_answer", AnswerContent(questionIndex, selected == correct), Some(topic));
        memory == old(memory)[studentId := Answered(Added(Lookup(old(memory), studentId), logged), topic, selected == correct)]
    {
      result := CheckQuizAnswer(questionIndex, selected, correct);
      ghost var before := memory;
      AddToMemory(studentId, "quiz_answer", AnswerContent(questionIndex, result.isCorrect), Some(topic), timestamp);
      ghost var added := memory[studentId];
      RecordAnswer(studentId, topic, result.isCorrect);
      UpdateTwice(before, studentId, added, Answered(added, topic, result.isCorrect));
    }
  }

  /** Writing a key twice leaves only the second value. */
  lemma UpdateTwice<K, V>(m: map<K, V>, k: K, a: V, b: V)
    ensures m[k := a][k := b] == m[k := b]
  {
  }

  /** An answer never makes the correct count overtake the total, for any
      sequence of answers from any reachable memory. */
  lemma AnswersKeepCorrectAtMostTotal(r: StudentRecord, topic: string, isCorrect: bool)
    requires WellFormed(r)
    ensures var p := Answered(r, topic, isCorrect).quizPerformance[topic]; p.correct <= p.total
  {
    AnsweredWellFormed(r, topic, isCorrect);
  }

  // ---------------------------------------------------------------------------
  // Recommendations (app.py:818-843)
  // ---------------------------------------------------------------------------

  /** A recommendation: review a topic whose accuracy is below 70%, or one of the
      fixed messages. The percentage formatting of the review text is not
      modelled. */
  datatype Recommendation = Review(topic: string, accuracy: real) | Respiration | Motion | KeepGoing

  /** The fixed messages. */
  function MessageText(r: Recommendation): string
    requires !r.Review?
  {
    match r
    case Respiration => "Since you studied photosynthesis, you might enjoy learning about cellular respiration!"
    case Motion => "You've studied gravity - motion and Newton's laws would be great next topics!"
    case KeepGoing => "Keep up the great work! Try exploring new topics or taking more quizzes."
  }

  /** `correct / total`, or 0 with no answers. */
  function Accuracy(p: Performance): (a: real)
    ensures p.correct <= p.total ==> 0.0 <= a <= 1.0
  {
    if p.total > 0 then p.correct as real / p.total as real else 0.0
  }

  lemma DivBelow(x: real, y: real, c: real)
    requires y > 0.0
    ensures x / y < c <==> x < c * y
  {
  }

  /** Accuracy below 70% is fewer than 7 right out of every 10. */
  lemma AccuracyBelow(p: Performance)
    ensures Accuracy(p) < 0.7 <==> p.total == 0 || 10 * p.correct < 7 * p.total
  {
    if p.total > 0 {
      DivBelow(p.correct as real, p.total as real, 0.7);
    }
  }

  /** The review recommendations for the topics in order. */
  function Reviews(order: seq<string>, perf: map<string, Performance>): (rs: seq<Recommendation>)
    ensures |rs| <= |order|
    ensures forall a :: 0 <= a < |rs| ==> rs[a].Review? && rs[a].topic in order
    ensures (forall i, j :: 0 <= i < j < |order| ==> order[i] != order[j]) ==>
      forall a, b :: 0 <= a < b < |rs| ==> rs[a].topic != rs[b].topic
  {
    if order == [] then []
    else
      var rest := Reviews(order[..|order| - 1], perf);
      var t := order[|order| - 1];
      assert forall a :: 0 <= a < |rest| ==> rest[a].topic in order[..|order| - 1];
      if t in perf && Accuracy(perf[t]) < 0.7 then rest + [Review(t, Accuracy(perf[t]))] else rest
  }

  /** The topic suggestions of app.py:834-838. */
  function Suggestions(topics: map<string, nat>): seq<Recommendation> {
    (if "photosynthesis" in topics && "cellular respiration" !in topics then [Respiration] else [])
    + (if "gravity" in topics && "motion" !in topics then [Motion] else [])
  }

  /** What the route returns for a student's record. */
  function RecommendationsOf(r: StudentRecord): (rs: seq<Recommendation>)
    ensures rs != []
  {
    var rs := Reviews(r.quizOrder, r.quizPerformance) + Suggestions(r.topicsStudied);
    if rs == [] then [KeepGoing] else rs
  }

  /** The review recommendations name exactly the quiz topics below 70%. */
  lemma {:induction false} ReviewsExactly(order: seq<string>, perf: map<string, Performance>, t: string)
    ensures forall a :: 0 <= a < |Reviews(order, perf)| && Reviews(order, perf)[a].topic == t ==>
      t in order && t in perf && Accuracy(perf[t]) < 0.7
    ensures t in order && t in perf && Accuracy(perf[t]) < 0.7 ==>
      exists a :: 0 <= a < |Reviews(order, perf)| && Reviews(order, perf)[a].topic == t
  {
    if order != [] {
      var p, last := order[..|order| - 1], order[|order| - 1];
      ReviewsExactly(p, perf, t);
      assert t in order <==> t in p || t == last;
      var rest, rs := Reviews(p, perf), Reviews(order, perf);
      var picked := last in perf && Accuracy(perf[last]) < 0.7;
      assert rs == if picked then rest + [Review(last, Accuracy(perf[last]))] else rest;
      forall a | 0 <= a < |rs| && rs[a].topic == t
        ensures t in order && t in perf && Accuracy(perf[t]) < 0.7
      {
        if a < |rest| {
          assert rest[a].topic == t;
        } else {
          assert picked && rs[a] == Review(last, Accuracy(perf[last]));
        }
      }
      if t in order && t in perf && Accuracy(perf[t]) < 0.7 {
        if t == last {
          assert rs[|rs| - 1].topic == t;
        } else {
          var a :| 0 <= a < |rest| && rest[a].topic == t;
          assert rs[a].topic == t;
        }
      }
    }
  }

  /** The encouragement appears exactly when nothing else is recommended: no
      quiz topic is below 70% and neither suggestion applies. */
  lemma KeepGoingExactly(r: StudentRecord)
    requires WellFormed(r)
    ensures KeepGoing in RecommendationsOf(r) <==>
      && (forall t :: t in r.quizPerformance ==> Accuracy(r.quizPerformance[t]) >= 0.7)
      && Suggestions(r.topicsStudied) == []
  {
    var reviews := Reviews(r.quizOrder, r.quizPerformance);
    if reviews != [] {
      ReviewsExactly(r.quizOrder, r.quizPerformance, reviews[0].topic);
      assert KeepGoing !in reviews + Suggestions(r.topicsStudied);
    } else {
      forall t | t in r.quizPerformance ensures Accuracy(r.quizPerformance[t]) >= 0.7 {
        ReviewsExactly(r.quizOrder, r.quizPerformance, t);
      }
    }
  }

  /** The loop of app.py:826-830 over the quiz topics in key order. */
  method CollectReviews(order: seq<string>, perf: map<string, Performance>) returns (rs: seq<Recommendation>)
    ensures rs == Reviews(order, perf)
  {
    rs := [];
    var i := 0;
    while i < |order|
      invariant 0 <= i <= |order|
      invariant rs == Reviews(order[..i], perf)
    {
      assert order[..i + 1][..i] == order[..i];
      var t := order[i];
      if t in perf {
        var p := perf[t];
        var accuracy := if p.total > 0 then p.correct as real / p.total as real else 0.0;
        if accuracy < 0.7 {
          rs := rs + [Review(t, accuracy)];
        }
      }
      i := i + 1;
    }
    assert order[..i] == order;
  }

  /** The /recommendations rule for a student's history. */
  method Recommend(history: StudentRecord) returns (rs: seq<Recommendation>)
    ensures rs == RecommendationsOf(history)
  {
    rs := CollectReviews(history.quizOrder, history.quizPerformance);
    var topics := history.topicsStudied;
    if "photosynthesis" in topics && "cellular respiration" !in topics {
      rs := rs + [Respiration];
    }
    if "gravity" in topics && "motion" !in topics {
      rs := rs + [Motion];
    }
    if rs == [] {
      rs := [KeepGoing];
    }
  }
}
