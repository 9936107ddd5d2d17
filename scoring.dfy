/** Grading of one assessment submission: count the answers equal to each question's
    `correct_answer`, collect the topics of the others, turn the count into a 0-100 score and
    compare it with the pass threshold. */
module Scoring {
  import opened Common

  datatype Question = Question(id: string, topic: Option<string>, correctAnswer: string)

  datatype Assessment = Assessment(passThreshold: int, questions: seq<Question>)

  /** The body of the submission response (without the echoed answers). */
  datatype Grading = Grading(
    score: int,
    passed: bool,
    correct: nat,
    total: nat,
    weakAreas: seq<string>,
    passThreshold: int)

  /** Topic recorded for a missed question: `q.get("topic", "General")`. */
  function TopicOf(q: Question): string {
    q.topic.GetOr("General")
  }

  /** `answers.get(q["id"]) == q["correct_answer"]`: an unanswered question is never correct. */
  predicate AnsweredCorrectly(q: Question, answers: map<string, string>) {
    q.id in answers && answers[q.id] == q.correctAnswer
  }

  /** Number of correctly answered questions. */
  function CorrectCount(questions: seq<Question>, answers: map<string, string>): nat {
    if questions == [] then 0
    else
      CorrectCount(questions[..|questions| - 1], answers)
      + (if AnsweredCorrectly(questions[|questions| - 1], answers) then 1 else 0)
  }

  /** Topics of the incorrectly answered questions, in question order, with repeats. */
  function MissedTopics(questions: seq<Question>, answers: map<string, string>): seq<string> {
    if questions == [] then []
    else
      var last := questions[|questions| - 1];
      MissedTopics(questions[..|questions| - 1], answers)
      + (if AnsweredCorrectly(last, answers) then [] else [TopicOf(last)])
  }

  /** Every question is counted either as correct or as one missed topic. */
  lemma {:induction false} CorrectPlusMissed(questions: seq<Question>, answers: map<string, string>)
    ensures CorrectCount(questions, answers) + |MissedTopics(questions, answers)| == |questions|
    ensures CorrectCount(questions, answers) <= |questions|
  {
    if questions != [] {
      CorrectPlusMissed(questions[..|questions| - 1], answers);
    }
  }

  /** A topic is missed exactly when some incorrectly answered question carries it. */
  lemma {:induction false} MissedTopicsExact(questions: seq<Question>, answers: map<string, string>)
    ensures forall i :: 0 <= i < |questions| && !AnsweredCorrectly(questions[i], answers)
              ==> TopicOf(questions[i]) in MissedTopics(questions, answers)
    ensures forall t :: t in MissedTopics(questions, answers)
              ==> exists i :: 0 <= i < |questions| && !AnsweredCorrectly(questions[i], answers) && TopicOf(questions[i]) == t
  {
    if questions != [] {
      var init := questions[..|questions| - 1];
      MissedTopicsExact(init, answers);
      forall i | 0 <= i < |questions| && !AnsweredCorrectly(questions[i], answers)
        ensures TopicOf(questions[i]) in MissedTopics(questions, answers)
      {
        if i < |init| {
          assert init[i] == questions[i];
        }
      }
      forall t | t in MissedTopics(questions, answers)
        ensures exists i :: 0 <= i < |questions| && !AnsweredCorrectly(questions[i], answers) && TopicOf(questions[i]) == t
      {
        if t in MissedTopics(init, answers) {
          var i :| 0 <= i < |init| && !AnsweredCorrectly(init[i], answers) && TopicOf(init[i]) == t;
          assert questions[i] == init[i];
        } else {
          assert questions[|questions| - 1] == questions[|questions| - 1];
        }
      }
    }
  }

  /** The scoring loop of the submission handler. */
  method TallyAnswers(questions: seq<Question>, answers: map<string, string>) returns (correct: nat, weakAreas: seq<string>)
    ensures correct == CorrectCount(questions, answers)
    ensures weakAreas == MissedTopics(questions, answers)
  {
    correct, weakAreas := 0, [];
    for i := 0 to |questions|
      invariant correct == CorrectCount(questions[..i], answers)
      invariant weakAreas == MissedTopics(questions[..i], answers)
    {
      var q := questions[i];
      assert questions[..i + 1][..i] == questions[..i];
      if q.id in answers && answers[q.id] == q.correctAnswer {
        correct := correct + 1;
      } else {
        weakAreas := weakAreas + [TopicOf(q)];
      }
    }
    assert questions[..|questions|] == questions;
  }

  /** `int(correct / total * 100) if total > 0 else 0`, with exact division. */
  function Percent(correct: nat, total: nat): (score: int)
    ensures total == 0 ==> score == 0
    ensures total > 0 ==> score * total <= 100 * correct < (score + 1) * total
    ensures 0 <= score
    ensures correct <= total ==> score <= 100
  {
    if total > 0 then (100 * correct) / total else 0
  }

  /** The grading half of the submission handler. An unknown assessment fails. */
  method Grade(assessment: Option<Assessment>, answers: map<string, string>) returns (r: Result<Grading, ApiError>)
    ensures assessment.None? ==> r == Failure(AssessmentNotFound)
    ensures assessment.Some? ==> r.Success?
    ensures r.Success? ==>
      var a, g := assessment.value, r.value;
      && g.correct == CorrectCount(a.questions, answers)
      && g.total == |a.questions|
      && g.total - g.correct == |MissedTopics(a.questions, answers)|
      && 0 <= g.score <= 100
      && g.score == Percent(g.correct, g.total)
      && (g.passed <==> g.score >= a.passThreshold)
      && g.passThreshold == a.passThreshold
      && g.weakAreas == Dedup(MissedTopics(a.questions, answers))
      && NoDuplicates(g.weakAreas)
      && (forall t :: t in g.weakAreas <==>
            exists i :: 0 <= i < |a.questions| && !AnsweredCorrectly(a.questions[i], answers) && TopicOf(a.questions[i]) == t)
  {
    if assessment.None? {
      return Failure(AssessmentNotFound);
    }
    var a := assessment.value;
    var correct, weak := TallyAnswers(a.questions, answers);
    var total := |a.questions|;
    CorrectPlusMissed(a.questions, answers);
    MissedTopicsExact(a.questions, answers);
    var score := Percent(correct, total);
    r := Success(Grading(score, score >= a.passThreshold, correct, total, Dedup(weak), a.passThreshold));
  }
}
