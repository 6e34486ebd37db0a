/**
 * The quiz-taking screen: a respondent steps through the questions, records an
 * answer per question, and finally sees a score, a percentage and a tier.
 */
module QuizPreview {
  import opened Wrappers
  import opened QuizTypes

  /** What the screen reads of a question.  For choice questions `correctAnswer`
      holds the id of the correct option; it may be missing (`undefined`). */
  datatype Question = Question(id: string, questionType: QuestionType, correctAnswer: Option<string>)

  /** `answers[id]`, with `None` for a key that was never set. */
  function Lookup(answers: map<string, string>, id: string): Option<string> {
    if id in answers then Some(answers[id]) else None
  }

  /** `answers[question.id] === question.correctAnswer`; two missing values are
      equal too, so an unanswered question without a stored answer counts. */
  predicate IsCorrect(q: Question, answers: map<string, string>) {
    Lookup(answers, q.id) == q.correctAnswer
  }

  /** The number of correctly answered questions among `qs`. */
  function CountCorrect(qs: seq<Question>, answers: map<string, string>): (n: nat)
    ensures n <= |qs|
  {
    if qs == [] then 0
    else CountCorrect(qs[..|qs| - 1], answers) + (if IsCorrect(qs[|qs| - 1], answers) then 1 else 0)
  }

  /** The positions of the correctly answered questions. */
  function CorrectPositions(qs: seq<Question>, answers: map<string, string>): set<nat> {
    set i: nat | i < |qs| && IsCorrect(qs[i], answers)
  }

  /** The count is the number of correctly answered positions. */
  lemma {:induction false} CountCorrectIsCardinality(qs: seq<Question>, answers: map<string, string>)
    ensures CountCorrect(qs, answers) == |CorrectPositions(qs, answers)|
  {
    if qs != [] {
      var init := qs[..|qs| - 1];
      var last := |qs| - 1;
      CountCorrectIsCardinality(init, answers);
      var before := CorrectPositions(init, answers);
      if IsCorrect(qs[last], answers) {
        assert CorrectPositions(qs, answers) == before + {last};
      } else {
        assert CorrectPositions(qs, answers) == before;
      }
    }
  }

  /** Every question counts exactly when every question is answered correctly. */
  lemma {:induction false} FullScoreIffAllCorrect(qs: seq<Question>, answers: map<string, string>)
    ensures CountCorrect(qs, answers) == |qs| <==> forall i :: 0 <= i < |qs| ==> IsCorrect(qs[i], answers)
  {
    if qs != [] {
      var init := qs[..|qs| - 1];
      FullScoreIffAllCorrect(init, answers);
      assert forall i :: 0 <= i < |init| ==> init[i] == qs[i];
    }
  }

  /** Right after a reset, only questions with no stored answer count: when every
      question has one, the score is zero. */
  lemma {:induction false} EmptyAnswersScoreZero(qs: seq<Question>)
    requires forall i :: 0 <= i < |qs| ==> qs[i].correctAnswer.Some?
    ensures CountCorrect(qs, map[]) == 0
  {
    if qs != [] {
      EmptyAnswersScoreZero(qs[..|qs| - 1]);
    }
  }

  /** `Math.round(score / total * 100)` with half-up integer rounding. */
  function RoundedPercent(score: nat, total: nat): (pct: nat)
    requires 0 < total
    ensures 2 * total * pct <= 200 * score + total < 2 * total * pct + 2 * total
  {
    (200 * score + total) / (2 * total)
  }

  /** A score within the total gives a percentage between 0 and 100, with 100
      exactly for a full score. */
  lemma PercentBounds(score: nat, total: nat)
    requires 0 < total && score <= total
    ensures RoundedPercent(score, total) <= 100
    ensures score == total ==> RoundedPercent(score, total) == 100
    ensures score == 0 ==> RoundedPercent(score, total) == 0
  {
    var pct := RoundedPercent(score, total);
    var twice := 2 * total;
    assert twice * pct <= 200 * score + total < twice * pct + twice;
    if 101 <= pct {
      ScaleMonotone(twice, 101, pct);
    }
    if score == total && pct <= 99 {
      ScaleMonotone(twice, pct, 99);
    }
    if score == 0 && 1 <= pct {
      ScaleMonotone(twice, 1, pct);
    }
  }

  lemma ScaleMonotone(k: nat, x: int, y: int)
    requires x <= y
    ensures k * x <= k * y
  {
    assert k * y - k * x == k * (y - x);
  }

  datatype ScoreSummary = ScoreSummary(score: nat, total: nat, percentage: nat)

  // ---------------------------------------------------------------------------
  // Result tiers

  datatype Tier = Outstanding | GreatJob | KeepPracticing

  datatype ResultMessage = ResultMessage(title: string, subtitle: string, color: string)

  datatype ResultIcon = Trophy | Smile | Meh

  /** The tier a percentage falls in: 80 and above, 60 to 79, below 60. */
  function TierOf(percentage: int): (t: Tier)
    ensures t == Outstanding <==> percentage >= 80
    ensures t == GreatJob <==> 60 <= percentage < 80
    ensures t == KeepPracticing <==> percentage < 60
  {
    if percentage >= 80 then Outstanding
    else if percentage >= 60 then GreatJob
    else KeepPracticing
  }

  function Rank(t: Tier): nat {
    match t
    case KeepPracticing => 0
    case GreatJob => 1
    case Outstanding => 2
  }

  /** `getResultMessage` */
  function GetResultMessage(percentage: int): (m: ResultMessage)
    ensures m.color == "text-yellow-600" <==> percentage >= 80
    ensures m.color == "text-green-600" <==> 60 <= percentage < 80
    ensures m.color == "text-orange-600" <==> percentage < 60
    ensures m.title == "Outstanding! \U{1F389}" <==> percentage >= 80
    ensures m.title == "Great Job! \U{1F60A}" <==> 60 <= percentage < 80
    ensures m.title == "Keep Practicing! \U{1F4AA}" <==> percentage < 60
    ensures m.subtitle == "You're a quiz master!" <==> percentage >= 80
    ensures m.subtitle == "Well done, keep it up!" <==> 60 <= percentage < 80
    ensures m.subtitle == "You'll get better with practice!" <==> percentage < 60
  {
    if percentage >= 80 then ResultMessage("Outstanding! \U{1F389}", "You're a quiz master!", "text-yellow-600")
    else if percentage >= 60 then ResultMessage("Great Job! \U{1F60A}", "Well done, keep it up!", "text-green-600")
    else ResultMessage("Keep Practicing! \U{1F4AA}", "You'll get better with practice!", "text-orange-600")
  }

  /** `getResultIcon` */
  function GetResultIcon(percentage: int): (icon: ResultIcon)
    ensures icon == Trophy <==> percentage >= 80
    ensures icon == Smile <==> 60 <= percentage < 80
    ensures icon == Meh <==> percentage < 60
  {
    if percentage >= 80 then Trophy
    else if percentage >= 60 then Smile
    else Meh
  }

  /** The message and the icon always show the same tier, and a higher percentage
      never shows a lower tier. */
  lemma TiersAgree(percentage: int)
    ensures GetResultIcon(percentage) == Trophy <==> TierOf(percentage) == Outstanding
    ensures GetResultIcon(percentage) == Smile <==> TierOf(percentage) == GreatJob
    ensures GetResultIcon(percentage) == Meh <==> TierOf(percentage) == KeepPracticing
    ensures GetResultMessage(percentage).color ==
              match TierOf(percentage)
              case Outstanding => "text-yellow-600"
              case GreatJob => "text-green-600"
              case KeepPracticing => "text-orange-600"
    ensures GetResultMessage(percentage).title ==
              match TierOf(percentage)
              case Outstanding => "Outstanding! \U{1F389}"
              case GreatJob => "Great Job! \U{1F60A}"
              case KeepPracticing => "Keep Practicing! \U{1F4AA}"
  {
  }

  lemma TierMonotone(p: int, q: int)
    requires p <= q
    ensures Rank(TierOf(p)) <= Rank(TierOf(q))
  {
  }

  /** A full score is always "Outstanding"; no correct answer is always
      "Keep Practicing". */
  lemma ExtremeScoresTier(score: nat, total: nat)
    requires 0 < total && score <= total
    ensures score == total ==> TierOf(RoundedPercent(score, total)) == Outstanding
    ensures score == 0 ==> TierOf(RoundedPercent(score, total)) == KeepPracticing
  {
    PercentBounds(score, total);
  }

  // ---------------------------------------------------------------------------
  // The screen's state

  class QuizSession {
    const questions: seq<Question>
    const readOnly: bool
    var currentQuestionIndex: nat
    var answers: map<string, string>
    var showResults: bool

    /** The index always names a question (or is 0 when there are none). */
    ghost predicate Valid()
      reads this
    {
      currentQuestionIndex < |questions| || currentQuestionIndex == 0
    }

    constructor (questions: seq<Question>, readOnly: bool)
      ensures Valid()
      ensures this.questions == questions && this.readOnly == readOnly
      ensures currentQuestionIndex == 0 && answers == map[] && !showResults
    {
      this.questions := questions;
      this.readOnly := readOnly;
      currentQuestionIndex := 0;
      answers := map[];
      showResults := false;
    }

    function CurrentQuestion(): Question
      reads this
      requires Valid() && |questions| > 0
    {
      questions[currentQuestionIndex]
    }

    predicate IsLastQuestion()
      reads this
    {
      currentQuestionIndex == |questions| - 1
    }

    /** The Previous button is disabled on the first question. */
    predicate PreviousEnabled()
      reads this
      ensures Valid() && PreviousEnabled() ==> 0 < currentQuestionIndex < |questions|
    {
      currentQuestionIndex != 0
    }

    /** The Next button is disabled unless the screen is read-only or the current
        question has a non-empty answer (`!answers[id]` is true for a missing
        entry and for `""`). */
    predicate NextEnabled()
      reads this
      requires Valid() && |questions| > 0
      ensures NextEnabled() <==>
                readOnly || (CurrentQuestion().id in answers && answers[CurrentQuestion().id] != "")
    {
      readOnly || Lookup(answers, CurrentQuestion().id).GetOr("") != ""
    }

    /** `handleAnswer`: record `value` for the current question only. */
    method HandleAnswer(value: string)
      requires Valid() && |questions| > 0
      modifies this`answers
      ensures Valid()
      ensures answers == old(answers)[CurrentQuestion().id := value]
      ensures Lookup(answers, CurrentQuestion().id) == Some(value)
      ensures forall id :: id != CurrentQuestion().id ==> Lookup(answers, id) == Lookup(old(answers), id)
      ensures NextEnabled() <==> readOnly || value != ""
    {
      answers := answers[CurrentQuestion().id := value];
    }

    /** `handleNext`: on the last question show the results (the one-second delay
        is not modelled), otherwise move on. */
    method HandleNext()
      requires Valid() && |questions| > 0
      modifies this`currentQuestionIndex, this`showResults
      ensures Valid()
      ensures old(IsLastQuestion()) ==> showResults && currentQuestionIndex == old(currentQuestionIndex)
      ensures !old(IsLastQuestion()) ==>
                currentQuestionIndex == old(currentQuestionIndex) + 1 && showResults == old(showResults)
    {
      if IsLastQuestion() {
        showResults := true;
      } else {
        currentQuestionIndex := currentQuestionIndex + 1;
      }
    }

    /** `handlePrevious`, reachable only while the Previous button is enabled. */
    method HandlePrevious()
      requires Valid() && PreviousEnabled()
      modifies this`currentQuestionIndex
      ensures Valid()
      ensures currentQuestionIndex == old(currentQuestionIndex) - 1
    {
      currentQuestionIndex := currentQuestionIndex - 1;
    }

    /** `resetQuiz`: back to the first question, no answers, results hidden. */
    method ResetQuiz()
      modifies this`currentQuestionIndex, this`answers, this`showResults
      ensures Valid()
      ensures currentQuestionIndex == 0 && answers == map[] && !showResults
      ensures |questions| > 0 ==> (NextEnabled() <==> readOnly)
    {
      currentQuestionIndex := 0;
      answers := map[];
      showResults := false;
    }

    /** `calculateScore`: count the correctly answered questions and round the
        percentage.  Only reached when there is at least one question. */
    method CalculateScore() returns (summary: ScoreSummary)
      requires |questions| > 0
      ensures summary.score == CountCorrect(questions, answers)
      ensures summary.total == |questions| && summary.score <= summary.total
      ensures summary.percentage == RoundedPercent(summary.score, summary.total) <= 100
    {
      var correctAnswers := 0;
      for i := 0 to |questions|
        invariant correctAnswers == CountCorrect(questions[..i], answers)
      {
        assert questions[..i + 1][..i] == questions[..i];
        if Lookup(answers, questions[i].id) == questions[i].correctAnswer {
          correctAnswers := correctAnswers + 1;
        }
      }
      assert questions[..|questions|] == questions;
      PercentBounds(correctAnswers, |questions|);
      summary := ScoreSummary(correctAnswers, |questions|, RoundedPercent(correctAnswers, |questions|));
    }
  }
}
