/** Scoring and the pass rule of the quiz: `calculateScore` and `isPass`. */
module QuizScoring {

  /** One quiz question as the component receives it from the question API. */
  datatype Question = Question(id: nat, question: string, options: seq<string>, answer: string)

  /** The pass threshold written as the literal 0.5 in the component. */
  const PassThreshold: real := 0.5

  /** Question `i` counts as correct when an answer is recorded for it and
      equals the question's answer; an absent answer never matches. */
  predicate Correct(questions: seq<Question>, answers: map<nat, string>, i: nat)
    requires i < |questions|
  {
    i in answers && answers[i] == questions[i].answer
  }

  /** The running total of the `reduce` fold after its first `n` steps. */
  function CountCorrect(questions: seq<Question>, answers: map<nat, string>, n: nat): (r: nat)
    requires n <= |questions|
    ensures r <= n
  {
    if n == 0 then 0
    else
      var total := CountCorrect(questions, answers, n - 1);
      if Correct(questions, answers, n - 1) then total + 1 else total
  }

  /** `calculateScore`: the fold over every question. */
  function Score(questions: seq<Question>, answers: map<nat, string>): (r: nat)
    ensures r <= |questions|
  {
    CountCorrect(questions, answers, |questions|)
  }

  /** The reference definition of the score: the set of correctly answered indices. */
  ghost function Matches(questions: seq<Question>, answers: map<nat, string>, n: nat): (m: set<nat>)
    requires n <= |questions|
    ensures forall i :: i in m ==> i < n
  {
    set i: nat | i < n && Correct(questions, answers, i)
  }

  /** `isPass`: `finalScore / total >= 0.5` on JavaScript numbers. With no
      questions the division is 0/0 (NaN, fails) or s/0 (Infinity, passes). */
  function IsPass(finalScore: nat, total: nat): (r: bool)
    ensures total > 0 ==> (r <==> (finalScore as real) / (total as real) >= PassThreshold)
    ensures total == 0 ==> (r <==> finalScore > 0)
  {
    if total == 0 then finalScore > 0 else 2 * finalScore >= total
  }

  /** The fold counts exactly the indices whose answer matches. */
  lemma {:induction false} CountIsMatchCount(questions: seq<Question>, answers: map<nat, string>, n: nat)
    requires n <= |questions|
    ensures CountCorrect(questions, answers, n) == |Matches(questions, answers, n)|
  {
    if n > 0 {
      CountIsMatchCount(questions, answers, n - 1);
      var prev := Matches(questions, answers, n - 1);
      if Correct(questions, answers, n - 1) {
        assert Matches(questions, answers, n) == prev + {n - 1};
        assert n - 1 !in prev;
      } else {
        assert Matches(questions, answers, n) == prev;
      }
    } else {
      assert Matches(questions, answers, 0) == {};
    }
  }

  /** The score is the number of correctly answered questions. */
  lemma ScoreIsMatchCount(questions: seq<Question>, answers: map<nat, string>)
    ensures Score(questions, answers) == |Matches(questions, answers, |questions|)|
  {
    CountIsMatchCount(questions, answers, |questions|);
  }

  /** With no answers recorded the score is 0: absent answers count as wrong. */
  lemma {:induction false} NoAnswersScoreZero(questions: seq<Question>, n: nat)
    requires n <= |questions|
    ensures CountCorrect(questions, map[], n) == 0
  {
    if n > 0 {
      NoAnswersScoreZero(questions, n - 1);
    }
  }

  /** Answering every question correctly gives the full score. */
  lemma AllCorrectFullScore(questions: seq<Question>, answers: map<nat, string>)
    requires forall i :: 0 <= i < |questions| ==> Correct(questions, answers, i)
    ensures Score(questions, answers) == |questions|
  {
    FullScoreIffAllCorrect(questions, answers, |questions|);
  }

  /** The score reaches `|questions|` exactly when every answer is correct. */
  lemma {:induction false} FullScoreIffAllCorrect(questions: seq<Question>, answers: map<nat, string>, n: nat)
    requires n <= |questions|
    ensures CountCorrect(questions, answers, n) == n
        <==> forall i :: 0 <= i < n ==> Correct(questions, answers, i)
  {
    if n > 0 {
      FullScoreIffAllCorrect(questions, answers, n - 1);
    }
  }

  /** Recording option `o` for question `k` changes the score only through
      question `k`: it loses 1 if `k` was correct, and gains 1 if `o` is right. */
  lemma {:induction false} CountAfterAnswer(questions: seq<Question>, answers: map<nat, string>, k: nat, o: string, n: nat)
    requires k < |questions| && n <= |questions|
    ensures CountCorrect(questions, answers[k := o], n) + (if k < n && Correct(questions, answers, k) then 1 else 0)
         == CountCorrect(questions, answers, n) + (if k < n && o == questions[k].answer then 1 else 0)
  {
    if n > 0 {
      CountAfterAnswer(questions, answers, k, o, n - 1);
    }
  }

  /** Changing one answer from wrong to right raises the score by exactly 1. */
  lemma WrongToRightAddsOne(questions: seq<Question>, answers: map<nat, string>, k: nat)
    requires k < |questions|
    requires !Correct(questions, answers, k)
    ensures Score(questions, answers[k := questions[k].answer]) == Score(questions, answers) + 1
  {
    CountAfterAnswer(questions, answers, k, questions[k].answer, |questions|);
  }

  /** Supplying more correct answers, keeping every correct one, never lowers the score. */
  lemma ScoreMonotone(questions: seq<Question>, answers: map<nat, string>, better: map<nat, string>)
    requires forall i :: 0 <= i < |questions| && Correct(questions, answers, i) ==> Correct(questions, better, i)
    ensures Score(questions, answers) <= Score(questions, better)
  {
    ScoreIsMatchCount(questions, answers);
    ScoreIsMatchCount(questions, better);
    var n := |questions|;
    assert Matches(questions, answers, n) <= Matches(questions, better, n);
    SubsetCardinality(Matches(questions, answers, n), Matches(questions, better, n));
  }

  lemma SubsetCardinality(a: set<nat>, b: set<nat>)
    requires a <= b
    ensures |a| <= |b|
  {
    assert b == a + (b - a);
  }

  /** Exactly half passes, one below half fails: 1 of 2 passes, 1 of 3 does not. */
  lemma PassBoundary(k: nat)
    requires k > 0
    ensures IsPass(k, 2 * k) && !IsPass(k, 2 * k + 1)
  {
  }

  /** One more point never turns a pass into a fail, for any question count. */
  lemma PassMonotone(total: nat)
    ensures forall s: nat :: IsPass(s, total) ==> IsPass(s + 1, total)
  {
  }
}
