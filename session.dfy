/** The quiz session state machine: the state and the event handlers of the
    `Quiz` component, with each state setter read as a field update. */
module QuizSession {
  import opened QuizScoring

  /** The message `handleNext` shows when the current question is unanswered. */
  const SelectFirstMessage: string := "Please select an option before proceeding!"

  /** An answer is present and truthy: absent keys and the empty string are falsy. */
  predicate Answered(answers: map<nat, string>, i: nat)
  {
    i in answers && answers[i] != ""
  }

  /** Recording an option for question `i` opens `handleNext`'s gate exactly
      when the option is non-empty; a question never answered keeps it closed. */
  lemma SelectUnblocks(answers: map<nat, string>, i: nat, o: string)
    ensures Answered(answers[i := o], i) <==> o != ""
    ensures i !in answers ==> !Answered(answers, i)
  {
  }

  /** A review flag as the view reads it: an absent key is unmarked. */
  predicate Marked(reviewed: map<nat, bool>, i: nat)
  {
    i in reviewed && reviewed[i]
  }

  /** The review map after `toggleReview` on question `i`. */
  function Toggle(reviewed: map<nat, bool>, i: nat): (r: map<nat, bool>)
    ensures Marked(r, i) == !Marked(reviewed, i)
    ensures r.Keys == reviewed.Keys + {i}
    ensures forall j :: j in reviewed && j != i ==> r[j] == reviewed[j]
  {
    reviewed[i := !Marked(reviewed, i)]
  }

  /** Toggling twice restores every flag's truth value. */
  lemma ToggleTwice(reviewed: map<nat, bool>, i: nat, j: nat)
    ensures Marked(Toggle(Toggle(reviewed, i), i), j) == Marked(reviewed, j)
  {
  }

  class Session {
    const questions: seq<Question>
    var currentIndex: nat
    var answers: map<nat, string>
    var reviewed: map<nat, bool>
    var score: nat
    var finalScore: nat
    var showResult: bool
    var quizStarted: bool
    var certificateLink: string
    var errorMsg: string

    /** The session invariant: the index stays in range, answers and flags are
        only ever keyed by a question index, and a shown result is the score
        of the recorded answers, taken at the last question. */
    ghost predicate Valid()
      reads this
    {
      && |questions| > 0
      && currentIndex < |questions|
      && (forall k :: k in answers ==> k < |questions|)
      && (forall k :: k in reviewed ==> k < |questions|)
      && score == finalScore
      && (showResult ==> quizStarted
                         && currentIndex == |questions| - 1
                         && Answered(answers, currentIndex)
                         && finalScore == Score(questions, answers))
      && (!showResult ==> finalScore == 0)
    }

    /** The question view is on screen: the handlers below are only reachable from it. */
    predicate InProgress()
      reads this
    {
      quizStarted && !showResult
    }

    /** Whether the certificate button is offered: the result is shown and passes. */
    function CertificateOffered(): (r: bool)
      reads this
      requires Valid()
      ensures r <==> showResult && 2 * Score(questions, answers) >= |questions|
    {
      showResult && IsPass(finalScore, |questions|)
    }

    /** The component's initial state, over a loaded, non-empty question list. */
    constructor (qs: seq<Question>)
      requires |qs| > 0
      ensures Valid()
      ensures questions == qs && currentIndex == 0
      ensures answers == map[] && reviewed == map[]
      ensures score == 0 && finalScore == 0
      ensures !showResult && !quizStarted
      ensures certificateLink == "" && errorMsg == ""
    {
      questions := qs;
      currentIndex := 0;
      answers := map[];
      reviewed := map[];
      score := 0;
      finalScore := 0;
      showResult := false;
      quizStarted := false;
      certificateLink := "";
      errorMsg := "";
    }

    /** The "Start Quiz" button. */
    method Start()
      requires Valid()
      modifies this
      ensures Valid() && quizStarted
      ensures currentIndex == old(currentIndex) && answers == old(answers) && reviewed == old(reviewed)
      ensures score == old(score) && finalScore == old(finalScore) && showResult == old(showResult)
      ensures certificateLink == old(certificateLink) && errorMsg == old(errorMsg)
    {
      quizStarted := true;
    }

    /** `handleNext`: refuse to advance while the current question is
        unanswered; otherwise move on, or score the quiz at the last question. */
    method Next()
      requires Valid() && InProgress()
      modifies this
      ensures Valid()
      ensures answers == old(answers) && reviewed == old(reviewed)
      ensures quizStarted && certificateLink == old(certificateLink)
      ensures !Answered(old(answers), old(currentIndex)) ==>
                errorMsg == SelectFirstMessage && currentIndex == old(currentIndex)
                && !showResult && finalScore == old(finalScore) && score == old(score)
      ensures Answered(old(answers), old(currentIndex)) && old(currentIndex) < |questions| - 1 ==>
                errorMsg == "" && currentIndex == old(currentIndex) + 1
                && !showResult && finalScore == old(finalScore) && score == old(score)
      ensures Answered(old(answers), old(currentIndex)) && old(currentIndex) == |questions| - 1 ==>
                errorMsg == "" && currentIndex == old(currentIndex)
                && showResult && finalScore == Score(questions, answers) && score == finalScore
    {
      if !Answered(answers, currentIndex) {
        errorMsg := SelectFirstMessage;
        return;
      }
      errorMsg := "";
      if currentIndex < |questions| - 1 {
        currentIndex := currentIndex + 1;
      } else {
        var total := Score(questions, answers);
        finalScore := total;
        score := total;
        showResult := true;
      }
    }

    /** `handlePrevious`: step back unless at the first question; always clears the message. */
    method Previous()
      requires Valid() && InProgress()
      modifies this
      ensures Valid()
      ensures currentIndex == if old(currentIndex) > 0 then old(currentIndex) - 1 else 0
      ensures errorMsg == ""
      ensures answers == old(answers) && reviewed == old(reviewed)
      ensures score == old(score) && finalScore == old(finalScore)
      ensures showResult == old(showResult) && quizStarted == old(quizStarted)
      ensures certificateLink == old(certificateLink)
    {
      if currentIndex > 0 {
        currentIndex := currentIndex - 1;
      }
      errorMsg := "";
    }

    /** `handleOptionChange`: record `option` for the current question only.
        The option is not checked against the question's options. */
    method SelectOption(option: string)
      requires Valid() && InProgress()
      modifies this
      ensures Valid()
      ensures answers == old(answers)[currentIndex := option]
      ensures errorMsg == ""
      ensures currentIndex == old(currentIndex) && reviewed == old(reviewed)
      ensures score == old(score) && finalScore == old(finalScore)
      ensures showResult == old(showResult) && quizStarted == old(quizStarted)
      ensures certificateLink == old(certificateLink)
    {
      answers := answers[currentIndex := option];
      errorMsg := "";
    }

    /** `toggleReview`: flip the current question's review flag; scoring inputs
        and the error message are untouched. */
    method ToggleReview()
      requires Valid() && InProgress()
      modifies this
      ensures Valid()
      ensures reviewed == Toggle(old(reviewed), currentIndex)
      ensures currentIndex == old(currentIndex) && answers == old(answers)
      ensures score == old(score) && finalScore == old(finalScore)
      ensures showResult == old(showResult) && quizStarted == old(quizStarted)
      ensures certificateLink == old(certificateLink) && errorMsg == old(errorMsg)
    {
      reviewed := Toggle(reviewed, currentIndex);
    }

    /** `handleRetake`: back to the welcome screen with a fresh attempt over the same questions. */
    method Retake()
      requires Valid()
      modifies this
      ensures Valid()
      ensures currentIndex == 0 && answers == map[] && reviewed == map[]
      ensures score == 0 && finalScore == 0
      ensures !showResult && !quizStarted
      ensures certificateLink == "" && errorMsg == ""
    {
      currentIndex := 0;
      answers := map[];
      score := 0;
      finalScore := 0;
      showResult := false;
      quizStarted := false;
      certificateLink := "";
      errorMsg := "";
      reviewed := map[];
    }
  }

  /** Choosing the same option twice leaves the same answers as choosing it once. */
  method SelectTwice(s: Session, option: string)
    requires s.Valid() && s.InProgress()
    modifies s
    ensures s.Valid() && s.InProgress()
    ensures s.answers == old(s.answers)[s.currentIndex := option]
    ensures s.currentIndex == old(s.currentIndex)
  {
    s.SelectOption(option);
    s.SelectOption(option);
  }

  /** Toggling review twice restores every flag and changes nothing else the quiz scores. */
  method ToggleReviewTwice(s: Session)
    requires s.Valid() && s.InProgress()
    modifies s
    ensures s.Valid() && s.InProgress()
    ensures forall j :: Marked(s.reviewed, j) == Marked(old(s.reviewed), j)
    ensures s.answers == old(s.answers) && s.currentIndex == old(s.currentIndex)
  {
    ghost var before := s.reviewed;
    s.ToggleReview();
    s.ToggleReview();
    forall j ensures Marked(s.reviewed, j) == Marked(before, j) {
      ToggleTwice(before, s.currentIndex, j);
    }
  }
}
