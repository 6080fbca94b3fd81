/** The seeded question set as test vectors, and a full play-through of the
    question view driven through the session's handlers. */
module QuizSeed {
  import opened QuizScoring
  import opened QuizSession

  /** The three seeded questions, in seeding order. */
  function SeedQuestions(): (qs: seq<Question>)
    ensures |qs| == 3
    ensures qs[0].answer == "Paris" && qs[1].answer == "Mars" && qs[2].answer == "William Shakespeare"
    ensures forall i :: 0 <= i < |qs| ==> qs[i].answer in qs[i].options
  {
    [ Question(1, "What is the capital of France?", ["Berlin", "London", "Paris", "Madrid"], "Paris"),
      Question(2, "Which planet is known as the Red Planet?", ["Earth", "Mars", "Jupiter", "Venus"], "Mars"),
      Question(3, "Who wrote 'Hamlet'?", ["Charles Dickens", "William Shakespeare", "Mark Twain", "Jane Austen"], "William Shakespeare") ]
  }

  /** The answers map after picking `picks[i]` on question `i`, for every `i`. */
  function AnswersOf(picks: seq<string>): (m: map<nat, string>)
    ensures forall k: nat :: k in m <==> k < |picks|
    ensures forall i: nat :: i < |picks| ==> m[i] == picks[i]
  {
    map i: nat | i < |picks| :: picks[i]
  }

  /** Start the quiz, then on every question pick an option and press Next.
      Every pick must be a non-empty option so that Next never refuses. */
  method Play(qs: seq<Question>, picks: seq<string>) returns (finalScore: nat, offered: bool)
    requires |qs| > 0 && |picks| == |qs|
    requires forall i :: 0 <= i < |picks| ==> picks[i] != ""
    ensures finalScore == Score(qs, AnswersOf(picks))
    ensures offered == IsPass(finalScore, |qs|)
  {
    var s := new Session(qs);
    s.Start();
    var i := 0;
    while i < |picks|
      invariant 0 <= i <= |picks|
      invariant s.Valid() && s.questions == qs && s.quizStarted
      invariant i < |picks| ==> !s.showResult && s.currentIndex == i
      invariant i == |picks| ==> s.showResult
      invariant s.answers == AnswersOf(picks[..i])
    {
      s.SelectOption(picks[i]);
      s.Next();
      i := i + 1;
    }
    assert picks[..i] == picks;
    finalScore := s.finalScore;
    offered := s.CertificateOffered();
  }

  /** Paris, Mars, Jane Austen: 2 of 3 correct, which passes. */
  lemma ScenarioPasses()
    ensures Score(SeedQuestions(), AnswersOf(["Paris", "Mars", "Jane Austen"])) == 2
    ensures IsPass(2, |SeedQuestions()|)
  {
  }

  /** Berlin, Jupiter, Mark Twain: nothing correct, which fails. */
  lemma ScenarioFails()
    ensures Score(SeedQuestions(), AnswersOf(["Berlin", "Jupiter", "Mark Twain"])) == 0
    ensures !IsPass(0, |SeedQuestions()|)
  {
  }

  /** Played through the handlers, the passing scenario offers the certificate
      and the failing one does not. */
  method PlaySeedScenarios() returns (passScore: nat, passOffered: bool, failScore: nat, failOffered: bool)
    ensures passScore == 2 && passOffered
    ensures failScore == 0 && !failOffered
  {
    ScenarioPasses();
    ScenarioFails();
    passScore, passOffered := Play(SeedQuestions(), ["Paris", "Mars", "Jane Austen"]);
    failScore, failOffered := Play(SeedQuestions(), ["Berlin", "Jupiter", "Mark Twain"]);
  }
}
