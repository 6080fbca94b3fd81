# Quiz session engine

A Dafny model of the quiz engine inside the `Quiz` React component of the
quiz application: the scorer `calculateScore`, the pass rule `isPass`, and the
event handlers that move a learner through the question list (`handleNext`,
`handlePrevious`, `handleOptionChange`, `toggleReview`, `handleRetake`, and the
"Start Quiz" button).

- `scoring.dfy`, module `QuizScoring`: the `Question` record, the score as a
  left fold over the questions (`CountCorrect`, `Score`), the set of correctly
  answered indices as its reference definition (`Matches`), and the pass rule
  `IsPass` as the integer comparison `2 * score >= total`, proved equal to the
  component's real-valued `score / total >= 0.5`.
- `session.dfy`, module `QuizSession`: class `Session` holds the component's
  state (`currentIndex`, `answers`, `reviewed`, `score`, `finalScore`,
  `showResult`, `quizStarted`, `certificateLink`, `errorMsg`) with one method per
  handler. Each state setter is read as a synchronous field update. `Valid()`
  keeps the index in range and ties a shown result to the score of the recorded
  answers.
- `seed.dfy`, module `QuizSeed`: the three seeded questions as test vectors,
  and `Play`, which drives a whole attempt through the handlers.

Modelling decisions:
- The question list is a constructor argument that must be non-empty. The
  component renders "Loading questions..." instead of the question view while
  the list is empty, so the question-view handlers (`Next`, `Previous`,
  `SelectOption`, `ToggleReview`) never run on an empty list.
- `answers` is a `map<nat, string>` and `reviewed` a `map<nat, bool>`. An absent
  key means unanswered or unmarked. `handleNext` tests the answer for
  truthiness, so an empty-string answer is treated like a missing one
  (`Answered`).
- `Next`, `Previous`, `SelectOption` and `ToggleReview` require
  `quizStarted && !showResult`. Their buttons and radio inputs exist only in the
  question view (Quiz.js lines 147-155 and 164-225). The handlers themselves do
  not test this. `Start` and `Retake` are unguarded.
- `isPass` divides JavaScript numbers. For a non-empty list this equals
  `2 * finalScore >= total`. For an empty list the division is `0/0` (NaN, which
  fails) or `s/0` (Infinity, which passes), and `IsPass` models that too.
- `handleOptionChange` (Quiz.js lines 102-105) does not test whether the quiz is
  finished; the result view simply stops rendering the options.
- `reviewedQuestions` is an object of booleans (Quiz.js lines 107-112), so it is
  modelled as a map: toggling an absent key stores `true`, and toggling it
  again stores `false`.
- The component never sends a score anywhere; no result is recorded.

## Model

| member | source | states |
|---|---|---|
| QuizScoring.CountCorrect | frontend/application/src/components/Quiz.js:17-21 | the fold's running total after `n` questions never exceeds `n` |
| QuizScoring.Score | frontend/application/src/components/Quiz.js:17-21 | `calculateScore` lies in `[0, |questions|]` |
| QuizScoring.CountIsMatchCount | frontend/application/src/components/Quiz.js:18-20 | after `n` steps the fold equals the number of indices `i < n` whose recorded answer equals `questions[i].answer` |
| QuizScoring.ScoreIsMatchCount | frontend/application/src/components/Quiz.js:17-21 | the score is the number of correctly answered questions |
| QuizScoring.NoAnswersScoreZero | frontend/application/src/components/Quiz.js:19 | with no answers the score is 0: an absent answer never matches |
| QuizScoring.AllCorrectFullScore | frontend/application/src/components/Quiz.js:17-21 | answering every question correctly gives the full score `|questions|` |
| QuizScoring.FullScoreIffAllCorrect | frontend/application/src/components/Quiz.js:17-21 | the score equals the number of questions counted exactly when every one of them is correct, in both directions |
| QuizScoring.CountAfterAnswer | frontend/application/src/components/Quiz.js:17-21 | overwriting the answer of question `k` changes the score only through `k`: minus 1 if `k` was correct, plus 1 if the new option is correct |
| QuizScoring.WrongToRightAddsOne | frontend/application/src/components/Quiz.js:17-21 | changing one answer from wrong to right raises the score by exactly 1 |
| QuizScoring.ScoreMonotone | frontend/application/src/components/Quiz.js:17-21 | answers that keep every correct answer and may add more never lower the score |
| QuizScoring.IsPass | frontend/application/src/components/Quiz.js:145 | for a non-empty list, passing holds exactly when `finalScore / total >= 0.5` over the reals; with no questions it holds exactly when the score is positive (JavaScript's `s/0` is Infinity, `0/0` is NaN) |
| QuizScoring.PassBoundary | frontend/application/src/components/Quiz.js:145 | the threshold is closed: `k` of `2k` passes and `k` of `2k+1` fails |
| QuizScoring.PassMonotone | frontend/application/src/components/Quiz.js:145 | for every question count, including none, a passing score stays passing when raised by one |
| QuizSession.SelectUnblocks | frontend/application/src/components/Quiz.js:80-105 | the option `handleOptionChange` records opens `handleNext`'s truthiness gate exactly when it is non-empty, and a question never answered keeps the gate closed |
| QuizSession.Toggle | frontend/application/src/components/Quiz.js:107-112 | the toggled flag reads as the negation of its old value, absent counting as false; every other entry is kept |
| QuizSession.ToggleTwice | frontend/application/src/components/Quiz.js:107-112 | toggling the same question twice restores every flag's truth value |
| QuizSession.Session.constructor | frontend/application/src/components/Quiz.js:55-65 | the initial state: index 0, no answers or marks, scores 0, result hidden, quiz not started, empty link and message |
| QuizSession.Session.CertificateOffered | frontend/application/src/components/Quiz.js:164-182 | the certificate button is offered exactly when the result is shown and twice the score of the recorded answers reaches the question count |
| QuizSession.Session.Start | frontend/application/src/components/Quiz.js:152 | "Start Quiz" sets `quizStarted` and changes nothing else |
| QuizSession.Session.Next | frontend/application/src/components/Quiz.js:80-95 | unanswered (absent or empty): the message is set and index, answers, scores and result are unchanged; answered below the last index: the index advances by exactly 1; answered at the last index: the index stays, `finalScore = score = Score(questions, answers)` and the result is shown; the index stays in range |
| QuizSession.Session.Previous | frontend/application/src/components/Quiz.js:97-100 | the index decreases by 1 when above 0 and stays at 0 otherwise; the message is cleared; answers, marks and result are unchanged |
| QuizSession.Session.SelectOption | frontend/application/src/components/Quiz.js:102-105 | `answers[currentIndex]` becomes the option and every other key keeps its entry; the message is cleared; nothing else changes |
| QuizSession.Session.ToggleReview | frontend/application/src/components/Quiz.js:107-112 | only the current question's flag flips; answers, index, scores and the message are untouched |
| QuizSession.Session.Retake | frontend/application/src/components/Quiz.js:133-143 | index 0, answers and marks emptied, both scores 0, result hidden, quiz not started, link and message cleared; the questions are kept |
| QuizSession.SelectTwice | frontend/application/src/components/Quiz.js:102-105 | choosing the same option twice leaves the same answers as choosing it once |
| QuizSession.ToggleReviewTwice | frontend/application/src/components/Quiz.js:107-112 | two toggles restore every flag and leave answers and index unchanged |
| QuizSeed.SeedQuestions | backend/seedQuestions.js:17-33 | three questions whose answers are Paris, Mars and William Shakespeare, each answer one of its options |
| QuizSeed.Play | frontend/application/src/components/Quiz.js:191-223 | selecting a non-empty option and pressing Next on every question ends with `finalScore` equal to the score of those picks, and the certificate is offered exactly when that score passes |
| QuizSeed.ScenarioPasses | backend/seedQuestions.js:17-33 | Paris, Mars, Jane Austen scores 2 of 3, which passes |
| QuizSeed.ScenarioFails | backend/seedQuestions.js:17-33 | Berlin, Jupiter, Mark Twain scores 0, which fails |
| QuizSeed.PlaySeedScenarios | frontend/application/src/components/Quiz.js:164-182 | played through the handlers, the passing scenario scores 2 and offers the certificate; the failing one scores 0 and does not |

## Left out

- Loading the questions (`fetchQuestions` and the loading effect): an HTTP call. The questions are a constructor argument instead, and the load error message is not modelled.
- Certificate generation, download and sharing (`generateCertificate`, `handleDownloadCertificate`, `handleShareCertificate`): PDF rendering, blob URLs, browser storage and the clipboard are foreign calls. `certificateLink` is modelled only as the field that `Retake` clears.
- The JSX rendering, apart from its gates: the pass gate (`CertificateOffered`) and the question-view gate (the `InProgress` precondition).
- The floating-point division of `isPass`: modelled as the integer comparison, proved equal to real division for non-empty lists.
- QuizSession.Session.Start: pressing "Start Quiz" before the questions have arrived is not represented, since a session is only built over a loaded, non-empty list. The end state is the same either way: the loader sets only `questions` and Start sets only `quizStarted`.
- React's batching of state setters: each setter is a synchronous field update.
- Recording attempt results and listing a learner's results (the backend's result routes): one-line database calls that the quiz component never makes.
- Login, the app shell and the backend's authentication: forms, password hashing, tokens and browser storage, with no quiz rules.
