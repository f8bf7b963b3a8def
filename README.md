# SainsQuiz session model

A Dafny model of the quiz logic of SainsQuiz, a Streamlit app for practising
SPM Science. The app keeps its state in `st.session_state` and reruns its
script on every click. The model leaves out the rendering and keeps the state
machine underneath it. It has five parts:

- **Questions** (`questions.dfy`): the question record, grading of one answer
  by option text, the subject filter ("All" or one subject), and facts about
  the ten-question draw.
- **Leaderboard** (`leaderboard.dfy`): the local leaderboard of `(name, score)`
  entries. Saving appends the entry, sorts the board stably by score, highest
  first, and keeps the first ten. `StableSortDesc` is a reference stable
  insertion sort. It is proved to be the only sorted rearrangement that keeps
  the order of equal scores, so it agrees with Python's `list.sort(key=…,
  reverse=True)`.
- **Share** (`share.dfy`): the WhatsApp share link. It holds the share text
  with every space replaced by `%20`.
- **Session** (`session.dfy`): class `QuizSession`. Its fields are the
  session fields `score`, `qIndex`, `answers`, `quizStarted`, `subject`,
  `feedback`, `quizQuestions` and `leaderboard`, plus the question pool as a
  constant. Its methods are the handlers: subject selection, New Quiz, the
  draw, the ungated Submit handler as written (`HandleSubmit`), Submit with
  the feedback gate (`Submit`), Next Question and Save Score. The completion test is the
  predicate `IsComplete()` (`qIndex >= |quizQuestions|`, app.py:164). The two
  screens of the main area are `OnQuestionScreen()` and
  `OnCompletionScreen()`, and each main-area handler requires the screen on
  which its button is drawn. The sidebar (subject box and New Quiz) is drawn
  on every run.
- **Seqs** (`seqs.dfy`): Python's slice `s[:n]` (`Take`), distinctness and the
  `Option` type, which the other parts share.

The session invariant `Valid()` says three things:

- The answer log has one entry per question answered, plus one while that
  answer's feedback is shown (`|answers| == qIndex + (feedback pending ? 1 : 0)`).
- Entry i is the grading of question i.
- `score` is the number of entries graded correct, so `score <= |answers|`.

The leaderboard part of `Valid()` says the board is sorted by score,
highest first, and holds at most ten entries. Every handler except the
ungated `HandleSubmit` keeps `Valid()`; `HandleSubmit` keeps only
`WellFormedState()` (the well-formed questions, the index bound and the
leaderboard part), because a second submit breaks the log invariant. The
sidebar handlers need only `WellFormedState()`, since the sidebar runs
whatever the session holds: `SelectSubject` keeps `Valid()` exactly when it
held before, and `NewQuiz` establishes it, so New Quiz recovers a session
that a double submit has put out of step.

Python's `random.shuffle` is a parameter of `Draw`: any sequence with the same
elements as the filtered questions. Loading `questions.json` is replaced by
the constructor's `pool` argument.

In the code, the draw at app.py:159-161 runs on every rerun while
`q_index == 0` and no answer is logged, so the drawn set can change before
the first answer. `Draw` is allowed in exactly that state, as often as the
caller likes. The click on Submit for the first question starts such a run:
it re-draws before grading (app.py:206-230), so the first answer is graded
against the first question of a new shuffle, not necessarily the question
that was shown. The model allows this as `Draw` followed by `Submit`.
Because the first run of a quiz draws before its completion test (app.py:159-164), the
completion screen, and with it Save Score, needs a drawn quiz:
`OnCompletionScreen()` requires `quizQuestions` to be non-empty.

Three points where the code differs from what one might expect, and the
model follows the code:

- `len(answers) == q_index` does not hold at all times. The log is one entry
  longer while feedback is shown, because Submit does not advance `q_index`.
- Questions are read from `questions.json` as they are. There is no built-in
  fallback set and no check of the records.
- No percentage is computed at the end.

## Model

| member | source | states |
|---|---|---|
| Questions.GradeMatchesIndex | app.py:228-230 | when no two options share a text, option i is graded correct iff i is `correct_option` |
| Questions.DuplicateTextAccepted | app.py:228-230 | when another option has the correct option's text, choosing it is graded correct, because grading compares text and not indices |
| Questions.Grade | app.py:228-237 | the log record of an answer copies the question text and the chosen text, and is marked correct iff the chosen text equals `options[correct_option]` |
| Questions.FeedbackFor | app.py:240-246 | the feedback agrees with the grading (the correct form iff the answer is graded correct), always carries the explanation, and for a wrong answer names the correct option's text |
| Questions.CountCorrectAppend | app.py:233-241 | logging one answer raises the count of correct entries by 1 exactly when that answer is correct |
| Questions.CountCorrectBound | app.py:240-241 | the number of correct entries never exceeds the number of entries |
| Questions.OfSubject | app.py:152 | the comprehension result holds exactly the pool questions of that subject, and is no longer than the pool |
| Questions.Filtered | app.py:149-152 | "All" yields the whole pool; any other subject yields the comprehension; every result question is from the pool |
| Questions.OfSubjectAppend | app.py:152 | the filter distributes over concatenation, so the kept questions stay in pool order |
| Questions.OfSubjectSingle | app.py:152 | one question is kept iff its subject matches |
| Questions.OfSubjectCounts | app.py:152 | each question of the subject is kept as often as it occurs in the pool; questions of other subjects never are |
| Questions.DrawnQuizBounds | app.py:160-161 | the first ten of any shuffle of the filtered list are min(10, filtered length) questions, contained in the filtered list as a multiset |
| Questions.DrawnQuizDistinct | app.py:160-161 | if the filtered list has no repeated question, neither has the drawn set |
| Seqs.Take | app.py:161 | Python's slice `s[:n]` (also at app.py:187): the first min(n, len(s)) elements of s |
| Leaderboard.InsertMultiset | app.py:185-186 | one insertion step adds exactly the new entry and keeps every old one |
| Leaderboard.StableSortDesc | app.py:186 | the sort of the board by score, highest first; it keeps the number of entries, and the lemmas below prove it is the stable descending sort |
| Leaderboard.InsertSorted | app.py:186 | inserting into a board sorted by score, highest first, keeps it sorted |
| Leaderboard.InsertAtRank | app.py:185-186 | on a sorted board the new entry goes right after all entries scoring at least as much, so old entries win ties |
| Leaderboard.StableSortDescSorted | app.py:186 | the reference sort yields a list sorted by score, highest first, that is a permutation of its input |
| Leaderboard.InsertWithScore | app.py:186 | on a sorted board, insertion puts the new entry after the entries with its score and leaves the other scores alone |
| Leaderboard.StableSortDescStable | app.py:186 | the sort keeps the relative order of the entries of every score (stability) |
| Leaderboard.SortedStableUnique | app.py:186 | two sorted lists with the same per-score subsequences are equal |
| Leaderboard.StableSortDescCharacterized | app.py:186 | r is the reference sort of s iff r is sorted, highest first, and keeps the order of equal scores, which makes it equal to Python's stable `sort(reverse=True)` |
| Leaderboard.SortedIsFixpoint | app.py:186 | sorting an already sorted board changes nothing |
| Leaderboard.SortAppendedIsInsert | app.py:185-186 | sorting a sorted board with one entry appended equals inserting that entry |
| Leaderboard.SavedBoard | app.py:185-187 | the board after a save holds min(old length + 1, 10) entries, never more than ten |
| Leaderboard.SavedBoardShape | app.py:185-187 | after a save the board is sorted, highest first, and holds min(old length + 1, 10) entries |
| Leaderboard.SavedBoardNewcomer | app.py:185-187 | saving into a sorted board keeps the new entry at position Rank iff fewer than ten entries score at least as much; otherwise the board is its old top ten |
| Share.DecimalString | app.py:194 | the printed score is a non-empty string of decimal digits with no leading zero, except for 0 itself |
| Share.DecimalRoundTrip | app.py:194 | the printed score reads back as the score |
| Share.ShareText | app.py:194 | the share text is "I scored ", then `str(score)` (digits that read back as the score), then the fixed "/10 on SainsQuiz SPM Science! …" suffix |
| Share.EncodeSpaces | app.py:195 | the encoded text has no space and is at least as long as the text |
| Share.EncodeSpacesAppend | app.py:195 | the encoding works character by character: it distributes over concatenation |
| Share.EncodeSpacesChar | app.py:195 | a single space becomes `%20` and every other character is kept |
| Share.DecodeEncode | app.py:195 | for text without `%`, replacing `%20` by spaces undoes the encoding |
| Share.ShareTextNoPercent | app.py:194 | the share text never holds a `%` |
| Share.WhatsAppLink | app.py:194-195 | the share link has no space character |
| Share.ShareLinkRecoversText | app.py:194-195 | the link is the wa.me prefix followed by a query that decodes to exactly the share text |
| Session.QuizSession.constructor | app.py:77-92 | the first run: score 0, index 0, empty log, not started, subject "All", no feedback, empty leaderboard; the invariant holds |
| Session.QuizSession.SelectSubject | app.py:103-104 | the select box, drawn on every run, stores one of "All", "Physics", "Chemistry", "Biology" as the subject and changes nothing else; the invariant holds afterwards exactly when it held before |
| Session.QuizSession.NewQuiz | app.py:107-112 | from any well-formed state, including one out of step after a double submit: sets score 0, index 0, empty log, started and no feedback, establishes the invariant, and leaves leaderboard, subject and drawn questions alone |
| Session.QuizSession.Draw | app.py:148-161 | allowed only with a started quiz, index 0 and an empty log; an empty filter result draws nothing and leaves the quiz set unchanged; otherwise the quiz set is the first ten of the shuffle, of length min(10, filtered length), within the filtered questions; nothing else changes |
| Session.QuizSession.HandleSubmit | app.py:223-250 | the handler as written: no choice changes nothing; a choice logs its grading, adds 1 to the score iff it equals the correct option's text, and sets the feedback; it does not check for pending feedback |
| Session.QuizSession.Submit | app.py:223-250 | with the feedback gate: no choice changes nothing; a choice appends exactly one graded entry, adds 1 to the score iff the text matches, keeps the index and shows feedback, so `len(answers) == q_index + 1`; the invariant and `score <= len(answers) <= len(quiz_questions)` hold afterwards |
| Session.QuizSession.Next | app.py:253-256 | only with feedback shown: the index goes up by exactly 1, the feedback is cleared, `len(answers) == q_index` and `score <= len(answers) <= len(quiz_questions)` hold again, and the quiz is then complete iff the index reached the quiz length |
| Session.QuizSession.IsComplete | app.py:164 | the completion test; while it fails, the current question `quizQuestions[qIndex]` read at app.py:206 exists |
| Session.QuizSession.SaveScore | app.py:180-191 | only on the completion screen of a drawn quiz: an empty name is refused and the board is unchanged; otherwise the board becomes the first ten of the stable descending sort of the old board plus `(name, score)` |
| Session.DoubleSubmitExample | app.py:218-250 | two Submit clicks on a one-question quiz with the right answer leave two log entries, index 0 and score 2 |
| Session.NewQuizRecovers | app.py:107-112 | after two Submit clicks on a one-question quiz, the subject box and New Quiz still run and New Quiz leaves an empty log, score 0 and index 0 with the invariant restored |

## Findings

| source | as written | input that shows it | evidently intended | confidence | as-written member | corrected member |
|---|---|---|---|---|---|---|
| app.py:218-250 | The Submit button is drawn on every run. Its handler logs the answer and scores it without checking whether the feedback of an earlier submit is still shown. | A one-question quiz: choose the right option, click Submit, then click Submit again before Next. The log then holds two entries at index 0 and the score is 2 out of 1. The review at app.py:169-170 then reads `quiz_questions[1]`, which is out of range. | One answer per question. Submit is accepted only while no feedback is pending, which keeps `len(answers) == q_index + 1` while feedback is shown, and so `score <= len(answers) <= len(quiz_questions)`: the score never exceeds the quiz length (ensured by `Submit` and `Next`). | not executed | Session.QuizSession.HandleSubmit, Session.DoubleSubmitExample | Session.QuizSession.Submit |

## Left out

- Rendering is not modelled: page setup, CSS, sidebar widgets, messages, `st.rerun` and `st.stop` (app.py:10-45, 95-146, 259-260). Each handler instead requires the screen on which its button is drawn.
- The wording of the feedback and review messages is not modelled (app.py:165-178, 242-244). Feedback is a `Feedback` value holding the explanation and, for a wrong answer, the correct text.
- The review expander and the top-5 leaderboard preview are display only (app.py:125, 168-178).
- The Google Sheets connection is not modelled (app.py:55-66). It needs network access and credentials, and nothing calls it.
- Reading `questions.json` and `@st.cache_data` are not modelled (app.py:69-74). The pool is the constructor's argument.
- The randomness of `random.shuffle` is not modelled (app.py:160). Any sequence with the same elements as the filtered questions can be passed to `Draw`.
- Malformed records are excluded: the constructor requires `0 <= correct_option < len(options)` for every pool question. The code never checks this; Python would accept a negative index and fail on one that is too large.
- The session field `selected_option` (app.py:89-90) is set but never read, so it is not modelled.
- `quiz_questions` is not set until the first draw. The model starts it as the empty sequence.
- New Quiz leaves the previous quiz set in place until the next `Draw`, as the code does. The model does not require a draw between New Quiz and Submit; in the code every rerun in that state draws.
- A subject change in the middle of a quiz only makes the screens unavailable while the new subject has no questions. The code halts each run in that case (app.py:154-156), and the model does not represent that halt.
- The 20-character limit of the name box (app.py:181) is a widget setting; `SaveScore` accepts any name.
- The "/10" in the completion message and the share text (app.py:165, 194) is fixed text, whatever the quiz length. `ShareText` keeps it as written.
- Python's Timsort is modelled by its result. `StableSortDesc` is a different algorithm, proved to give the only stable descending order.
