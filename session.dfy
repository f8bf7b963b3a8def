/**
 * The quiz session state machine: the fields the app keeps in
 * `st.session_state` and the handlers that update them in place.
 */
module Session {
  import opened Seqs
  import opened Questions
  import opened Leaderboard

  /** The choices of the subject select box. */
  const Subjects: seq<string> := [All, "Physics", "Chemistry", "Biology"]

  class QuizSession {
    /** The question pool loaded once from questions.json. */
    const pool: seq<Question>

    var score: nat
    var qIndex: nat
    var answers: seq<AnswerRecord>
    var quizStarted: bool
    var subject: string
    var feedback: Option<Feedback>
    var quizQuestions: seq<Question>
    var leaderboard: seq<Entry>

    /** What no handler, gated or not, can break. */
    ghost predicate WellFormedState()
      reads this
    {
      && (forall q :: q in pool ==> WellFormed(q))
      && (forall q :: q in quizQuestions ==> WellFormed(q))
      && qIndex <= |quizQuestions|
      && SortedDesc(leaderboard) && |leaderboard| <= Capacity
    }

    /**
     * The session invariant: one log entry per question answered so far (one
     * more while its feedback is shown), entry i grades question i, and the
     * score counts the entries graded correct.
     */
    ghost predicate Valid()
      reads this
    {
      && WellFormedState()
      && (feedback.Some? ==> qIndex < |quizQuestions|)
      && |answers| == qIndex + (if feedback.Some? then 1 else 0)
      && (forall i :: 0 <= i < |answers| ==> answers[i] == Grade(quizQuestions[i], answers[i].userAnswer))
      && score == CountCorrect(answers)
    }

    /**
     * The completion test of the main area. While it fails, the current
     * question `quizQuestions[qIndex]` exists (app.py:206).
     */
    predicate IsComplete(): (done: bool)
      reads this
      ensures !done ==> qIndex < |quizQuestions|
    {
      qIndex >= |quizQuestions|
    }

    /** The main area shows a question: a quiz is running and its subject has questions. */
    predicate OnQuestionScreen()
      reads this
    {
      quizStarted && Filtered(pool, subject) != [] && !IsComplete()
    }

    /**
     * The main area shows the completion screen with the save and share
     * controls. The first run of a quiz draws before its completion test
     * (app.py:159-164), and a draw is never empty, so this screen needs a
     * drawn quiz.
     */
    predicate OnCompletionScreen()
      reads this
    {
      quizStarted && Filtered(pool, subject) != [] && quizQuestions != [] && IsComplete()
    }

    /** The first run of the script: every session field at its default. */
    constructor (pool: seq<Question>)
      requires forall q :: q in pool ==> WellFormed(q)
      ensures Valid()
      ensures this.pool == pool
      ensures score == 0 && qIndex == 0 && answers == [] && !quizStarted
      ensures subject == All && feedback == None && quizQuestions == [] && leaderboard == []
    {
      this.pool := pool;
      score := 0;
      qIndex := 0;
      answers := [];
      quizStarted := false;
      subject := All;
      feedback := None;
      quizQuestions := [];
      leaderboard := [];
    }

    /**
     * The select box writes the chosen subject into the session on every run,
     * whatever state the session is in.
     */
    method SelectSubject(s: string)
      requires WellFormedState()
      requires s in Subjects
      modifies this`subject
      ensures WellFormedState() && (Valid() <==> old(Valid()))
      ensures subject == s
    {
      subject := s;
    }

    /**
     * "New Quiz": reset the quiz fields; the leaderboard and subject stay.
     * The button is drawn on every run, so it also recovers a session that an
     * ungated double submit has put out of step.
     */
    method NewQuiz()
      requires WellFormedState()
      modifies this`score, this`qIndex, this`answers, this`quizStarted, this`feedback
      ensures Valid()
      ensures score == 0 && qIndex == 0 && answers == [] && quizStarted && feedback == None
      ensures leaderboard == old(leaderboard) && subject == old(subject)
      ensures quizQuestions == old(quizQuestions)
    {
      score := 0;
      qIndex := 0;
      answers := [];
      quizStarted := true;
      feedback := None;
    }

    /**
     * The draw done on every run while no question has been answered:
     * `shuffled` is the outcome of `random.shuffle` on the filtered questions.
     * With no questions for the subject the run stops and nothing is drawn.
     */
    method Draw(shuffled: seq<Question>) returns (drawn: bool)
      requires Valid()
      requires quizStarted && qIndex == 0 && answers == []
      requires multiset(shuffled) == multiset(Filtered(pool, subject))
      modifies this`quizQuestions
      ensures Valid()
      ensures drawn <==> Filtered(pool, subject) != []
      ensures drawn ==> quizQuestions == Take(shuffled, QuizSize)
      ensures drawn ==> |quizQuestions| == Min(QuizSize, |Filtered(pool, subject)|)
      ensures drawn ==> multiset(quizQuestions) <= multiset(Filtered(pool, subject))
      ensures !drawn ==> quizQuestions == old(quizQuestions)
    {
      var questions := Filtered(pool, subject);
      if questions == [] {
        return false;
      }
      DrawnQuizBounds(questions, shuffled);
      quizQuestions := Take(shuffled, QuizSize);
      drawn := true;
    }

    /**
     * The Submit handler as the app has it: nothing stops it while the
     * feedback of the last answer is still shown. `None` is "no option chosen".
     */
    method HandleSubmit(choice: Option<string>)
      requires WellFormedState() && OnQuestionScreen()
      modifies this`answers, this`score, this`feedback
      ensures WellFormedState()
      ensures choice.None? ==> answers == old(answers) && score == old(score) && feedback == old(feedback)
      ensures choice.Some? ==>
                && answers == old(answers) + [Grade(quizQuestions[qIndex], choice.value)]
                && score == old(score) + (if choice.value == CorrectText(quizQuestions[qIndex]) then 1 else 0)
                && feedback == Some(FeedbackFor(quizQuestions[qIndex], choice.value))
    {
      if choice.Some? {
        var q := quizQuestions[qIndex];
        assert WellFormed(q);
        var correctText := q.options[q.correctOption];
        var isCorrect := choice.value == correctText;
        answers := answers + [AnswerRecord(q.question, choice.value, isCorrect)];
        if isCorrect {
          score := score + 1;
          feedback := Some(Correct(q.explanation));
        } else {
          feedback := Some(Incorrect(correctText, q.explanation));
        }
      }
    }

    /**
     * Submit, accepted only while no feedback is pending. It logs exactly one
     * answer, adds 1 to the score iff the chosen text is the correct option's,
     * keeps the question index and shows feedback.
     */
    method Submit(choice: Option<string>)
      requires Valid() && OnQuestionScreen()
      requires choice.Some? ==> feedback.None?
      modifies this`answers, this`score, this`feedback
      ensures Valid()
      ensures choice.None? ==> answers == old(answers) && score == old(score) && feedback == old(feedback)
      ensures choice.Some? ==>
                && answers == old(answers) + [Grade(quizQuestions[qIndex], choice.value)]
                && score == old(score) + (if choice.value == CorrectText(quizQuestions[qIndex]) then 1 else 0)
                && feedback == Some(FeedbackFor(quizQuestions[qIndex], choice.value))
      ensures qIndex == old(qIndex) && quizQuestions == old(quizQuestions)
      ensures choice.Some? ==> |answers| == qIndex + 1
      ensures score <= |answers| <= |quizQuestions|
    {
      ghost var before := answers;
      HandleSubmit(choice);
      if choice.Some? {
        CountCorrectAppend(before, Grade(quizQuestions[qIndex], choice.value));
        assert |answers| == qIndex + 1 <= |quizQuestions|;
      }
      CountCorrectBound(answers);
    }

    /** "Next Question": shown only with feedback; moves on and clears it. */
    method Next()
      requires Valid() && OnQuestionScreen()
      requires feedback.Some?
      modifies this`qIndex, this`feedback
      ensures Valid()
      ensures qIndex == old(qIndex) + 1 && feedback == None
      ensures |answers| == qIndex && score <= |answers| <= |quizQuestions|
      ensures IsComplete() <==> qIndex == |quizQuestions|
    {
      CountCorrectBound(answers);
      qIndex := qIndex + 1;
      feedback := None;
    }

    /**
     * "Save Score" on the completion screen: an empty name is refused;
     * otherwise append (name, score), stable-sort by score descending and
     * keep the first ten.
     */
    method SaveScore(name: string) returns (saved: bool)
      requires Valid() && OnCompletionScreen()
      modifies this`leaderboard
      ensures Valid()
      ensures saved <==> name != ""
      ensures !saved ==> leaderboard == old(leaderboard)
      ensures saved ==> leaderboard == SavedBoard(old(leaderboard), Entry(name, score))
    {
      if name == "" {
        return false;
      }
      ghost var before := leaderboard;
      leaderboard := leaderboard + [Entry(name, score)];
      leaderboard := StableSortDesc(leaderboard);
      leaderboard := Take(leaderboard, Capacity);
      SavedBoardShape(before, Entry(name, score));
      saved := true;
    }
  }

  /** The one question of the example quizzes below. */
  const ForceQuestion: Question :=
    Question("Physics", "What is the SI unit of force?", ["Joule", "Newton", "Watt", "Pascal"], 1,
             "Force is measured in newtons.")

  /**
   * A one-question quiz on ForceQuestion, started and drawn, on which the
   * ungated Submit handler has been clicked twice with the right answer.
   */
  method DoubleSubmitted() returns (session: QuizSession)
    ensures fresh(session)
    ensures session.WellFormedState() && session.pool == [ForceQuestion]
    ensures session.quizQuestions == [ForceQuestion] && session.quizStarted && session.subject == All
    ensures |session.answers| == 2 && session.qIndex == 0 && session.score == 2
  {
    var q := ForceQuestion;
    assert WellFormed(q) && CorrectText(q) == "Newton";
    session := new QuizSession([q]);
    session.NewQuiz();
    assert Filtered(session.pool, session.subject) == [q];
    var drawn := session.Draw([q]);
    assert drawn && session.quizQuestions == [q];
    session.HandleSubmit(Some("Newton"));
    assert session.score == 1 && |session.answers| == 1;
    session.HandleSubmit(Some("Newton"));
  }

  /**
   * Two clicks on Submit for the one question of a one-question quiz, with
   * the right answer: the log holds two entries, the index has not moved,
   * and the score is 2 out of 1.
   */
  method DoubleSubmitExample() returns (quizLength: nat, logLength: nat, index: nat, finalScore: nat)
    ensures quizLength == 1 && logLength == 2 && index == 0 && finalScore == 2
  {
    var session := DoubleSubmitted();
    quizLength, logLength, index, finalScore :=
      |session.quizQuestions|, |session.answers|, session.qIndex, session.score;
  }

  /**
   * After two Submit clicks on a one-question quiz, the sidebar still works:
   * New Quiz brings the session back to an empty log and score, with the
   * invariant restored.
   */
  method NewQuizRecovers() returns (logLength: nat, finalScore: nat, index: nat)
    ensures logLength == 0 && finalScore == 0 && index == 0
  {
    var session := DoubleSubmitted();
    session.SelectSubject(All);
    session.NewQuiz();
    assert session.Valid();
    logLength, finalScore, index := |session.answers|, session.score, session.qIndex;
  }
}
