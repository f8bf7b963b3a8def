/**
 * The question pool, grading of one answer, the subject filter and the
 * ten-question draw of the quiz app.
 */
module Questions {
  import opened Seqs

  /** One record of questions.json. */
  datatype Question = Question(
    subject: string,
    question: string,
    options: seq<string>,
    correctOption: int,
    explanation: string)

  /** The app indexes `options` with `correct_option` without checking it. */
  predicate WellFormed(q: Question)
  {
    0 <= q.correctOption < |q.options|
  }

  /** The option text the app treats as the right answer. */
  function CorrectText(q: Question): string
    requires WellFormed(q)
  {
    q.options[q.correctOption]
  }

  /** One entry of the answer log kept for the review screen. */
  datatype AnswerRecord = AnswerRecord(question: string, userAnswer: string, correct: bool)

  /** What the feedback message shows; its wording is not modelled. */
  datatype Feedback = Correct(explanation: string) | Incorrect(correctText: string, explanation: string)

  /** The log entry for answering q with the option text `choice`: graded by text, not by index. */
  function Grade(q: Question, choice: string): (a: AnswerRecord)
    requires WellFormed(q)
    ensures a.question == q.question && a.userAnswer == choice
    ensures a.correct <==> choice == q.options[q.correctOption]
  {
    AnswerRecord(q.question, choice, choice == CorrectText(q))
  }

  /**
   * The feedback shown after answering q with `choice`: it agrees with the
   * grading, always carries the explanation, and names the correct option
   * when the answer was wrong.
   */
  function FeedbackFor(q: Question, choice: string): (f: Feedback)
    requires WellFormed(q)
    ensures f.Correct? <==> Grade(q, choice).correct
    ensures f.explanation == q.explanation
    ensures f.Incorrect? ==> f.correctText == CorrectText(q)
  {
    if choice == CorrectText(q) then Correct(q.explanation)
    else Incorrect(CorrectText(q), q.explanation)
  }

  /**
   * Grading by text agrees with grading by index exactly when no two options
   * share a text: the i-th option is accepted iff i is the correct index.
   */
  lemma GradeMatchesIndex(q: Question, i: int)
    requires WellFormed(q) && Distinct(q.options)
    requires 0 <= i < |q.options|
    ensures Grade(q, q.options[i]).correct <==> i == q.correctOption
  {
  }

  /** With a repeated option text, a wrong index is graded as correct. */
  lemma DuplicateTextAccepted(q: Question, i: int)
    requires WellFormed(q) && 0 <= i < |q.options|
    requires i != q.correctOption && q.options[i] == CorrectText(q)
    ensures Grade(q, q.options[i]).correct && !Distinct(q.options)
  {
  }

  /** Number of entries of the log graded correct. */
  function CountCorrect(log: seq<AnswerRecord>): nat
    decreases |log|
  {
    if log == [] then 0
    else CountCorrect(log[..|log| - 1]) + (if log[|log| - 1].correct then 1 else 0)
  }

  lemma CountCorrectAppend(log: seq<AnswerRecord>, a: AnswerRecord)
    ensures CountCorrect(log + [a]) == CountCorrect(log) + (if a.correct then 1 else 0)
  {
  }

  /** The score never exceeds the number of answers given. */
  lemma {:induction false} CountCorrectBound(log: seq<AnswerRecord>)
    ensures CountCorrect(log) <= |log|
    decreases |log|
  {
    if log != [] {
      CountCorrectBound(log[..|log| - 1]);
    }
  }

  /** The sentinel subject that selects the whole pool. */
  const All: string := "All"

  /** The list comprehension keeping the pool items of one subject, in pool order. */
  function OfSubject(pool: seq<Question>, subject: string): (r: seq<Question>)
    ensures |r| <= |pool|
    ensures forall q :: q in r <==> q in pool && q.subject == subject
  {
    if pool == [] then []
    else (if pool[0].subject == subject then [pool[0]] else []) + OfSubject(pool[1..], subject)
  }

  /** The questions a quiz on `subject` is drawn from. */
  function Filtered(pool: seq<Question>, subject: string): (r: seq<Question>)
    ensures subject == All ==> r == pool
    ensures subject != All ==> r == OfSubject(pool, subject)
    ensures forall q :: q in r ==> q in pool
  {
    if subject == All then pool else OfSubject(pool, subject)
  }

  /** The filter distributes over concatenation, so it keeps the pool's order. */
  lemma {:induction false} OfSubjectAppend(a: seq<Question>, b: seq<Question>, subject: string)
    ensures OfSubject(a + b, subject) == OfSubject(a, subject) + OfSubject(b, subject)
  {
    if a == [] {
      assert a + b == b;
    } else {
      assert (a + b)[1..] == a[1..] + b;
      OfSubjectAppend(a[1..], b, subject);
    }
  }

  /** One question is kept exactly when it has the subject. */
  lemma OfSubjectSingle(q: Question, subject: string)
    ensures OfSubject([q], subject) == if q.subject == subject then [q] else []
  {
  }

  /** The filter keeps every occurrence of a question of the subject and none of another. */
  lemma {:induction false} OfSubjectCounts(pool: seq<Question>, subject: string, q: Question)
    ensures multiset(OfSubject(pool, subject))[q] == if q.subject == subject then multiset(pool)[q] else 0
  {
    if pool != [] {
      assert pool == [pool[0]] + pool[1..];
      OfSubjectCounts(pool[1..], subject, q);
    }
  }

  /** The number of questions in one quiz. */
  const QuizSize: nat := 10

  /**
   * Taking the first ten of a shuffle of the filtered questions gives
   * min(10, |filtered|) questions, all from the filtered list.
   */
  lemma DrawnQuizBounds(filtered: seq<Question>, shuffled: seq<Question>)
    requires multiset(shuffled) == multiset(filtered)
    ensures |Take(shuffled, QuizSize)| == Min(QuizSize, |filtered|)
    ensures multiset(Take(shuffled, QuizSize)) <= multiset(filtered)
    ensures forall q :: q in Take(shuffled, QuizSize) ==> q in filtered
  {
    assert |shuffled| == |multiset(shuffled)| == |filtered|;
    TakeMultiset(shuffled, QuizSize);
    forall q | q in Take(shuffled, QuizSize) ensures q in filtered {
      assert q in multiset(Take(shuffled, QuizSize));
    }
  }

  /** A pool without repeated questions gives a quiz without repeated questions. */
  lemma DrawnQuizDistinct(filtered: seq<Question>, shuffled: seq<Question>)
    requires multiset(shuffled) == multiset(filtered)
    requires Distinct(filtered)
    ensures Distinct(Take(shuffled, QuizSize))
  {
    SameElementsDistinct(shuffled, filtered);
  }
}
