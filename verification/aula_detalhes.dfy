/** The lesson page: looking a lesson up by the route's id, recording quiz
    answers, revealing the results, and counting the correct answers. */
module AulaDetalhes {
  import opened Wrappers
  import opened Text

  /** A quiz question; `correct` is the index of the right alternative. */
  datatype Question = Question(prompt: string, options: seq<string>, correct: int)

  datatype Lesson = Lesson(id: int, title: string, quiz: seq<Question>)

  /** The answers given so far, by question index, and whether the results are shown. */
  datatype QuizState = QuizState(answers: map<int, int>, showResults: bool)

  const InitialQuiz := QuizState(map[], false)

  /** `id ? aulasMock[parseInt(id)] : null`: no id or an empty one finds
      nothing, an id without leading digits reads as NaN and finds nothing,
      and otherwise the parsed number must be a key of the lesson table. */
  function FindLesson(lessons: map<int, Lesson>, id: Option<string>): (r: Option<Lesson>)
    ensures r.Some? ==> exists k :: k in lessons && lessons[k] == r.value
  {
    if id.None? || id.value == "" then None
    else
      match ParseInt(id.value, 0)
      case None => None
      case Some(n) => if n in lessons then Some(lessons[n]) else None
  }

  /** handleRespostaQuiz: records (or replaces) the answer to one question. */
  function RecordAnswer(s: QuizState, question: int, answer: int): (r: QuizState)
    ensures question in r.answers && r.answers[question] == answer
    ensures forall k :: k != question ==> (k in r.answers <==> k in s.answers)
    ensures forall k :: k != question && k in s.answers ==> r.answers[k] == s.answers[k]
    ensures r.showResults == s.showResults
  {
    s.(answers := s.answers[question := answer])
  }

  /** verificarQuiz: reveals the results; nothing ever hides them again. */
  function VerifyQuiz(s: QuizState): (r: QuizState)
    ensures r.showResults
    ensures r.answers == s.answers
  {
    s.(showResults := true)
  }

  /** `respostasQuiz[index] === pergunta.respostaCerta`: an unanswered
      question reads as undefined and never equals the right index. */
  predicate IsCorrect(quiz: seq<Question>, answers: map<int, int>, k: int)
    requires 0 <= k < |quiz|
  {
    k in answers && answers[k] == quiz[k].correct
  }

  /** The indices below `n` answered correctly. */
  ghost function CorrectIndices(quiz: seq<Question>, answers: map<int, int>, n: nat): set<int>
    requires n <= |quiz|
  {
    set k | 0 <= k < n && IsCorrect(quiz, answers, k)
  }

  /** acertos: the number of questions whose recorded answer is the right one. */
  method Score(quiz: seq<Question>, answers: map<int, int>) returns (count: nat)
    ensures count == |CorrectIndices(quiz, answers, |quiz|)|
    ensures count <= |quiz|
  {
    count := 0;
    var i := 0;
    while i < |quiz|
      invariant 0 <= i <= |quiz|
      invariant count == |CorrectIndices(quiz, answers, i)|
      invariant count <= i
    {
      CorrectIndicesStep(quiz, answers, i);
      if i in answers && answers[i] == quiz[i].correct {
        count := count + 1;
      }
      i := i + 1;
    }
  }

  // ---------------------------------------------------------------------------
  // Lemmas

  /** Extending the range by one index adds that index exactly when it is correct. */
  lemma CorrectIndicesStep(quiz: seq<Question>, answers: map<int, int>, n: nat)
    requires n < |quiz|
    ensures CorrectIndices(quiz, answers, n + 1) ==
      if IsCorrect(quiz, answers, n) then CorrectIndices(quiz, answers, n) + {n} else CorrectIndices(quiz, answers, n)
    ensures n !in CorrectIndices(quiz, answers, n)
  {
  }

  /** With no answers recorded the score is 0; unanswered questions never count. */
  lemma UnansweredNeverCount(quiz: seq<Question>, answers: map<int, int>, k: int)
    requires 0 <= k < |quiz| && k !in answers
    ensures k !in CorrectIndices(quiz, answers, |quiz|)
    ensures CorrectIndices(quiz, map[], |quiz|) == {}
  {
  }

  /** Answering every question with its right alternative scores them all. */
  lemma {:induction false} AllRightScoresAll(quiz: seq<Question>, answers: map<int, int>, n: nat)
    requires n <= |quiz|
    requires forall k :: 0 <= k < |quiz| ==> k in answers && answers[k] == quiz[k].correct
    ensures |CorrectIndices(quiz, answers, n)| == n
  {
    if n > 0 {
      AllRightScoresAll(quiz, answers, n - 1);
      CorrectIndicesStep(quiz, answers, n - 1);
    }
  }

  /** Recording the right answer to question k adds k to the correct set and
      nothing else, so the score grows by one unless k was already right. */
  lemma RecordRightAnswer(quiz: seq<Question>, s: QuizState, k: int)
    requires 0 <= k < |quiz|
    ensures var t := RecordAnswer(s, k, quiz[k].correct);
      CorrectIndices(quiz, t.answers, |quiz|) == CorrectIndices(quiz, s.answers, |quiz|) + {k}
  {
  }

  /** Recording a wrong answer to question k removes k from the correct set
      and leaves every other question's result alone. */
  lemma RecordWrongAnswer(quiz: seq<Question>, s: QuizState, k: int, answer: int)
    requires 0 <= k < |quiz| && answer != quiz[k].correct
    ensures var t := RecordAnswer(s, k, answer);
      CorrectIndices(quiz, t.answers, |quiz|) == CorrectIndices(quiz, s.answers, |quiz|) - {k}
  {
  }

  /** Revealing the results is idempotent and keeps the answers. */
  lemma VerifyQuizIdempotent(s: QuizState)
    ensures VerifyQuiz(VerifyQuiz(s)) == VerifyQuiz(s)
  {
  }

  /** A route id that is written as a key of the table finds that lesson;
      one that is not a number finds nothing. */
  lemma FindLessonByKey(lessons: map<int, Lesson>, n: int)
    ensures FindLesson(lessons, Some(IntToString(n, 10))) == if n in lessons then Some(lessons[n]) else None
    ensures FindLesson(lessons, Some("abc")) == None
    ensures FindLesson(lessons, None) == None
  {
    DecimalRoundTrip(n);
    ParseIntLetters();
  }

  /** Ids written with leading zeros, as hexadecimal, with trailing text or
      after white space reach the lesson their leading number names, as parseInt reads them. */
  lemma FindLessonLenientIds(lessons: map<int, Lesson>)
    ensures FindLesson(lessons, Some("007")) == if 7 in lessons then Some(lessons[7]) else None
    ensures FindLesson(lessons, Some("0x1")) == if 1 in lessons then Some(lessons[1]) else None
    ensures FindLesson(lessons, Some("1abc")) == if 1 in lessons then Some(lessons[1]) else None
    ensures FindLesson(lessons, Some(" 1")) == if 1 in lessons then Some(lessons[1]) else None
  {
    ParseIntLeadingSpace();
    ParseIntLeadingZeros();
    ParseIntHexPrefix();
    ParseIntTrailingText();
  }
}
