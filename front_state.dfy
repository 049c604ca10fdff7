/**
 * quiz_frontend/state.py: the `QuizState` that fetches a batch of questions,
 * records one selected answer per question, advances through the batch and
 * completes with a score.
 *
 * `Quiz` is the state as a value, with the computed vars and one function per
 * event; `QuizState` is the Reflex state object whose event handlers update its
 * fields in place and are proved to follow those functions.
 */
module FrontState {
  import opened Wrappers
  import opened Records
  import Text

  const NoQuestion: string := "No question available"
  const ResultPrefix: string := "Quiz Completed! Your score: "

  /** The `(question_id, answer_id)` pairs appended by `select_answer`. */
  datatype Selection = Selection(questionId: int, answerId: int)

  /** The response of `requests.get(".../api/questions/random/")`: status and decoded JSON list. */
  datatype HttpResponse = HttpResponse(status: int, body: seq<QuestionRecord>)

  datatype Quiz = Quiz(questions: seq<QuestionRecord>, index: int, selected: seq<Selection>, score: int, completed: bool)
  {
    /** The index always names a question, or is 0 when there are none. */
    predicate IndexInRange()
    {
      0 <= index && (questions == [] ==> index == 0) && (questions != [] ==> index < |questions|)
    }

    /** `current_question_text` */
    function CurrentQuestionText(): string
      requires IndexInRange()
    {
      if questions != [] then questions[index].text.GetOr(NoQuestion) else NoQuestion
    }

    /** `current_question_answers` */
    function CurrentQuestionAnswers(): seq<AnswerRecord>
      requires IndexInRange()
    {
      if questions != [] then questions[index].answers.GetOr([]) else []
    }

    /** `current_question_id` */
    function CurrentQuestionId(): int
      requires IndexInRange()
    {
      if questions != [] then questions[index].id.GetOr(0) else 0
    }

    /** `quiz_result`: `f"Quiz Completed! Your score: {self.score}"`. */
    function QuizResult(): (r: string)
      ensures |r| > |ResultPrefix| && r[..|ResultPrefix|] == ResultPrefix
      ensures Text.ParseInt(r[|ResultPrefix|..]) == Some(score)
    {
      Text.IntToStringRoundTrip(score);
      var r := ResultPrefix + Text.IntToString(score);
      assert r[|ResultPrefix|..] == Text.IntToString(score);
      r
    }
  }

  const Initial: Quiz := Quiz([], 0, [], 0, false)

  /** `fetch_questions`: a 200 replaces the batch and restarts; any other status changes nothing. */
  function Fetched(q: Quiz, response: HttpResponse): Quiz
  {
    if response.status == 200 then Quiz(response.body, 0, [], 0, false) else q
  }

  /** `select_answer`: record the pair, then advance, or finish with `calculate_score`. */
  function Selected(q: Quiz, s: Selection): Quiz
  {
    var selected := q.selected + [s];
    if q.index < |q.questions| - 1 then q.(selected := selected, index := q.index + 1)
    else q.(selected := selected, score := |selected|, completed := true)
  }

  /** A sequence of `select_answer` events, in order. */
  function SelectAll(q: Quiz, picks: seq<Selection>): Quiz
    decreases |picks|
  {
    if picks == [] then q else SelectAll(Selected(q, picks[0]), picks[1..])
  }

  /** Each event keeps the index in range. */
  lemma EventsKeepIndexInRange(q: Quiz, s: Selection, response: HttpResponse)
    requires q.IndexInRange()
    ensures Selected(q, s).IndexInRange()
    ensures Fetched(q, response).IndexInRange()
  {
  }

  /** A non-200 fetch leaves every field as it was. */
  lemma FailedFetchChangesNothing(q: Quiz, response: HttpResponse)
    requires response.status != 200
    ensures Fetched(q, response) == q
  {
  }

  /**
   * A selection appends exactly its pair; it advances the index by one and does
   * not complete while the index is before the last question, and otherwise
   * keeps the index, completes, and scores the number of selections.
   */
  lemma SelectedEffect(q: Quiz, s: Selection)
    ensures Selected(q, s).selected == q.selected + [s] && Selected(q, s).questions == q.questions
    ensures q.index < |q.questions| - 1 ==>
      Selected(q, s).index == q.index + 1 && Selected(q, s).completed == q.completed && Selected(q, s).score == q.score
    ensures q.index >= |q.questions| - 1 ==>
      Selected(q, s).index == q.index && Selected(q, s).completed && Selected(q, s).score == |q.selected| + 1
  {
  }

  /**
   * After a successful fetch of `n >= 1` questions and `k` selections: the pairs
   * are exactly the selections, the index is min(k, n - 1), the quiz is complete
   * exactly when k >= n, and the score is then k (every selection counts).
   */
  lemma {:induction false} RunFromFetch(q0: Quiz, response: HttpResponse, picks: seq<Selection>)
    requires response.status == 200 && |response.body| >= 1
    ensures var q := SelectAll(Fetched(q0, response), picks);
      var n := |response.body|;
      q.questions == response.body
      && q.IndexInRange()
      && q.selected == picks
      && q.index == (if |picks| < n then |picks| else n - 1)
      && q.completed == (|picks| >= n)
      && q.score == (if |picks| >= n then |picks| else 0)
  {
    RunFrom(Fetched(q0, response), picks);
  }

  /** The same run, from any state reached from a fetch after `|q.selected|` selections. */
  lemma {:induction false} RunFrom(q: Quiz, picks: seq<Selection>)
    requires |q.questions| >= 1
    requires q.index == (if |q.selected| < |q.questions| then |q.selected| else |q.questions| - 1)
    requires q.completed == (|q.selected| >= |q.questions|)
    requires q.score == (if |q.selected| >= |q.questions| then |q.selected| else 0)
    ensures var r := SelectAll(q, picks);
      var n := |q.questions|;
      var k := |q.selected| + |picks|;
      r.questions == q.questions
      && r.IndexInRange()
      && r.selected == q.selected + picks
      && r.index == (if k < n then k else n - 1)
      && r.completed == (k >= n)
      && r.score == (if k >= n then k else 0)
    decreases |picks|
  {
    if picks == [] {
      assert q.selected + picks == q.selected;
    } else {
      var next := Selected(q, picks[0]);
      RunFrom(next, picks[1..]);
      assert next.selected + picks[1..] == q.selected + picks;
    }
  }

  /** The question on screen after `k` selections is question min(k, n - 1) of the batch. */
  lemma CurrentAfterSelections(q0: Quiz, response: HttpResponse, picks: seq<Selection>)
    requires response.status == 200 && |response.body| >= 1
    ensures var q := SelectAll(Fetched(q0, response), picks);
      var i := if |picks| < |response.body| then |picks| else |response.body| - 1;
      q.IndexInRange()
      && q.CurrentQuestionText() == response.body[i].text.GetOr(NoQuestion)
      && q.CurrentQuestionAnswers() == response.body[i].answers.GetOr([])
      && q.CurrentQuestionId() == response.body[i].id.GetOr(0)
  {
    RunFromFetch(q0, response, picks);
  }

  /** With no questions the computed vars show their placeholders. */
  lemma EmptyPlaceholders(q: Quiz)
    requires q.IndexInRange() && q.questions == []
    ensures q.CurrentQuestionText() == NoQuestion && q.CurrentQuestionAnswers() == [] && q.CurrentQuestionId() == 0
  {
  }

  class QuizState {
    var questions: seq<QuestionRecord>
    var currentQuestionIndex: int
    var selectedAnswers: seq<Selection>
    var score: int
    var quizCompleted: bool

    function View(): Quiz
      reads this
    {
      Quiz(questions, currentQuestionIndex, selectedAnswers, score, quizCompleted)
    }

    ghost predicate Valid()
      reads this
    {
      View().IndexInRange()
    }

    /** The class defaults. */
    constructor ()
      ensures Valid() && View() == Initial
    {
      questions := [];
      currentQuestionIndex := 0;
      selectedAnswers := [];
      score := 0;
      quizCompleted := false;
    }

    method FetchQuestions(response: HttpResponse)
      requires Valid()
      modifies this
      ensures Valid() && View() == Fetched(old(View()), response)
    {
      if response.status == 200 {
        questions := response.body;
        currentQuestionIndex := 0;
        quizCompleted := false;
        score := 0;
        selectedAnswers := [];
      }
      // Otherwise the page shows an alert and the state is left as it was.
    }

    method SelectAnswer(questionId: int, answerId: int)
      requires Valid()
      modifies this
      ensures Valid() && View() == Selected(old(View()), Selection(questionId, answerId))
    {
      selectedAnswers := selectedAnswers + [Selection(questionId, answerId)];
      if currentQuestionIndex < |questions| - 1 {
        currentQuestionIndex := currentQuestionIndex + 1;
      } else {
        CalculateScore();
        quizCompleted := true;
      }
    }

    /** Counts every selected answer, right or wrong. */
    method CalculateScore()
      modifies this`score
      ensures score == |selectedAnswers|
    {
      var correctAnswers := 0;
      for i := 0 to |selectedAnswers|
        invariant correctAnswers == i
      {
        correctAnswers := correctAnswers + 1;
      }
      score := correctAnswers;
    }
  }
}
