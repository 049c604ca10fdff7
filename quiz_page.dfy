/**
 * quiz_frontend/pages/quiz.py: the timed quiz page. It loads the question at
 * `question_index`, scores a correct answer by the seconds left, moves on to the
 * next question until the tenth, and follows the server's countdown.
 *
 * `Page` is the state as a value and the functions below say what each event
 * does to it; `QuizPageState` is the Reflex state whose handlers update its
 * fields in place and are proved to follow those functions.
 *
 * `next_question` calls the coroutine function `fetch_question` without awaiting
 * it, so no fetch happens there, and the value of `rx.redirect` is dropped: in
 * the model `next_question` only moves the index or ends the game.
 */
module QuizPage {
  import opened Wrappers
  import opened Records
  import Consumers
  import Views
  import Models

  const LastIndex: nat := 9
  const FullTime: int := 30
  const LoadingText: string := "Cargando pregunta..."

  datatype Page = Page(
    question: string, answers: seq<string>, correctAnswer: string, secondsRemaining: int,
    score: int, questionIndex: nat, gameOver: bool)

  const Initial: Page := Page(LoadingText, [], "", FullTime, 0, 0, false)

  // ---------------------------------------------------------------------
  // Loading a question

  /** Why `fetch_question` raised: IndexError, or KeyError on a missing key, or StopIteration from `next`. */
  datatype FetchError = IndexOutOfRange | MissingText | MissingAnswers | MissingAnswerText | MissingIsCorrect | NoCorrectAnswer

  datatype FetchOutcome = NoData | Loaded | Failed(error: FetchError)

  /** `[answer["text"] for answer in answers]`; `None` when some answer has no "text". */
  function AnswerTexts(answers: seq<AnswerRecord>): (r: Option<seq<string>>)
    ensures r.Some? <==> forall k :: 0 <= k < |answers| ==> answers[k].text.Some?
    ensures r.Some? ==> |r.value| == |answers| && forall k :: 0 <= k < |answers| ==> r.value[k] == answers[k].text.value
  {
    if answers == [] then Some([])
    else if answers[0].text.None? then None
    else match AnswerTexts(answers[1..])
      case None => None
      case Some(rest) => Some([answers[0].text.value] + rest)
  }

  /** How `next(a["text"] for a in answers if a["is_correct"])` ends. */
  datatype CorrectSearch = Found(index: nat) | KeyMissing(index: nat) | Exhausted

  /**
   * The search stops at the first answer that is flagged correct (`Found`) or
   * has no "is_correct" key (`KeyMissing`); every answer before it is flagged
   * incorrect. `Exhausted` means every answer is flagged incorrect.
   */
  function FirstCorrect(answers: seq<AnswerRecord>): (r: CorrectSearch)
    ensures r.Found? ==> r.index < |answers| && answers[r.index].isCorrect == Some(true)
    ensures r.KeyMissing? ==> r.index < |answers| && answers[r.index].isCorrect.None?
    ensures !r.Exhausted? ==> forall j :: 0 <= j < r.index ==> answers[j].isCorrect == Some(false)
    ensures r.Exhausted? <==> forall j :: 0 <= j < |answers| ==> answers[j].isCorrect == Some(false)
  {
    if answers == [] then Exhausted
    else if answers[0].isCorrect.None? then KeyMissing(0)
    else if answers[0].isCorrect.value then Found(0)
    else match FirstCorrect(answers[1..])
      case Found(k) => Found(k + 1)
      case KeyMissing(k) => KeyMissing(k + 1)
      case Exhausted => Exhausted
  }

  /**
   * `fetch_question` once the response is decoded. The assignments happen one
   * after another, so a failure keeps those made before it.
   */
  function AfterFetch(p: Page, data: seq<QuestionRecord>): (Page, FetchOutcome)
  {
    if data == [] then (p, NoData)
    else if p.questionIndex >= |data| then (p, Failed(IndexOutOfRange))
    else
      var qd := data[p.questionIndex];
      if qd.text.None? then (p, Failed(MissingText))
      else
        var p1 := p.(question := qd.text.value);
        if qd.answers.None? then (p1, Failed(MissingAnswers))
        else match AnswerTexts(qd.answers.value)
          case None => (p1, Failed(MissingAnswerText))
          case Some(texts) =>
            var p2 := p1.(answers := texts);
            match FirstCorrect(qd.answers.value)
            case KeyMissing(_) => (p2, Failed(MissingIsCorrect))
            case Exhausted => (p2, Failed(NoCorrectAnswer))
            case Found(k) => (p2.(correctAnswer := texts[k], secondsRemaining := FullTime), Loaded)
  }

  /** An empty response changes nothing. */
  lemma EmptyResponseKeepsPage(p: Page)
    ensures AfterFetch(p, []) == (p, NoData)
  {
  }

  /**
   * A load succeeds exactly when the question has a text, every answer has a
   * text, and the first answer that is not flagged incorrect is flagged correct.
   * It then shows that text, the answer texts in order, the text of that first
   * correct answer as the one to match, and a full 30 seconds; index, score and
   * game-over flag are untouched.
   */
  lemma LoadedShowsQuestion(p: Page, data: seq<QuestionRecord>)
    requires data != [] && p.questionIndex < |data|
    ensures var qd := data[p.questionIndex];
      var (p', outcome) := AfterFetch(p, data);
      (outcome == Loaded <==>
        qd.text.Some? && qd.answers.Some? && AnswerTexts(qd.answers.value).Some? && FirstCorrect(qd.answers.value).Found?)
      && (outcome == Loaded ==>
        var k := FirstCorrect(qd.answers.value).index;
        p'.question == qd.text.value
        && |p'.answers| == |qd.answers.value|
        && (forall j :: 0 <= j < |p'.answers| ==> p'.answers[j] == qd.answers.value[j].text.value)
        && p'.correctAnswer == qd.answers.value[k].text.value
        && qd.answers.value[k].isCorrect == Some(true)
        && (forall j :: 0 <= j < k ==> qd.answers.value[j].isCorrect == Some(false))
        && p'.secondsRemaining == FullTime
        && p'.score == p.score && p'.questionIndex == p.questionIndex && p'.gameOver == p.gameOver)
  {
  }

  /** A question whose answers are all flagged incorrect fails the load (StopIteration). */
  lemma NoCorrectAnswerFails(p: Page, data: seq<QuestionRecord>)
    requires data != [] && p.questionIndex < |data|
    requires var qd := data[p.questionIndex];
      (qd.text.Some? && qd.answers.Some? && AnswerTexts(qd.answers.value).Some?
       && forall j :: 0 <= j < |qd.answers.value| ==> qd.answers.value[j].isCorrect == Some(false))
    ensures AfterFetch(p, data).1 == Failed(NoCorrectAnswer)
    ensures AfterFetch(p, data).0.correctAnswer == p.correctAnswer
    ensures AfterFetch(p, data).0.secondsRemaining == p.secondsRemaining
  {
  }

  /** The JSON the backend's serializers produce for a question: every key present. */
  function ServedRecord(v: Views.QuestionView): (r: QuestionRecord)
    ensures r.text == Some(v.question.text) && r.answers.Some? && |r.answers.value| == |v.answers|
    ensures forall k :: 0 <= k < |v.answers| ==>
      r.answers.value[k] == AnswerRecord(Some(v.answers[k].id), Some(v.answers[k].text), Some(v.answers[k].isCorrect))
  {
    QuestionRecord(Some(v.question.id), Some(v.question.text),
      Some(seq(|v.answers|, k requires 0 <= k < |v.answers| =>
        AnswerRecord(Some(v.answers[k].id), Some(v.answers[k].text), Some(v.answers[k].isCorrect)))))
  }

  /**
   * On questions the backend serves, a load never fails for a missing key: it
   * fails only when the question has no correct answer, and otherwise offers the
   * text of its first correct answer as the one to match.
   */
  lemma ServedQuestionLoads(p: Page, views: seq<Views.QuestionView>)
    requires p.questionIndex < |views|
    ensures var data := seq(|views|, i requires 0 <= i < |views| => ServedRecord(views[i]));
      var v := views[p.questionIndex];
      var (p', outcome) := AfterFetch(p, data);
      (outcome == Loaded || outcome == Failed(NoCorrectAnswer))
      && (outcome == Failed(NoCorrectAnswer) <==> forall j :: 0 <= j < |v.answers| ==> !v.answers[j].isCorrect)
      && (outcome == Loaded ==>
            (exists k :: 0 <= k < |v.answers| && v.answers[k].isCorrect
              && p'.correctAnswer == v.answers[k].text && forall j :: 0 <= j < k ==> !v.answers[j].isCorrect))
  {
    var data := seq(|views|, i requires 0 <= i < |views| => ServedRecord(views[i]));
    var v := views[p.questionIndex];
    var qd := data[p.questionIndex];
    assert qd == ServedRecord(v);
    var ans := qd.answers.value;
    var search := FirstCorrect(ans);
    if search.Found? {
      var k := search.index;
      assert v.answers[k].isCorrect;
      assert forall j :: 0 <= j < k ==> !v.answers[j].isCorrect by {
        forall j | 0 <= j < k ensures !v.answers[j].isCorrect {
          assert ans[j].isCorrect == Some(false);
        }
      }
    }
    if search.Exhausted? {
      forall j | 0 <= j < |v.answers| ensures !v.answers[j].isCorrect {
        assert ans[j].isCorrect == Some(false);
      }
    } else {
      assert ans[search.index].isCorrect.Some? && ans[search.index].isCorrect.value;
    }
  }

  // ---------------------------------------------------------------------
  // Answering and moving on

  /** `next_question`: below the tenth question, move on; at it, the game is over. */
  function AfterNext(p: Page): Page
  {
    if p.questionIndex < LastIndex then p.(questionIndex := p.questionIndex + 1)
    else p.(gameOver := true)
  }

  /** `check_answer`: a correct answer earns the seconds left; then `next_question`. */
  function AfterCheck(p: Page, answer: string): Page
  {
    var scored := if answer == p.correctAnswer then p.(score := p.score + p.secondsRemaining) else p;
    AfterNext(scored)
  }

  /**
   * Checking an answer adds the seconds left exactly when it matches the
   * correct answer, and always moves on once.
   */
  lemma CheckEffect(p: Page, answer: string)
    ensures AfterCheck(p, answer).score == if answer == p.correctAnswer then p.score + p.secondsRemaining else p.score
    ensures AfterCheck(p, answer).questionIndex == if p.questionIndex < LastIndex then p.questionIndex + 1 else p.questionIndex
    ensures AfterCheck(p, answer).gameOver == (p.gameOver || p.questionIndex >= LastIndex)
    ensures AfterCheck(p, answer).secondsRemaining == p.secondsRemaining
  {
  }

  function CheckAll(p: Page, answers: seq<string>): Page
    decreases |answers|
  {
    if answers == [] then p else CheckAll(AfterCheck(p, answers[0]), answers[1..])
  }

  /**
   * From index i <= 9, after k answers the index is min(i + k, 9) and the game
   * is over exactly when it already was or i + k > 9: the index never passes 9.
   */
  lemma {:induction false} IndexCapped(p: Page, answers: seq<string>)
    requires p.questionIndex <= LastIndex
    ensures CheckAll(p, answers).questionIndex == if p.questionIndex + |answers| <= LastIndex then p.questionIndex + |answers| else LastIndex
    ensures CheckAll(p, answers).gameOver == (p.gameOver || p.questionIndex + |answers| > LastIndex)
    decreases |answers|
  {
    if answers != [] {
      IndexCapped(AfterCheck(p, answers[0]), answers[1..]);
    }
  }

  // ---------------------------------------------------------------------
  // Following the countdown

  /** The position of the first value that is not positive. */
  function FirstNonPositive(values: seq<int>): (r: Option<nat>)
    ensures r.Some? ==> r.value < |values| && values[r.value] <= 0
    ensures r.Some? ==> forall j :: 0 <= j < r.value ==> values[j] > 0
    ensures r.None? <==> forall j :: 0 <= j < |values| ==> values[j] > 0
  {
    if values == [] then None
    else if values[0] <= 0 then Some(0)
    else match FirstNonPositive(values[1..])
      case None => None
      case Some(k) => Some(k + 1)
  }

  /**
   * The `while self.seconds_remaining > 0` loop of `start_timer` over the values
   * the socket delivers: the page, how many values were taken, and whether the
   * socket ran out (the connection closed, so `recv` raised).
   */
  function AfterTimer(p: Page, received: seq<int>): (Page, nat, bool)
    decreases |received|
  {
    if p.secondsRemaining <= 0 then (p, 0, false)
    else if received == [] then (p, 0, true)
    else
      var p1 := p.(secondsRemaining := received[0]);
      var p2 := if p1.secondsRemaining == 0 then AfterNext(p1) else p1;
      var (p3, n, closed) := AfterTimer(p2, received[1..]);
      (p3, n + 1, closed)
  }

  /**
   * With time left, the loop takes values up to and including the first one that
   * is not positive, shows it, and moves to the next question exactly when it is
   * 0. Without such a value it takes them all and the connection closes.
   */
  lemma {:induction false} TimerStops(p: Page, received: seq<int>)
    requires p.secondsRemaining > 0
    ensures var (p', n, closed) := AfterTimer(p, received);
      match FirstNonPositive(received)
      case Some(k) =>
        n == k + 1 && !closed && p'.secondsRemaining == received[k]
        && p' == (if received[k] == 0 then AfterNext(p.(secondsRemaining := 0)) else p.(secondsRemaining := received[k]))
      case None =>
        n == |received| && closed
        && p' == (if received == [] then p else p.(secondsRemaining := received[|received| - 1]))
    decreases |received|
  {
    if received != [] && received[0] > 0 {
      TimerStops(p.(secondsRemaining := received[0]), received[1..]);
      var first := FirstNonPositive(received[1..]);
      if first.None? && |received| > 1 {
        assert received[1..][|received[1..]| - 1] == received[|received| - 1];
      }
    }
  }

  /** A countdown 30, 29, ..., 0 has its first non-positive value at its end. */
  lemma CountdownEndsAtZero(values: seq<int>)
    requires |values| == 31 && forall i :: 0 <= i < 31 ==> values[i] == 30 - i
    ensures FirstNonPositive(values) == Some(30)
  {
    assert values[30] <= 0;
  }

  /** Following 30, 29, ..., 0 from a full clock takes all 31 values and moves on once. */
  lemma CountdownFollowed(p: Page, values: seq<int>)
    requires p.secondsRemaining == FullTime
    requires |values| == 31 && forall i :: 0 <= i < 31 ==> values[i] == 30 - i
    ensures AfterTimer(p, values) == (AfterNext(p.(secondsRemaining := 0)), 31, false)
  {
    CountdownEndsAtZero(values);
    TimerStops(p, values);
    assert values[30] == 0;
  }

  /**
   * A full countdown from the server, followed with 30 seconds on the clock:
   * all 31 values are taken, the clock ends at 0, and the page moves on once.
   */
  lemma FullCountdownMovesOnce(p: Page)
    requires p.secondsRemaining == FullTime
    ensures AfterTimer(p, Consumers.CountdownValues()) == (AfterNext(p.(secondsRemaining := 0)), 31, false)
  {
    Consumers.CountdownShape();
    CountdownFollowed(p, Consumers.CountdownValues());
  }

  // ---------------------------------------------------------------------
  // The index bound under every event

  /** The events of the page: each handler the page or the socket can trigger. */
  datatype Event =
    | FetchEvent(data: seq<QuestionRecord>)
    | CheckEvent(answer: string)
    | NextEvent
    | TimerEvent(received: seq<int>)

  function Step(p: Page, e: Event): Page
  {
    match e
    case FetchEvent(data) => AfterFetch(p, data).0
    case CheckEvent(answer) => AfterCheck(p, answer)
    case NextEvent => AfterNext(p)
    case TimerEvent(received) => AfterTimer(p, received).0
  }

  function Run(p: Page, events: seq<Event>): Page
    decreases |events|
  {
    if events == [] then p else Run(Step(p, events[0]), events[1..])
  }

  /** A load never moves the index, whether it succeeds or fails part-way. */
  lemma FetchKeepsIndex(p: Page, data: seq<QuestionRecord>)
    ensures AfterFetch(p, data).0.questionIndex == p.questionIndex
  {
  }

  /** Following the clock moves the index at most to the last question. */
  lemma {:induction false} TimerKeepsIndexBounded(p: Page, received: seq<int>)
    requires p.questionIndex <= LastIndex
    ensures AfterTimer(p, received).0.questionIndex <= LastIndex
    ensures AfterTimer(p, received).0.questionIndex >= p.questionIndex
    decreases |received|
  {
    if p.secondsRemaining > 0 && received != [] {
      var p1 := p.(secondsRemaining := received[0]);
      var p2 := if p1.secondsRemaining == 0 then AfterNext(p1) else p1;
      TimerKeepsIndexBounded(p2, received[1..]);
    }
  }

  /** Every event keeps an index at or below 9 there. */
  lemma StepKeepsIndexBounded(p: Page, e: Event)
    requires p.questionIndex <= LastIndex
    ensures Step(p, e).questionIndex <= LastIndex
  {
    match e
    case FetchEvent(data) => FetchKeepsIndex(p, data);
    case CheckEvent(_) =>
    case NextEvent =>
    case TimerEvent(received) => TimerKeepsIndexBounded(p, received);
  }

  /** From the initial page, no sequence of events takes the index past 9. */
  lemma {:induction false} RunKeepsIndexBounded(p: Page, events: seq<Event>)
    requires p.questionIndex <= LastIndex
    ensures Run(p, events).questionIndex <= LastIndex
    decreases |events|
  {
    if events != [] {
      StepKeepsIndexBounded(p, events[0]);
      RunKeepsIndexBounded(Step(p, events[0]), events[1..]);
    }
  }

  lemma InitialIndexBounded(events: seq<Event>)
    ensures Run(Initial, events).questionIndex <= LastIndex
  {
    RunKeepsIndexBounded(Initial, events);
  }

  // ---------------------------------------------------------------------
  // The state object

  class QuizPageState {
    var question: string
    var answers: seq<string>
    var correctAnswer: string
    var secondsRemaining: int
    var score: int
    var questionIndex: nat
    var gameOver: bool

    function View(): Page
      reads this
    {
      Page(question, answers, correctAnswer, secondsRemaining, score, questionIndex, gameOver)
    }

    constructor ()
      ensures View() == Initial
    {
      question := LoadingText;
      answers := [];
      correctAnswer := "";
      secondsRemaining := FullTime;
      score := 0;
      questionIndex := 0;
      gameOver := false;
    }

    /** `fetch_question`, given the decoded response of `/api/questions/`. */
    method FetchQuestion(data: seq<QuestionRecord>) returns (outcome: FetchOutcome)
      modifies this
      ensures (View(), outcome) == AfterFetch(old(View()), data)
    {
      if data == [] {
        return NoData;
      }
      if questionIndex >= |data| {
        return Failed(IndexOutOfRange);
      }
      var questionData := data[questionIndex];
      if questionData.text.None? {
        return Failed(MissingText);
      }
      question := questionData.text.value;
      if questionData.answers.None? {
        return Failed(MissingAnswers);
      }
      var texts := AnswerTexts(questionData.answers.value);
      if texts.None? {
        return Failed(MissingAnswerText);
      }
      answers := texts.value;
      var search := FirstCorrect(questionData.answers.value);
      match search {
        case KeyMissing(_) => return Failed(MissingIsCorrect);
        case Exhausted => return Failed(NoCorrectAnswer);
        case Found(k) =>
          correctAnswer := texts.value[k];
          secondsRemaining := FullTime;
          return Loaded;
      }
    }

    method NextQuestion()
      modifies this
      ensures View() == AfterNext(old(View()))
    {
      if questionIndex < LastIndex {
        questionIndex := questionIndex + 1;
      } else {
        gameOver := true;
      }
    }

    method CheckAnswer(answer: string)
      modifies this
      ensures View() == AfterCheck(old(View()), answer)
    {
      if answer == correctAnswer {
        score := score + secondsRemaining;
      }
      NextQuestion();
    }

    /**
     * `start_timer`, given the values the socket delivers in order (each already
     * read out of its `{"seconds_remaining": n}` message).
     */
    method StartTimer(received: seq<int>) returns (taken: nat, closed: bool)
      modifies this
      ensures (View(), taken, closed) == AfterTimer(old(View()), received)
    {
      taken, closed := 0, false;
      while secondsRemaining > 0
        invariant taken <= |received|
        invariant !closed
        invariant var (p, n, c) := AfterTimer(View(), received[taken..]);
          AfterTimer(old(View()), received) == (p, n + taken, c)
        decreases |received| - taken
      {
        if taken == |received| {
          closed := true;
          return;
        }
        secondsRemaining := received[taken];
        assert received[taken..][1..] == received[taken + 1..];
        taken := taken + 1;
        if secondsRemaining == 0 {
          NextQuestion();
        }
      }
    }
  }
}
