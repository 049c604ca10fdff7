/**
 * quiz_project/quiz/app_add_generate_questions_with_api_openai.py: asks a chat
 * model for questions, keeps the first lines of the reply, and stores each line
 * as a question with one correct placeholder answer.
 *
 * The chat model's reply is a parameter: the message content, or the
 * `OpenAIError` the call raised.
 */
module OpenAiImport {
  import opened Wrappers
  import Text
  import opened Models

  datatype Reply = ApiError | Content(text: string)

  const DefaultCount: int := 5
  const DefaultCategory: string := "General Knowledge"
  const PlaceholderAnswer: string := "Sample Answer"

  /** Python's `s[:n]`: a negative `n` counts from the end. */
  function SlicePrefix<T>(s: seq<T>, n: int): (r: seq<T>)
    ensures |r| <= |s| && r == s[..|r|]
    ensures n >= 0 ==> |r| == if n <= |s| then n else |s|
    ensures n < 0 ==> |r| == if -n <= |s| then |s| + n else 0
  {
    if n >= 0 then (if n <= |s| then s[..n] else s)
    else if -n <= |s| then s[..|s| + n]
    else []
  }

  /**
   * `generate_questions_from_openai`: the lines of the reply, at most
   * `numQuestions` of them; nothing when the call failed.
   */
  function GenerateQuestionsFromOpenAI(prompt: string, numQuestions: int, reply: Reply): (r: seq<string>)
  {
    match reply
    case ApiError => []
    case Content(text) => SlicePrefix(Text.SplitOn(text, '\n'), numQuestions)
  }

  /**
   * The questions are the first lines of the reply, in order, and as many as
   * asked for while the reply has that many lines; an error gives none.
   */
  lemma GeneratedAreFirstLines(prompt: string, numQuestions: int, reply: Reply)
    requires numQuestions >= 0
    ensures reply.ApiError? ==> GenerateQuestionsFromOpenAI(prompt, numQuestions, reply) == []
    ensures reply.Content? ==>
      var lines := Text.SplitOn(reply.text, '\n');
      var r := GenerateQuestionsFromOpenAI(prompt, numQuestions, reply);
      |r| == (if numQuestions <= |lines| then numQuestions else |lines|) && r == lines[..|r|]
  {
  }

  /**
   * Every reply that arrives gives at least one question when at least one is
   * asked for, since splitting never gives an empty list: an empty reply gives
   * one empty question.
   */
  lemma ReplyNeverEmpty(prompt: string, numQuestions: int, text: string)
    requires numQuestions >= 1
    ensures GenerateQuestionsFromOpenAI(prompt, numQuestions, Content(text)) != []
    ensures GenerateQuestionsFromOpenAI(prompt, numQuestions, Content("")) == [""]
  {
  }

  // ---------------------------------------------------------------------
  // Storing the questions

  /** One pass of the loop of `save_questions_to_db`: the question, then its one correct answer. */
  function SaveOne(db: Db, text: string, category: string, difficulty: string): Db
  {
    var withQuestion := AddQuestion(db, text, category, Some(difficulty));
    AddAnswer(withQuestion, db.nextQuestionId, PlaceholderAnswer, Some(true))
  }

  /** The database after the loop has stored `questions` in order. */
  function SaveAll(db: Db, questions: seq<string>, category: string, difficulty: string): Db
    decreases |questions|
  {
    if questions == [] then db
    else SaveOne(SaveAll(db, questions[..|questions| - 1], category, difficulty), questions[|questions| - 1], category, difficulty)
  }

  /**
   * Storing n lines adds n rows to the question and answer tables and moves
   * their counters on by n; the rows already there and the other tables stay
   * as they were.
   */
  lemma {:induction false} SaveAllSizes(db: Db, questions: seq<string>, category: string, difficulty: string)
    ensures var db' := SaveAll(db, questions, category, difficulty);
      var n := |questions|;
      |db'.questions| == |db.questions| + n && db'.questions[..|db.questions|] == db.questions
      && |db'.answers| == |db.answers| + n && db'.answers[..|db.answers|] == db.answers
      && db'.nextQuestionId == db.nextQuestionId + n && db'.nextAnswerId == db.nextAnswerId + n
      && db'.scores == db.scores && db'.categories == db.categories
      && db'.nextScoreId == db.nextScoreId && db'.nextCategoryId == db.nextCategoryId
    decreases |questions|
  {
    if questions != [] {
      var init := questions[..|questions| - 1];
      SaveAllSizes(db, init, category, difficulty);
      var mid := SaveAll(db, init, category, difficulty);
      var db' := SaveAll(db, questions, category, difficulty);
      assert db'.questions[..|db.questions|] == mid.questions[..|db.questions|];
      assert db'.answers[..|db.answers|] == mid.answers[..|db.answers|];
    }
  }

  /**
   * Line i becomes the question with the i-th fresh key, the given category and
   * difficulty, and answer i is the correct "Sample Answer" of that question.
   */
  lemma {:induction false} SaveAllRows(db: Db, questions: seq<string>, category: string, difficulty: string)
    ensures var db' := SaveAll(db, questions, category, difficulty);
      |db'.questions| == |db.questions| + |questions| && |db'.answers| == |db.answers| + |questions|
      && (forall i :: 0 <= i < |questions| ==>
            db'.questions[|db.questions| + i] == Question(db.nextQuestionId + i, questions[i], category, difficulty))
      && (forall k :: |db.answers| <= k < |db'.answers| ==>
            db'.answers[k] == Answer(db.nextAnswerId + (k - |db.answers|), db.nextQuestionId + (k - |db.answers|), PlaceholderAnswer, true))
    decreases |questions|
  {
    SaveAllSizes(db, questions, category, difficulty);
    if questions != [] {
      var last := |questions| - 1;
      var init := questions[..last];
      SaveAllRows(db, init, category, difficulty);
      SaveAllSizes(db, init, category, difficulty);
      var mid := SaveAll(db, init, category, difficulty);
      var db' := SaveAll(db, questions, category, difficulty);
      assert db'.questions == mid.questions + [Question(mid.nextQuestionId, questions[last], category, difficulty)];
      assert db'.answers == mid.answers + [Answer(mid.nextAnswerId, mid.nextQuestionId, PlaceholderAnswer, true)];
      forall i | 0 <= i < |questions|
        ensures db'.questions[|db.questions| + i] == Question(db.nextQuestionId + i, questions[i], category, difficulty)
      {
        if i < last {
          assert init[i] == questions[i];
        }
      }
      forall k | |db.answers| <= k < |db'.answers|
        ensures db'.answers[k] == Answer(db.nextAnswerId + (k - |db.answers|), db.nextQuestionId + (k - |db.answers|), PlaceholderAnswer, true)
      {
        if k < |mid.answers| {
          assert db'.answers[k] == mid.answers[k];
        }
      }
    }
  }

  /** Storing keeps the database consistent: keys ascend and every answer's question exists. */
  lemma {:induction false} SaveAllValid(db: Db, questions: seq<string>, category: string, difficulty: string)
    requires Valid(db)
    ensures Valid(SaveAll(db, questions, category, difficulty))
    decreases |questions|
  {
    if questions != [] {
      var init := questions[..|questions| - 1];
      SaveAllValid(db, init, category, difficulty);
      var mid := SaveAll(db, init, category, difficulty);
      AddQuestionValid(mid, questions[|questions| - 1], category, Some(difficulty));
      AddAnswerValid(AddQuestion(mid, questions[|questions| - 1], category, Some(difficulty)), mid.nextQuestionId, PlaceholderAnswer, Some(true));
    }
  }

  /** The answers the loop adds for n lines: answer k the correct "Sample Answer" of the k-th new question. */
  function PlaceholderAnswers(firstAnswer: nat, firstQuestion: nat, n: nat): (r: seq<Answer>)
    ensures |r| == n
    ensures forall k :: 0 <= k < n ==> r[k] == Answer(firstAnswer + k, firstQuestion + k, PlaceholderAnswer, true)
  {
    seq(n, k requires 0 <= k < n => Answer(firstAnswer + k, firstQuestion + k, PlaceholderAnswer, true))
  }

  lemma SavedAnswers(db: Db, questions: seq<string>, category: string, difficulty: string)
    ensures SaveAll(db, questions, category, difficulty).answers
      == db.answers + PlaceholderAnswers(db.nextAnswerId, db.nextQuestionId, |questions|)
  {
    var db' := SaveAll(db, questions, category, difficulty);
    SaveAllSizes(db, questions, category, difficulty);
    SaveAllRows(db, questions, category, difficulty);
    var added := PlaceholderAnswers(db.nextAnswerId, db.nextQuestionId, |questions|);
    forall k | 0 <= k < |db'.answers| ensures db'.answers[k] == (db.answers + added)[k] {
      if k < |db.answers| {
        assert db'.answers[k] == db'.answers[..|db.answers|][k];
      }
    }
  }

  /** Each stored question has exactly one answer, and it is the correct "Sample Answer". */
  lemma StoredQuestionHasOneAnswer(db: Db, questions: seq<string>, category: string, difficulty: string, i: nat)
    requires Valid(db) && i < |questions|
    ensures var db' := SaveAll(db, questions, category, difficulty);
      AnswersOf(db'.answers, db.nextQuestionId + i) == [Answer(db.nextAnswerId + i, db.nextQuestionId + i, PlaceholderAnswer, true)]
  {
    SavedAnswers(db, questions, category, difficulty);
    NoAnswersOfFresh(db, db.nextQuestionId + i);
    var added := PlaceholderAnswers(db.nextAnswerId, db.nextQuestionId, |questions|);
    AnswersOfFreshBlock(db.answers, added, i, db.nextQuestionId, db.nextAnswerId);
  }

  /** Appending answers for ascending question keys gives the key of the i-th one exactly that answer, if it had none. */
  lemma AnswersOfFreshBlock(before: seq<Answer>, added: seq<Answer>, i: nat, first: nat, firstAnswer: nat)
    requires i < |added| && AnswersOf(before, first + i) == []
    requires forall k :: 0 <= k < |added| ==> added[k] == Answer(firstAnswer + k, first + k, PlaceholderAnswer, true)
    ensures AnswersOf(before + added, first + i) == [added[i]]
  {
    var qid := first + i;
    var mine := AnswersOf(added, qid);
    OnlyMatchingAnswer(added, qid, i, first, firstAnswer);
    assert mine == [added[i]];
    AnswersOfAppend(before, added, qid);
    assert AnswersOf(before, qid) + mine == mine;
  }

  /** Among answers whose question keys ascend from `first`, only the i-th belongs to `first + i`. */
  lemma {:induction false} OnlyMatchingAnswer(added: seq<Answer>, qid: nat, i: nat, first: nat, firstAnswer: nat)
    requires i < |added| && qid == first + i
    requires forall k :: 0 <= k < |added| ==> added[k] == Answer(firstAnswer + k, first + k, PlaceholderAnswer, true)
    ensures AnswersOf(added, qid) == [added[i]]
    decreases |added|
  {
    var rest := added[1..];
    forall k | 0 <= k < |rest| ensures rest[k] == Answer(firstAnswer + 1 + k, first + 1 + k, PlaceholderAnswer, true) {
      assert rest[k] == added[k + 1];
    }
    if i == 0 {
      NoneMatch(rest, qid, first + 1, firstAnswer + 1);
    } else {
      OnlyMatchingAnswer(rest, qid, i - 1, first + 1, firstAnswer + 1);
    }
  }

  lemma {:induction false} NoneMatch(added: seq<Answer>, qid: nat, first: nat, firstAnswer: nat)
    requires qid < first
    requires forall k :: 0 <= k < |added| ==> added[k] == Answer(firstAnswer + k, first + k, PlaceholderAnswer, true)
    ensures AnswersOf(added, qid) == []
    decreases |added|
  {
    if added != [] {
      var rest := added[1..];
      forall k | 0 <= k < |rest| ensures rest[k] == Answer(firstAnswer + 1 + k, first + 1 + k, PlaceholderAnswer, true) {
        assert rest[k] == added[k + 1];
      }
      NoneMatch(rest, qid, first + 1, firstAnswer + 1);
    }
  }

  /** `save_questions_to_db`: the loop over the lines, one question and one answer per line. */
  method SaveQuestionsToDb(db: Db, questions: seq<string>, category: string, difficulty: string) returns (db': Db)
    ensures db' == SaveAll(db, questions, category, difficulty)
  {
    db' := db;
    for i := 0 to |questions|
      invariant db' == SaveAll(db, questions[..i], category, difficulty)
    {
      assert questions[..i + 1][..i] == questions[..i];
      var questionText := questions[i];
      var withQuestion := AddQuestion(db', questionText, category, Some(difficulty));
      db' := AddAnswer(withQuestion, db'.nextQuestionId, PlaceholderAnswer, Some(true));
    }
    assert questions[..|questions|] == questions;
  }

  const MainPrompt: string := "Generate 5 multiple-choice questions on general knowledge with answers."

  /**
   * `main`: store the generated lines under "General Knowledge", difficulty
   * "easy", when there are any. A reply that arrives always stores between
   * one and five questions; a failed call stores none.
   */
  method RunImport(db: Db, reply: Reply) returns (db': Db)
    ensures reply.ApiError? ==> db' == db
    ensures reply.Content? ==>
      var lines := Text.SplitOn(reply.text, '\n');
      var n := if |lines| <= DefaultCount then |lines| else DefaultCount;
      1 <= n <= 5 && db' == SaveAll(db, lines[..n], DefaultCategory, DefaultDifficulty)
  {
    var questions := GenerateQuestionsFromOpenAI(MainPrompt, DefaultCount, reply);
    if questions != [] {
      db' := SaveQuestionsToDb(db, questions, DefaultCategory, DefaultDifficulty);
    } else {
      db' := db;
    }
  }
}
