/**
 * The three Django models of the quiz app (`Question`, `Answer`, `Score`), their
 * `__str__` renderings, field defaults and length bounds, and the database as a
 * value: tables kept in primary-key order, auto-increment counters, and the
 * `on_delete=CASCADE` rule that removes a question's answers with it.
 */
module Models {
  import opened Wrappers
  import Text

  // Column bounds (`max_length`) and defaults.
  const QuestionTextMax: nat := 255
  const QuizCategoryMax: nat := 100
  const DifficultyMax: nat := 50
  const AnswerTextMax: nat := 255
  const PlayerNameMax: nat := 100
  const DefaultDifficulty: string := "easy"
  const DefaultIsCorrect: bool := false

  datatype Question = Question(id: nat, text: string, quizCategory: string, difficulty: string)

  /** `question` is the primary key of the question the answer belongs to. */
  datatype Answer = Answer(id: nat, question: nat, text: string, isCorrect: bool)

  /** `date` is the `auto_now_add` timestamp, taken from the clock when the row is created. */
  datatype Score = Score(id: nat, playerName: string, points: int, date: int)

  /**
   * `QuizCategory`, used by the seeding commands and imported by views.py. models.py
   * does not declare it, so those modules fail to import as written; the model
   * assumes it exists with the one field the seeders use.
   */
  datatype Category = Category(id: nat, name: string)

  // ---------------------------------------------------------------------
  // Renderings (`__str__`)

  /** `Question.__str__` is the question text itself. */
  function QuestionStr(q: Question): (r: string)
    ensures r == q.text
  {
    q.text
  }

  const CorrectSuffix: string := " (Correcta)"
  const IncorrectSuffix: string := " (Incorrecta)"

  /** `Answer.__str__`: the text, then " (Correcta)" or " (Incorrecta)" after the flag. */
  function AnswerStr(a: Answer): (s: string)
    ensures |s| > |a.text| && s[..|a.text|] == a.text
    ensures a.isCorrect <==> s[|a.text|..] == CorrectSuffix
    ensures !a.isCorrect <==> s[|a.text|..] == IncorrectSuffix
  {
    a.text + (if a.isCorrect then CorrectSuffix else IncorrectSuffix)
  }

  /** Eleven characters from the end, the rendering shows the flag: ' ' for correct, 'I' for incorrect. */
  lemma AnswerStrFlagChar(a: Answer)
    ensures |AnswerStr(a)| >= 11
    ensures AnswerStr(a)[|AnswerStr(a)| - 11] == if a.isCorrect then ' ' else 'I'
  {
  }

  /** Two answers render alike only when they have the same text and the same flag. */
  lemma AnswerStrInjective(a: Answer, b: Answer)
    requires AnswerStr(a) == AnswerStr(b)
    ensures a.text == b.text && a.isCorrect == b.isCorrect
  {
    AnswerStrFlagChar(a);
    AnswerStrFlagChar(b);
    var suffix := if a.isCorrect then CorrectSuffix else IncorrectSuffix;
    assert |a.text| == |AnswerStr(a)| - |suffix| == |b.text|;
  }

  /** `Score.__str__`: `f"{player_name} - {points}"`. */
  function ScoreStr(s: Score): (r: string)
    ensures |r| > |s.playerName| + 3 && r[..|s.playerName|] == s.playerName
    ensures r[|s.playerName|..|s.playerName| + 3] == " - "
    ensures Text.ParseInt(r[|s.playerName| + 3..]) == Some(s.points)
  {
    Text.IntToStringRoundTrip(s.points);
    var r := s.playerName + " - " + Text.IntToString(s.points);
    assert r[|s.playerName| + 3..] == Text.IntToString(s.points);
    r
  }

  // ---------------------------------------------------------------------
  // Length bounds

  predicate QuestionInBounds(q: Question)
  {
    |q.text| <= QuestionTextMax && |q.quizCategory| <= QuizCategoryMax && |q.difficulty| <= DifficultyMax
  }

  predicate AnswerInBounds(a: Answer)
  {
    |a.text| <= AnswerTextMax
  }

  predicate ScoreInBounds(s: Score)
  {
    |s.playerName| <= PlayerNameMax
  }

  // ---------------------------------------------------------------------
  // The database

  /**
   * The tables, each in primary-key order, and each table's next auto-increment
   * value. Django gives every table its own counter, starting at 1.
   */
  datatype Db = Db(
    questions: seq<Question>, answers: seq<Answer>, scores: seq<Score>, categories: seq<Category>,
    nextQuestionId: nat, nextAnswerId: nat, nextScoreId: nat, nextCategoryId: nat)

  const EmptyDb: Db := Db([], [], [], [], 1, 1, 1, 1)

  function QuestionIds(db: Db): set<nat>
  {
    set q | q in db.questions :: q.id
  }

  function AnswerIds(db: Db): set<nat>
  {
    set a | a in db.answers :: a.id
  }

  predicate QuestionsOrdered(qs: seq<Question>, next: nat)
  {
    next >= 1
    && (forall i :: 0 <= i < |qs| ==> 0 < qs[i].id < next)
    && (forall i, j :: 0 <= i < j < |qs| ==> qs[i].id < qs[j].id)
  }

  predicate AnswersOrdered(ans: seq<Answer>, next: nat)
  {
    next >= 1
    && (forall i :: 0 <= i < |ans| ==> 0 < ans[i].id < next)
    && (forall i, j :: 0 <= i < j < |ans| ==> ans[i].id < ans[j].id)
  }

  predicate ScoresOrdered(ss: seq<Score>, next: nat)
  {
    next >= 1
    && (forall i :: 0 <= i < |ss| ==> 0 < ss[i].id < next)
    && (forall i, j :: 0 <= i < j < |ss| ==> ss[i].id < ss[j].id)
  }

  predicate CategoriesOrdered(cs: seq<Category>, next: nat)
  {
    next >= 1
    && (forall i :: 0 <= i < |cs| ==> 0 < cs[i].id < next)
    && (forall i, j :: 0 <= i < j < |cs| ==> cs[i].id < cs[j].id)
  }

  /** Every table in key order below its counter, and every answer's question present (the foreign key). */
  predicate Valid(db: Db)
  {
    QuestionsOrdered(db.questions, db.nextQuestionId)
    && AnswersOrdered(db.answers, db.nextAnswerId)
    && ScoresOrdered(db.scores, db.nextScoreId)
    && CategoriesOrdered(db.categories, db.nextCategoryId)
    && (forall k :: 0 <= k < |db.answers| ==> db.answers[k].question in QuestionIds(db))
  }

  /** `Question.objects.get(id=id)`, `None` for `DoesNotExist`. */
  function FindQuestion(db: Db, id: nat): (r: Option<Question>)
    ensures r.Some? <==> id in QuestionIds(db)
    ensures r.Some? ==> r.value in db.questions && r.value.id == id
  {
    FindQuestionIn(db.questions, id)
  }

  function FindQuestionIn(qs: seq<Question>, id: nat): (r: Option<Question>)
    ensures r.Some? <==> exists q :: q in qs && q.id == id
    ensures r.Some? ==> r.value in qs && r.value.id == id
  {
    if qs == [] then None
    else if qs[0].id == id then Some(qs[0])
    else FindQuestionIn(qs[1..], id)
  }

  /** `Answer.objects.get(id=id)`, `None` for `DoesNotExist`. */
  function FindAnswer(db: Db, id: nat): (r: Option<Answer>)
    ensures r.Some? <==> id in AnswerIds(db)
    ensures r.Some? ==> r.value in db.answers && r.value.id == id
  {
    FindAnswerIn(db.answers, id)
  }

  function FindAnswerIn(ans: seq<Answer>, id: nat): (r: Option<Answer>)
    ensures r.Some? <==> exists a :: a in ans && a.id == id
    ensures r.Some? ==> r.value in ans && r.value.id == id
  {
    if ans == [] then None
    else if ans[0].id == id then Some(ans[0])
    else FindAnswerIn(ans[1..], id)
  }

  // ---------------------------------------------------------------------
  // Creating rows (`Model.objects.create(...)`)

  /** A question created with `difficulty` left out gets the default, "easy". */
  function MakeQuestion(id: nat, text: string, quizCategory: string, difficulty: Option<string>): (q: Question)
    ensures q.id == id && q.text == text && q.quizCategory == quizCategory
    ensures difficulty.None? ==> q.difficulty == DefaultDifficulty
    ensures difficulty.Some? ==> q.difficulty == difficulty.value
  {
    Question(id, text, quizCategory, difficulty.GetOr(DefaultDifficulty))
  }

  /** An answer created with `is_correct` left out is not correct. */
  function MakeAnswer(id: nat, question: nat, text: string, isCorrect: Option<bool>): (a: Answer)
    ensures a.id == id && a.question == question && a.text == text
    ensures isCorrect.None? ==> !a.isCorrect
    ensures isCorrect.Some? ==> a.isCorrect == isCorrect.value
  {
    Answer(id, question, text, isCorrect.GetOr(DefaultIsCorrect))
  }

  function AddQuestion(db: Db, text: string, quizCategory: string, difficulty: Option<string>): Db
  {
    db.(questions := db.questions + [MakeQuestion(db.nextQuestionId, text, quizCategory, difficulty)],
        nextQuestionId := db.nextQuestionId + 1)
  }

  function AddAnswer(db: Db, question: nat, text: string, isCorrect: Option<bool>): Db
  {
    db.(answers := db.answers + [MakeAnswer(db.nextAnswerId, question, text, isCorrect)],
        nextAnswerId := db.nextAnswerId + 1)
  }

  function AddScore(db: Db, playerName: string, points: int, date: int): Db
  {
    db.(scores := db.scores + [Score(db.nextScoreId, playerName, points, date)], nextScoreId := db.nextScoreId + 1)
  }

  function AddCategory(db: Db, name: string): Db
  {
    db.(categories := db.categories + [Category(db.nextCategoryId, name)], nextCategoryId := db.nextCategoryId + 1)
  }

  /** Creating a question keeps the database valid and the new row is the last, with the next key. */
  lemma AddQuestionValid(db: Db, text: string, quizCategory: string, difficulty: Option<string>)
    requires Valid(db)
    ensures Valid(AddQuestion(db, text, quizCategory, difficulty))
    ensures QuestionIds(AddQuestion(db, text, quizCategory, difficulty)) == QuestionIds(db) + {db.nextQuestionId}
  {
    var db' := AddQuestion(db, text, quizCategory, difficulty);
    assert QuestionIds(db') == QuestionIds(db) + {db.nextQuestionId} by {
      forall id ensures id in QuestionIds(db') <==> id in QuestionIds(db) || id == db.nextQuestionId {
        if id in QuestionIds(db') {
          var q :| q in db'.questions && q.id == id;
        }
      }
    }
  }

  /** Creating an answer for an existing question keeps the database valid. */
  lemma AddAnswerValid(db: Db, question: nat, text: string, isCorrect: Option<bool>)
    requires Valid(db) && question in QuestionIds(db)
    ensures Valid(AddAnswer(db, question, text, isCorrect))
  {
    var db' := AddAnswer(db, question, text, isCorrect);
    forall k | 0 <= k < |db'.answers| ensures db'.answers[k].question in QuestionIds(db') {
      if k < |db.answers| { assert db'.answers[k] == db.answers[k]; }
    }
  }

  lemma AddScoreValid(db: Db, playerName: string, points: int, date: int)
    requires Valid(db)
    ensures Valid(AddScore(db, playerName, points, date))
  {
  }

  lemma AddCategoryValid(db: Db, name: string)
    requires Valid(db)
    ensures Valid(AddCategory(db, name))
  {
  }

  // ---------------------------------------------------------------------
  // Updating rows (`instance.save()` after a partial update)

  function ReplaceQuestion(qs: seq<Question>, q: Question): (r: seq<Question>)
  {
    seq(|qs|, i requires 0 <= i < |qs| => if qs[i].id == q.id then q else qs[i])
  }

  function ReplaceAnswer(ans: seq<Answer>, a: Answer): (r: seq<Answer>)
  {
    seq(|ans|, i requires 0 <= i < |ans| => if ans[i].id == a.id then a else ans[i])
  }

  /** Saving a changed question (same key) rewrites that one row and keeps the database valid. */
  lemma UpdateQuestionValid(db: Db, q: Question)
    requires Valid(db) && q.id in QuestionIds(db)
    ensures Valid(db.(questions := ReplaceQuestion(db.questions, q)))
    ensures QuestionIds(db.(questions := ReplaceQuestion(db.questions, q))) == QuestionIds(db)
  {
    var db' := db.(questions := ReplaceQuestion(db.questions, q));
    assert QuestionIds(db') == QuestionIds(db) by {
      forall id ensures id in QuestionIds(db') <==> id in QuestionIds(db) {
        if id in QuestionIds(db) {
          var p :| p in db.questions && p.id == id;
          var i :| 0 <= i < |db.questions| && db.questions[i] == p;
          assert db'.questions[i].id == id;
        }
        if id in QuestionIds(db') {
          var p :| p in db'.questions && p.id == id;
          var i :| 0 <= i < |db'.questions| && db'.questions[i] == p;
          assert db.questions[i].id == id;
        }
      }
    }
  }

  /** Saving a changed answer whose question exists keeps the database valid. */
  lemma UpdateAnswerValid(db: Db, a: Answer)
    requires Valid(db) && a.id in AnswerIds(db) && a.question in QuestionIds(db)
    ensures Valid(db.(answers := ReplaceAnswer(db.answers, a)))
  {
    var ans := ReplaceAnswer(db.answers, a);
    assert a.id < db.nextAnswerId && a.id > 0 by {
      var b :| b in db.answers && b.id == a.id;
    }
  }

  // ---------------------------------------------------------------------
  // Deleting rows, with the cascade

  /** The answers belonging to question `qid`, in table order (`question.answers.all()`). */
  function AnswersOf(ans: seq<Answer>, qid: nat): seq<Answer>
  {
    if ans == [] then []
    else (if ans[0].question == qid then [ans[0]] else []) + AnswersOf(ans[1..], qid)
  }

  /** The answers of question `qid` are exactly the table's answers that point at it. */
  lemma {:induction false} AnswersOfMembers(ans: seq<Answer>, qid: nat)
    ensures forall a :: a in AnswersOf(ans, qid) <==> a in ans && a.question == qid
  {
    if ans != [] {
      AnswersOfMembers(ans[1..], qid);
      assert ans == [ans[0]] + ans[1..];
    }
  }

  /** A question no answer points at has no answers. */
  lemma {:induction false} AnswersOfNone(ans: seq<Answer>, qid: nat)
    requires forall k :: 0 <= k < |ans| ==> ans[k].question != qid
    ensures AnswersOf(ans, qid) == []
  {
    if ans != [] {
      AnswersOfNone(ans[1..], qid);
    }
  }

  /** A key at or past the question counter has no answers in a consistent database. */
  lemma NoAnswersOfFresh(db: Db, qid: nat)
    requires Valid(db) && qid >= db.nextQuestionId
    ensures AnswersOf(db.answers, qid) == []
  {
    forall k | 0 <= k < |db.answers| ensures db.answers[k].question != qid {
      assert db.answers[k].question in QuestionIds(db);
      var q :| q in db.questions && q.id == db.answers[k].question;
      var m :| 0 <= m < |db.questions| && db.questions[m] == q;
    }
    AnswersOfNone(db.answers, qid);
  }

  /** A table whose answers all point at `qid` is all of that question's answers. */
  lemma {:induction false} AnswersOfAll(ans: seq<Answer>, qid: nat)
    requires forall k :: 0 <= k < |ans| ==> ans[k].question == qid
    ensures AnswersOf(ans, qid) == ans
  {
    if ans != [] {
      AnswersOfAll(ans[1..], qid);
      assert ans == [ans[0]] + ans[1..];
    }
  }

  /** The answers NOT belonging to question `qid`, in table order. */
  function AnswersNotOf(ans: seq<Answer>, qid: nat): seq<Answer>
  {
    if ans == [] then []
    else (if ans[0].question != qid then [ans[0]] else []) + AnswersNotOf(ans[1..], qid)
  }

  /** The rows of a table whose key is not `id`, in table order. */
  function Without<T>(rows: seq<T>, key: T -> nat, id: nat): seq<T>
  {
    if rows == [] then []
    else (if key(rows[0]) != id then [rows[0]] else []) + Without(rows[1..], key, id)
  }

  /** The primary key of a question. */
  function QuestionKey(q: Question): nat
  {
    q.id
  }

  /** The primary key of an answer. */
  function AnswerKey(a: Answer): nat
  {
    a.id
  }

  /** The answers kept when question `qid` goes are exactly those of other questions. */
  lemma {:induction false} AnswersNotOfMembers(ans: seq<Answer>, qid: nat)
    ensures forall a :: a in AnswersNotOf(ans, qid) <==> a in ans && a.question != qid
  {
    if ans != [] {
      AnswersNotOfMembers(ans[1..], qid);
      assert ans == [ans[0]] + ans[1..];
    }
  }

  /** The rows kept are exactly those with another key. */
  lemma {:induction false} WithoutMembers<T>(rows: seq<T>, key: T -> nat, id: nat)
    ensures forall x :: x in Without(rows, key, id) <==> x in rows && key(x) != id
  {
    if rows != [] {
      WithoutMembers(rows[1..], key, id);
      assert rows == [rows[0]] + rows[1..];
    }
  }

  /** `question.delete()`: the question row goes, and with it (CASCADE) every answer pointing at it. */
  function DeleteQuestion(db: Db, id: nat): Db
  {
    db.(questions := Without(db.questions, QuestionKey, id), answers := AnswersNotOf(db.answers, id))
  }

  /** `answer.delete()` */
  function DeleteAnswer(db: Db, id: nat): Db
  {
    db.(answers := Without(db.answers, AnswerKey, id))
  }

  /** The answers of a question and the others split the table: nothing is lost, nothing duplicated. */
  lemma {:induction false} AnswersPartition(ans: seq<Answer>, qid: nat)
    ensures multiset(AnswersOf(ans, qid)) + multiset(AnswersNotOf(ans, qid)) == multiset(ans)
  {
    if ans != [] {
      AnswersPartition(ans[1..], qid);
      var a := ans[0];
      assert multiset(ans) == multiset{a} + multiset(ans[1..]) by {
        assert ans == [a] + ans[1..];
      }
      if a.question == qid {
        assert AnswersOf(ans, qid) == [a] + AnswersOf(ans[1..], qid);
        assert multiset(AnswersOf(ans, qid)) == multiset{a} + multiset(AnswersOf(ans[1..], qid));
        assert AnswersNotOf(ans, qid) == AnswersNotOf(ans[1..], qid);
      } else {
        assert AnswersOf(ans, qid) == AnswersOf(ans[1..], qid);
        assert AnswersNotOf(ans, qid) == [a] + AnswersNotOf(ans[1..], qid);
        assert multiset(AnswersNotOf(ans, qid)) == multiset{a} + multiset(AnswersNotOf(ans[1..], qid));
      }
    }
  }

  /** Filtering by question distributes over a concatenation of tables. */
  lemma {:induction false} AnswersOfAppend(a: seq<Answer>, b: seq<Answer>, qid: nat)
    ensures AnswersOf(a + b, qid) == AnswersOf(a, qid) + AnswersOf(b, qid)
  {
    if a != [] {
      AnswersOfAppend(a[1..], b, qid);
      assert (a + b)[0] == a[0] && (a + b)[1..] == a[1..] + b;
    } else {
      assert a + b == b;
    }
  }

  /** Answers of other questions are untouched when a question is deleted. */
  lemma {:induction false} AnswersNotOfKeepsOthers(ans: seq<Answer>, qid: nat, other: nat)
    requires other != qid
    ensures AnswersOf(AnswersNotOf(ans, qid), other) == AnswersOf(ans, other)
  {
    if ans != [] {
      AnswersNotOfKeepsOthers(ans[1..], qid, other);
      var rest := AnswersNotOf(ans[1..], qid);
      if ans[0].question != qid {
        assert AnswersNotOf(ans, qid) == [ans[0]] + rest;
        assert ([ans[0]] + rest)[1..] == rest;
      } else {
        assert AnswersNotOf(ans, qid) == rest;
      }
    }
  }

  /**
   * The cascade: after deleting question `id`, the remaining answers are exactly
   * the old ones that did not belong to it, with their order and multiplicity,
   * and the question has no answers left.
   */
  lemma CascadeDelete(db: Db, id: nat)
    ensures forall a :: a in DeleteQuestion(db, id).answers <==> a in db.answers && a.question != id
    ensures AnswersOf(DeleteQuestion(db, id).answers, id) == []
    ensures multiset(DeleteQuestion(db, id).answers) == multiset(db.answers) - multiset(AnswersOf(db.answers, id))
    ensures id !in QuestionIds(DeleteQuestion(db, id))
  {
    AnswersNotOfMembers(db.answers, id);
    WithoutMembers(db.questions, QuestionKey, id);
    AnswersPartition(db.answers, id);
    NoAnswersLeft(db.answers, id);
  }

  lemma {:induction false} NoAnswersLeft(ans: seq<Answer>, qid: nat)
    ensures AnswersOf(AnswersNotOf(ans, qid), qid) == []
  {
    if ans != [] {
      NoAnswersLeft(ans[1..], qid);
      var rest := AnswersNotOf(ans[1..], qid);
      if ans[0].question != qid {
        assert AnswersNotOf(ans, qid) == [ans[0]] + rest;
        assert ([ans[0]] + rest)[1..] == rest;
      } else {
        assert AnswersNotOf(ans, qid) == [] + rest == rest;
      }
    }
  }

  /** Below an ordered table's first row come only larger keys, and its tail is ordered too. */
  lemma QuestionsHead(qs: seq<Question>, next: nat)
    requires QuestionsOrdered(qs, next) && qs != []
    ensures QuestionsOrdered(qs[1..], next)
    ensures forall q :: q in qs[1..] ==> qs[0].id < q.id
  {
    forall q | q in qs[1..] ensures qs[0].id < q.id {
      var j :| 0 <= j < |qs[1..]| && qs[1..][j] == q;
      assert qs[j + 1] == q;
    }
  }

  /** A row with a smaller key than every row of an ordered table can go in front of it. */
  lemma QuestionsCons(q: Question, qs: seq<Question>, next: nat)
    requires QuestionsOrdered(qs, next) && 0 < q.id < next
    requires forall r :: r in qs ==> q.id < r.id
    ensures QuestionsOrdered([q] + qs, next)
  {
    forall i, j | 0 <= i < j < |[q] + qs| ensures ([q] + qs)[i].id < ([q] + qs)[j].id {
      if i == 0 {
        assert ([q] + qs)[j] == qs[j - 1];
        assert qs[j - 1] in qs;
      }
    }
  }

  lemma AnswersHead(ans: seq<Answer>, next: nat)
    requires AnswersOrdered(ans, next) && ans != []
    ensures AnswersOrdered(ans[1..], next)
    ensures forall a :: a in ans[1..] ==> ans[0].id < a.id
  {
    forall a | a in ans[1..] ensures ans[0].id < a.id {
      var j :| 0 <= j < |ans[1..]| && ans[1..][j] == a;
      assert ans[j + 1] == a;
    }
  }

  lemma AnswersCons(a: Answer, ans: seq<Answer>, next: nat)
    requires AnswersOrdered(ans, next) && 0 < a.id < next
    requires forall b :: b in ans ==> a.id < b.id
    ensures AnswersOrdered([a] + ans, next)
  {
    forall i, j | 0 <= i < j < |[a] + ans| ensures ([a] + ans)[i].id < ([a] + ans)[j].id {
      if i == 0 {
        assert ([a] + ans)[j] == ans[j - 1];
        assert ans[j - 1] in ans;
      }
    }
  }

  lemma {:induction false} QuestionsWithoutOrdered(qs: seq<Question>, id: nat, next: nat)
    requires QuestionsOrdered(qs, next)
    ensures QuestionsOrdered(Without(qs, QuestionKey, id), next)
  {
    if qs != [] {
      QuestionsHead(qs, next);
      QuestionsWithoutOrdered(qs[1..], id, next);
      WithoutMembers(qs[1..], QuestionKey, id);
      var rest := Without(qs[1..], QuestionKey, id);
      if qs[0].id != id {
        QuestionsCons(qs[0], rest, next);
        assert Without(qs, QuestionKey, id) == [qs[0]] + rest;
      } else {
        assert Without(qs, QuestionKey, id) == [] + rest;
      }
    }
  }

  lemma {:induction false} AnswersNotOfOrdered(ans: seq<Answer>, qid: nat, next: nat)
    requires AnswersOrdered(ans, next)
    ensures AnswersOrdered(AnswersNotOf(ans, qid), next)
  {
    if ans != [] {
      AnswersHead(ans, next);
      AnswersNotOfOrdered(ans[1..], qid, next);
      AnswersNotOfMembers(ans[1..], qid);
      var rest := AnswersNotOf(ans[1..], qid);
      if ans[0].question != qid {
        AnswersCons(ans[0], rest, next);
        assert AnswersNotOf(ans, qid) == [ans[0]] + rest;
      } else {
        assert AnswersNotOf(ans, qid) == [] + rest;
      }
    }
  }

  lemma {:induction false} AnswersWithoutOrdered(ans: seq<Answer>, id: nat, next: nat)
    requires AnswersOrdered(ans, next)
    ensures AnswersOrdered(Without(ans, AnswerKey, id), next)
  {
    if ans != [] {
      AnswersHead(ans, next);
      AnswersWithoutOrdered(ans[1..], id, next);
      WithoutMembers(ans[1..], AnswerKey, id);
      var rest := Without(ans[1..], AnswerKey, id);
      if ans[0].id != id {
        AnswersCons(ans[0], rest, next);
        assert Without(ans, AnswerKey, id) == [ans[0]] + rest;
      } else {
        assert Without(ans, AnswerKey, id) == [] + rest;
      }
    }
  }

  /** Deleting a question keeps the foreign key intact: no answer is left pointing at it. */
  lemma DeleteQuestionValid(db: Db, id: nat)
    requires Valid(db)
    ensures Valid(DeleteQuestion(db, id))
    ensures QuestionIds(DeleteQuestion(db, id)) == QuestionIds(db) - {id}
  {
    QuestionsWithoutOrdered(db.questions, id, db.nextQuestionId);
    AnswersNotOfOrdered(db.answers, id, db.nextAnswerId);
    DeleteQuestionIds(db, id);
    DeleteQuestionKeepsKeys(db, id);
  }

  lemma DeleteQuestionIds(db: Db, id: nat)
    ensures QuestionIds(DeleteQuestion(db, id)) == QuestionIds(db) - {id}
  {
    var db' := DeleteQuestion(db, id);
    WithoutMembers(db.questions, QuestionKey, id);
    forall x ensures x in QuestionIds(db') <==> x in QuestionIds(db) && x != id {
      if x in QuestionIds(db) && x != id {
        var q :| q in db.questions && q.id == x;
        assert q in db'.questions;
      }
    }
  }

  lemma DeleteQuestionKeepsKeys(db: Db, id: nat)
    requires forall k :: 0 <= k < |db.answers| ==> db.answers[k].question in QuestionIds(db)
    ensures var db' := DeleteQuestion(db, id);
      forall k :: 0 <= k < |db'.answers| ==> db'.answers[k].question in QuestionIds(db')
  {
    var db' := DeleteQuestion(db, id);
    AnswersNotOfMembers(db.answers, id);
    DeleteQuestionIds(db, id);
    forall k | 0 <= k < |db'.answers| ensures db'.answers[k].question in QuestionIds(db') {
      var a := db'.answers[k];
      assert a in db.answers;
      var j :| 0 <= j < |db.answers| && db.answers[j] == a;
    }
  }

  /** Deleting an answer keeps the database valid. */
  lemma DeleteAnswerValid(db: Db, id: nat)
    requires Valid(db)
    ensures Valid(DeleteAnswer(db, id))
  {
    var db' := DeleteAnswer(db, id);
    AnswersWithoutOrdered(db.answers, id, db.nextAnswerId);
    WithoutMembers(db.answers, AnswerKey, id);
    forall k | 0 <= k < |db'.answers| ensures db'.answers[k].question in QuestionIds(db') {
      var a := db'.answers[k];
      assert a in db.answers;
      var j :| 0 <= j < |db.answers| && db.answers[j] == a;
    }
  }
}
