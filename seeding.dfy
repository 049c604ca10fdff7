/**
 * The two fake-data seeders: `create_fake_data` of the `populate_db`
 * management command (quiz_project/quiz/management/commands/populate_db.py) and
 * its older copy in quiz_project/quiz/utils/utils.py. Each category gets 50
 * questions and each question one correct and three incorrect answers.
 *
 * Faker's words and sentences and `random.choice` are arbitrary choices
 * (`:|`): the contracts hold whatever they return.
 */
module Seeding {
  import opened Wrappers
  import opened Models

  const Difficulties: seq<string> := ["easy", "medium", "hard"]
  const Rounds: nat := 50
  const QuestionsPerCategory: nat := 50
  const AnswersPerQuestion: nat := 4

  /** The answers of question `qid`: four, the first one correct and the other three not. */
  predicate Seeded(db: Db, qid: nat)
  {
    var ans := AnswersOf(db.answers, qid);
    |ans| == AnswersPerQuestion && ans[0].isCorrect && !ans[1].isCorrect && !ans[2].isCorrect && !ans[3].isCorrect
  }

  /**
   * `db2` is `db` with `m` answers, all pointing at `qid`, appended after the
   * question, the first one correct and the rest not (when m > 0).
   */
  predicate AnswersAppended(db: Db, db2: Db, qid: nat, m: nat)
  {
    |db2.answers| == |db.answers| + m && db2.answers[..|db.answers|] == db.answers
    && db2.nextAnswerId == db.nextAnswerId + m
    && (forall k :: |db.answers| <= k < |db2.answers| ==>
          db2.answers[k].question == qid && (db2.answers[k].isCorrect <==> k == |db.answers|))
  }

  /**
   * Apart from the answers, `db2` is `db` with one question appended, of
   * `category`, with a difficulty from the list, under the next key.
   */
  predicate QuestionAppended(db: Db, db2: Db, category: string)
  {
    |db2.questions| == |db.questions| + 1 && db2.questions[..|db.questions|] == db.questions
    && db2.questions[|db.questions|].id == db.nextQuestionId
    && db2.questions[|db.questions|].quizCategory == category
    && db2.questions[|db.questions|].difficulty in Difficulties
    && db2.nextQuestionId == db.nextQuestionId + 1
    && db2.scores == db.scores && db2.categories == db.categories
    && db2.nextScoreId == db.nextScoreId && db2.nextCategoryId == db.nextCategoryId
  }

  /** One pass of the question loop: a question of `category` and its four answers. */
  predicate SeedStep(db: Db, db2: Db, category: string)
  {
    QuestionAppended(db, db2, category) && AnswersAppended(db, db2, db.nextQuestionId, AnswersPerQuestion)
  }

  /**
   * One fake question: a random sentence, the given category, a difficulty
   * picked from easy, medium and hard; then one correct and three incorrect
   * answers with random sentences.
   */
  method AddFakeQuestion(db: Db, category: string) returns (db2: Db)
    requires Valid(db)
    ensures Valid(db2) && SeedStep(db, db2, category)
  {
    var questionText: string :| true;
    assert Difficulties[0] in Difficulties;
    var difficulty :| difficulty in Difficulties;
    var qid := db.nextQuestionId;
    var withQuestion := AddQuestion(db, questionText, category, Some(difficulty));
    var correctText: string :| true;
    FirstAnswerStep(db, questionText, category, difficulty, correctText);
    db2 := AddAnswer(withQuestion, qid, correctText, Some(true));
    for w := 0 to 3
      invariant Valid(db2) && qid in QuestionIds(db2)
      invariant QuestionAppended(db, db2, category)
      invariant AnswersAppended(db, db2, qid, w + 1)
    {
      var wrongText: string :| true;
      WrongAnswerStep(db, db2, category, w + 1, wrongText);
      db2 := AddAnswer(db2, qid, wrongText, Some(false));
    }
  }

  /** The question and its correct answer start a step. */
  lemma FirstAnswerStep(db: Db, text: string, category: string, difficulty: string, correctText: string)
    requires Valid(db) && difficulty in Difficulties
    ensures var withQuestion := AddQuestion(db, text, category, Some(difficulty));
      var db2 := AddAnswer(withQuestion, db.nextQuestionId, correctText, Some(true));
      Valid(db2) && db.nextQuestionId in QuestionIds(db2)
      && QuestionAppended(db, db2, category) && AnswersAppended(db, db2, db.nextQuestionId, 1)
  {
    var qid := db.nextQuestionId;
    AddQuestionValid(db, text, category, Some(difficulty));
    var withQuestion := AddQuestion(db, text, category, Some(difficulty));
    assert withQuestion.questions[..|db.questions|] == db.questions;
    AddAnswerValid(withQuestion, qid, correctText, Some(true));
    var db2 := AddAnswer(withQuestion, qid, correctText, Some(true));
    assert db2.questions == withQuestion.questions;
    assert qid in QuestionIds(db2);
  }

  /** An incorrect answer extends a started step. */
  lemma WrongAnswerStep(db: Db, db2: Db, category: string, m: nat, wrongText: string)
    requires Valid(db2) && db.nextQuestionId in QuestionIds(db2) && m >= 1
    requires QuestionAppended(db, db2, category) && AnswersAppended(db, db2, db.nextQuestionId, m)
    ensures var next := AddAnswer(db2, db.nextQuestionId, wrongText, Some(false));
      Valid(next) && db.nextQuestionId in QuestionIds(next)
      && QuestionAppended(db, next, category) && AnswersAppended(db, next, db.nextQuestionId, m + 1)
  {
    AddAnswerValid(db2, db.nextQuestionId, wrongText, Some(false));
    var next := AddAnswer(db2, db.nextQuestionId, wrongText, Some(false));
    assert next.answers[..|db.answers|] == db2.answers[..|db.answers|];
    assert QuestionIds(next) == QuestionIds(db2);
  }

  /** After a step the new question is seeded, and every older question keeps its answers. */
  lemma StepSeeds(db: Db, db2: Db, category: string)
    requires Valid(db) && SeedStep(db, db2, category)
    ensures Seeded(db2, db.nextQuestionId)
    ensures forall qid :: qid != db.nextQuestionId ==> AnswersOf(db2.answers, qid) == AnswersOf(db.answers, qid)
  {
    var qid := db.nextQuestionId;
    var added := db2.answers[|db.answers|..];
    assert db2.answers == db.answers + added;
    forall k | 0 <= k < |added| ensures added[k].question == qid && (added[k].isCorrect <==> k == 0) {
      assert added[k] == db2.answers[|db.answers| + k];
    }
    NoAnswersOfFresh(db, qid);
    AnswersOfAppend(db.answers, added, qid);
    AnswersOfAll(added, qid);
    assert AnswersOf(db2.answers, qid) == added;
    forall other | other != qid ensures AnswersOf(db2.answers, other) == AnswersOf(db.answers, other) {
      AnswersOfAppend(db.answers, added, other);
      AnswersOfNone(added, other);
      assert AnswersOf(db.answers, other) + [] == AnswersOf(db.answers, other);
    }
  }

  // ---------------------------------------------------------------------
  // Many questions

  /**
   * `db2` is `db` with `n` questions and 4n answers appended under the next
   * keys; the rows already there and the scores stay as they were.
   */
  predicate Grown(db: Db, db2: Db, n: nat)
  {
    |db2.questions| == |db.questions| + n && db2.questions[..|db.questions|] == db.questions
    && |db2.answers| == |db.answers| + AnswersPerQuestion * n && db2.answers[..|db.answers|] == db.answers
    && db2.nextQuestionId == db.nextQuestionId + n && db2.nextAnswerId == db.nextAnswerId + AnswersPerQuestion * n
    && db2.scores == db.scores && db2.nextScoreId == db.nextScoreId
  }

  /** Every question added since `db` is seeded and has a difficulty from the list. */
  predicate NewSeeded(db: Db, db2: Db)
    requires |db.questions| <= |db2.questions|
  {
    forall j :: |db.questions| <= j < |db2.questions| ==>
      Seeded(db2, db2.questions[j].id) && db2.questions[j].difficulty in Difficulties
  }

  /** The questions that existed before keep exactly their answers. */
  predicate OldKept(db: Db, db2: Db)
  {
    forall qid: nat :: 0 <= qid < db.nextQuestionId ==> AnswersOf(db2.answers, qid) == AnswersOf(db.answers, qid)
  }

  /** What a run of the question loop, or of a whole seeder, guarantees about questions and answers. */
  predicate Seeds(db: Db, db2: Db, n: nat)
  {
    Grown(db, db2, n) && NewSeeded(db, db2) && OldKept(db, db2)
  }

  /** Every question added since `db` belongs to `category`. */
  predicate AllOf(db: Db, db2: Db, category: string)
    requires |db.questions| <= |db2.questions|
  {
    forall j :: |db.questions| <= j < |db2.questions| ==> db2.questions[j].quizCategory == category
  }

  lemma SeedsNone(db: Db)
    ensures Seeds(db, db, 0) && AllOf(db, db, "")
  {
    assert db.questions[..|db.questions|] == db.questions;
    assert db.answers[..|db.answers|] == db.answers;
  }

  /** Two runs one after the other are one run. */
  lemma SeedsChain(db: Db, db1: Db, db2: Db, a: nat, b: nat)
    requires Valid(db1) && Seeds(db, db1, a) && Seeds(db1, db2, b)
    ensures Seeds(db, db2, a + b)
  {
    assert db2.questions[..|db.questions|] == db1.questions[..|db.questions|];
    assert db2.answers[..|db.answers|] == db1.answers[..|db.answers|];
    forall j | |db.questions| <= j < |db2.questions|
      ensures Seeded(db2, db2.questions[j].id) && db2.questions[j].difficulty in Difficulties
    {
      if j < |db1.questions| {
        assert db2.questions[j] == db1.questions[j];
        assert db1.questions[j].id < db1.nextQuestionId;
        assert AnswersOf(db2.answers, db1.questions[j].id) == AnswersOf(db1.answers, db1.questions[j].id);
      }
    }
  }

  /** A step is a run of one question of its category. */
  lemma StepIsRun(db: Db, db2: Db, category: string)
    requires Valid(db) && SeedStep(db, db2, category)
    ensures Seeds(db, db2, 1) && AllOf(db, db2, category)
  {
    StepSeeds(db, db2, category);
  }

  /** Extending a run of one category by one step of it. */
  lemma RunStep(db: Db, db1: Db, db2: Db, category: string, i: nat)
    requires Valid(db1) && Seeds(db, db1, i) && AllOf(db, db1, category)
    requires SeedStep(db1, db2, category)
    requires db1.categories == db.categories && db1.nextCategoryId == db.nextCategoryId
    ensures Seeds(db, db2, i + 1) && AllOf(db, db2, category)
    ensures db2.categories == db.categories && db2.nextCategoryId == db.nextCategoryId
  {
    StepIsRun(db1, db2, category);
    SeedsChain(db, db1, db2, i, 1);
    forall j | |db.questions| <= j < |db2.questions| ensures db2.questions[j].quizCategory == category {
      if j < |db1.questions| {
        assert db2.questions[j] == db1.questions[..|db1.questions|][j];
      }
    }
  }

  /** The question loop: `count` fake questions of `category`. */
  method AddFakeQuestions(db: Db, category: string, count: nat) returns (db2: Db)
    requires Valid(db)
    ensures Valid(db2) && Seeds(db, db2, count) && AllOf(db, db2, category)
    ensures db2.categories == db.categories && db2.nextCategoryId == db.nextCategoryId
  {
    db2 := db;
    SeedsNone(db);
    for i := 0 to count
      invariant Valid(db2) && Seeds(db, db2, i) && AllOf(db, db2, category)
      invariant db2.categories == db.categories && db2.nextCategoryId == db.nextCategoryId
    {
      var next := AddFakeQuestion(db2, category);
      RunStep(db, db2, next, category, i);
      db2 := next;
    }
  }

  // ---------------------------------------------------------------------
  // Categories

  function CategoryNames(cs: seq<Category>): (names: seq<string>)
    ensures |names| == |cs| && forall k :: 0 <= k < |cs| ==> names[k] == cs[k].name
  {
    seq(|cs|, k requires 0 <= k < |cs| => cs[k].name)
  }

  /** `QuizCategory.objects.filter(name=name).exists()` */
  predicate NameTaken(cs: seq<Category>, name: string)
  {
    exists k :: 0 <= k < |cs| && cs[k].name == name
  }

  /** Creating a category leaves the question and answer tables alone. */
  lemma CategoryKeepsSeeds(db: Db, name: string)
    ensures Seeds(db, AddCategory(db, name), 0) && AllOf(db, AddCategory(db, name), name)
  {
    SeedsNone(db);
  }

  /**
   * Question j of those added since position `base` belongs to category
   * (j - base) / 50 of `cats`: the questions come in blocks of 50, one block
   * per category, in order.
   */
  predicate InBlocks(qs: seq<Question>, base: nat, cats: seq<string>)
  {
    forall j :: base <= j < |qs| ==> (j - base) / QuestionsPerCategory < |cats| && qs[j].quizCategory == cats[(j - base) / QuestionsPerCategory]
  }

  /** A further block of 50 questions of the next category keeps the blocks in order. */
  lemma BlocksStep(qs: seq<Question>, qs2: seq<Question>, base: nat, cats: seq<string>, name: string)
    requires |qs| == base + QuestionsPerCategory * |cats| && InBlocks(qs, base, cats)
    requires |qs2| == |qs| + QuestionsPerCategory && qs2[..|qs|] == qs
    requires forall j :: |qs| <= j < |qs2| ==> qs2[j].quizCategory == name
    ensures InBlocks(qs2, base, cats + [name])
  {
    forall j | base <= j < |qs2|
      ensures (j - base) / QuestionsPerCategory < |cats + [name]|
        && qs2[j].quizCategory == (cats + [name])[(j - base) / QuestionsPerCategory]
    {
      if j < |qs| {
        assert qs2[j] == qs[j];
      } else {
        assert (j - base) / QuestionsPerCategory == |cats|;
      }
    }
  }

  /**
   * `create_fake_data` of quiz_project/quiz/utils/utils.py: 50 categories with
   * random names, then 50 fake questions for each, in order: 2500 questions
   * and 10000 answers. Names are not checked, so they may repeat.
   */
  method CreateFakeDataUtils(db: Db) returns (db2: Db)
    requires Valid(db)
    ensures Valid(db2)
    ensures |db2.categories| == |db.categories| + Rounds && db2.categories[..|db.categories|] == db.categories
    ensures Seeds(db, db2, Rounds * QuestionsPerCategory)
    ensures InBlocks(db2.questions, |db.questions|, CategoryNames(db2.categories[|db.categories|..]))
  {
    var dbc := AddRandomCategories(db, Rounds);
    var categories := dbc.categories[|db.categories|..];
    var names := CategoryNames(categories);
    db2 := dbc;
    for c := 0 to |categories|
      invariant Valid(db2) && Seeds(db, db2, QuestionsPerCategory * c)
      invariant db2.categories == dbc.categories
      invariant InBlocks(db2.questions, |db.questions|, names[..c])
    {
      var next := AddFakeQuestions(db2, categories[c].name, QuestionsPerCategory);
      SeedsChain(db, db2, next, QuestionsPerCategory * c, QuestionsPerCategory);
      BlocksStep(db2.questions, next.questions, |db.questions|, names[..c], names[c]);
      assert names[..c] + [names[c]] == names[..c + 1];
      db2 := next;
    }
    assert names[..|categories|] == names;
  }

  /** The first loop of `create_fake_data` in utils.py: `count` categories with random names, nothing else. */
  method AddRandomCategories(db: Db, count: nat) returns (db2: Db)
    requires Valid(db)
    ensures Valid(db2) && Seeds(db, db2, 0)
    ensures |db2.categories| == |db.categories| + count && db2.categories[..|db.categories|] == db.categories
  {
    db2 := db;
    SeedsNone(db);
    for i := 0 to count
      invariant Valid(db2) && Seeds(db, db2, 0)
      invariant |db2.categories| == |db.categories| + i && db2.categories[..|db.categories|] == db.categories
    {
      var name: string :| true;
      CategoryKeepsSeeds(db2, name);
      AddCategoryValid(db2, name);
      var next := AddCategory(db2, name);
      SeedsChain(db, db2, next, 0, 0);
      assert next.categories[..|db.categories|] == db2.categories[..|db.categories|];
      db2 := next;
    }
  }

  /** No category created since `db` shares its name with an earlier one. */
  predicate FreshNames(db: Db, db2: Db)
  {
    forall i, j :: 0 <= i < j < |db2.categories| && |db.categories| <= j ==> db2.categories[i].name != db2.categories[j].name
  }

  /**
   * `create_fake_data` of the `populate_db` command: 50 rounds, each drawing a
   * random name and, when no category has it yet, creating the category and 50
   * fake questions for it. So at most 50 categories are created, each with
   * its block of 50 questions, and their names are new.
   */
  method CreateFakeData(db: Db) returns (db2: Db)
    requires Valid(db)
    ensures Valid(db2)
    ensures |db.categories| <= |db2.categories| <= |db.categories| + Rounds
    ensures db2.categories[..|db.categories|] == db.categories
    ensures Seeds(db, db2, QuestionsPerCategory * (|db2.categories| - |db.categories|))
    ensures InBlocks(db2.questions, |db.questions|, CategoryNames(db2.categories[|db.categories|..]))
    ensures FreshNames(db, db2)
  {
    db2 := db;
    SeedsNone(db);
    for round := 0 to Rounds
      invariant Valid(db2)
      invariant |db.categories| <= |db2.categories| <= |db.categories| + round
      invariant db2.categories[..|db.categories|] == db.categories
      invariant Seeds(db, db2, QuestionsPerCategory * (|db2.categories| - |db.categories|))
      invariant InBlocks(db2.questions, |db.questions|, CategoryNames(db2.categories[|db.categories|..]))
      invariant FreshNames(db, db2)
    {
      var categoryName: string :| true;
      if !NameTaken(db2.categories, categoryName) {
        var made := CreateCategoryWithQuestions(db, db2, categoryName);
        db2 := made;
      }
    }
  }

  /** The body of a round whose name is new: the category, then its 50 questions. */
  method CreateCategoryWithQuestions(db: Db, db1: Db, name: string) returns (db2: Db)
    requires Valid(db1) && !NameTaken(db1.categories, name)
    requires |db.categories| <= |db1.categories| && db1.categories[..|db.categories|] == db.categories
    requires Seeds(db, db1, QuestionsPerCategory * (|db1.categories| - |db.categories|))
    requires InBlocks(db1.questions, |db.questions|, CategoryNames(db1.categories[|db.categories|..]))
    requires FreshNames(db, db1)
    ensures Valid(db2)
    ensures |db2.categories| == |db1.categories| + 1 && db2.categories[..|db.categories|] == db.categories
    ensures Seeds(db, db2, QuestionsPerCategory * (|db2.categories| - |db.categories|))
    ensures InBlocks(db2.questions, |db.questions|, CategoryNames(db2.categories[|db.categories|..]))
    ensures FreshNames(db, db2)
  {
    var k := |db1.categories| - |db.categories|;
    AddCategoryValid(db1, name);
    CategoryKeepsSeeds(db1, name);
    var withCategory := AddCategory(db1, name);
    SeedsChain(db, db1, withCategory, QuestionsPerCategory * k, 0);
    db2 := AddFakeQuestions(withCategory, name, QuestionsPerCategory);
    SeedsChain(db, withCategory, db2, QuestionsPerCategory * k, QuestionsPerCategory);
    var before := CategoryNames(db1.categories[|db.categories|..]);
    assert CategoryNames(db2.categories[|db.categories|..]) == before + [name] by {
      assert db2.categories[|db.categories|..] == db1.categories[|db.categories|..] + [db2.categories[|db1.categories|]];
    }
    BlocksStep(db1.questions, db2.questions, |db.questions|, before, name);
    assert db2.categories[..|db.categories|] == db1.categories[..|db.categories|];
    forall i, j | 0 <= i < j < |db2.categories| && |db.categories| <= j
      ensures db2.categories[i].name != db2.categories[j].name
    {
      if j < |db1.categories| {
        assert db2.categories[i] == db1.categories[i] && db2.categories[j] == db1.categories[j];
      } else {
        assert db2.categories[i] == db1.categories[i];
      }
    }
  }
}
