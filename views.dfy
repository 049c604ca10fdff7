/**
 * The REST handlers of the quiz backend: the cache-aside random batch, the
 * question/answer/score mutations and the cache invalidation they do (or do not
 * do), the top-10 ranking, and the cache branch of the OpenAI helper.
 *
 * The process-wide cache is two slots of `QuizApi`: `randomQuestions` is the key
 * "random_questions" (holding the JSON of a serialized batch, which is always a
 * non-empty string and so always truthy) and `generatedQuestions` is the key
 * "questions" (holding a decoded list, truthy only when non-empty).
 */
module Views {
  import opened Wrappers
  import opened Models
  import Text

  const BatchSize: nat := 10
  const RankingSize: nat := 10
  const NotEnoughMessage: string := "Not enough questions available."

  /** A question as `QuestionSerializer` renders it: its columns and, nested, its answers. */
  datatype QuestionView = QuestionView(question: Question, answers: seq<Answer>)

  function Serialize(db: Db, q: Question): (r: QuestionView)
    ensures r.question == q
    ensures forall a :: a in r.answers <==> a in db.answers && a.question == q.id
  {
    AnswersOfMembers(db.answers, q.id);
    QuestionView(q, AnswersOf(db.answers, q.id))
  }

  function SerializeAll(db: Db, qs: seq<Question>): (r: seq<QuestionView>)
    ensures |r| == |qs|
    ensures forall i :: 0 <= i < |qs| ==> r[i] == Serialize(db, qs[i])
  {
    seq(|qs|, i requires 0 <= i < |qs| => Serialize(db, qs[i]))
  }

  datatype Body =
    | Message(text: string)
    | ErrorMessage(error: string)
    | ValidationErrors
    | NotFound
    | Unauthorized
    | Questions(batch: seq<QuestionView>)
    | Scores(ranking: seq<Score>)

  datatype Response = Response(status: nat, body: Body)

  const Unauthorized401: Response := Response(401, Unauthorized)
  const NotFound404: Response := Response(404, NotFound)
  const Invalid400: Response := Response(400, ValidationErrors)

  // ---------------------------------------------------------------------
  // Serializer validation (DRF `CharField`: trim whitespace, refuse blank, enforce
  // max_length, refuse NUL characters)

  /** A character field's cleaned value: the stripped text when it is non-blank, short enough and free of NUL. */
  function CleanChar(raw: string, maxLength: nat): (r: Option<string>)
    ensures r.Some? <==> 0 < |Text.Strip(raw)| <= maxLength && '\0' !in Text.Strip(raw)
    ensures r.Some? ==> r.value == Text.Strip(raw) && |r.value| <= maxLength && '\0' !in r.value
  {
    var t := Text.Strip(raw);
    if 0 < |t| <= maxLength && '\0' !in t then Some(t) else None
  }

  /** NUL is not whitespace, so a NUL anywhere in the raw text survives the trim and fails validation. */
  lemma NulRejected(raw: string, maxLength: nat)
    requires '\0' in raw
    ensures CleanChar(raw, maxLength).None?
  {
    var i, j := Text.StripShape(raw);
    var k :| 0 <= k < |raw| && raw[k] == '\0';
    assert !Text.IsSpace('\0');
    assert i <= k < j;
    assert Text.Strip(raw)[k - i] == '\0';
  }

  /** An optional character field: absent stays absent, present must clean. */
  function CleanOptional(raw: Option<string>, maxLength: nat): (r: Option<Option<string>>)
    ensures raw.None? ==> r == Some(None)
    ensures raw.Some? ==> (r.Some? <==> CleanChar(raw.value, maxLength).Some?)
    ensures raw.Some? && r.Some? ==> r.value == CleanChar(raw.value, maxLength)
  {
    match raw
    case None => Some(None)
    case Some(s) => match CleanChar(s, maxLength) { case None => None case Some(t) => Some(Some(t)) }
  }

  /** The fields of a request body; a field the client did not send is `None`. */
  datatype QuestionInput = QuestionInput(text: Option<string>, quizCategory: Option<string>, difficulty: Option<string>)
  datatype AnswerInput = AnswerInput(question: Option<nat>, text: Option<string>, isCorrect: Option<bool>)
  datatype ScoreInput = ScoreInput(playerName: Option<string>, points: Option<int>)

  /**
   * `QuestionSerializer(data=...).is_valid()` for a create: text and category are
   * required, difficulty may be left out (the model default applies). The nested
   * `answers` field is read-only and ignored on input.
   */
  function CleanNewQuestion(input: QuestionInput): (r: Option<QuestionInput>)
    ensures r.Some? <==> (input.text.Some? && input.quizCategory.Some?
                          && CleanChar(input.text.value, QuestionTextMax).Some?
                          && CleanChar(input.quizCategory.value, QuizCategoryMax).Some?
                          && CleanOptional(input.difficulty, DifficultyMax).Some?)
    ensures r.Some? ==> r.value.text == Some(Text.Strip(input.text.value))
                        && r.value.quizCategory == Some(Text.Strip(input.quizCategory.value))
    ensures r.Some? ==> (r.value.difficulty.Some? <==> input.difficulty.Some?)
    ensures r.Some? && input.difficulty.Some? ==> r.value.difficulty == Some(Text.Strip(input.difficulty.value))
    ensures r.Some? ==> QuestionInBounds(MakeQuestion(0, r.value.text.value, r.value.quizCategory.value, r.value.difficulty))
  {
    if input.text.None? || input.quizCategory.None? then None
    else
      match (CleanChar(input.text.value, QuestionTextMax), CleanChar(input.quizCategory.value, QuizCategoryMax),
             CleanOptional(input.difficulty, DifficultyMax))
      case (Some(t), Some(c), Some(d)) => Some(QuestionInput(Some(t), Some(c), d))
      case _ => None
  }

  /** `QuestionSerializer(question, data=..., partial=True).is_valid()`: every field optional, each present one must clean. */
  function CleanQuestionUpdate(input: QuestionInput): (r: Option<QuestionInput>)
    ensures r.Some? <==> (CleanOptional(input.text, QuestionTextMax).Some?
                          && CleanOptional(input.quizCategory, QuizCategoryMax).Some?
                          && CleanOptional(input.difficulty, DifficultyMax).Some?)
    ensures r.Some? ==> (r.value.text.Some? == input.text.Some? && r.value.quizCategory.Some? == input.quizCategory.Some?
                         && r.value.difficulty.Some? == input.difficulty.Some?)
    ensures r.Some? && input.text.Some? ==> r.value.text == Some(Text.Strip(input.text.value))
    ensures r.Some? && input.quizCategory.Some? ==> r.value.quizCategory == Some(Text.Strip(input.quizCategory.value))
    ensures r.Some? && input.difficulty.Some? ==> r.value.difficulty == Some(Text.Strip(input.difficulty.value))
  {
    match (CleanOptional(input.text, QuestionTextMax), CleanOptional(input.quizCategory, QuizCategoryMax),
           CleanOptional(input.difficulty, DifficultyMax))
    case (Some(t), Some(c), Some(d)) => Some(QuestionInput(t, c, d))
    case _ => None
  }

  /** The saved question after a partial update: sent fields replace the old ones, the key stays. */
  function ApplyQuestionUpdate(q: Question, cleaned: QuestionInput): (r: Question)
    ensures r.id == q.id
    ensures cleaned.text.None? ==> r.text == q.text
    ensures cleaned.quizCategory.None? ==> r.quizCategory == q.quizCategory
    ensures cleaned.difficulty.None? ==> r.difficulty == q.difficulty
    ensures cleaned.text.Some? ==> r.text == cleaned.text.value
    ensures cleaned.quizCategory.Some? ==> r.quizCategory == cleaned.quizCategory.value
    ensures cleaned.difficulty.Some? ==> r.difficulty == cleaned.difficulty.value
  {
    Question(q.id, cleaned.text.GetOr(q.text), cleaned.quizCategory.GetOr(q.quizCategory), cleaned.difficulty.GetOr(q.difficulty))
  }

  /** `AnswerSerializer(...).is_valid()` for an update: a sent `question` must name an existing question. */
  function CleanAnswerUpdate(db: Db, input: AnswerInput): (r: Option<AnswerInput>)
    ensures r.Some? <==> ((input.question.Some? ==> input.question.value in QuestionIds(db))
                          && CleanOptional(input.text, AnswerTextMax).Some?)
    ensures r.Some? ==> r.value.question == input.question && r.value.isCorrect == input.isCorrect
    ensures r.Some? ==> (r.value.text.Some? <==> input.text.Some?)
    ensures r.Some? && input.text.Some? ==> r.value.text == Some(Text.Strip(input.text.value))
  {
    if input.question.Some? && input.question.value !in QuestionIds(db) then None
    else match CleanOptional(input.text, AnswerTextMax)
      case None => None
      case Some(t) => Some(AnswerInput(input.question, t, input.isCorrect))
  }

  function ApplyAnswerUpdate(a: Answer, cleaned: AnswerInput): (r: Answer)
    ensures r.id == a.id
    ensures cleaned.question.None? ==> r.question == a.question
    ensures cleaned.text.None? ==> r.text == a.text
    ensures cleaned.isCorrect.None? ==> r.isCorrect == a.isCorrect
    ensures cleaned.question.Some? ==> r.question == cleaned.question.value
    ensures cleaned.text.Some? ==> r.text == cleaned.text.value
    ensures cleaned.isCorrect.Some? ==> r.isCorrect == cleaned.isCorrect.value
  {
    Answer(a.id, cleaned.question.GetOr(a.question), cleaned.text.GetOr(a.text), cleaned.isCorrect.GetOr(a.isCorrect))
  }

  // ---------------------------------------------------------------------
  // The random batch

  predicate DistinctIds(qs: seq<Question>)
  {
    forall i, j :: 0 <= i < j < |qs| ==> qs[i].id != qs[j].id
  }

  /** What a cache miss may serve: exactly ten distinct questions of the store, each with its current answers. */
  predicate IsFreshBatch(db: Db, batch: seq<QuestionView>)
  {
    |batch| == BatchSize
    && (forall i :: 0 <= i < |batch| ==> batch[i].question in db.questions && batch[i] == Serialize(db, batch[i].question))
    && (forall i, j :: 0 <= i < j < |batch| ==> batch[i].question.id != batch[j].question.id)
  }

  lemma {:induction false} DistinctIdsCountOne(qs: seq<Question>, x: Question)
    requires DistinctIds(qs)
    ensures multiset(qs)[x] <= 1
  {
    if qs != [] {
      assert qs == [qs[0]] + qs[1..];
      assert DistinctIds(qs[1..]) by {
        forall i, j | 0 <= i < j < |qs[1..]| ensures qs[1..][i].id != qs[1..][j].id {
          assert qs[1..][i] == qs[i + 1] && qs[1..][j] == qs[j + 1];
        }
      }
      DistinctIdsCountOne(qs[1..], x);
      if qs[0] == x {
        assert x !in qs[1..] by {
          forall k | 0 <= k < |qs[1..]| ensures qs[1..][k] != x {
            assert qs[1..][k] == qs[k + 1];
          }
        }
      }
    }
  }

  lemma RepeatedCountsTwice(s: seq<Question>, i: nat, j: nat)
    requires i < j < |s| && s[i] == s[j]
    ensures multiset(s)[s[i]] >= 2
  {
    assert s == s[..i] + [s[i]] + s[i + 1..j] + [s[j]] + s[j + 1..];
  }

  /**
   * `random.shuffle` then `[:n]`: a prefix of any permutation of a table with
   * distinct keys holds `n` distinct questions, all taken from the table.
   */
  lemma ShuffledPrefix(all: seq<Question>, shuffled: seq<Question>, n: nat)
    requires DistinctIds(all) && multiset(shuffled) == multiset(all) && n <= |all|
    ensures |shuffled| == |all| && |shuffled[..n]| == n
    ensures forall i :: 0 <= i < n ==> shuffled[i] in all
    ensures DistinctIds(shuffled[..n])
  {
    assert |shuffled| == |multiset(shuffled)| == |all|;
    forall i | 0 <= i < |shuffled| ensures shuffled[i] in all {
      assert shuffled[i] in multiset(shuffled);
    }
    forall i, j | 0 <= i < j < n ensures shuffled[..n][i].id != shuffled[..n][j].id {
      var p, q := shuffled[i], shuffled[j];
      if p.id == q.id {
        var a :| 0 <= a < |all| && all[a] == p;
        var b :| 0 <= b < |all| && all[b] == q;
        assert a == b;
        RepeatedCountsTwice(shuffled, i, j);
        DistinctIdsCountOne(all, p);
        assert false;
      }
    }
  }

  lemma OrderedDistinct(db: Db)
    requires Models.Valid(db)
    ensures DistinctIds(db.questions)
  {
  }

  // ---------------------------------------------------------------------
  // The ranking: `Score.objects.order_by('-points')[:10]`

  predicate PointsDescending(s: seq<Score>)
  {
    forall i, j :: 0 <= i < j < |s| ==> s[i].points >= s[j].points
  }

  /** Places `x` before the first score with no more points than it (ties keep table order). */
  function InsertByPoints(x: Score, sorted: seq<Score>): seq<Score>
  {
    if sorted == [] then [x]
    else if sorted[0].points <= x.points then [x] + sorted
    else [sorted[0]] + InsertByPoints(x, sorted[1..])
  }

  /** The score table sorted by descending points. */
  function SortByPoints(scores: seq<Score>): seq<Score>
  {
    if scores == [] then [] else InsertByPoints(scores[0], SortByPoints(scores[1..]))
  }

  function Ranking(scores: seq<Score>): seq<Score>
  {
    var sorted := SortByPoints(scores);
    if |sorted| <= RankingSize then sorted else sorted[..RankingSize]
  }

  lemma TailDescending(s: seq<Score>)
    requires s != [] && PointsDescending(s)
    ensures PointsDescending(s[1..])
  {
    forall i, j | 0 <= i < j < |s[1..]| ensures s[1..][i].points >= s[1..][j].points {
      assert s[1..][i] == s[i + 1] && s[1..][j] == s[j + 1];
    }
  }

  lemma PrependDescending(h: Score, rest: seq<Score>)
    requires PointsDescending(rest)
    requires forall k :: 0 <= k < |rest| ==> h.points >= rest[k].points
    ensures PointsDescending([h] + rest)
  {
    var r := [h] + rest;
    forall i, j | 0 <= i < j < |r| ensures r[i].points >= r[j].points {
      assert r[j] == rest[j - 1];
      if i > 0 { assert r[i] == rest[i - 1]; }
    }
  }

  /** Every element of the inserted sequence is `x` or comes from `sorted`. */
  lemma InsertedFrom(x: Score, sorted: seq<Score>, y: Score)
    requires y in multiset(sorted) + multiset{x}
    ensures y == x || y in sorted
  {
  }

  lemma {:induction false} InsertByPointsSorted(x: Score, sorted: seq<Score>)
    requires PointsDescending(sorted)
    ensures PointsDescending(InsertByPoints(x, sorted))
    ensures multiset(InsertByPoints(x, sorted)) == multiset(sorted) + multiset{x}
  {
    if sorted == [] {
    } else if sorted[0].points <= x.points {
      PrependDescending(x, sorted);
    } else {
      var tail := sorted[1..];
      assert sorted == [sorted[0]] + tail;
      TailDescending(sorted);
      InsertByPointsSorted(x, tail);
      var rest := InsertByPoints(x, tail);
      forall k | 0 <= k < |rest| ensures sorted[0].points >= rest[k].points {
        assert rest[k] in multiset(rest);
        InsertedFrom(x, tail, rest[k]);
        if rest[k] != x {
          var m :| 0 <= m < |tail| && tail[m] == rest[k];
          assert sorted[m + 1] == rest[k];
        }
      }
      PrependDescending(sorted[0], rest);
    }
  }

  /** Sorting keeps every score exactly once and puts them in non-increasing points. */
  lemma {:induction false} SortByPointsSorted(scores: seq<Score>)
    ensures PointsDescending(SortByPoints(scores))
    ensures multiset(SortByPoints(scores)) == multiset(scores)
  {
    if scores != [] {
      SortByPointsSorted(scores[1..]);
      InsertByPointsSorted(scores[0], SortByPoints(scores[1..]));
      assert scores == [scores[0]] + scores[1..];
    }
  }

  lemma PrefixDescending(s: seq<Score>, n: nat)
    requires n <= |s| && PointsDescending(s)
    ensures PointsDescending(s[..n])
  {
    forall i, j | 0 <= i < j < n ensures s[..n][i].points >= s[..n][j].points {
      assert s[..n][i] == s[i] && s[..n][j] == s[j];
    }
  }

  /** In a descending sequence, nothing after position `n - 1` beats the element at `n - 1`. */
  lemma DroppedNoHigher(s: seq<Score>, n: nat)
    requires 0 < n <= |s| && PointsDescending(s)
    ensures forall y :: y in multiset(s[n..]) ==> y.points <= s[n - 1].points
  {
    forall y | y in multiset(s[n..]) ensures y.points <= s[n - 1].points {
      assert y in s[n..];
      var k :| 0 <= k < |s[n..]| && s[n..][k] == y;
      assert s[n + k] == y;
    }
  }

  lemma SplitMultiset(s: seq<Score>, n: nat)
    requires n <= |s|
    ensures multiset(s) - multiset(s[..n]) == multiset(s[n..])
    ensures multiset(s[..n]) <= multiset(s)
  {
    assert s == s[..n] + s[n..];
  }

  /**
   * The ranking has min(10, n) entries, in non-increasing points, all taken from
   * the table, and no score left out has more points than the last one shown.
   */
  lemma RankingIsTopTen(scores: seq<Score>)
    ensures |Ranking(scores)| == if |scores| <= RankingSize then |scores| else RankingSize
    ensures PointsDescending(Ranking(scores))
    ensures multiset(Ranking(scores)) <= multiset(scores)
    ensures forall s :: s in multiset(scores) - multiset(Ranking(scores)) ==>
      s.points <= Ranking(scores)[|Ranking(scores)| - 1].points
  {
    var sorted := SortByPoints(scores);
    SortByPointsSorted(scores);
    assert |sorted| == |multiset(sorted)| == |scores|;
    if |sorted| > RankingSize {
      PrefixDescending(sorted, RankingSize);
      SplitMultiset(sorted, RankingSize);
      DroppedNoHigher(sorted, RankingSize);
    } else {
      assert sorted[..|sorted|] == sorted;
      SplitMultiset(sorted, |sorted|);
    }
  }

  // ---------------------------------------------------------------------
  // The handlers

  class QuizApi {
    var db: Db
    /** The cache key "random_questions". */
    var randomQuestions: Option<seq<QuestionView>>
    /** The cache key "questions", written by the OpenAI helper. */
    var generatedQuestions: Option<seq<string>>

    ghost predicate Valid()
      reads this
    {
      Models.Valid(db)
    }

    constructor (db0: Db)
      requires Models.Valid(db0)
      ensures Valid() && db == db0 && randomQuestions == None && generatedQuestions == None
    {
      db := db0;
      randomQuestions := None;
      generatedQuestions := None;
    }

    /**
     * `get_random_questions`: a hit returns the cached batch untouched; a miss
     * with fewer than ten questions is a 400; otherwise ten questions of a shuffle
     * are serialized, cached and returned. The store is never changed.
     */
    method GetRandomQuestions() returns (r: Response)
      requires Valid()
      modifies this`randomQuestions
      ensures Valid() && db == old(db)
      ensures old(randomQuestions).Some? ==>
        r == Response(200, Questions(old(randomQuestions).value)) && randomQuestions == old(randomQuestions)
      ensures old(randomQuestions).None? && |db.questions| < BatchSize ==>
        r == Response(400, ErrorMessage(NotEnoughMessage)) && randomQuestions == None
      ensures old(randomQuestions).None? && |db.questions| >= BatchSize ==>
        r.status == 200 && r.body.Questions? && IsFreshBatch(db, r.body.batch) && randomQuestions == Some(r.body.batch)
    {
      if randomQuestions.Some? {
        return Response(200, Questions(randomQuestions.value));
      }
      var questions := db.questions;
      if |questions| < BatchSize {
        return Response(400, ErrorMessage(NotEnoughMessage));
      }
      assert multiset(questions) == multiset(questions);
      var shuffled: seq<Question> :| multiset(shuffled) == multiset(questions);
      OrderedDistinct(db);
      ShuffledPrefix(questions, shuffled, BatchSize);
      var selected := SerializeAll(db, shuffled[..BatchSize]);
      randomQuestions := Some(selected);
      r := Response(200, Questions(selected));
    }

    /** `add_question`: on success the question is stored and "random_questions" deleted. */
    method AddQuestion(authenticated: bool, input: QuestionInput) returns (r: Response)
      requires Valid()
      modifies this`db, this`randomQuestions
      ensures Valid()
      ensures !authenticated ==> r == Unauthorized401 && db == old(db) && randomQuestions == old(randomQuestions)
      ensures authenticated && CleanNewQuestion(input).None? ==>
        r == Invalid400 && db == old(db) && randomQuestions == old(randomQuestions)
      ensures authenticated && CleanNewQuestion(input).Some? ==>
        var c := CleanNewQuestion(input).value;
        r == Response(201, Message("Question added successfully!"))
        && db == Models.AddQuestion(old(db), c.text.value, c.quizCategory.value, c.difficulty)
        && QuestionInBounds(db.questions[|db.questions| - 1])
        && randomQuestions == None
    {
      if !authenticated {
        return Unauthorized401;
      }
      var cleaned := CleanNewQuestion(input);
      if cleaned.None? {
        return Invalid400;
      }
      var c := cleaned.value;
      AddQuestionValid(db, c.text.value, c.quizCategory.value, c.difficulty);
      db := Models.AddQuestion(db, c.text.value, c.quizCategory.value, c.difficulty);
      randomQuestions := None;
      r := Response(201, Message("Question added successfully!"));
    }

    /** `edit_question`: 404 for an unknown key; on success the row is rewritten and "random_questions" deleted. */
    method EditQuestion(authenticated: bool, questionId: nat, input: QuestionInput) returns (r: Response)
      requires Valid()
      modifies this`db, this`randomQuestions
      ensures Valid()
      ensures !authenticated ==> r == Unauthorized401 && db == old(db) && randomQuestions == old(randomQuestions)
      ensures authenticated && FindQuestion(old(db), questionId).None? ==>
        r == NotFound404 && db == old(db) && randomQuestions == old(randomQuestions)
      ensures authenticated && FindQuestion(old(db), questionId).Some? && CleanQuestionUpdate(input).None? ==>
        r == Invalid400 && db == old(db) && randomQuestions == old(randomQuestions)
      ensures authenticated && FindQuestion(old(db), questionId).Some? && CleanQuestionUpdate(input).Some? ==>
        var q := ApplyQuestionUpdate(FindQuestion(old(db), questionId).value, CleanQuestionUpdate(input).value);
        r == Response(200, Message("Question updated successfully!"))
        && db == old(db).(questions := ReplaceQuestion(old(db).questions, q))
        && randomQuestions == None
    {
      if !authenticated {
        return Unauthorized401;
      }
      var found := FindQuestion(db, questionId);
      if found.None? {
        return NotFound404;
      }
      var cleaned := CleanQuestionUpdate(input);
      if cleaned.None? {
        return Invalid400;
      }
      var q := ApplyQuestionUpdate(found.value, cleaned.value);
      UpdateQuestionValid(db, q);
      db := db.(questions := ReplaceQuestion(db.questions, q));
      randomQuestions := None;
      r := Response(200, Message("Question updated successfully!"));
    }

    /** `delete_question`: 404 for an unknown key; otherwise the question and its answers go, and so does the cache entry. */
    method DeleteQuestion(authenticated: bool, questionId: nat) returns (r: Response)
      requires Valid()
      modifies this`db, this`randomQuestions
      ensures Valid()
      ensures !authenticated ==> r == Unauthorized401 && db == old(db) && randomQuestions == old(randomQuestions)
      ensures authenticated && FindQuestion(old(db), questionId).None? ==>
        r == NotFound404 && db == old(db) && randomQuestions == old(randomQuestions)
      ensures authenticated && FindQuestion(old(db), questionId).Some? ==>
        r == Response(204, Message("Question deleted successfully!"))
        && db == Models.DeleteQuestion(old(db), questionId)
        && randomQuestions == None
    {
      if !authenticated {
        return Unauthorized401;
      }
      var found := FindQuestion(db, questionId);
      if found.None? {
        return NotFound404;
      }
      DeleteQuestionValid(db, questionId);
      db := Models.DeleteQuestion(db, questionId);
      randomQuestions := None;
      r := Response(204, Message("Question deleted successfully!"));
    }

    /** `add_answer`: the answer is attached to the question in the URL; the cache is left alone. */
    method AddAnswer(authenticated: bool, questionId: nat, input: AnswerInput) returns (r: Response)
      requires Valid()
      modifies this`db
      ensures Valid()
      ensures !authenticated ==> r == Unauthorized401 && db == old(db)
      ensures authenticated && FindQuestion(old(db), questionId).None? ==> r == NotFound404 && db == old(db)
      ensures authenticated && FindQuestion(old(db), questionId).Some? ==>
        if input.text.Some? && CleanChar(input.text.value, AnswerTextMax).Some? then
          r == Response(201, Message("Answer added successfully!"))
          && db == Models.AddAnswer(old(db), questionId, CleanChar(input.text.value, AnswerTextMax).value, input.isCorrect)
          && AnswerInBounds(db.answers[|db.answers| - 1])
        else
          r == Invalid400 && db == old(db)
    {
      if !authenticated {
        return Unauthorized401;
      }
      var found := FindQuestion(db, questionId);
      if found.None? {
        return NotFound404;
      }
      // `data['question'] = question.id` overrides whatever question the body named.
      if input.text.None? {
        return Invalid400;
      }
      var text := CleanChar(input.text.value, AnswerTextMax);
      if text.None? {
        return Invalid400;
      }
      AddAnswerValid(db, questionId, text.value, input.isCorrect);
      db := Models.AddAnswer(db, questionId, text.value, input.isCorrect);
      r := Response(201, Message("Answer added successfully!"));
    }

    /** `edit_answer`: a partial update of one answer; the cache is left alone. */
    method EditAnswer(authenticated: bool, answerId: nat, input: AnswerInput) returns (r: Response)
      requires Valid()
      modifies this`db
      ensures Valid()
      ensures !authenticated ==> r == Unauthorized401 && db == old(db)
      ensures authenticated && FindAnswer(old(db), answerId).None? ==> r == NotFound404 && db == old(db)
      ensures authenticated && FindAnswer(old(db), answerId).Some? && CleanAnswerUpdate(old(db), input).None? ==>
        r == Invalid400 && db == old(db)
      ensures authenticated && FindAnswer(old(db), answerId).Some? && CleanAnswerUpdate(old(db), input).Some? ==>
        var a := ApplyAnswerUpdate(FindAnswer(old(db), answerId).value, CleanAnswerUpdate(old(db), input).value);
        r == Response(200, Message("Answer updated successfully!"))
        && db == old(db).(answers := ReplaceAnswer(old(db).answers, a))
    {
      if !authenticated {
        return Unauthorized401;
      }
      var found := FindAnswer(db, answerId);
      if found.None? {
        return NotFound404;
      }
      var cleaned := CleanAnswerUpdate(db, input);
      if cleaned.None? {
        return Invalid400;
      }
      var a := ApplyAnswerUpdate(found.value, cleaned.value);
      assert a.question in QuestionIds(db) by {
        var k :| 0 <= k < |db.answers| && db.answers[k] == found.value;
      }
      UpdateAnswerValid(db, a);
      db := db.(answers := ReplaceAnswer(db.answers, a));
      r := Response(200, Message("Answer updated successfully!"));
    }

    /** `delete_answer`: the one answer goes; the cache is left alone. */
    method DeleteAnswer(authenticated: bool, answerId: nat) returns (r: Response)
      requires Valid()
      modifies this`db
      ensures Valid()
      ensures !authenticated ==> r == Unauthorized401 && db == old(db)
      ensures authenticated && FindAnswer(old(db), answerId).None? ==> r == NotFound404 && db == old(db)
      ensures authenticated && FindAnswer(old(db), answerId).Some? ==>
        r == Response(204, Message("Answer deleted successfully!")) && db == Models.DeleteAnswer(old(db), answerId)
    {
      if !authenticated {
        return Unauthorized401;
      }
      var found := FindAnswer(db, answerId);
      if found.None? {
        return NotFound404;
      }
      DeleteAnswerValid(db, answerId);
      db := Models.DeleteAnswer(db, answerId);
      r := Response(204, Message("Answer deleted successfully!"));
    }

    /** `submit_score`: `now` is the clock reading that `auto_now_add` stores. */
    method SubmitScore(authenticated: bool, input: ScoreInput, now: int) returns (r: Response)
      requires Valid()
      modifies this`db
      ensures Valid()
      ensures !authenticated ==> r == Unauthorized401 && db == old(db)
      ensures authenticated ==>
        if input.playerName.Some? && input.points.Some? && CleanChar(input.playerName.value, PlayerNameMax).Some? then
          r == Response(201, Message("Score submitted successfully!"))
          && db == AddScore(old(db), CleanChar(input.playerName.value, PlayerNameMax).value, input.points.value, now)
          && ScoreInBounds(db.scores[|db.scores| - 1])
        else
          r == Invalid400 && db == old(db)
    {
      if !authenticated {
        return Unauthorized401;
      }
      if input.playerName.None? || input.points.None? {
        return Invalid400;
      }
      var name := CleanChar(input.playerName.value, PlayerNameMax);
      if name.None? {
        return Invalid400;
      }
      AddScoreValid(db, name.value, input.points.value, now);
      db := AddScore(db, name.value, input.points.value, now);
      r := Response(201, Message("Score submitted successfully!"));
    }

    /** `get_ranking`: the top ten scores by points, highest first. */
    method GetRanking() returns (r: Response)
      ensures r.status == 200 && r.body.Scores?
      ensures PointsDescending(r.body.ranking) && multiset(r.body.ranking) <= multiset(db.scores)
      ensures |r.body.ranking| == if |db.scores| <= RankingSize then |db.scores| else RankingSize
      ensures forall s :: s in multiset(db.scores) - multiset(r.body.ranking) ==>
        s.points <= r.body.ranking[|r.body.ranking| - 1].points
    {
      RankingIsTopTen(db.scores);
      r := Response(200, Scores(Ranking(db.scores)));
    }

    /**
     * The cache branch of `fetch_questions_from_openai`. `reply` is what the
     * OpenAI call and `json.loads` produce, `None` when either raises. A cached
     * list is served only when it is non-empty (truthy).
     */
    method FetchQuestionsFromOpenAI(reply: Option<seq<string>>) returns (r: seq<string>)
      modifies this`generatedQuestions
      ensures old(generatedQuestions).Some? && old(generatedQuestions).value != [] ==>
        r == old(generatedQuestions).value && generatedQuestions == old(generatedQuestions)
      ensures !(old(generatedQuestions).Some? && old(generatedQuestions).value != []) ==>
        if reply.Some? then r == reply.value && generatedQuestions == reply
        else r == [] && generatedQuestions == old(generatedQuestions)
    {
      if generatedQuestions.Some? && generatedQuestions.value != [] {
        return generatedQuestions.value;
      }
      if reply.None? {
        return [];
      }
      generatedQuestions := reply;
      r := reply.value;
    }
  }

  /**
   * Two reads with no question mutation in between see the same batch: the
   * first either hit or filled the cache, the second hits it.
   */
  method RepeatedReadsAgree(api: QuizApi) returns (first: Response, second: Response)
    requires api.Valid()
    modifies api`randomQuestions
    ensures first.status == 200 ==> second == first
    ensures first.status == 400 ==> second == first
  {
    first := api.GetRandomQuestions();
    second := api.GetRandomQuestions();
  }

  /** Answer mutations never touch the cached batch, so a hit after one still serves the old batch. */
  method AnswerEditKeepsCache(api: QuizApi, answerId: nat, input: AnswerInput) returns (before: Response, after: Response)
    requires api.Valid() && api.randomQuestions.Some?
    modifies api`db, api`randomQuestions
    ensures before.status == 200 && after == before
  {
    before := api.GetRandomQuestions();
    var _ := api.EditAnswer(true, answerId, input);
    after := api.GetRandomQuestions();
  }
}
