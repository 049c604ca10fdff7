# Quiz: a Dafny model of the backend, the front-end state machines and the seeding scripts

The Quiz application is a Django REST backend with a websocket countdown, two Reflex front-end states, and a few scripts that fill the database. This project models the logic under the framework plumbing and proves what that logic promises:

- **Data model** (`models.dfy`, module `Models`). The `Question`, `Answer` and `Score` records, their `__str__` renderings, field defaults and `max_length` bounds. The database is a value `Db`: each table is kept in primary-key order under its own auto-increment counter. `QuizCategory` is imported by views.py and the seeders but not declared in models.py (so those modules fail to import as written); the model assumes it with the one field the seeders use, `name`. Deleting a question removes its answers too (`on_delete=CASCADE`). `Valid` is the consistency every operation preserves: keys ascend below their counters, and every answer's question exists.
- **REST handlers** (`views.dfy`, module `Views`). `QuizApi` is a class holding the store and two cache slots: `"random_questions"` and the OpenAI helper's `"questions"`.
  - `get_random_questions` serves the cache on a hit. On a miss it answers 400 when the store has fewer than ten questions. Otherwise it serves ten distinct questions from a nondeterministic permutation and caches them.
  - Question create, edit and delete clear the cache key. Answer create, edit and delete leave it alone.
  - The ranking sorts the scores by descending points and keeps the first ten.
  - Request validation follows DRF's `CharField`: surrounding whitespace is trimmed, blank values are rejected, `max_length` is enforced, and a text holding a NUL character is rejected. Dafny's `char` cannot hold a lone surrogate, so CharField's rejection of surrogate characters has no counterpart here. An unknown key gives 404.
  - An unauthenticated caller gets 401 and nothing changes.
- **Text helpers** (`text.dfy`, module `Text`). The parts of Python's `str` the code relies on: `strip()`, `split("\n")`, `"\n".join`, and `str(int)`. `str(int)` comes with a parser, so what f-strings and `json.dumps` write can be read back.
- **Websocket consumer** (`consumers.py` → `consumers.dfy`, module `Consumers`). The channel layer is a class holding group membership and the log of group messages.
  - Each connection joins the single group `"quiz_timer"`.
  - A `"start_timer"` action sends 31 messages, 30 down to 0.
  - `send_timer` writes `{"seconds_remaining": n}`.
- **Front end, quiz list** (`quiz_frontend/state.py` → `front_state.dfy`, module `FrontState`). The state is a value `Quiz`, with the computed vars and one function per event. The class `QuizState` has handlers proved to follow those functions.
- **Front end, timed quiz page** (`quiz_frontend/pages/quiz.py` → `quiz_page.dfy`, module `QuizPage`).
  - A question is loaded out of a JSON record where any key may be missing (`records.dfy`).
  - A correct answer scores the seconds left.
  - The page moves on until the tenth question.
  - It follows the server's countdown.
  - `QuizPageState`'s handlers are proved to follow the functions on `Page`.
- **Scripts.**
  - puebra.py (`puebra.dfy`): parses each reply into a question line and answer lines, and writes six-column CSV rows.
  - The OpenAI import (`openai_import.dfy`): keeps the first lines of a reply and stores each one as a question with one correct "Sample Answer".
  - The two fake-data seeders (`seeding.dfy`): populate_db checks whether a category name already exists; utils.py does not.

External results are parameters: the chat model's replies, HTTP and websocket payloads, the clock read by `auto_now_add`, and whether the caller is authenticated. Randomness (`random.shuffle`, `random.choice`, Faker) is nondeterministic choice (`:|`), so every contract holds whatever it picks.

Behaviour of the program worth knowing:
- There is one broadcast group, `"quiz_timer"`, and one cache key that writes delete, `"random_questions"`.
- Answer mutations do not invalidate the cached batch, so a cache hit after one still serves the old answers. `Views.AnswerEditKeepsCache` states this.
- `next_question` in pages/quiz.py calls the coroutine function `fetch_question` without awaiting it, so no fetch happens there. In the model, `next_question` only moves the index or ends the game.

## Model

| member | source | states |
|---|---|---|
| Models.AnswerStr | quiz_project/quiz/models.py:14-15 | the rendering is the text followed by " (Correcta)" exactly when the answer is correct, and by " (Incorrecta)" exactly when it is not |
| Models.QuestionStr | quiz_project/quiz/models.py:7-8 | a question renders as its text |
| Models.AnswerStrFlagChar | quiz_project/quiz/models.py:14-15 | eleven characters from the end, the rendering shows ' ' for a correct answer and 'I' for an incorrect one |
| Models.AnswerStrInjective | quiz_project/quiz/models.py:14-15 | two answers with the same rendering have the same text and the same flag |
| Models.ScoreStr | quiz_project/quiz/models.py:22-23 | the rendering is the player name, then " - ", then digits that read back as the points |
| Models.MakeQuestion | quiz_project/quiz/models.py:2-5 | a question created without a difficulty gets "easy"; a given difficulty is kept |
| Models.MakeAnswer | quiz_project/quiz/models.py:9-12 | an answer created without a flag is not correct; a given flag is kept |
| Models.FindQuestion | quiz_project/quiz/views.py:123 | the lookup behind get_object_or_404 finds a question exactly when its key is in the table, and the one found is that row |
| Models.FindAnswer | quiz_project/quiz/views.py:166 | the lookup finds an answer exactly when its key is in the table, and the one found is that row |
| Models.AddQuestionValid | quiz_project/quiz/models.py:2-5 | a created question keeps the database consistent and adds exactly the next key to the question keys |
| Models.AddAnswerValid | quiz_project/quiz/models.py:10 | an answer created for an existing question keeps the foreign key intact |
| Models.UpdateQuestionValid | quiz_project/quiz/views.py:124-126 | saving a changed question under its own key keeps the database consistent and the set of question keys unchanged |
| Models.UpdateAnswerValid | quiz_project/quiz/views.py:167-169 | saving a changed answer whose question exists keeps the database consistent |
| Models.AnswersOfMembers | quiz_project/quiz/models.py:10 | a question's answers (`related_name="answers"`) are exactly the answers that point at it |
| Models.AnswersNotOfMembers | quiz_project/quiz/models.py:10 | the answers kept when a question goes are exactly those of other questions |
| Models.AnswersPartition | quiz_project/quiz/models.py:10 | a question's answers and the rest split the table as multisets: nothing lost, nothing duplicated |
| Models.AnswersNotOfKeepsOthers | quiz_project/quiz/models.py:10 | deleting one question leaves every other question's answers, in order, unchanged |
| Models.CascadeDelete | quiz_project/quiz/models.py:10 | after deleting a question, its key is gone, it has no answers, and the remaining answers are exactly the old ones of other questions (as multisets: the old table minus its answers) |
| Models.DeleteQuestionValid | quiz_project/quiz/models.py:10 | deleting a question keeps the database consistent (no orphaned answer) and removes exactly that key |
| Models.DeleteAnswerValid | quiz_project/quiz/views.py:180-181 | deleting an answer keeps the database consistent |
| Views.CleanChar | quiz_project/quiz/views.py:109-110 | a character field validates exactly when its stripped text is non-blank, within max_length and free of NUL characters, and the stripped text is what is saved |
| Views.NulRejected | quiz_project/quiz/views.py:109-110 | a text holding a NUL anywhere, even next to surrounding whitespace, fails validation |
| Views.CleanOptional | quiz_project/quiz/views.py:124-125 | an absent field of a partial update stays absent; a present one validates exactly as a character field |
| Views.CleanNewQuestion | quiz_project/quiz/views.py:109-110 | a new question validates exactly when text and category are present and clean and a given difficulty is clean; the question it yields holds the stripped text and category, the stripped difficulty when one was sent (none otherwise), and is within the length bounds |
| Views.CleanQuestionUpdate | quiz_project/quiz/views.py:124-125 | a partial question update validates exactly when every field sent is clean, and it yields exactly the fields sent, each as its stripped text |
| Views.ApplyQuestionUpdate | quiz_project/quiz/views.py:124-126 | after a partial update, the key stays, every field sent replaces the old value and every field not sent keeps it |
| Views.CleanAnswerUpdate | quiz_project/quiz/views.py:167-168 | an answer update validates exactly when a question it names exists and a text it sends is clean; it yields the question and flag as sent and the text stripped, and only if sent |
| Views.ApplyAnswerUpdate | quiz_project/quiz/views.py:167-169 | after a partial answer update, the key stays, a sent question, text or flag replaces the old value, and every field not sent keeps it |
| Views.Serialize | quiz_project/quiz/serializers.py:10-16 | a serialized question carries the question itself and, nested, exactly the answers whose foreign key is that question (`Models.AnswersOfMembers` states this for the answer filter) |
| Views.SerializeAll | quiz_project/quiz/views.py:65 | `many=True` serializes each question of the list, one view per question, in order |
| Views.ShuffledPrefix | quiz_project/quiz/views.py:64-65 | the first n of any permutation of a table with distinct keys are n distinct questions of the table |
| Views.InsertByPointsSorted | quiz_project/quiz/views.py:85 | inserting a score into a list in descending points keeps it descending and adds exactly that score |
| Views.SortByPointsSorted | quiz_project/quiz/views.py:85 | `order_by('-points')` yields the scores, each exactly once, in non-increasing points |
| Views.RankingIsTopTen | quiz_project/quiz/views.py:85 | the ranking has min(10, n) scores of the table, in non-increasing points, and no score left out has more points than the last one shown |
| Views.QuizApi.GetRandomQuestions | quiz_project/quiz/views.py:56-67 | a hit returns the cached batch and leaves the cache alone; a miss with fewer than 10 questions returns 400 "Not enough questions available." and caches nothing; otherwise it returns and caches 10 distinct questions of the store, each with its answers; the store never changes |
| Views.RepeatedReadsAgree | quiz_project/quiz/views.py:56-67 | two reads with no mutation between them give the same response |
| Views.QuizApi.AddQuestion | quiz_project/quiz/views.py:107-114 | 401 and no change without authentication; 400 and no change for invalid data; otherwise 201, the cleaned question is appended under the next key, and "random_questions" is deleted |
| Views.QuizApi.EditQuestion | quiz_project/quiz/views.py:121-129 | 401, 404 for an unknown key, or 400, each with store and cache untouched; otherwise 200, that one row is rewritten, and the cache key is deleted |
| Views.QuizApi.DeleteQuestion | quiz_project/quiz/views.py:136-141 | 401 or 404 with nothing changed; otherwise 204, the question and (by cascade) its answers are removed, and the cache key is deleted |
| Views.QuizApi.AddAnswer | quiz_project/quiz/views.py:148-157 | 401 or 404 with nothing changed; the answer is attached to the question in the URL; 201 with the cleaned text when it validates, 400 with nothing changed otherwise; the cache is never touched |
| Views.QuizApi.EditAnswer | quiz_project/quiz/views.py:164-171 | 401, 404 or 400 with nothing changed; otherwise 200 and that one answer is rewritten; the cache is never touched |
| Views.QuizApi.DeleteAnswer | quiz_project/quiz/views.py:178-182 | 401 or 404 with nothing changed; otherwise 204 and the answer is removed; the cache is never touched |
| Views.AnswerEditKeepsCache | quiz_project/quiz/views.py:164-171 | with a batch cached, a read after an answer edit serves exactly the batch served before it |
| Views.QuizApi.SubmitScore | quiz_project/quiz/views.py:94-100 | 401 with nothing changed; 201 and a score appended under the next key with the cleaned name, points and the clock reading when name and points are valid; 400 with nothing changed otherwise |
| Views.QuizApi.GetRanking | quiz_project/quiz/views.py:83-87 | 200 with min(10, n) scores of the table in non-increasing points, none omitted having more points than the last shown |
| Views.QuizApi.FetchQuestionsFromOpenAI | quiz_project/quiz/views.py:23-41 | a non-empty cached list is returned unchanged; otherwise a reply is returned and cached, and a failed call returns [] and leaves the cache as it was |
| Text.StripShape | puebra.py:37 | `strip()` yields an infix of the input, cut only at whitespace, that neither starts nor ends with whitespace |
| Text.StripIdempotent | puebra.py:37 | stripping twice is stripping once |
| Text.SplitPieces | puebra.py:37 | no piece of `split("\n")` holds a line break |
| Text.JoinSplit | puebra.py:37 | joining the pieces of a split with the separator gives back the text |
| Text.SplitJoin | quiz_project/quiz/app_add_generate_questions_with_api_openai.py:23 | splitting a joined non-empty list of separator-free pieces gives back the list |
| Text.SplitNoSeparator | puebra.py:37-39 | text without a line break splits into itself alone |
| Text.SplitCount | puebra.py:37-39 | a split has one more piece than the text has line breaks |
| Text.NatToString | quiz_project/quiz/models.py:23 | `str(n)` for n >= 0 is a non-empty string of digits without a leading zero |
| Text.IntToStringRoundTrip | quiz_project/quiz/models.py:23 | the decimal text of any integer reads back as that integer |
| Text.IntToStringInjective | quiz_project/quiz/models.py:23 | different integers are written differently |
| Consumers.CountdownShape | quiz_project/quiz/consumers.py:24 | `range(30, -1, -1)` is 31 values, value i being 30 - i, all within [0, 30], each one less than the one before |
| Consumers.CountdownMessagesShape | quiz_project/quiz/consumers.py:24-31 | the countdown's group messages are 31 messages of type "send_timer" carrying 30, 29, ..., 0 |
| Consumers.TimerPayloadRoundTrip | quiz_project/quiz/consumers.py:34-38 | the text `send_timer` writes is the one-key object `{"seconds_remaining": n}` and reads back as n |
| Consumers.CountdownSendsAreMessages | quiz_project/quiz/consumers.py:24-31 | a countdown's 31 sends are the countdown messages, in order, all addressed to the connection's group |
| Consumers.ChannelLayer.GroupAdd | quiz_project/quiz/consumers.py:8 | the channel is added to the group; nothing is sent |
| Consumers.ChannelLayer.GroupDiscard | quiz_project/quiz/consumers.py:11-12 | the channel is no longer in the group, every other membership of every group is unchanged, and nothing is sent |
| Consumers.ChannelLayer.GroupSend | quiz_project/quiz/consumers.py:25-31 | the message is appended to the log; membership is unchanged |
| Consumers.QuizTimerConsumer.Connect | quiz_project/quiz/consumers.py:6-9 | the connection's group is "quiz_timer", its channel joins it, and the socket is accepted |
| Consumers.QuizTimerConsumer.Disconnect | quiz_project/quiz/consumers.py:11-12 | exactly this channel leaves the group it joined; nothing is sent |
| Consumers.QuizTimerConsumer.Receive | quiz_project/quiz/consumers.py:14-20 | the action "start_timer" appends one full countdown to the group's sends; any other or missing action sends nothing |
| Consumers.QuizTimerConsumer.StartCountdown | quiz_project/quiz/consumers.py:22-32 | the sends grow by the 31 countdown messages, in order, to the connection's group |
| Consumers.QuizTimerConsumer.SendTimers | quiz_project/quiz/consumers.py:24-32 | the loop appends one "send_timer" message per value, in order |
| Consumers.QuizTimerConsumer.SendTimer | quiz_project/quiz/consumers.py:34-38 | the socket receives exactly `{"seconds_remaining": n}` for the event's n |
| Consumers.TwoConnections | quiz_project/quiz/consumers.py:6-12 | two connections share "quiz_timer"; when one disconnects the other stays a member |
| FrontState.Quiz.QuizResult | quiz_frontend/state.py:32-34 | the result text is "Quiz Completed! Your score: " followed by digits that read back as the score |
| FrontState.EventsKeepIndexInRange | quiz_frontend/state.py:36-53 | a fetch and a selection each keep the index naming a question (or 0 with none) |
| FrontState.FailedFetchChangesNothing | quiz_frontend/state.py:38-45 | a non-200 fetch leaves every field unchanged |
| FrontState.SelectedEffect | quiz_frontend/state.py:47-53 | a selection appends exactly its pair; before the last question it advances the index by one and does not complete; otherwise it keeps the index, completes, and scores the number of selections |
| FrontState.RunFromFetch | quiz_frontend/state.py:36-60 | after a fetch of n >= 1 questions and k selections, the pairs are the selections, the index is min(k, n - 1), the quiz is complete exactly when k >= n, and then the score is k |
| FrontState.RunFrom | quiz_frontend/state.py:47-60 | the same invariant carried through any further selections |
| FrontState.CurrentAfterSelections | quiz_frontend/state.py:13-30 | after a fetch and k selections, the computed vars show question min(k, n - 1), with their defaults for missing keys |
| FrontState.EmptyPlaceholders | quiz_frontend/state.py:13-30 | with no questions the computed vars are "No question available", [] and 0 |
| FrontState.QuizState.FetchQuestions | quiz_frontend/state.py:36-45 | the new state is the fetch function of the old state: a 200 replaces the batch and resets index, completion, score and selections |
| FrontState.QuizState.SelectAnswer | quiz_frontend/state.py:47-53 | the new state is the selection function of the old state |
| FrontState.QuizState.CalculateScore | quiz_frontend/state.py:55-60 | the score is the number of selected answers, right or wrong |
| QuizPage.AnswerTexts | quiz_frontend/pages/quiz.py:23 | the answer texts, in order, exist exactly when every answer has a "text" |
| QuizPage.FirstCorrect | quiz_frontend/pages/quiz.py:24 | the search stops at the first answer flagged correct or lacking "is_correct", all before it flagged incorrect; it is exhausted exactly when all are flagged incorrect |
| QuizPage.EmptyResponseKeepsPage | quiz_frontend/pages/quiz.py:20 | an empty response changes nothing |
| QuizPage.LoadedShowsQuestion | quiz_frontend/pages/quiz.py:20-25 | a load succeeds exactly when the keys are present and the first answer not flagged incorrect is flagged correct; it then shows the text, the answer texts in order, that answer's text as the one to match, and 30 seconds, with index, score and game-over untouched |
| QuizPage.NoCorrectAnswerFails | quiz_frontend/pages/quiz.py:24 | a question with no correct answer fails the load and leaves the answer to match and the clock as they were |
| QuizPage.ServedRecord | quiz_project/quiz/serializers.py:10-16 | the JSON of a served question holds its text and, in order, each answer's id, text and flag |
| QuizPage.ServedQuestionLoads | quiz_frontend/pages/quiz.py:20-25 | a question the backend served loads unless none of its answers is correct, and then offers the text of its first correct answer |
| QuizPage.CheckEffect | quiz_frontend/pages/quiz.py:38-42 | a checked answer adds the seconds left exactly when it matches, and always moves on once |
| QuizPage.IndexCapped | quiz_frontend/pages/quiz.py:44-51 | from index i <= 9, after k answers the index is min(i + k, 9) and the game is over exactly when it already was or i + k > 9 |
| QuizPage.FetchKeepsIndex | quiz_frontend/pages/quiz.py:16-25 | a load, successful or failed part-way, never moves the question index |
| QuizPage.TimerKeepsIndexBounded | quiz_frontend/pages/quiz.py:27-36 | following the clock from an index at or below 9 never moves the index back and never past 9 |
| QuizPage.StepKeepsIndexBounded | quiz_frontend/pages/quiz.py:16-51 | each event (load, check, next question, timer) keeps an index at or below 9 there |
| QuizPage.RunKeepsIndexBounded | quiz_frontend/pages/quiz.py:16-51 | any sequence of events from an index at or below 9 keeps it at or below 9 |
| QuizPage.InitialIndexBounded | quiz_frontend/pages/quiz.py:8-14 | starting from the initial page (index 0), no sequence of events takes the index past 9 |
| QuizPage.FirstNonPositive | quiz_frontend/pages/quiz.py:30 | the position of the first value <= 0 among the received ones, none exactly when all are positive |
| QuizPage.TimerStops | quiz_frontend/pages/quiz.py:29-36 | with time left, the loop takes the values up to the first one <= 0, shows it, and moves on exactly when it is 0; without such a value it takes them all and the connection closes |
| QuizPage.CountdownFollowed | quiz_frontend/pages/quiz.py:29-36 | following 30, 29, ..., 0 from a full clock takes all 31 values and moves on exactly once |
| QuizPage.FullCountdownMovesOnce | quiz_project/quiz/consumers.py:24 | the countdown the consumer sends, followed by the page, takes all 31 values and moves on exactly once |
| QuizPage.QuizPageState.FetchQuestion | quiz_frontend/pages/quiz.py:16-25 | the new page and the outcome are the load function of the old page |
| QuizPage.QuizPageState.NextQuestion | quiz_frontend/pages/quiz.py:44-51 | the new page is the next-question function of the old one |
| QuizPage.QuizPageState.CheckAnswer | quiz_frontend/pages/quiz.py:38-42 | the new page is the check function of the old one |
| QuizPage.QuizPageState.StartTimer | quiz_frontend/pages/quiz.py:27-36 | the new page, the values taken and whether the socket closed are the timer function of the old page and the received values |
| Puebra.EntryFromLines | puebra.py:37-46 | an entry keeps its category; its question and answers, joined with line breaks, give the stripped reply; no line holds a line break |
| Puebra.OneLineReplyHasNoAnswers | puebra.py:37-39 | a reply without a line break is a question with no answers |
| Puebra.AnswerCount | puebra.py:37-39 | an entry has as many answers as the stripped reply has line breaks |
| Puebra.Entries | puebra.py:25 | one entry per request |
| Puebra.GenerateQuestions | puebra.py:23-48 | the result is the entries of the replies in order, one per request |
| Puebra.GenerateFor | puebra.py:70-74 | the loop concatenates the entries category by category |
| Puebra.GenerateAllQuestions | puebra.py:68-79 | the result is the 50 entries of each category of the list, in the list's order |
| Puebra.AllEntriesAt | puebra.py:68-79 | there are 50 entries per category, and entry 50c + i comes from the i-th reply about category c |
| Puebra.Row | puebra.py:57-64 | a row is category, question and the first four answers; answers past the fourth are dropped |
| Puebra.FirstShort | puebra.py:56-64 | the position of the first entry with fewer than four answers, all before it having at least four |
| Puebra.SaveToCsv | puebra.py:51-65 | the header is written first and then one row per entry, in order, up to the first entry with fewer than four answers; the write fails exactly when there is such an entry |
| Puebra.FullFileWhenRepliesComplete | puebra.py:37-65 | every entry gets its row exactly when every stripped reply has at least four line breaks |
| Puebra.WholeFileWhenRepliesComplete | puebra.py:51-83 | the file `main` writes over all categories gets every row exactly when every reply of every category has at least four line breaks after stripping |
| OpenAiImport.SlicePrefix | quiz_project/quiz/app_add_generate_questions_with_api_openai.py:24 | Python's `[:n]`: a prefix of length min(n, len) for n >= 0, and len + n (or 0) for negative n |
| OpenAiImport.GeneratedAreFirstLines | quiz_project/quiz/app_add_generate_questions_with_api_openai.py:12-28 | an API error gives []; otherwise the result is the first min(n, lines) lines of the reply, in order |
| OpenAiImport.ReplyNeverEmpty | quiz_project/quiz/app_add_generate_questions_with_api_openai.py:23-24 | a reply that arrives always gives at least one line; an empty reply gives one empty question |
| OpenAiImport.SaveAllSizes | quiz_project/quiz/app_add_generate_questions_with_api_openai.py:30-46 | storing n lines adds n questions and n answers after the existing rows and leaves scores and categories alone |
| OpenAiImport.SaveAllRows | quiz_project/quiz/app_add_generate_questions_with_api_openai.py:31-44 | line i becomes the question with the i-th fresh key, the given category and difficulty, and answer i is the correct "Sample Answer" of that question |
| OpenAiImport.SaveAllValid | quiz_project/quiz/app_add_generate_questions_with_api_openai.py:30-46 | storing keeps the database consistent |
| OpenAiImport.SavedAnswers | quiz_project/quiz/app_add_generate_questions_with_api_openai.py:40-44 | the answer table grows by exactly the placeholder answers, one per line |
| OpenAiImport.StoredQuestionHasOneAnswer | quiz_project/quiz/app_add_generate_questions_with_api_openai.py:33-44 | each stored question has exactly one answer, the correct "Sample Answer" |
| OpenAiImport.SaveQuestionsToDb | quiz_project/quiz/app_add_generate_questions_with_api_openai.py:30-46 | the loop yields the database with every line stored in order |
| OpenAiImport.RunImport | quiz_project/quiz/app_add_generate_questions_with_api_openai.py:48-59 | an API error stores nothing; a reply stores its first min(5, lines) lines, at least one, under "General Knowledge" with difficulty "easy" |
| Seeding.AddFakeQuestion | quiz_project/quiz/management/commands/populate_db.py:17-37 | one question of the category with a difficulty among easy, medium and hard, under the next key, then four answers for it, only the first correct; the database stays consistent |
| Seeding.StepSeeds | quiz_project/quiz/management/commands/populate_db.py:25-37 | after one pass the new question has four answers, only the first correct, and every other question keeps its answers |
| Seeding.AddFakeQuestions | quiz_project/quiz/management/commands/populate_db.py:17-37 | count questions of the category, each seeded with one correct and three incorrect answers, earlier questions keeping theirs; categories unchanged |
| Seeding.AddRandomCategories | quiz_project/quiz/utils/utils.py:9-12 | count categories are appended; questions and answers unchanged |
| Seeding.CreateFakeDataUtils | quiz_project/quiz/utils/utils.py:7-29 | exactly 50 categories are appended; 2500 questions follow in blocks of 50, one block per new category in order; each is seeded with one correct and three incorrect answers and has a listed difficulty; earlier questions keep their answers |
| Seeding.CreateFakeData | quiz_project/quiz/management/commands/populate_db.py:8-39 | at most 50 categories are appended, all with names new to the table; each gets a block of 50 seeded questions, in order (a skipped name gets none); earlier questions keep their answers |
| Seeding.CreateCategoryWithQuestions | quiz_project/quiz/management/commands/populate_db.py:12-37 | a round with a new name appends the category and its block of 50 seeded questions, keeping the names and blocks invariants |
| Seeding.CategoryKeepsSeeds | quiz_project/quiz/management/commands/populate_db.py:13 | creating a category leaves questions and answers unchanged |
| Seeding.BlocksStep | quiz_project/quiz/utils/utils.py:16-17 | a further block of 50 questions of the next category keeps the blocks in order |

## Left out

- Timing and concurrency of the consumer: `asyncio.sleep`, the layer's delivery of group messages to each member's `send_timer`, and overlapping countdowns started by several clients.
- The OpenAI, HTTP and websocket calls and file I/O are parameters or left out. This covers the prompt texts and model parameters, `rx.get`/`requests.get`, `websockets.connect`/`recv`, the CSV writer, and `print`/`rx.window_alert`/`rx.redirect`.
- puebra.py's calls to the chat model are assumed to succeed. An exception there ends the script, and that is not modelled.
- Randomness is arbitrary choice. The distribution of `random.shuffle`, `random.choice` and Faker is not modelled, nor is `capitalize()`'s case mapping of the category name.
- The cache timeout of 3600 seconds is a TTL with no clock in this model, so entries never expire.
- JWT authentication is a boolean: authenticated or not. Token parsing and permission classes are not modelled.
- `api_home`, `get_all_questions` and `PublicView.list` return a fixed message or the plain serialized table. The DRF ViewSets, serializers declarations, urls and routing are framework declarations. None of these is modelled.
- `generate_questions.py`, a command wrapper around the OpenAI import, is not part of this model.
- The OpenAI request of `fetch_questions_from_openai` is a parameter: its decoded reply, or `None` when the call or `json.loads` raises. Decoded values that are not a list of strings are not modelled.
- The code as written does not load: views.py, populate_db.py and utils.py import `QuizCategory` from models.py, which does not declare it, and views.py imports `QuizCategorySerializer`, which serializers.py does not declare (ImportError). pages/quiz.py calls `app.add_page` on a name it never defines or imports (NameError). The model assumes these names exist: a category with a `name` field, and the Reflex app that registers the page.
- The REST handlers take request fields that are already typed: `is_correct` as a boolean, `points` as an integer, `question` as a key. DRF's 400 for a wire value of the wrong type (`"abc"` for an integer, `"maybe"` for a boolean) and `CharField`'s conversion of a number to its string are not modelled.
- Consumers.QuizTimerConsumer.Receive: takes the already decoded JSON object. Text that `json.loads` cannot decode, or that decodes to something other than an object (so `.get` raises), makes the handler raise and the socket close; that error path is not modelled.
- The order of scores with equal points in the ranking is the database's and is unspecified. The model keeps table order for ties.
- Score `points` is an unbounded integer. The database's integer range is not modelled.
- `objects.create` in the scripts does not run validators, so those rows are not checked against `max_length`. The model stores them as given, and only the REST handlers check bounds.
- In the seeders, `quiz_category=category` stores the category object's text. `QuizCategory` is not declared in models.py, so the model stores the category's name.
- FrontState: the computed vars require the index to name a question. Python would raise IndexError otherwise, but every event keeps the index in range (`FrontState.EventsKeepIndexInRange`).
- Answer mutations do not clear `"random_questions"`, so a cached batch can show answers that were edited or deleted since. The model states this behaviour (`Views.AnswerEditKeepsCache`); it does not "fix" it.
