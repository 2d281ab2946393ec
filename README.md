# QNA quiz engine in Dafny

This project models the core of QNA, a Flask quiz application with two roles:
- a quiz master (admin) who authors subjects, chapters, quizzes and questions;
- learners who take the quizzes.

It covers five parts of the application:
- the relational entity store of `app/models.py`;
- the admin routes that change it (`app/admin/routes.py`) and the form validators that guard them (`app/admin/forms.py`);
- the learner routes, `app/user/routes.py`: the dashboard search, the quiz listing with its access summary, the `attempt_quiz` state machine and the lazily scored result page;
- the scoring function `calculate_score` of `app/utils.py`.

Files, one module each:

| file | module | models |
|---|---|---|
| `wrappers.dfy` | `Wrappers` | `Option` |
| `models.dfy` | `Models` | the seven entity records (`User`, `Subject`, `Chapter`, `Quiz`, `Question`, `QuizAttempt`, `UserAnswer`) |
| `tables.dfy` | `Tables` | reading a table in insertion order (`.all()`, `.first()`) |
| `utils.dfy` | `Utils` | `calculate_score` and its properties |
| `forms.dfy` | `Forms` | the four admin forms as predicates |
| `store.dfy` | `Store` | the tables as the class `Store`, with one `map` field per table |
| `search.dfy` | `Search` | the case-insensitive substring search of both dashboards |
| `user_routes.dfy` | `UserRoutes` | the learner blueprint |
| `admin_routes.dfy` | `AdminRoutes` | the admin blueprint |

The `Store` class in `store.dfy` holds one `map` per table and a shared id counter. Its integrity rules form the class invariant `Valid()`: `Consistent` of the snapshot `State()`. They are:
- every id lies below the counter;
- usernames are unique;
- authored rows satisfy their form's validators (a rule of the model: the routes modelled here write only validated rows);
- every foreign key names an existing row;
- an answer answers a question of its attempt's quiz;
- no question is answered twice in one attempt;
- a user has at most one incomplete attempt per quiz.

Every insert, update and cascade delete except `DeleteAttempt` is a method that keeps `Valid()` and states the whole new state. A pure lemma beside each method proves that the change keeps the tables consistent.

A route is a method over a `Store`. It returns an outcome datatype in place of the redirect, flash or template of the application:
- `Forbidden` for the role guard;
- `NotFound` for `get_or_404`;
- `StorageError` for a commit the database refuses;
- `Denied(reason)`, `ShowQuestion`, `Finished` and the like for the attempt engine.

Each route states, for every outcome:
- exactly when it happens;
- that nothing changes unless the route commits;
- the exact new state when it does.

Deletes follow where each relationship in `app/models.py` leaves the work:
- Relationships marked `passive_deletes=True` are not loaded, so the foreign key's `ondelete` rule decides. A subject takes its chapters and quizzes with it. A quiz takes its questions and attempts, and an attempt its answers (`CASCADE`). A deleted chapter's quizzes stay, with no chapter (`SET NULL`, app/models.py:86).
- `Question` has only the back-reference `user_answers` (app/models.py:173-177), which has no delete cascade. Deleting a question that has answers therefore makes the ORM set their NOT NULL `question_id` to NULL, and the commit fails. `delete_question` then ends in `StorageError` with nothing deleted.

The access rules of a quiz (`is_unlocked_for_user`, `attempts_remaining_for_user`, `is_past_deadline`, `sequence_number`) are not defined in the modelled code. They are the uninterpreted fields of a `Gate` value, and the model proves only how the routes combine them and in which order they are checked. The clock is an integer `now` in seconds, passed to every route that reads it.

## Model

| member | source | states |
|---|---|---|
| Utils.CountCorrect | app/utils.py:17 | the number of correct answers never exceeds the number of answers |
| Utils.CalculateScore | app/utils.py:12-18 | the score lies in [0, 100], and an attempt without answers scores exactly 0.0 |
| Utils.ScoreAllCorrect | app/utils.py:16-18 | a non-empty attempt whose every answer is correct scores 100 |
| Utils.ScoreNoneCorrect | app/utils.py:13-18 | an attempt with no correct answer scores 0, whether or not it is empty |
| Utils.ScoreSeesOnlyCorrectness | app/utils.py:16-18 | two answer lists that agree position by position on correctness score the same, whatever options, questions (and so marks) or times they carry |
| Utils.CountPermutation | app/utils.py:17 | any permutation of the answers has the same number of correct answers |
| Utils.ScorePermutation | app/utils.py:16-18 | any permutation of the answers has the same score |
| Utils.ScoreThreeOfFour | app/utils.py:18 | three correct answers out of four score 75 |
| Forms.NameFieldMeaning | app/admin/forms.py:6 | a subject, quiz or chapter name passes DataRequired and Length(max=100) iff it has 1 to 100 characters, not all of them whitespace in the sense of Python's `str.strip()` (ASCII whitespace, the separators U+001C to U+001F and the Unicode spaces) |
| Forms.QuizFormIgnoresChapter | app/admin/forms.py:14 | whether a quiz form validates does not depend on its chapter when that is empty or an integer, existing or not; a chapter `int()` cannot convert fails the form, and an empty one files the quiz under no chapter |
| Forms.QuestionFormChoice | app/admin/forms.py:25-33 | a valid question form has a correct option between 1 and 4 and marks of at least 1 |
| Forms.QuestionFormDefaultMarks | app/admin/forms.py:25 | a question form posted without marks validates exactly when the same form with marks 1 does, and carries marks 1; marks that are not an integer never validate |
| Forms.NameFieldBoundary | app/admin/forms.py:6 | a name of exactly 100 characters passes, one of 101 characters fails, and one of spaces, of the separators U+001C to U+001F or of no-break and ideographic spaces alone fails |
| Forms.QuizFormRejectsShortLimit | app/admin/forms.py:13 | a quiz form with a time limit below one minute does not validate |
| Store.AnswerIds | app/models.py:145-151 | the ids of the attempt's answers, each exactly once, in ascending (insertion) order, and no other id |
| Store.AnswersOf | app/models.py:145-151 | `attempt.answers` is the attempt's answers in insertion order, each exactly once: one element per answer id, and nothing else; it is empty when the attempt has none |
| Store.AnsweredIds | app/user/routes.py:115 | a question id is answered iff some answer of the attempt names it |
| Store.AnsweredIdsOfAnswers | app/user/routes.py:115 | when every answer id lies below the counter, the answered ids are exactly the question ids of `attempt.answers` (`AnswersOf`), the list the route builds its set from |
| Store.NextQuestion | app/user/routes.py:116-119 | the served question is a question of the quiz not yet answered, and no smaller id qualifies; there is none iff every question of the quiz is answered |
| Store.FirstIncomplete | app/user/routes.py:88-92 | the found attempt is an incomplete attempt of the user for the quiz; when none is found, every attempt of the user for the quiz is completed |
| Store.AddUserConsistent | app/models.py:11 | adding a user whose username is not taken keeps the tables consistent (usernames stay unique) |
| Store.AddSubjectConsistent | app/models.py:36-39 | adding a valid subject keeps the tables consistent |
| Store.AddChapterConsistent | app/models.py:65 | adding a valid chapter of an existing subject keeps the tables consistent |
| Store.AddQuizConsistent | app/models.py:85-86 | adding a valid quiz of an existing subject, with no chapter or an existing one, keeps the tables consistent |
| Store.AddQuestionConsistent | app/models.py:117-121 | adding a valid question of an existing quiz keeps the tables consistent |
| Store.UpdateSubjectConsistent | app/admin/routes.py:48-50 | replacing a subject by a valid one keeps the tables consistent |
| Store.UpdateChapterConsistent | app/admin/routes.py:315-317 | replacing a chapter by a valid one of an existing subject keeps the tables consistent |
| Store.UpdateQuizConsistent | app/admin/routes.py:103-106 | replacing a quiz by a valid one with existing parents keeps the tables consistent |
| Store.UpdateQuestionConsistent | app/admin/routes.py:155-162 | replacing a question by a valid one of the same quiz keeps the tables consistent |
| Store.NewAttemptConsistent | app/user/routes.py:106-112 | a new attempt for an existing user and quiz, when all their earlier attempts are completed, keeps at most one open attempt per user and quiz |
| Store.ChangeAttemptConsistent | app/user/routes.py:99-100 | changing an attempt without moving it to another user or quiz, and without reopening it, keeps the tables consistent |
| Store.NewAnswerConsistent | app/user/routes.py:139-146 | a new answer to a not yet answered question of the attempt's quiz keeps the tables consistent, and no question is answered twice |
| Store.WithoutNoAttempts | app/models.py:145-151 | deleting no attempts deletes no answers |
| Store.DeleteAttemptsConsistent | app/models.py:145-151 | deleting any set of attempts together with all their answers keeps the tables consistent |
| Store.DeleteUserConsistent | app/models.py:19-25 | deleting a user who has no attempts left keeps the tables consistent |
| Store.DeleteQuestionConsistent | app/models.py:163-167 | deleting a question that no answer names keeps the tables consistent |
| Store.DeleteQuizzesConsistent | app/models.py:90-103 | deleting quizzes with their questions, their attempts and the answers of both keeps the tables consistent |
| Store.DeleteChaptersConsistent | app/models.py:69-75 | deleting chapters, with their quizzes unfiled, keeps the tables consistent |
| Store.UnfiledKeepsQuizzes | app/models.py:86 | `SET NULL` keeps every quiz and changes only its chapter, and no remaining quiz is filed under a deleted chapter |
| Store.DeleteSubjectConsistent | app/models.py:43-56 | deleting a subject with no chapter and no quiz left keeps the tables consistent |
| Store.Store.constructor | app/__init__.py:41 | a freshly created database has every table empty and the id counter at 0, and is consistent |
| Store.Store.AddUser | app/models.py:9-16 | a taken username is refused with nothing changed; otherwise exactly one user is added under the next id, an admin only when that is asked for explicitly |
| Store.Store.AddSubject | app/admin/routes.py:36-38 | exactly the given subject is added under the next id, and the tables stay consistent |
| Store.Store.AddChapter | app/admin/routes.py:301-305 | exactly the given chapter is added under the next id, and the tables stay consistent |
| Store.Store.AddQuiz | app/admin/routes.py:85-93 | exactly the given quiz is added under the next id, and the tables stay consistent |
| Store.Store.AddQuestion | app/admin/routes.py:134-145 | exactly the given question is added under the next id, and the tables stay consistent |
| Store.Store.UpdateSubject | app/admin/routes.py:48-50 | only that subject row changes |
| Store.Store.UpdateChapter | app/admin/routes.py:315-317 | only that chapter row changes |
| Store.Store.UpdateQuiz | app/admin/routes.py:103-106 | only that quiz row changes |
| Store.Store.UpdateQuestion | app/admin/routes.py:155-162 | only that question row changes, and it stays in its quiz |
| Store.Store.CreateAttempt | app/models.py:139-142 | the new attempt gets the next id, is incomplete, has score 0.0, starts at `now`, has no completion time and has no answers; nothing else changes |
| Store.Store.Expire | app/user/routes.py:99-101 | the attempt becomes completed at `now`; its score, its answers and every other row are unchanged |
| Store.Store.Complete | app/user/routes.py:123-126 | the attempt becomes completed at `now` with `calculate_score` of its answers as score; nothing else changes |
| Store.Store.RecordAnswer | app/user/routes.py:137-146 | exactly one answer is added, for that attempt and question, with is_correct iff the selected option is the correct one |
| Store.Store.DeleteAttempt | app/admin/routes.py:282-284 | the attempt and exactly its answers are removed |
| Store.Store.DeleteUser | app/models.py:19-25 | the user, all of its attempts and all of their answers are removed, and nothing else |
| Store.Store.DeleteQuestion | app/models.py:163-177 | the delete commits iff no answer names the question; then exactly the question is removed; otherwise nothing changes |
| Store.Store.DeleteQuizzes | app/models.py:90-103 | the quizzes, their questions, their attempts and the answers of those are removed, and nothing else |
| Store.Store.DeleteChapters | app/models.py:69-86 | the chapters are removed, and the quizzes filed under them stay with no chapter; nothing else changes |
| Store.Store.DeleteSubject | app/models.py:43-56 | the subject, its chapters and its quizzes are removed, with the questions, attempts and answers of those quizzes; another subject's quiz filed under one of its chapters stays with no chapter; nothing else changes |
| Search.Contains | app/admin/routes.py:27 | true iff the pattern occurs in the text at some position |
| Search.EmptyQueryMatches | app/admin/routes.py:26-29 | the empty pattern matches every name |
| Search.SubjectSearch | app/admin/routes.py:26-29 | the result is in insertion order and holds exactly the subjects whose case-folded name contains the case-folded query; an empty query lists every subject |
| Search.AlgebraMatchesGeb | app/user/routes.py:28 | with ASCII lower-casing, the query "GEB" finds the subject "Algebra" |
| UserRoutes.Admission | app/user/routes.py:74-85 | a learner is admitted iff unlocked, attempts remaining > 0 and not past the deadline; when refused, the reason is the first failing check in the order locked, deadline, exhausted |
| UserRoutes.Dashboard | app/user/routes.py:12-31 | an admin is refused; a learner sees exactly the subjects whose name matches the query, and every subject when the query is empty |
| UserRoutes.AccessRow | app/user/routes.py:56-66 | a listing row's can_attempt holds iff the quiz admits the user; when it does not, one of the three gate answers says why |
| UserRoutes.QuizzesOfSubject | app/user/routes.py:55 | `subject.quizzes` lists exactly the quizzes of the subject, each once |
| UserRoutes.Insert | app/user/routes.py:55 | inserting into a list sorted by a key keeps it sorted and adds exactly that element |
| UserRoutes.SortBy | app/user/routes.py:55 | the result is sorted by the key and is a permutation of the input |
| UserRoutes.ViewQuizzes | app/user/routes.py:49-68 | an admin is refused and an unknown subject is a 404; otherwise the listing has one row per quiz of the subject, ordered by ascending sequence number, each row built from the gate |
| UserRoutes.AccessRows | app/user/routes.py:54-66 | the loop builds exactly one row per quiz, in the given order |
| UserRoutes.ListingCoversSubject | app/user/routes.py:55-66 | the sorted listing names exactly the quizzes of the subject, in ascending sequence number |
| UserRoutes.RemainingSeconds | app/user/routes.py:130-131 | the remaining time is never negative, and never above time_limit*60 once the attempt has started; it is 0 iff the limit is used up, and otherwise it is the limit minus the elapsed time |
| UserRoutes.Proceed | app/user/routes.py:114-148 | with no unanswered question the attempt completes with its score; otherwise the first unanswered question is served, or the submitted option is recorded as the answer to it |
| UserRoutes.AttemptQuiz | app/user/routes.py:69-155 | role guard, then 404, then the three denials in order, and none of these changes anything; a resumed attempt past its limit expires; otherwise the open attempt, or a fresh one, proceeds as `Proceed` states, and the tables stay consistent |
| UserRoutes.OpenAttemptsBelow | app/user/routes.py:87-92 | when no open attempt is found, the user has no incomplete attempt for the quiz at all |
| UserRoutes.ResumedAttemptIsUnique | app/user/routes.py:87-95 | the resumed attempt is the only incomplete attempt of the user for the quiz |
| UserRoutes.NewAttemptStartsAtFirstQuestion | app/user/routes.py:104-119 | a new attempt has no answers and is served the quiz's first question by id |
| UserRoutes.AnswerMovesForward | app/user/routes.py:114-146 | recording the answer to the served question adds exactly that question to the answered set, and the next served question has a larger id |
| UserRoutes.ExpiryIsStrict | app/user/routes.py:96-98 | elapsed time equal to the limit does not expire an attempt, one second more does, and at the limit the remaining time is 0 |
| UserRoutes.QuizResult | app/user/routes.py:157-174 | an admin is refused, an unknown attempt is a 404, another user's attempt is refused, and none of these changes anything; a null score is computed and the attempt completed at `now`; a present score leaves everything unchanged; the shown score is always present |
| AdminRoutes.Dashboard | app/admin/routes.py:11-30 | a non-admin is refused; an admin sees exactly the subjects whose name matches the query, and every subject when the query is empty |
| AdminRoutes.AddSubject | app/admin/routes.py:32-41 | a non-admin is refused; an absent or invalid form shows the form; each with nothing changed; an admin with a valid form always commits, adding exactly that subject |
| AdminRoutes.EditSubject | app/admin/routes.py:43-56 | refusal, 404 and an absent or invalid form change nothing; an admin with an existing subject and a valid form always commits, replacing name and description |
| AdminRoutes.DeleteSubject | app/admin/routes.py:66-72 | refusal and 404 change nothing; an admin naming an existing subject always commits: the subject goes with its chapters, its quizzes and everything under those quizzes, quizzes of other subjects filed under its chapters lose their chapter, and nothing else changes |
| AdminRoutes.AddChapter | app/admin/routes.py:296-308 | refusal, 404 and an absent or invalid form change nothing; an admin with an existing subject and a valid form always commits, adding the chapter to the subject in the URL |
| AdminRoutes.EditChapter | app/admin/routes.py:310-323 | refusal, 404 and an absent or invalid form change nothing; an admin with an existing chapter and a valid form always commits, changing only the name and description, so the chapter stays in its subject |
| AdminRoutes.DeleteChapter | app/admin/routes.py:330-337 | refusal and 404 change nothing; an admin naming an existing chapter always commits: the chapter goes, the quizzes filed under it stay with no chapter, and nothing else changes |
| AdminRoutes.AddQuiz | app/admin/routes.py:74-96 | refusal, 404 and an absent or invalid form change nothing; the stored quiz's chapter is the URL's chapter_id when present, and otherwise the form's chapter (none when left empty); a chapter that does not exist fails the foreign key and changes nothing; otherwise the quiz is always added to the subject in the URL |
| AdminRoutes.EditQuiz | app/admin/routes.py:98-113 | refusal, 404 and an absent or invalid form change nothing; an admin with an existing quiz and a valid form always commits, changing only name, description and time limit; subject, chapter and questions are unchanged |
| AdminRoutes.DeleteQuiz | app/admin/routes.py:120-127 | refusal and 404 change nothing; an admin naming an existing quiz always commits: the quiz goes with its questions, attempts and their answers, and users, subjects and chapters stay |
| AdminRoutes.AddQuestion | app/admin/routes.py:129-148 | refusal, 404 and an absent or invalid form change nothing; an admin with an existing quiz and a valid form always commits, adding the question (marks 1 when none is posted) to the quiz in the URL |
| AdminRoutes.EditQuestion | app/admin/routes.py:150-173 | refusal, 404 and an absent or invalid form change nothing; an admin with an existing question and a valid form always commits, changing the text, marks, four options and correct option; the question keeps its quiz |
| AdminRoutes.DeleteQuestion | app/admin/routes.py:175-182 | refusal and 404 change nothing; a question some answer names fails at commit (StorageError) and nothing changes; otherwise exactly the question goes |
| AdminRoutes.DeleteUser | app/admin/routes.py:269-294 | a non-admin is refused; deleting one's own account is refused before the 404, and neither changes anything; an admin deleting another existing user always commits: every attempt of the user, their answers and the user go, and other users' attempts are untouched |
| AdminRoutes.RemoveUser | app/admin/routes.py:279-292 | the user's attempts with their answers go, then the user, and the tables stay consistent |
| AdminRoutes.DeleteAttemptsOf | app/admin/routes.py:279-284 | the loop deletes exactly the attempts of the user and exactly their answers |
| AdminRoutes.ScannedAttemptsOfUser | app/admin/routes.py:279 | the ids the query returns are exactly the user's attempts |

## Left out

- Statistics and performance pages (app/admin/routes.py:186-267, app/user/routes.py:178-214) are not modelled. They are SQL averages and counts over floats.
- Profile editing and the learner forms are not modelled.
- app/auth/routes.py, app/auth/forms.py and app/__init__.py are not part of this model: flask_login sessions, password hashing and the app factory. The current user is a parameter that must name an existing user, which `login_required` guarantees.
- The REST API (app/api/resource.py) and the browser script (app/static/js/scripts.js) are not part of this model. The API creates and renames subjects without the admin forms' validators (app/api/resource.py:26-31, 50-56), so the `requires s.Valid()` of every route assumes that no row was written through the API.
- The read-only views `view_subject`, `view_quiz` and `view_chapter` are not modelled. They change nothing and only render a row.
- Templates, `flash`, `redirect` and `url_for` are not modelled. Each route returns an outcome datatype instead.
- The bodies of `is_unlocked_for_user`, `attempts_remaining_for_user`, `is_past_deadline` and `sequence_number` are not in the modelled code. They are left abstract as the fields of `Gate`.
- The clock, `datetime.utcnow()`, becomes the parameter `now` in whole seconds. The expiry test compares whole seconds where the source compares fractional seconds.
- Floating point is not modelled. `calculate_score` becomes exact real division, with no rounding.
- SQL `LIKE` wildcards in the query (`%` and `_`, which the source does not escape) are not modelled, and neither is Unicode case folding. The search is a plain substring test after an abstract per-character `fold`.
- Concurrency is not modelled; the model is sequential. Two requests racing to answer the same question cannot happen here.
- Every insert draws its id from one counter shared by all tables, where the database keeps one sequence per table. Only the order of ids within a table matters to the model, and it is the same.
- Foreign keys are treated as enforced, with their `ondelete` rules. An `add_quiz` whose chapter names no chapter ends in `StorageError` with nothing stored, because neither the form (app/admin/forms.py:14) nor the URL argument is checked.
- The URL's `chapter_id` argument of `add_quiz` (app/admin/routes.py:81-82) is taken as an integer (`urlChapter`). A value that is not an integer is not modelled; the database would store it as given.
- Children already loaded into the session before a delete are not modelled. None of the modelled routes loads them, so each delete is decided by the `ondelete` rule.
- The time limit and the correct option have no default, so a missing input and one that is not an integer are one case for them: no data, and the form does not validate.
- `edit_question` does not recompute `is_correct` on earlier answers when the correct option changes. The model keeps the stored values, as the source does.
- Store.Store.DeleteAttempt neither requires nor ensures `Valid()`. The loop of `AdminRoutes.DeleteAttemptsOf` only tracks the state as "the original without the attempts deleted so far". `AdminRoutes.RemoveUser` re-establishes `Valid()` after the loop with `Store.DeleteAttemptsConsistent`.
- The option a learner submits is any integer, because `QuizAnswerForm` declares no option field (app/user/routes.py:136). A missing or non-integer option is not modelled.
- UserRoutes.SortBy: the proof does not cover stability. Python's `sorted` keeps quizzes with equal sequence numbers in insertion order; the model proves only that the listing is ordered by sequence number and is a permutation of the subject's quizzes.
- UserRoutes.QuizResult: "a second call changes nothing" is not a separate lemma. It follows from the contract: after the first call the score is present, and a present score leaves the state unchanged.
- The score column's default is 0.0 (app/models.py:139), so an attempt created by `attempt_quiz` never has a null score. The model follows the code here. This has two consequences:
  - The lazy branch of `quiz_result` (app/user/routes.py:168-172) runs only for attempts whose score was set to null by other means.
  - An attempt that expires (app/user/routes.py:99-101) keeps the score 0.0, whatever it has answered.
