/**
 * The relational entity store of app/models.py: one map per table, the foreign keys
 * between them, the column defaults, the unique username, and the cascade-delete rules
 * written out as explicit delete methods.
 *
 * Row ids come from one counter `nextId` shared by all tables, so a row inserted later has
 * a larger id than every existing row, and reading a table in ascending id order reads it in
 * insertion order.
 */
module Store {
  import opened Wrappers
  import opened Models
  import opened Tables
  import Forms
  import Utils

  // ----- Record invariants: what the admin validators guarantee of every stored row -----

  ghost predicate SubjectOk(s: Subject) {
    Forms.NameField(s.name)
  }

  ghost predicate ChapterOk(c: Chapter) {
    Forms.NameField(c.name)
  }

  ghost predicate QuizOk(q: Quiz) {
    Forms.NameField(q.name) && Forms.PositiveField(Some(q.timeLimit))
  }

  ghost predicate QuestionOk(q: Question) {
    && Forms.RequiredText(q.text)
    && Forms.PositiveField(Some(q.marks))
    && Forms.OptionField(q.option1) && Forms.OptionField(q.option2)
    && Forms.OptionField(q.option3) && Forms.OptionField(q.option4)
    && Forms.ChoiceField(Some(q.correctOption))
  }

  // ----- Queries (pure functions of the tables) -----

  /** The ids of the answers recorded for attempt `a`, in the order they were recorded. */
  function AnswerIds(answers: map<Id, UserAnswer>, a: Id, bound: int): (ids: seq<Id>)
    ensures Ascending(ids)
    ensures forall x :: x in ids <==> 0 <= x < bound && x in answers && answers[x].attemptId == a
  {
    Scan(answers, (k: Id, ua: UserAnswer) => ua.attemptId == a, 0, bound)
  }

  /** `attempt.answers`: each answer recorded for attempt `a` exactly once, in the order they
      were recorded. */
  function AnswersOf(answers: map<Id, UserAnswer>, a: Id, bound: int): (r: seq<UserAnswer>)
    ensures var ids := AnswerIds(answers, a, bound);
      |r| == |ids| && forall i :: 0 <= i < |r| ==> r[i] == answers[ids[i]]
    ensures forall i :: 0 <= i < |r| ==> r[i].attemptId == a && r[i] in answers.Values
    ensures forall x :: 0 <= x < bound && x in answers && answers[x].attemptId == a ==> answers[x] in r
    ensures (forall x :: x in answers ==> answers[x].attemptId != a) ==> r == []
  {
    var ids := AnswerIds(answers, a, bound);
    var r := seq(|ids|, i requires 0 <= i < |ids| => answers[ids[i]]);
    assert forall i :: 0 <= i < |r| ==> r[i].attemptId == a && r[i] in answers.Values by {
      forall i | 0 <= i < |r| ensures r[i].attemptId == a && r[i] in answers.Values {
        assert ids[i] in ids && r[i] == answers[ids[i]];
      }
    }
    assert forall x :: 0 <= x < bound && x in answers && answers[x].attemptId == a ==> answers[x] in r by {
      forall x | 0 <= x < bound && x in answers && answers[x].attemptId == a
        ensures answers[x] in r
      {
        var i :| 0 <= i < |ids| && ids[i] == x;
        assert r[i] == answers[x];
      }
    }
    assert (forall x :: x in answers ==> answers[x].attemptId != a) ==> ids == [] by {
      if ids != [] { assert ids[0] in ids; }
    }
    r
  }

  /** calculate_score of attempt `a`: the score of the answers recorded for it. */
  function ScoreOf(d: Db, a: Id): real {
    Utils.CalculateScore(AnswersOf(d.answers, a, d.nextId))
  }

  /** The ids of the questions that attempt `a` has answered. */
  function AnsweredIds(answers: map<Id, UserAnswer>, a: Id): (r: set<Id>)
    ensures forall q :: q in r <==> exists x :: x in answers && answers[x].attemptId == a && answers[x].questionId == q
  {
    set x | x in answers && answers[x].attemptId == a :: answers[x].questionId
  }

  /** The answered question ids are those of `attempt.answers`, the list the route reads,
      when every answer id lies below the counter. */
  lemma AnsweredIdsOfAnswers(answers: map<Id, UserAnswer>, a: Id, bound: int)
    requires forall x :: x in answers ==> 0 <= x < bound
    ensures var r := AnswersOf(answers, a, bound);
      forall q :: q in AnsweredIds(answers, a) <==> exists i :: 0 <= i < |r| && r[i].questionId == q
  {
    var r := AnswersOf(answers, a, bound);
    var ids := AnswerIds(answers, a, bound);
    forall q | q in AnsweredIds(answers, a) ensures exists i :: 0 <= i < |r| && r[i].questionId == q {
      var x :| x in answers && answers[x].attemptId == a && answers[x].questionId == q;
      assert x in ids;
      var i :| 0 <= i < |ids| && ids[i] == x;
      assert r[i].questionId == q;
    }
    forall q | exists i :: 0 <= i < |r| && r[i].questionId == q ensures q in AnsweredIds(answers, a) {
      var i :| 0 <= i < |r| && r[i].questionId == q;
      assert ids[i] in ids;
      assert answers[ids[i]].attemptId == a && answers[ids[i]].questionId == q;
    }
  }

  /** The question to serve next: the first question of `quiz`, in insertion order, whose id
      is not in `answered`; None when every question of the quiz has been answered. */
  function NextQuestion(questions: map<Id, Question>, quiz: Id, answered: set<Id>, bound: int): (r: Option<Id>)
    ensures r.Some? ==> 0 <= r.value < bound && r.value in questions && questions[r.value].quizId == quiz && r.value !in answered
    ensures forall q :: 0 <= q < bound && q in questions && questions[q].quizId == quiz && q !in answered ==> r.Some? && r.value <= q
  {
    First(Scan(questions, (k: Id, qn: Question) => qn.quizId == quiz && k !in answered, 0, bound))
  }

  /** The incomplete attempt of `user` on `quiz` that `.first()` returns, if there is one. */
  function FirstIncomplete(attempts: map<Id, QuizAttempt>, user: Id, quiz: Id, bound: int): (r: Option<Id>)
    ensures r.Some? ==> r.value in attempts && attempts[r.value].userId == user && attempts[r.value].quizId == quiz && !attempts[r.value].completed
    ensures r.None? ==> forall b :: 0 <= b < bound && b in attempts && attempts[b].userId == user && attempts[b].quizId == quiz ==> attempts[b].completed
  {
    First(Scan(attempts, (k: Id, t: QuizAttempt) => t.userId == user && t.quizId == quiz && !t.completed, 0, bound))
  }

  /** The ids of the rows a delete of the listed parents takes with it. */
  function QuestionsOfQuizzes(questions: map<Id, Question>, qs: set<Id>): set<Id> {
    set k | k in questions && questions[k].quizId in qs
  }

  function AttemptsOfQuizzes(attempts: map<Id, QuizAttempt>, qs: set<Id>): set<Id> {
    set k | k in attempts && attempts[k].quizId in qs
  }

  function AttemptsOfUser(attempts: map<Id, QuizAttempt>, u: Id): set<Id> {
    set k | k in attempts && attempts[k].userId == u
  }

  function AnswersTouching(answers: map<Id, UserAnswer>, deadAttempts: set<Id>, deadQuestions: set<Id>): set<Id> {
    set k | k in answers && (answers[k].attemptId in deadAttempts || answers[k].questionId in deadQuestions)
  }

  function ChaptersOfSubject(chapters: map<Id, Chapter>, s: Id): set<Id> {
    set k | k in chapters && chapters[k].subjectId == s
  }

  function QuizzesOfSubjectIds(quizzes: map<Id, Quiz>, s: Id): set<Id> {
    set k | k in quizzes && quizzes[k].subjectId == s
  }

  /** `ondelete='SET NULL'` on quiz.chapter_id: every quiz filed under one of the deleted
      chapters `chs` stays, with no chapter. */
  function Unfiled(quizzes: map<Id, Quiz>, chs: set<Id>): map<Id, Quiz> {
    map k | k in quizzes :: if quizzes[k].chapterId.Some? && quizzes[k].chapterId.value in chs
                             then quizzes[k].(chapterId := None) else quizzes[k]
  }

  /** Some answer names question `q`. */
  predicate QuestionAnswered(answers: map<Id, UserAnswer>, q: Id) {
    exists x :: x in answers && answers[x].questionId == q
  }

  // ----- The tables as one value, and the integrity rules they keep -----

  /** A snapshot of every table and of the id counter. */
  datatype Db = Db(
    users: map<Id, User>, subjects: map<Id, Subject>, chapters: map<Id, Chapter>,
    quizzes: map<Id, Quiz>, questions: map<Id, Question>,
    attempts: map<Id, QuizAttempt>, answers: map<Id, UserAnswer>, nextId: nat)

  /** Every row id was handed out before. */
  ghost predicate KeysBelow(d: Db) {
    && (forall k :: k in d.users ==> 0 <= k < d.nextId)
    && (forall k :: k in d.subjects ==> 0 <= k < d.nextId)
    && (forall k :: k in d.chapters ==> 0 <= k < d.nextId)
    && (forall k :: k in d.quizzes ==> 0 <= k < d.nextId)
    && (forall k :: k in d.questions ==> 0 <= k < d.nextId)
    && (forall k :: k in d.attempts ==> 0 <= k < d.nextId)
    && (forall k :: k in d.answers ==> 0 <= k < d.nextId)
  }

  /** username is a unique column. */
  ghost predicate UniqueUsernames(users: map<Id, User>) {
    forall u, v :: u in users && v in users && u != v ==> users[u].username != users[v].username
  }

  /** Every authored row passed its form's validators. */
  ghost predicate RecordsOk(d: Db) {
    && (forall k :: k in d.subjects ==> SubjectOk(d.subjects[k]))
    && (forall k :: k in d.chapters ==> ChapterOk(d.chapters[k]))
    && (forall k :: k in d.quizzes ==> QuizOk(d.quizzes[k]))
    && (forall k :: k in d.questions ==> QuestionOk(d.questions[k]))
  }

  /** Every foreign key of the authored tables names an existing row. */
  ghost predicate ContentLinked(d: Db) {
    && (forall k :: k in d.chapters ==> d.chapters[k].subjectId in d.subjects)
    && (forall k :: k in d.quizzes ==> d.quizzes[k].subjectId in d.subjects)
    && (forall k :: k in d.quizzes && d.quizzes[k].chapterId.Some? ==> d.quizzes[k].chapterId.value in d.chapters)
    && (forall k :: k in d.questions ==> d.questions[k].quizId in d.quizzes)
  }

  /** Every attempt belongs to an existing user and quiz. */
  ghost predicate AttemptsLinked(d: Db) {
    forall k :: k in d.attempts ==> d.attempts[k].userId in d.users && d.attempts[k].quizId in d.quizzes
  }

  /** Every answer belongs to an existing attempt and answers an existing question of the
      quiz that attempt is for. */
  ghost predicate AnswersLinked(d: Db) {
    forall k :: k in d.answers ==>
      && d.answers[k].attemptId in d.attempts && d.answers[k].questionId in d.questions
      && d.questions[d.answers[k].questionId].quizId == d.attempts[d.answers[k].attemptId].quizId
  }

  /** No question is answered twice in one attempt. */
  ghost predicate OneAnswerPerQuestion(answers: map<Id, UserAnswer>) {
    forall x, y :: x in answers && y in answers && x != y && answers[x].attemptId == answers[y].attemptId
      ==> answers[x].questionId != answers[y].questionId
  }

  /** A user has at most one incomplete attempt per quiz. */
  ghost predicate OneOpenAttempt(attempts: map<Id, QuizAttempt>) {
    forall a, b :: a in attempts && b in attempts && a != b
      && attempts[a].userId == attempts[b].userId && attempts[a].quizId == attempts[b].quizId
      ==> attempts[a].completed || attempts[b].completed
  }

  ghost predicate Consistent(d: Db) {
    && KeysBelow(d) && UniqueUsernames(d.users) && RecordsOk(d)
    && ContentLinked(d) && AttemptsLinked(d) && AnswersLinked(d)
    && OneAnswerPerQuestion(d.answers) && OneOpenAttempt(d.attempts)
  }

  // ----- Each change to the tables keeps them consistent -----

  lemma AddUserConsistent(d: Db, u: User)
    requires Consistent(d)
    requires forall k :: k in d.users ==> d.users[k].username != u.username
    ensures Consistent(d.(users := d.users[d.nextId := u], nextId := d.nextId + 1))
  {
  }

  lemma AddSubjectConsistent(d: Db, s: Subject)
    requires Consistent(d) && SubjectOk(s)
    ensures Consistent(d.(subjects := d.subjects[d.nextId := s], nextId := d.nextId + 1))
  {
  }

  lemma AddChapterConsistent(d: Db, c: Chapter)
    requires Consistent(d) && ChapterOk(c) && c.subjectId in d.subjects
    ensures Consistent(d.(chapters := d.chapters[d.nextId := c], nextId := d.nextId + 1))
  {
  }

  lemma AddQuizConsistent(d: Db, q: Quiz)
    requires Consistent(d) && QuizOk(q) && q.subjectId in d.subjects
    requires q.chapterId.Some? ==> q.chapterId.value in d.chapters
    ensures Consistent(d.(quizzes := d.quizzes[d.nextId := q], nextId := d.nextId + 1))
  {
  }

  lemma AddQuestionConsistent(d: Db, q: Question)
    requires Consistent(d) && QuestionOk(q) && q.quizId in d.quizzes
    ensures Consistent(d.(questions := d.questions[d.nextId := q], nextId := d.nextId + 1))
  {
  }

  lemma UpdateSubjectConsistent(d: Db, id: Id, s: Subject)
    requires Consistent(d) && id in d.subjects && SubjectOk(s)
    ensures Consistent(d.(subjects := d.subjects[id := s]))
  {
  }

  lemma UpdateChapterConsistent(d: Db, id: Id, c: Chapter)
    requires Consistent(d) && id in d.chapters && ChapterOk(c) && c.subjectId in d.subjects
    ensures Consistent(d.(chapters := d.chapters[id := c]))
  {
  }

  lemma UpdateQuizConsistent(d: Db, id: Id, q: Quiz)
    requires Consistent(d) && id in d.quizzes && QuizOk(q) && q.subjectId in d.subjects
    requires q.chapterId.Some? ==> q.chapterId.value in d.chapters
    ensures Consistent(d.(quizzes := d.quizzes[id := q]))
  {
  }

  lemma UpdateQuestionConsistent(d: Db, id: Id, q: Question)
    requires Consistent(d) && id in d.questions && QuestionOk(q) && q.quizId == d.questions[id].quizId
    ensures Consistent(d.(questions := d.questions[id := q]))
  {
  }

  lemma NewAttemptConsistent(d: Db, t: QuizAttempt)
    requires Consistent(d) && t.userId in d.users && t.quizId in d.quizzes
    requires forall b :: b in d.attempts && d.attempts[b].userId == t.userId && d.attempts[b].quizId == t.quizId
               ==> d.attempts[b].completed
    ensures Consistent(d.(attempts := d.attempts[d.nextId := t], nextId := d.nextId + 1))
  {
    var d' := d.(attempts := d.attempts[d.nextId := t], nextId := d.nextId + 1);
    assert AnswersLinked(d') by {
      forall k | k in d'.answers
        ensures d'.answers[k].attemptId in d'.attempts && d'.answers[k].questionId in d'.questions
        ensures d'.questions[d'.answers[k].questionId].quizId == d'.attempts[d'.answers[k].attemptId].quizId
      {
        assert d.answers[k].attemptId != d.nextId;
      }
    }
  }

  /** Rewriting an attempt keeps the tables consistent when it stays with the same user and
      quiz and does not reopen a completed attempt. */
  lemma ChangeAttemptConsistent(d: Db, a: Id, t: QuizAttempt)
    requires Consistent(d) && a in d.attempts
    requires t.userId == d.attempts[a].userId && t.quizId == d.attempts[a].quizId
    requires d.attempts[a].completed ==> t.completed
    ensures Consistent(d.(attempts := d.attempts[a := t]))
  {
  }

  lemma NewAnswerConsistent(d: Db, x: UserAnswer)
    requires Consistent(d) && x.attemptId in d.attempts && x.questionId in d.questions
    requires d.questions[x.questionId].quizId == d.attempts[x.attemptId].quizId
    requires x.questionId !in AnsweredIds(d.answers, x.attemptId)
    ensures Consistent(d.(answers := d.answers[d.nextId := x], nextId := d.nextId + 1))
  {
    var d' := d.(answers := d.answers[d.nextId := x], nextId := d.nextId + 1);
    assert OneAnswerPerQuestion(d'.answers) by {
      forall p, q | p in d'.answers && q in d'.answers && p != q && d'.answers[p].attemptId == d'.answers[q].attemptId
        ensures d'.answers[p].questionId != d'.answers[q].questionId
      {
        if p == d.nextId {
          assert q in d.answers && d.answers[q].attemptId == x.attemptId;
        } else if q == d.nextId {
          assert p in d.answers && d.answers[p].attemptId == x.attemptId;
        }
      }
    }
  }

  /** `d` without the attempts in `dead` and the answers recorded for them. */
  function WithoutAttempts(d: Db, dead: set<Id>): Db {
    d.(attempts := d.attempts - dead, answers := d.answers - AnswersTouching(d.answers, dead, {}))
  }

  /** Deleting no attempts changes nothing. */
  lemma WithoutNoAttempts(d: Db)
    ensures WithoutAttempts(d, {}) == d
  {
    assert AnswersTouching(d.answers, {}, {}) == {};
  }

  lemma DeleteAttemptsConsistent(d: Db, dead: set<Id>)
    requires Consistent(d)
    ensures Consistent(WithoutAttempts(d, dead))
  {
  }

  lemma DeleteUserConsistent(d: Db, u: Id)
    requires Consistent(d)
    requires forall k :: k in d.attempts ==> d.attempts[k].userId != u
    ensures Consistent(d.(users := d.users - {u}))
  {
  }

  lemma DeleteQuestionConsistent(d: Db, q: Id)
    requires Consistent(d) && !QuestionAnswered(d.answers, q)
    ensures Consistent(d.(questions := d.questions - {q}))
  {
  }

  lemma DeleteQuizzesConsistent(d: Db, dead: set<Id>)
    requires Consistent(d)
    ensures var dq, da := QuestionsOfQuizzes(d.questions, dead), AttemptsOfQuizzes(d.attempts, dead);
      Consistent(d.(quizzes := d.quizzes - dead, questions := d.questions - dq,
                    attempts := d.attempts - da, answers := d.answers - AnswersTouching(d.answers, da, dq)))
  {
  }

  lemma DeleteChaptersConsistent(d: Db, chs: set<Id>)
    requires Consistent(d)
    ensures Consistent(d.(chapters := d.chapters - chs, quizzes := Unfiled(d.quizzes, chs)))
  {
    UnfiledKeepsQuizzes(d.quizzes, chs);
  }

  /** Unfiling changes no quiz but its chapter, and leaves no quiz filed under `chs`. */
  lemma UnfiledKeepsQuizzes(quizzes: map<Id, Quiz>, chs: set<Id>)
    ensures var r := Unfiled(quizzes, chs);
      && r.Keys == quizzes.Keys
      && forall k :: k in r ==>
           && r[k] == quizzes[k].(chapterId := r[k].chapterId)
           && (r[k].chapterId.Some? ==> r[k].chapterId == quizzes[k].chapterId && r[k].chapterId.value !in chs)
  {
  }

  lemma DeleteSubjectConsistent(d: Db, s: Id)
    requires Consistent(d)
    requires forall k :: k in d.chapters ==> d.chapters[k].subjectId != s
    requires forall k :: k in d.quizzes ==> d.quizzes[k].subjectId != s
    ensures Consistent(d.(subjects := d.subjects - {s}))
  {
  }

  // ----- The store -----

  class Store {
    var users: map<Id, User>
    var subjects: map<Id, Subject>
    var chapters: map<Id, Chapter>
    var quizzes: map<Id, Quiz>
    var questions: map<Id, Question>
    var attempts: map<Id, QuizAttempt>
    var answers: map<Id, UserAnswer>
    var nextId: nat

    /** The current contents of every table. */
    function State(): Db
      reads this
    {
      Db(users, subjects, chapters, quizzes, questions, attempts, answers, nextId)
    }

    ghost predicate Valid()
      reads this
    {
      Consistent(State())
    }

    constructor ()
      ensures Valid()
      ensures State() == Db(map[], map[], map[], map[], map[], map[], map[], 0)
    {
      users, subjects, chapters, quizzes := map[], map[], map[], map[];
      questions, attempts, answers := map[], map[], map[];
      nextId := 0;
    }

    // ----- Inserts -----

    /** Inserts a user.  The unique constraint on username rejects a duplicate (None);
        an unset is_admin takes the column default, false. */
    method AddUser(username: string, isAdmin: Option<bool>, age: Option<int>, interests: Option<string>)
      returns (id: Option<Id>)
      requires Valid()
      modifies this
      ensures Valid()
      ensures id.None? <==> exists k :: k in old(users) && old(users)[k].username == username
      ensures id.None? ==> State() == old(State())
      ensures id.Some? ==> id.value == old(nextId) && State() == old(State()).(
        users := old(users)[id.value := User(username, isAdmin == Some(true), age, interests)],
        nextId := old(nextId) + 1)
    {
      if exists k :: k in users && users[k].username == username {
        return None;
      }
      var u := User(username, isAdmin == Some(true), age, interests);
      ghost var d := State();
      AddUserConsistent(d, u);
      id := Some(nextId);
      users := users[nextId := u];
      nextId := nextId + 1;
      assert State() == d.(users := d.users[d.nextId := u], nextId := d.nextId + 1);
    }

    method AddSubject(s: Subject) returns (id: Id)
      requires Valid() && SubjectOk(s)
      modifies this
      ensures Valid()
      ensures id == old(nextId) && State() == old(State()).(subjects := old(subjects)[id := s], nextId := id + 1)
    {
      ghost var d := State();
      AddSubjectConsistent(d, s);
      id := nextId;
      subjects := subjects[id := s];
      nextId := nextId + 1;
      assert State() == d.(subjects := d.subjects[d.nextId := s], nextId := d.nextId + 1);
    }

    method AddChapter(c: Chapter) returns (id: Id)
      requires Valid() && ChapterOk(c) && c.subjectId in subjects
      modifies this
      ensures Valid()
      ensures id == old(nextId) && State() == old(State()).(chapters := old(chapters)[id := c], nextId := id + 1)
    {
      ghost var d := State();
      AddChapterConsistent(d, c);
      id := nextId;
      chapters := chapters[id := c];
      nextId := nextId + 1;
      assert State() == d.(chapters := d.chapters[d.nextId := c], nextId := d.nextId + 1);
    }

    method AddQuiz(q: Quiz) returns (id: Id)
      requires Valid() && QuizOk(q) && q.subjectId in subjects
      requires q.chapterId.Some? ==> q.chapterId.value in chapters
      modifies this
      ensures Valid()
      ensures id == old(nextId) && State() == old(State()).(quizzes := old(quizzes)[id := q], nextId := id + 1)
    {
      ghost var d := State();
      AddQuizConsistent(d, q);
      id := nextId;
      quizzes := quizzes[id := q];
      nextId := nextId + 1;
      assert State() == d.(quizzes := d.quizzes[d.nextId := q], nextId := d.nextId + 1);
    }

    method AddQuestion(q: Question) returns (id: Id)
      requires Valid() && QuestionOk(q) && q.quizId in quizzes
      modifies this
      ensures Valid()
      ensures id == old(nextId) && State() == old(State()).(questions := old(questions)[id := q], nextId := id + 1)
    {
      ghost var d := State();
      AddQuestionConsistent(d, q);
      id := nextId;
      questions := questions[id := q];
      nextId := nextId + 1;
      assert State() == d.(questions := d.questions[d.nextId := q], nextId := d.nextId + 1);
    }

    // ----- In-place updates of authored rows -----

    method UpdateSubject(id: Id, s: Subject)
      requires Valid() && id in subjects && SubjectOk(s)
      modifies this
      ensures Valid()
      ensures State() == old(State()).(subjects := old(subjects)[id := s])
    {
      ghost var d := State();
      UpdateSubjectConsistent(d, id, s);
      subjects := subjects[id := s];
      assert State() == d.(subjects := d.subjects[id := s]);
    }

    method UpdateChapter(id: Id, c: Chapter)
      requires Valid() && id in chapters && ChapterOk(c) && c.subjectId in subjects
      modifies this
      ensures Valid()
      ensures State() == old(State()).(chapters := old(chapters)[id := c])
    {
      ghost var d := State();
      UpdateChapterConsistent(d, id, c);
      chapters := chapters[id := c];
      assert State() == d.(chapters := d.chapters[id := c]);
    }

    method UpdateQuiz(id: Id, q: Quiz)
      requires Valid() && id in quizzes && QuizOk(q) && q.subjectId in subjects
      requires q.chapterId.Some? ==> q.chapterId.value in chapters
      modifies this
      ensures Valid()
      ensures State() == old(State()).(quizzes := old(quizzes)[id := q])
    {
      ghost var d := State();
      UpdateQuizConsistent(d, id, q);
      quizzes := quizzes[id := q];
      assert State() == d.(quizzes := d.quizzes[id := q]);
    }

    method UpdateQuestion(id: Id, q: Question)
      requires Valid() && id in questions && QuestionOk(q) && q.quizId == questions[id].quizId
      modifies this
      ensures Valid()
      ensures State() == old(State()).(questions := old(questions)[id := q])
    {
      ghost var d := State();
      UpdateQuestionConsistent(d, id, q);
      questions := questions[id := q];
      assert State() == d.(questions := d.questions[id := q]);
    }

    // ----- Attempt transitions used by the learner routes -----

    /** Inserts a new attempt with the column defaults: not completed, score 0.0, no
        completion time. */
    method CreateAttempt(user: Id, quiz: Id, now: int) returns (a: Id)
      requires Valid() && user in users && quiz in quizzes
      requires forall b :: b in attempts && attempts[b].userId == user && attempts[b].quizId == quiz ==> attempts[b].completed
      modifies this
      ensures Valid()
      ensures a == old(nextId) && a !in old(attempts)
      ensures State() == old(State()).(
        attempts := old(attempts)[a := QuizAttempt(user, quiz, Some(0.0), false, now, None)],
        nextId := a + 1)
      ensures AnswersOf(answers, a, nextId) == []
    {
      var t := QuizAttempt(user, quiz, Some(0.0), false, now, None);
      ghost var d := State();
      NewAttemptConsistent(d, t);
      a := nextId;
      assert forall x :: x in answers ==> answers[x].attemptId != a;
      attempts := attempts[a := t];
      nextId := nextId + 1;
      assert State() == d.(attempts := d.attempts[d.nextId := t], nextId := d.nextId + 1);
    }

    /** Marks an attempt completed at `now`, leaving its score and answers as they are. */
    method Expire(a: Id, now: int)
      requires Valid() && a in attempts
      modifies this
      ensures Valid()
      ensures State() == old(State()).(
        attempts := old(attempts)[a := old(attempts)[a].(completed := true, completedAt := Some(now))])
    {
      var t := attempts[a].(completed := true, completedAt := Some(now));
      ghost var d := State();
      ChangeAttemptConsistent(d, a, t);
      attempts := attempts[a := t];
      assert State() == d.(attempts := d.attempts[a := t]);
    }

    /** Completes an attempt at `now` and stores calculate_score of its answers. */
    method Complete(a: Id, now: int)
      requires Valid() && a in attempts
      modifies this
      ensures Valid()
      ensures State() == old(State()).(attempts := old(attempts)[a := old(attempts)[a].(
        score := Some(ScoreOf(old(State()), a)), completed := true, completedAt := Some(now))])
    {
      var score := ScoreOf(State(), a);
      var t := attempts[a].(score := Some(score), completed := true, completedAt := Some(now));
      ghost var d := State();
      ChangeAttemptConsistent(d, a, t);
      attempts := attempts[a := t];
      assert State() == d.(attempts := d.attempts[a := t]);
    }

    /** Records the answer `selected` to question `q` in attempt `a`; it is correct exactly
        when it names the question's correct option. */
    method RecordAnswer(a: Id, q: Id, selected: int, now: int) returns (id: Id)
      requires Valid() && a in attempts && q in questions && questions[q].quizId == attempts[a].quizId
      requires q !in AnsweredIds(answers, a)
      modifies this
      ensures Valid()
      ensures id == old(nextId) && id !in old(answers)
      ensures State() == old(State()).(
        answers := old(answers)[id := UserAnswer(a, q, selected, selected == old(questions)[q].correctOption, now)],
        nextId := id + 1)
    {
      var x := UserAnswer(a, q, selected, selected == questions[q].correctOption, now);
      ghost var d := State();
      NewAnswerConsistent(d, x);
      id := nextId;
      answers := answers[id := x];
      nextId := nextId + 1;
      assert State() == d.(answers := d.answers[d.nextId := x], nextId := d.nextId + 1);
    }

    // ----- Cascade deletes -----

    /** Deletes an attempt; its answers go with it.  On a consistent store the result is
        consistent again (DeleteAttemptsConsistent), whether one attempt or several go. */
    method DeleteAttempt(a: Id)
      modifies this
      ensures State() == WithoutAttempts(old(State()), {a})
    {
      answers := answers - AnswersTouching(answers, {a}, {});
      attempts := attempts - {a};
    }

    /** Deletes a user; its attempts, and their answers, go with it. */
    method DeleteUser(u: Id)
      requires Valid()
      modifies this
      ensures Valid()
      ensures State() == WithoutAttempts(old(State()), AttemptsOfUser(old(attempts), u)).(users := old(users) - {u})
    {
      var dead := AttemptsOfUser(attempts, u);
      ghost var d := State();
      DeleteAttemptsConsistent(d, dead);
      answers := answers - AnswersTouching(answers, dead, {});
      attempts := attempts - dead;
      ghost var d1 := State();
      assert d1 == WithoutAttempts(d, dead);
      DeleteUserConsistent(d1, u);
      users := users - {u};
      assert State() == d1.(users := d1.users - {u});
    }

    /** Deletes a question.  The answers' back-reference to their question has no delete
        cascade, so the flush first sets question_id of every answer to it to NULL; the
        column is NOT NULL, so the commit fails and nothing changes when some answer names
        the question. */
    method DeleteQuestion(q: Id) returns (ok: bool)
      requires Valid()
      modifies this
      ensures Valid()
      ensures ok <==> !QuestionAnswered(old(answers), q)
      ensures ok ==> State() == old(State()).(questions := old(questions) - {q})
      ensures !ok ==> State() == old(State())
    {
      if exists x :: x in answers && answers[x].questionId == q {
        return false;
      }
      ghost var d := State();
      DeleteQuestionConsistent(d, q);
      questions := questions - {q};
      ok := true;
    }

    /** Deletes the quizzes in `dead`; their questions and attempts go with them, and so do
        the answers of those attempts and to those questions. */
    method DeleteQuizzes(dead: set<Id>)
      requires Valid()
      modifies this
      ensures Valid()
      ensures var dq, da := QuestionsOfQuizzes(old(questions), dead), AttemptsOfQuizzes(old(attempts), dead);
        State() == old(State()).(
          quizzes := old(quizzes) - dead, questions := old(questions) - dq,
          attempts := old(attempts) - da, answers := old(answers) - AnswersTouching(old(answers), da, dq))
    {
      ghost var d := State();
      DeleteQuizzesConsistent(d, dead);
      var dq := QuestionsOfQuizzes(questions, dead);
      var da := AttemptsOfQuizzes(attempts, dead);
      answers := answers - AnswersTouching(answers, da, dq);
      attempts := attempts - da;
      questions := questions - dq;
      quizzes := quizzes - dead;
      assert State() == d.(quizzes := d.quizzes - dead, questions := d.questions - dq,
                           attempts := d.attempts - da, answers := d.answers - AnswersTouching(d.answers, da, dq));
    }

    /** Deletes the chapters in `chs`.  Chapter.quizzes is not loaded and has
        passive_deletes, so the database's rule on quiz.chapter_id decides: the quizzes filed
        under them stay, with no chapter. */
    method DeleteChapters(chs: set<Id>)
      requires Valid()
      modifies this
      ensures Valid()
      ensures State() == old(State()).(chapters := old(chapters) - chs, quizzes := Unfiled(old(quizzes), chs))
    {
      ghost var d := State();
      DeleteChaptersConsistent(d, chs);
      chapters := chapters - chs;
      quizzes := Unfiled(quizzes, chs);
      assert State() == d.(chapters := d.chapters - chs, quizzes := Unfiled(d.quizzes, chs));
    }

    /** Deletes a subject.  Its chapters and its quizzes go with it (ON DELETE CASCADE), with
        everything that depends on those quizzes; a quiz of another subject filed under one
        of its chapters stays, with no chapter. */
    method DeleteSubject(sid: Id)
      requires Valid()
      modifies this
      ensures Valid()
      ensures var chs := ChaptersOfSubject(old(chapters), sid);
        var dead := QuizzesOfSubjectIds(old(quizzes), sid);
        var dq, da := QuestionsOfQuizzes(old(questions), dead), AttemptsOfQuizzes(old(attempts), dead);
        State() == old(State()).(
          subjects := old(subjects) - {sid}, chapters := old(chapters) - chs,
          quizzes := Unfiled(old(quizzes) - dead, chs), questions := old(questions) - dq,
          attempts := old(attempts) - da, answers := old(answers) - AnswersTouching(old(answers), da, dq))
    {
      var chs := ChaptersOfSubject(chapters, sid);
      DeleteQuizzes(QuizzesOfSubjectIds(quizzes, sid));
      DeleteChapters(chs);
      ghost var d1 := State();
      DeleteSubjectConsistent(d1, sid);
      subjects := subjects - {sid};
      assert State() == d1.(subjects := d1.subjects - {sid});
    }
  }
}
