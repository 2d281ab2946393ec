/**
 * The admin blueprint (app/admin/routes.py): the role guard, the subject search, and the
 * routes that add, edit and delete subjects, chapters, quizzes, questions and users.
 *
 * A route that takes a form gets `Option<…Form>`: None is a visit without a submission,
 * Some(f) a submitted form; either way a form that does not validate leaves the store
 * as it is and shows the form again.  Every route first applies the role guard: a user
 * who is not an admin is refused.  A record the URL names but the store does not hold is
 * a 404.
 */
module AdminRoutes {
  import opened Wrappers
  import opened Models
  import opened Tables
  import opened Store
  import opened Forms
  import Search

  datatype AdminOutcome =
    | Forbidden       // 403 from the role guard
    | NotFound        // 404 from get_or_404
    | ShowForm        // no submission, or one that does not validate
    | StorageError    // the commit fails: a missing chapter, or a question that has answers
    | SelfDelete      // an admin asked to delete their own account
    | Done(id: Id)    // the change was committed; `id` is the row it concerns

  /** The role guard: only an admin passes. */
  predicate IsAdmin(d: Db, me: Id) {
    me in d.users && d.users[me].isAdmin
  }

  // ----- dashboard -----

  datatype DashboardOutcome = DashboardForbidden | Subjects(ids: seq<Id>)

  /** The admin dashboard: the subject search, for admins only. */
  function Dashboard(d: Db, me: Id, query: string, fold: char -> char): (r: DashboardOutcome)
    requires Consistent(d) && me in d.users
    ensures r.DashboardForbidden? <==> !d.users[me].isAdmin
    ensures r.Subjects? ==> forall k :: k in r.ids <==> k in d.subjects && Search.ILike(d.subjects[k].name, query, fold)
    ensures r.Subjects? && query == [] ==> forall k :: k in r.ids <==> k in d.subjects
  {
    if !d.users[me].isAdmin then DashboardForbidden
    else
      assert forall k :: k in d.subjects ==> 0 <= k < d.nextId;
      Subjects(Search.SubjectSearch(d.subjects, query, fold, d.nextId))
  }

  // ----- subjects -----

  method AddSubject(s: Store, me: Id, form: Option<SubjectForm>) returns (r: AdminOutcome)
    requires s.Valid() && me in s.users
    modifies s
    ensures s.Valid()
    ensures r.Forbidden? <==> !IsAdmin(old(s.State()), me)
    ensures r.ShowForm? <==> IsAdmin(old(s.State()), me) && !(form.Some? && SubjectFormValid(form.value))
    ensures r.Done? <==> IsAdmin(old(s.State()), me) && form.Some? && SubjectFormValid(form.value)
    ensures !r.Done? ==> s.State() == old(s.State())
    ensures r.Done? ==> r.id == old(s.nextId) && s.State() == old(s.State()).(
      subjects := old(s.subjects)[r.id := Subject(form.value.name, form.value.description)], nextId := r.id + 1)
  {
    if !s.users[me].isAdmin {
      return Forbidden;
    }
    if form.None? || !SubjectFormValid(form.value) {
      return ShowForm;
    }
    var id := s.AddSubject(Subject(form.value.name, form.value.description));
    r := Done(id);
  }

  /** `edit_subject`: the form sets the name and the description. */
  method EditSubject(s: Store, me: Id, subject: Id, form: Option<SubjectForm>) returns (r: AdminOutcome)
    requires s.Valid() && me in s.users
    modifies s
    ensures s.Valid()
    ensures r.Forbidden? <==> !IsAdmin(old(s.State()), me)
    ensures r.NotFound? <==> IsAdmin(old(s.State()), me) && subject !in old(s.subjects)
    ensures r.ShowForm? <==> IsAdmin(old(s.State()), me) && subject in old(s.subjects)
                             && !(form.Some? && SubjectFormValid(form.value))
    ensures r.Done? <==> IsAdmin(old(s.State()), me) && subject in old(s.subjects)
                         && form.Some? && SubjectFormValid(form.value)
    ensures !r.Done? ==> s.State() == old(s.State())
    ensures r.Done? ==> r.id == subject && s.State() == old(s.State()).(
      subjects := old(s.subjects)[subject := Subject(form.value.name, form.value.description)])
  {
    if !s.users[me].isAdmin {
      return Forbidden;
    }
    if subject !in s.subjects {
      return NotFound;
    }
    if form.None? || !SubjectFormValid(form.value) {
      return ShowForm;
    }
    s.UpdateSubject(subject, Subject(form.value.name, form.value.description));
    r := Done(subject);
  }

  /** `delete_subject`: the subject goes, with its chapters, its quizzes and everything
      that hangs off those quizzes; another subject's quiz filed under one of its chapters
      stays, with no chapter. */
  method DeleteSubject(s: Store, me: Id, subject: Id) returns (r: AdminOutcome)
    requires s.Valid() && me in s.users
    modifies s
    ensures s.Valid()
    ensures r.Forbidden? <==> !IsAdmin(old(s.State()), me)
    ensures r.NotFound? <==> IsAdmin(old(s.State()), me) && subject !in old(s.subjects)
    ensures r.Done? <==> IsAdmin(old(s.State()), me) && subject in old(s.subjects)
    ensures !r.Done? ==> s.State() == old(s.State())
    ensures r.Done? ==>
      && r.id == subject && subject !in s.subjects
      && (forall k :: k in s.chapters ==> s.chapters[k].subjectId != subject)
      && (forall k :: k in s.quizzes ==> s.quizzes[k].subjectId != subject)
      && s.users == old(s.users) && (forall k :: k in old(s.subjects) && k != subject ==> k in s.subjects)
    ensures r.Done? ==>
      var chs := ChaptersOfSubject(old(s.chapters), subject);
      var dead := QuizzesOfSubjectIds(old(s.quizzes), subject);
      var dq, da := QuestionsOfQuizzes(old(s.questions), dead), AttemptsOfQuizzes(old(s.attempts), dead);
      s.State() == old(s.State()).(
        subjects := old(s.subjects) - {subject}, chapters := old(s.chapters) - chs,
        quizzes := Unfiled(old(s.quizzes) - dead, chs), questions := old(s.questions) - dq,
        attempts := old(s.attempts) - da, answers := old(s.answers) - AnswersTouching(old(s.answers), da, dq))
  {
    if !s.users[me].isAdmin {
      return Forbidden;
    }
    if subject !in s.subjects {
      return NotFound;
    }
    s.DeleteSubject(subject);
    r := Done(subject);
  }

  // ----- chapters -----

  /** `add_chapter`: the new chapter belongs to the subject in the URL. */
  method AddChapter(s: Store, me: Id, subject: Id, form: Option<ChapterForm>) returns (r: AdminOutcome)
    requires s.Valid() && me in s.users
    modifies s
    ensures s.Valid()
    ensures r.Forbidden? <==> !IsAdmin(old(s.State()), me)
    ensures r.NotFound? <==> IsAdmin(old(s.State()), me) && subject !in old(s.subjects)
    ensures r.ShowForm? <==> IsAdmin(old(s.State()), me) && subject in old(s.subjects)
                             && !(form.Some? && ChapterFormValid(form.value))
    ensures r.Done? <==> IsAdmin(old(s.State()), me) && subject in old(s.subjects)
                         && form.Some? && ChapterFormValid(form.value)
    ensures !r.Done? ==> s.State() == old(s.State())
    ensures r.Done? ==> r.id == old(s.nextId) && s.State() == old(s.State()).(
      chapters := old(s.chapters)[r.id := Chapter(form.value.name, form.value.description, subject)], nextId := r.id + 1)
  {
    if !s.users[me].isAdmin {
      return Forbidden;
    }
    if subject !in s.subjects {
      return NotFound;
    }
    if form.None? || !ChapterFormValid(form.value) {
      return ShowForm;
    }
    var id := s.AddChapter(Chapter(form.value.name, form.value.description, subject));
    r := Done(id);
  }

  /** `edit_chapter`: the form sets the name and the description; the subject stays. */
  method EditChapter(s: Store, me: Id, chapter: Id, form: Option<ChapterForm>) returns (r: AdminOutcome)
    requires s.Valid() && me in s.users
    modifies s
    ensures s.Valid()
    ensures r.Forbidden? <==> !IsAdmin(old(s.State()), me)
    ensures r.NotFound? <==> IsAdmin(old(s.State()), me) && chapter !in old(s.chapters)
    ensures r.ShowForm? <==> IsAdmin(old(s.State()), me) && chapter in old(s.chapters)
                             && !(form.Some? && ChapterFormValid(form.value))
    ensures r.Done? <==> IsAdmin(old(s.State()), me) && chapter in old(s.chapters)
                         && form.Some? && ChapterFormValid(form.value)
    ensures !r.Done? ==> s.State() == old(s.State())
    ensures r.Done? ==> r.id == chapter && s.State() == old(s.State()).(
      chapters := old(s.chapters)[chapter := old(s.chapters)[chapter].(name := form.value.name, description := form.value.description)])
  {
    if !s.users[me].isAdmin {
      return Forbidden;
    }
    if chapter !in s.chapters {
      return NotFound;
    }
    if form.None? || !ChapterFormValid(form.value) {
      return ShowForm;
    }
    var c := s.chapters[chapter].(name := form.value.name, description := form.value.description);
    s.UpdateChapter(chapter, c);
    r := Done(chapter);
  }

  /** `delete_chapter`: the chapter goes; the quizzes filed under it stay, with no chapter. */
  method DeleteChapter(s: Store, me: Id, chapter: Id) returns (r: AdminOutcome)
    requires s.Valid() && me in s.users
    modifies s
    ensures s.Valid()
    ensures r.Forbidden? <==> !IsAdmin(old(s.State()), me)
    ensures r.NotFound? <==> IsAdmin(old(s.State()), me) && chapter !in old(s.chapters)
    ensures r.Done? <==> IsAdmin(old(s.State()), me) && chapter in old(s.chapters)
    ensures !r.Done? ==> s.State() == old(s.State())
    ensures r.Done? ==>
      && r.id == chapter && chapter !in s.chapters
      && (forall k :: k in s.quizzes ==> s.quizzes[k].chapterId != Some(chapter))
      && s.quizzes.Keys == old(s.quizzes).Keys && s.questions == old(s.questions) && s.attempts == old(s.attempts)
    ensures r.Done? ==>
      s.State() == old(s.State()).(chapters := old(s.chapters) - {chapter}, quizzes := Unfiled(old(s.quizzes), {chapter}))
  {
    if !s.users[me].isAdmin {
      return Forbidden;
    }
    if chapter !in s.chapters {
      return NotFound;
    }
    s.DeleteChapters({chapter});
    r := Done(chapter);
  }

  // ----- quizzes -----

  /** `add_quiz`: the new quiz belongs to the subject in the URL.  It is filed under the
      chapter the URL's `chapter_id` names when there is one (it replaces the submitted
      choice), and otherwise under the chapter the form names, if any.  Neither is checked;
      one that does not exist fails the foreign key and nothing is stored. */
  method AddQuiz(s: Store, me: Id, subject: Id, urlChapter: Option<int>, form: Option<QuizForm>) returns (r: AdminOutcome)
    requires s.Valid() && me in s.users
    modifies s
    ensures s.Valid()
    ensures r.Forbidden? <==> !IsAdmin(old(s.State()), me)
    ensures r.NotFound? <==> IsAdmin(old(s.State()), me) && subject !in old(s.subjects)
    ensures r.ShowForm? <==> IsAdmin(old(s.State()), me) && subject in old(s.subjects)
                             && !(form.Some? && QuizFormValid(form.value))
    ensures r.StorageError? <==> IsAdmin(old(s.State()), me) && subject in old(s.subjects)
                                 && form.Some? && QuizFormValid(form.value)
                                 && FiledUnder(urlChapter, form.value).Some?
                                 && FiledUnder(urlChapter, form.value).value !in old(s.chapters)
    ensures r.Done? <==> IsAdmin(old(s.State()), me) && subject in old(s.subjects)
                         && form.Some? && QuizFormValid(form.value)
                         && (FiledUnder(urlChapter, form.value).Some? ==> FiledUnder(urlChapter, form.value).value in old(s.chapters))
    ensures !r.Done? ==> s.State() == old(s.State())
    ensures r.Done? ==> r.id == old(s.nextId) && s.State() == old(s.State()).(
      quizzes := old(s.quizzes)[r.id := Quiz(form.value.name, form.value.description, form.value.timeLimit.value,
                                             subject, FiledUnder(urlChapter, form.value))],
      nextId := r.id + 1)
    ensures r.Done? && urlChapter.Some? ==> s.quizzes[r.id].chapterId == urlChapter
    ensures r.Done? && urlChapter.None? ==> s.quizzes[r.id].chapterId == ChapterChoice(form.value)
  {
    if !s.users[me].isAdmin {
      return Forbidden;
    }
    if subject !in s.subjects {
      return NotFound;
    }
    if form.None? || !QuizFormValid(form.value) {
      return ShowForm;
    }
    var f := form.value;
    var chapter := FiledUnder(urlChapter, f);
    if chapter.Some? && chapter.value !in s.chapters {
      return StorageError;
    }
    var id := s.AddQuiz(Quiz(f.name, f.description, f.timeLimit.value, subject, chapter));
    r := Done(id);
  }

  /** The chapter a new quiz is filed under: the URL's, when present, over the form's. */
  function FiledUnder(urlChapter: Option<int>, f: QuizForm): Option<Id> {
    if urlChapter.Some? then urlChapter else ChapterChoice(f)
  }

  /** `edit_quiz`: the form sets the name, the description and the time limit; the
      subject, the chapter and the questions stay. */
  method EditQuiz(s: Store, me: Id, quiz: Id, form: Option<QuizForm>) returns (r: AdminOutcome)
    requires s.Valid() && me in s.users
    modifies s
    ensures s.Valid()
    ensures r.Forbidden? <==> !IsAdmin(old(s.State()), me)
    ensures r.NotFound? <==> IsAdmin(old(s.State()), me) && quiz !in old(s.quizzes)
    ensures r.ShowForm? <==> IsAdmin(old(s.State()), me) && quiz in old(s.quizzes)
                             && !(form.Some? && QuizFormValid(form.value))
    ensures r.Done? <==> IsAdmin(old(s.State()), me) && quiz in old(s.quizzes)
                         && form.Some? && QuizFormValid(form.value)
    ensures !r.Done? ==> s.State() == old(s.State())
    ensures r.Done? ==> r.id == quiz && s.State() == old(s.State()).(
      quizzes := old(s.quizzes)[quiz := old(s.quizzes)[quiz].(
        name := form.value.name, description := form.value.description, timeLimit := form.value.timeLimit.value)])
    ensures r.Done? ==>
      && s.quizzes[quiz].subjectId == old(s.quizzes)[quiz].subjectId
      && s.quizzes[quiz].chapterId == old(s.quizzes)[quiz].chapterId && s.questions == old(s.questions)
  {
    if !s.users[me].isAdmin {
      return Forbidden;
    }
    if quiz !in s.quizzes {
      return NotFound;
    }
    if form.None? || !QuizFormValid(form.value) {
      return ShowForm;
    }
    var f := form.value;
    var q := s.quizzes[quiz].(name := f.name, description := f.description, timeLimit := f.timeLimit.value);
    s.UpdateQuiz(quiz, q);
    r := Done(quiz);
  }

  /** `delete_quiz`: the quiz goes, with its questions, its attempts and their answers. */
  method DeleteQuiz(s: Store, me: Id, quiz: Id) returns (r: AdminOutcome)
    requires s.Valid() && me in s.users
    modifies s
    ensures s.Valid()
    ensures r.Forbidden? <==> !IsAdmin(old(s.State()), me)
    ensures r.NotFound? <==> IsAdmin(old(s.State()), me) && quiz !in old(s.quizzes)
    ensures r.Done? <==> IsAdmin(old(s.State()), me) && quiz in old(s.quizzes)
    ensures !r.Done? ==> s.State() == old(s.State())
    ensures r.Done? ==>
      && r.id == quiz && quiz !in s.quizzes
      && (forall k :: k in s.questions ==> s.questions[k].quizId != quiz)
      && (forall k :: k in s.attempts ==> s.attempts[k].quizId != quiz)
      && s.users == old(s.users) && s.subjects == old(s.subjects) && s.chapters == old(s.chapters)
    ensures r.Done? ==>
      var dq, da := QuestionsOfQuizzes(old(s.questions), {quiz}), AttemptsOfQuizzes(old(s.attempts), {quiz});
      s.State() == old(s.State()).(
        quizzes := old(s.quizzes) - {quiz}, questions := old(s.questions) - dq,
        attempts := old(s.attempts) - da, answers := old(s.answers) - AnswersTouching(old(s.answers), da, dq))
  {
    if !s.users[me].isAdmin {
      return Forbidden;
    }
    if quiz !in s.quizzes {
      return NotFound;
    }
    s.DeleteQuizzes({quiz});
    r := Done(quiz);
  }

  // ----- questions -----

  /** The question a valid form describes, for `quiz`. */
  function QuestionOf(f: QuestionForm, quiz: Id): Question
    requires QuestionFormValid(f)
  {
    Question(f.text, Marks(f).value, f.option1, f.option2, f.option3, f.option4, f.correctOption.value, quiz)
  }

  /** `add_question`: the new question belongs to the quiz in the URL. */
  method AddQuestion(s: Store, me: Id, quiz: Id, form: Option<QuestionForm>) returns (r: AdminOutcome)
    requires s.Valid() && me in s.users
    modifies s
    ensures s.Valid()
    ensures r.Forbidden? <==> !IsAdmin(old(s.State()), me)
    ensures r.NotFound? <==> IsAdmin(old(s.State()), me) && quiz !in old(s.quizzes)
    ensures r.ShowForm? <==> IsAdmin(old(s.State()), me) && quiz in old(s.quizzes)
                             && !(form.Some? && QuestionFormValid(form.value))
    ensures r.Done? <==> IsAdmin(old(s.State()), me) && quiz in old(s.quizzes)
                         && form.Some? && QuestionFormValid(form.value)
    ensures !r.Done? ==> s.State() == old(s.State())
    ensures r.Done? ==> r.id == old(s.nextId) && s.State() == old(s.State()).(
      questions := old(s.questions)[r.id := QuestionOf(form.value, quiz)], nextId := r.id + 1)
  {
    if !s.users[me].isAdmin {
      return Forbidden;
    }
    if quiz !in s.quizzes {
      return NotFound;
    }
    if form.None? || !QuestionFormValid(form.value) {
      return ShowForm;
    }
    var id := s.AddQuestion(QuestionOf(form.value, quiz));
    r := Done(id);
  }

  /** `edit_question`: the form sets the text, the marks, the four options and the correct
      option; the quiz stays, and so do the answers already recorded. */
  method EditQuestion(s: Store, me: Id, question: Id, form: Option<QuestionForm>) returns (r: AdminOutcome)
    requires s.Valid() && me in s.users
    modifies s
    ensures s.Valid()
    ensures r.Forbidden? <==> !IsAdmin(old(s.State()), me)
    ensures r.NotFound? <==> IsAdmin(old(s.State()), me) && question !in old(s.questions)
    ensures r.ShowForm? <==> IsAdmin(old(s.State()), me) && question in old(s.questions)
                             && !(form.Some? && QuestionFormValid(form.value))
    ensures r.Done? <==> IsAdmin(old(s.State()), me) && question in old(s.questions)
                         && form.Some? && QuestionFormValid(form.value)
    ensures !r.Done? ==> s.State() == old(s.State())
    ensures r.Done? ==> r.id == question && s.State() == old(s.State()).(
      questions := old(s.questions)[question := QuestionOf(form.value, old(s.questions)[question].quizId)])
  {
    if !s.users[me].isAdmin {
      return Forbidden;
    }
    if question !in s.questions {
      return NotFound;
    }
    if form.None? || !QuestionFormValid(form.value) {
      return ShowForm;
    }
    s.UpdateQuestion(question, QuestionOf(form.value, s.questions[question].quizId));
    r := Done(question);
  }

  /** `delete_question`: the question goes.  When some answer names it, the commit fails
      (see Store.DeleteQuestion) and nothing changes. */
  method DeleteQuestion(s: Store, me: Id, question: Id) returns (r: AdminOutcome)
    requires s.Valid() && me in s.users
    modifies s
    ensures s.Valid()
    ensures r.Forbidden? <==> !IsAdmin(old(s.State()), me)
    ensures r.NotFound? <==> IsAdmin(old(s.State()), me) && question !in old(s.questions)
    ensures r.StorageError? <==> IsAdmin(old(s.State()), me) && question in old(s.questions)
                                 && QuestionAnswered(old(s.answers), question)
    ensures r.Done? <==> IsAdmin(old(s.State()), me) && question in old(s.questions)
                         && !QuestionAnswered(old(s.answers), question)
    ensures !r.Done? ==> s.State() == old(s.State())
    ensures r.Done? ==> r.id == question && s.State() == old(s.State()).(questions := old(s.questions) - {question})
  {
    if !s.users[me].isAdmin {
      return Forbidden;
    }
    if question !in s.questions {
      return NotFound;
    }
    var ok := s.DeleteQuestion(question);
    if !ok {
      return StorageError;
    }
    r := Done(question);
  }

  // ----- users -----

  /** `delete_user`: an admin may not delete their own account (checked before the 404);
      otherwise each attempt of the user is deleted with its answers, one by one, and then
      the user.  Nothing of any other user is touched. */
  method DeleteUser(s: Store, me: Id, user: Id) returns (r: AdminOutcome)
    requires s.Valid() && me in s.users
    modifies s
    ensures s.Valid()
    ensures r.Forbidden? <==> !IsAdmin(old(s.State()), me)
    ensures r.SelfDelete? <==> IsAdmin(old(s.State()), me) && user == me
    ensures r.NotFound? <==> IsAdmin(old(s.State()), me) && user != me && user !in old(s.users)
    ensures r.Done? <==> IsAdmin(old(s.State()), me) && user != me && user in old(s.users)
    ensures !r.Done? ==> s.State() == old(s.State())
    ensures r.Done? ==> r.id == user && s.State() == old(s.State()).(
      users := old(s.users) - {user},
      attempts := old(s.attempts) - AttemptsOfUser(old(s.attempts), user),
      answers := old(s.answers) - AnswersTouching(old(s.answers), AttemptsOfUser(old(s.attempts), user), {}))
    ensures r.Done? ==> forall k :: (k in old(s.attempts) && old(s.attempts)[k].userId != user)
                                    ==> k in s.attempts && s.attempts[k] == old(s.attempts)[k]
  {
    if !s.users[me].isAdmin {
      return Forbidden;
    }
    if me == user {
      return SelfDelete;
    }
    if user !in s.users {
      return NotFound;
    }
    RemoveUser(s, user);
    r := Done(user);
  }

  /** The deleting part of `delete_user`: the user's attempts with their answers, then
      the user. */
  method RemoveUser(s: Store, user: Id)
    requires s.Valid() && user in s.users
    modifies s
    ensures s.Valid()
    ensures s.State() == old(s.State()).(
      users := old(s.users) - {user},
      attempts := old(s.attempts) - AttemptsOfUser(old(s.attempts), user),
      answers := old(s.answers) - AnswersTouching(old(s.answers), AttemptsOfUser(old(s.attempts), user), {}))
  {
    ghost var d0 := s.State();
    DeleteAttemptsOf(s, user);
    DeleteAttemptsConsistent(d0, AttemptsOfUser(d0.attempts, user));
    ghost var d1 := s.State();
    assert AttemptsOfUser(d1.attempts, user) == {};
    WithoutNoAttempts(d1);
    s.DeleteUser(user);
  }

  /** The loop of `delete_user`: each attempt of `user`, in insertion order, is deleted
      with its answers. */
  method DeleteAttemptsOf(s: Store, user: Id)
    requires forall k :: k in s.attempts ==> 0 <= k < s.nextId
    modifies s
    ensures s.State() == WithoutAttempts(old(s.State()), AttemptsOfUser(old(s.attempts), user))
  {
    ghost var d := s.State();
    var ids := Scan(s.attempts, (k: Id, t: QuizAttempt) => t.userId == user, 0, s.nextId);
    ghost var gone: set<Id> := {};
    WithoutNoAttempts(d);
    for i := 0 to |ids|
      invariant gone == set j | 0 <= j < i :: ids[j]
      invariant s.State() == WithoutAttempts(d, gone)
    {
      s.DeleteAttempt(ids[i]);
      DeleteStep(d, gone, ids[i]);
      gone := gone + {ids[i]};
    }
    ScannedAttemptsOfUser(d.attempts, user, d.nextId, ids);
  }

  /** The attempts the loop visits are exactly the user's attempts. */
  lemma ScannedAttemptsOfUser(attempts: map<Id, QuizAttempt>, user: Id, bound: int, ids: seq<Id>)
    requires forall k :: k in attempts ==> 0 <= k < bound
    requires forall j :: 0 <= j < |ids| ==> ids[j] in attempts && attempts[ids[j]].userId == user
    requires forall k :: 0 <= k < bound && k in attempts && attempts[k].userId == user ==> k in ids
    ensures (set j | 0 <= j < |ids| :: ids[j]) == AttemptsOfUser(attempts, user)
  {
    forall k | k in AttemptsOfUser(attempts, user)
      ensures k in set j | 0 <= j < |ids| :: ids[j]
    {
      assert k in ids;
      var j :| 0 <= j < |ids| && ids[j] == k;
    }
  }

  /** Deleting one more attempt, with its answers, is deleting the attempts of a set one
      larger, with theirs. */
  lemma DeleteStep(d: Db, gone: set<Id>, a: Id)
    ensures WithoutAttempts(WithoutAttempts(d, gone), {a}) == WithoutAttempts(d, gone + {a})
  {
  }
}
