/**
 * The learner blueprint (app/user/routes.py): the role guard, the subject dashboard, the
 * quiz listing with its access summary, the attempt state machine of `attempt_quiz`, and
 * the lazily scored result page.
 *
 * The four access rules of a quiz (is_unlocked_for_user, attempts_remaining_for_user,
 * is_past_deadline, sequence_number) are not defined anywhere in the modelled code; they
 * are the uninterpreted fields of a `Gate`, and the model fixes only how the routes
 * combine them and in which order.  The clock is the parameter `now`, in whole seconds.
 * Every route first applies the role guard: an admin is refused.
 */
module UserRoutes {
  import opened Wrappers
  import opened Models
  import opened Tables
  import opened Store
  import Utils
  import Search

  // ----- The access rules of a quiz, left abstract -----

  datatype Gate = Gate(
    isUnlocked: (Db, Id, Id) -> bool,       // quiz, user
    attemptsRemaining: (Db, Id, Id) -> int, // quiz, user
    isPastDeadline: (Db, Id, int) -> bool,  // quiz, now
    sequenceNumber: (Db, Id) -> int)        // quiz

  /** Why `attempt_quiz` turns a learner away. */
  datatype Denial = Locked | DeadlinePassed | AttemptsExhausted

  /** The `can_attempt` flag of the quiz listing. */
  predicate CanAttempt(gate: Gate, d: Db, quiz: Id, user: Id, now: int) {
    gate.isUnlocked(d, quiz, user) && gate.attemptsRemaining(d, quiz, user) > 0 && !gate.isPastDeadline(d, quiz, now)
  }

  /** The three checks at the top of `attempt_quiz`, in their order: the first one that
      fails names the denial, and a learner passes exactly when the listing says so. */
  function Admission(gate: Gate, d: Db, quiz: Id, user: Id, now: int): (r: Option<Denial>)
    ensures r.None? <==> CanAttempt(gate, d, quiz, user, now)
    ensures r == Some(Locked) <==> !gate.isUnlocked(d, quiz, user)
    ensures r == Some(DeadlinePassed) <==> gate.isUnlocked(d, quiz, user) && gate.isPastDeadline(d, quiz, now)
    ensures r == Some(AttemptsExhausted) <==>
      gate.isUnlocked(d, quiz, user) && !gate.isPastDeadline(d, quiz, now) && gate.attemptsRemaining(d, quiz, user) <= 0
  {
    if !gate.isUnlocked(d, quiz, user) then Some(Locked)
    else if gate.isPastDeadline(d, quiz, now) then Some(DeadlinePassed)
    else if gate.attemptsRemaining(d, quiz, user) <= 0 then Some(AttemptsExhausted)
    else None
  }

  // ----- dashboard -----

  datatype DashboardOutcome = DashboardForbidden | Subjects(ids: seq<Id>)

  /** The learner dashboard: an admin is refused; anyone else gets the subject search. */
  function Dashboard(d: Db, me: Id, query: string, fold: char -> char): (r: DashboardOutcome)
    requires Consistent(d) && me in d.users
    ensures r.DashboardForbidden? <==> d.users[me].isAdmin
    ensures r.Subjects? ==> forall k :: k in r.ids <==> k in d.subjects && Search.ILike(d.subjects[k].name, query, fold)
    ensures r.Subjects? && query == [] ==> forall k :: k in r.ids <==> k in d.subjects
  {
    if d.users[me].isAdmin then DashboardForbidden
    else
      assert forall k :: k in d.subjects ==> 0 <= k < d.nextId;
      Subjects(Search.SubjectSearch(d.subjects, query, fold, d.nextId))
  }

  // ----- view_quizzes -----

  /** One entry of the quiz listing. */
  datatype QuizAccess = QuizAccess(quiz: Id, isUnlocked: bool, attemptsRemaining: int, isPastDeadline: bool, canAttempt: bool)

  datatype ListingOutcome = ListingForbidden | SubjectNotFound | Listing(rows: seq<QuizAccess>)

  /** The listing entry of `quiz`; its `can_attempt` flag agrees with the checks of `attempt_quiz`. */
  function AccessRow(gate: Gate, d: Db, quiz: Id, user: Id, now: int): (row: QuizAccess)
    ensures row.quiz == quiz
    ensures row.canAttempt <==> Admission(gate, d, quiz, user, now).None?
    ensures !row.canAttempt ==> !row.isUnlocked || row.attemptsRemaining <= 0 || row.isPastDeadline
  {
    var unlocked, remaining, past := gate.isUnlocked(d, quiz, user), gate.attemptsRemaining(d, quiz, user), gate.isPastDeadline(d, quiz, now);
    QuizAccess(quiz, unlocked, remaining, past, unlocked && remaining > 0 && !past)
  }

  /** `subject.quizzes`, in insertion order. */
  function QuizzesOfSubject(d: Db, subject: Id): (r: seq<Id>)
    ensures Ascending(r)
    ensures forall q :: q in r <==> q in d.quizzes && d.quizzes[q].subjectId == subject && 0 <= q < d.nextId
  {
    Scan(d.quizzes, (k: Id, q: Quiz) => q.subjectId == subject, 0, d.nextId)
  }

  ghost predicate SortedBy(r: seq<Id>, key: Id -> int) {
    forall i, j :: 0 <= i < j < |r| ==> key(r[i]) <= key(r[j])
  }

  /** Inserts `x` before the first element whose key is not smaller. */
  function Insert(x: Id, r: seq<Id>, key: Id -> int): (t: seq<Id>)
    requires SortedBy(r, key)
    ensures SortedBy(t, key)
    ensures multiset(t) == multiset(r) + multiset{x}
    ensures forall y :: y in t ==> y == x || y in r
  {
    if r == [] || key(x) <= key(r[0]) then
      SortedHeadLeast(r, key);
      SortedCons(x, r, key);
      [x] + r
    else
      var t := Insert(x, r[1..], key);
      assert r == [r[0]] + r[1..];
      SortedHeadLeast(r, key);
      SortedCons(r[0], t, key);
      [r[0]] + t
  }

  /** The head of a sorted sequence has the least key. */
  lemma SortedHeadLeast(r: seq<Id>, key: Id -> int)
    requires SortedBy(r, key)
    ensures forall y :: y in r ==> key(r[0]) <= key(y)
  {
    forall y | y in r ensures key(r[0]) <= key(y) {
      var k :| 0 <= k < |r| && r[k] == y;
    }
  }

  lemma SortedCons(y: Id, t: seq<Id>, key: Id -> int)
    requires SortedBy(t, key) && forall z :: z in t ==> key(y) <= key(z)
    ensures SortedBy([y] + t, key)
  {
    var u := [y] + t;
    forall i, j | 0 <= i < j < |u| ensures key(u[i]) <= key(u[j]) {
      if i == 0 { assert u[j] == t[j - 1] && u[j] in t; }
      else { assert u[i] == t[i - 1] && u[j] == t[j - 1]; }
    }
  }

  /** `sorted(s, key=key)`. */
  function SortBy(s: seq<Id>, key: Id -> int): (r: seq<Id>)
    ensures SortedBy(r, key) && multiset(r) == multiset(s)
  {
    if s == [] then []
    else
      assert s == [s[0]] + s[1..];
      Insert(s[0], SortBy(s[1..], key), key)
  }

  /** The listing is in ascending sequence number. */
  ghost predicate ListedInOrder(gate: Gate, d: Db, rows: seq<QuizAccess>) {
    forall i, j :: 0 <= i < j < |rows| ==> gate.sequenceNumber(d, rows[i].quiz) <= gate.sequenceNumber(d, rows[j].quiz)
  }

  /** The listing names exactly the quizzes of `subject`. */
  ghost predicate ListsSubject(d: Db, subject: Id, rows: seq<QuizAccess>) {
    forall q :: (exists i :: 0 <= i < |rows| && rows[i].quiz == q) <==> q in d.quizzes && d.quizzes[q].subjectId == subject
  }

  /** The sort key of the listing. */
  function SequenceKey(gate: Gate, d: Db): Id -> int {
    q => gate.sequenceNumber(d, q)
  }

  /** The quiz listing of a subject: one entry per quiz of the subject, in ascending
      sequence number, each carrying the gate's three answers and `can_attempt`. */
  method ViewQuizzes(s: Store, gate: Gate, me: Id, subject: Id, now: int) returns (r: ListingOutcome)
    requires s.Valid() && me in s.users
    ensures r.ListingForbidden? <==> s.users[me].isAdmin
    ensures r.SubjectNotFound? <==> !s.users[me].isAdmin && subject !in s.subjects
    ensures r.Listing? ==>
      var order := SortBy(QuizzesOfSubject(s.State(), subject), SequenceKey(gate, s.State()));
      |r.rows| == |order| && forall i :: 0 <= i < |order| ==> r.rows[i] == AccessRow(gate, s.State(), order[i], me, now)
    ensures r.Listing? ==> ListedInOrder(gate, s.State(), r.rows) && ListsSubject(s.State(), subject, r.rows)
  {
    if s.users[me].isAdmin {
      return ListingForbidden;
    }
    if subject !in s.subjects {
      return SubjectNotFound;
    }
    var d := s.State();
    var order := SortBy(QuizzesOfSubject(d, subject), SequenceKey(gate, d));
    var rows := AccessRows(gate, d, order, me, now);
    r := Listing(rows);
    ListingCoversSubject(gate, d, subject, order, rows);
  }

  /** The loop of `view_quizzes`: one entry per quiz of `order`, in that order. */
  method AccessRows(gate: Gate, d: Db, order: seq<Id>, me: Id, now: int) returns (rows: seq<QuizAccess>)
    ensures |rows| == |order|
    ensures forall i :: 0 <= i < |order| ==> rows[i] == AccessRow(gate, d, order[i], me, now)
  {
    rows := [];
    for i := 0 to |order|
      invariant |rows| == i
      invariant forall j :: 0 <= j < i ==> rows[j] == AccessRow(gate, d, order[j], me, now)
    {
      var q := order[i];
      var unlocked := gate.isUnlocked(d, q, me);
      var remaining := gate.attemptsRemaining(d, q, me);
      var past := gate.isPastDeadline(d, q, now);
      rows := rows + [QuizAccess(q, unlocked, remaining, past, unlocked && remaining > 0 && !past)];
    }
  }

  /** The listing's entries are the subject's quizzes, sorted by key (a step of ViewQuizzes). */
  lemma ListingCoversSubject(gate: Gate, d: Db, subject: Id, order: seq<Id>, rows: seq<QuizAccess>)
    requires Consistent(d)
    requires order == SortBy(QuizzesOfSubject(d, subject), SequenceKey(gate, d))
    requires |rows| == |order| && forall i :: 0 <= i < |order| ==> rows[i].quiz == order[i]
    ensures ListedInOrder(gate, d, rows) && ListsSubject(d, subject, rows)
  {
    var ids := QuizzesOfSubject(d, subject);
    assert SortedBy(order, SequenceKey(gate, d));
    forall i, j | 0 <= i < j < |rows|
      ensures gate.sequenceNumber(d, rows[i].quiz) <= gate.sequenceNumber(d, rows[j].quiz)
    {
      assert SequenceKey(gate, d)(order[i]) <= SequenceKey(gate, d)(order[j]);
    }
    forall q ensures (exists i :: 0 <= i < |rows| && rows[i].quiz == q) <==> q in ids {
      if i :| 0 <= i < |rows| && rows[i].quiz == q {
        assert order[i] == q;
        assert q in multiset(order);
      }
      if q in ids {
        assert q in multiset(ids);
        var i :| 0 <= i < |order| && order[i] == q;
        assert rows[i].quiz == q;
      }
    }
    assert forall q :: q in d.quizzes ==> 0 <= q < d.nextId;
  }

  // ----- attempt_quiz -----

  datatype AttemptOutcome =
    | AttemptForbidden
    | QuizNotFound
    | Denied(reason: Denial)
    | TimeExpired(attempt: Id)
    | Finished(attempt: Id)
    | ShowQuestion(attempt: Id, question: Id, remaining: int)
    | AnswerRecorded(attempt: Id, answer: Id)

  /** The incomplete attempt of `user` on `quiz` that a visit resumes, if there is one. */
  function OpenAttempt(d: Db, user: Id, quiz: Id): Option<Id> {
    FirstIncomplete(d.attempts, user, quiz, d.nextId)
  }

  /** The attempt an admitted visit works on: the open one, or else the one it inserts. */
  function CurrentAttempt(d: Db, user: Id, quiz: Id): Id {
    match OpenAttempt(d, user, quiz)
    case Some(a) => a
    case None => d.nextId
  }

  /** The tables once that attempt exists: unchanged when one was open, otherwise with a
      new attempt started at `now` carrying the column defaults. */
  function AfterOpen(d: Db, user: Id, quiz: Id, now: int): Db {
    if OpenAttempt(d, user, quiz).Some? then d
    else d.(attempts := d.attempts[d.nextId := QuizAttempt(user, quiz, Some(0.0), false, now, None)], nextId := d.nextId + 1)
  }

  /** The lazy expiry test: strictly more than the time limit has elapsed. */
  predicate Overdue(t: QuizAttempt, timeLimit: int, now: int) {
    now - t.startedAt > timeLimit * 60
  }

  /** `max(0, time_limit * 60 - elapsed)`. */
  function RemainingSeconds(t: QuizAttempt, timeLimit: int, now: int): (r: int)
    ensures 0 <= r
    ensures t.startedAt <= now ==> r <= if timeLimit < 0 then 0 else timeLimit * 60
    ensures r == 0 <==> now - t.startedAt >= timeLimit * 60
    ensures r > 0 ==> r + (now - t.startedAt) == timeLimit * 60
  {
    var left := timeLimit * 60 - (now - t.startedAt);
    if left > 0 then left else 0
  }

  /** A visit passes the role guard, finds the quiz and passes the gate. */
  ghost predicate Admitted(gate: Gate, d: Db, me: Id, quiz: Id, now: int) {
    me in d.users && !d.users[me].isAdmin && quiz in d.quizzes && Admission(gate, d, quiz, me, now).None?
  }

  /** The attempt a visit would resume has run out of time. */
  ghost predicate ExpiresOnResume(d: Db, me: Id, quiz: Id, now: int) {
    var o := OpenAttempt(d, me, quiz);
    o.Some? && quiz in d.quizzes && Overdue(d.attempts[o.value], d.quizzes[quiz].timeLimit, now)
  }

  /** What a visit does with its open attempt `a`, taking the tables from `d` to `d'`:
      complete and score it when every question of its quiz is answered; otherwise serve
      the first unanswered question, or record the submitted option as the answer to it. */
  ghost predicate Served(d: Db, a: Id, now: int, submitted: Option<int>, r: AttemptOutcome, d': Db) {
    && a in d.attempts && d.attempts[a].quizId in d.quizzes
    && var t := d.attempts[a];
       var next := NextQuestion(d.questions, t.quizId, AnsweredIds(d.answers, a), d.nextId);
       && (r.Finished? || r.ShowQuestion? || r.AnswerRecorded?) && r.attempt == a
       && (r.Finished? <==> next.None?)
       && (r.Finished? ==> d' == d.(attempts := d.attempts[a := t.(
             score := Some(ScoreOf(d, a)),
             completed := true, completedAt := Some(now))]))
       && (r.ShowQuestion? <==> next.Some? && submitted.None?)
       && (r.ShowQuestion? ==>
             && r.question == next.value && d' == d
             && r.remaining == RemainingSeconds(t, d.quizzes[t.quizId].timeLimit, now))
       && (r.AnswerRecorded? ==>
             && next.Some? && submitted.Some? && next.value in d.questions && r.answer == d.nextId
             && d' == d.(answers := d.answers[d.nextId := UserAnswer(a, next.value, submitted.value,
                                     submitted.value == d.questions[next.value].correctOption, now)],
                         nextId := d.nextId + 1))
  }

  /** The part of `attempt_quiz` after the attempt is settled. */
  method Proceed(s: Store, a: Id, now: int, submitted: Option<int>) returns (r: AttemptOutcome)
    requires s.Valid() && a in s.attempts
    modifies s
    ensures s.Valid()
    ensures Served(old(s.State()), a, now, submitted, r, s.State())
  {
    ghost var d := s.State();
    var t := s.attempts[a];
    var next := NextQuestion(s.questions, t.quizId, AnsweredIds(s.answers, a), s.nextId);
    if next.None? {
      s.Complete(a, now);
      return Finished(a);
    }
    var remaining := RemainingSeconds(t, s.quizzes[t.quizId].timeLimit, now);
    if submitted.None? {
      return ShowQuestion(a, next.value, remaining);
    }
    var id := s.RecordAnswer(a, next.value, submitted.value, now);
    r := AnswerRecorded(a, id);
    assert Served(d, a, now, submitted, r, s.State());
  }

  /** `attempt_quiz`: the role guard, the 404, the gate in its order, then resume (expiring
      an overdue attempt) or create, then `Proceed`.  A refused visit changes nothing. */
  method AttemptQuiz(s: Store, gate: Gate, me: Id, quiz: Id, now: int, submitted: Option<int>) returns (r: AttemptOutcome)
    requires s.Valid() && me in s.users
    modifies s
    ensures s.Valid()
    ensures r.AttemptForbidden? <==> old(s.users)[me].isAdmin
    ensures r.QuizNotFound? <==> !old(s.users)[me].isAdmin && quiz !in old(s.quizzes)
    ensures r.Denied? <==> !old(s.users)[me].isAdmin && quiz in old(s.quizzes)
                           && Admission(gate, old(s.State()), quiz, me, now).Some?
    ensures r.Denied? ==> Admission(gate, old(s.State()), quiz, me, now) == Some(r.reason)
    ensures r.AttemptForbidden? || r.QuizNotFound? || r.Denied? ==> s.State() == old(s.State())
    ensures r.TimeExpired? <==> Admitted(gate, old(s.State()), me, quiz, now) && ExpiresOnResume(old(s.State()), me, quiz, now)
    ensures r.TimeExpired? ==>
      && r.attempt == OpenAttempt(old(s.State()), me, quiz).value
      && s.State() == old(s.State()).(attempts := old(s.attempts)[r.attempt := old(s.attempts)[r.attempt].(
           completed := true, completedAt := Some(now))])
    ensures r.Finished? || r.ShowQuestion? || r.AnswerRecorded? ==>
      && Admitted(gate, old(s.State()), me, quiz, now) && !ExpiresOnResume(old(s.State()), me, quiz, now)
      && Served(AfterOpen(old(s.State()), me, quiz, now), CurrentAttempt(old(s.State()), me, quiz), now, submitted, r, s.State())
  {
    if s.users[me].isAdmin {
      return AttemptForbidden;
    }
    if quiz !in s.quizzes {
      return QuizNotFound;
    }
    ghost var d := s.State();
    var denial := Admission(gate, s.State(), quiz, me, now);
    if denial.Some? {
      return Denied(denial.value);
    }
    var open := FirstIncomplete(s.attempts, me, quiz, s.nextId);
    var a;
    if open.Some? {
      a := open.value;
      if Overdue(s.attempts[a], s.quizzes[quiz].timeLimit, now) {
        s.Expire(a, now);
        return TimeExpired(a);
      }
    } else {
      OpenAttemptsBelow(d, me, quiz);
      a := s.CreateAttempt(me, quiz, now);
    }
    assert s.State() == AfterOpen(d, me, quiz, now) && a == CurrentAttempt(d, me, quiz);
    r := Proceed(s, a, now, submitted);
  }

  /** The search for an open attempt looks at every attempt. */
  lemma OpenAttemptsBelow(d: Db, user: Id, quiz: Id)
    requires Consistent(d) && OpenAttempt(d, user, quiz).None?
    ensures forall b :: b in d.attempts && d.attempts[b].userId == user && d.attempts[b].quizId == quiz ==> d.attempts[b].completed
  {
  }

  // ----- Properties of the attempt state machine -----

  /** An open attempt is the only incomplete attempt of its user on its quiz, so resuming
      it is unambiguous. */
  lemma ResumedAttemptIsUnique(d: Db, user: Id, quiz: Id)
    requires Consistent(d) && OpenAttempt(d, user, quiz).Some?
    ensures forall b :: (b in d.attempts && d.attempts[b].userId == user && d.attempts[b].quizId == quiz
                         && !d.attempts[b].completed) ==> b == OpenAttempt(d, user, quiz).value
  {
  }

  /** A new attempt has no answers, so it is served the quiz's first question by id, and it
      is completed at once (with score 0.0) when the quiz has no question. */
  lemma NewAttemptStartsAtFirstQuestion(d: Db, user: Id, quiz: Id, now: int)
    requires KeysBelow(d) && AnswersLinked(d) && OpenAttempt(d, user, quiz).None?
    ensures var d1, a := AfterOpen(d, user, quiz, now), CurrentAttempt(d, user, quiz);
      && AnsweredIds(d1.answers, a) == {}
      && AnswersOf(d1.answers, a, d1.nextId) == []
      && NextQuestion(d1.questions, quiz, AnsweredIds(d1.answers, a), d1.nextId)
         == First(Scan(d.questions, (k: Id, q: Question) => q.quizId == quiz, 0, d.nextId))
  {
    var d1, a := AfterOpen(d, user, quiz, now), CurrentAttempt(d, user, quiz);
    assert forall x :: x in d1.answers ==> d1.answers[x].attemptId != a;
    assert AnsweredIds(d1.answers, a) == {};
    var all := Scan(d.questions, (k: Id, q: Question) => q.quizId == quiz, 0, d.nextId);
    var next := NextQuestion(d1.questions, quiz, {}, d1.nextId);
    assert d.nextId !in d.questions;
    assert next.Some? ==> next.value in all;
    assert all != [] ==> all[0] in d1.questions && d1.questions[all[0]].quizId == quiz && 0 <= all[0] < d1.nextId;
    assert all != [] ==> next.Some? && next.value <= all[0];
    if next.Some? {
      AscendingHead(all, next.value);
    }
  }

  lemma AscendingHead(r: seq<int>, x: int)
    requires Ascending(r) && x in r
    ensures r[0] <= x
  {
  }

  /** Recording the answer to the served question adds exactly that question to the
      attempt's answered set, so the next question served is a later one: the attempt
      only moves forward and no question is served twice. */
  lemma AnswerMovesForward(d: Db, a: Id, selected: int, now: int)
    requires Consistent(d) && a in d.attempts
    requires NextQuestion(d.questions, d.attempts[a].quizId, AnsweredIds(d.answers, a), d.nextId).Some?
    ensures var t := d.attempts[a];
      var q := NextQuestion(d.questions, t.quizId, AnsweredIds(d.answers, a), d.nextId).value;
      var x := UserAnswer(a, q, selected, selected == d.questions[q].correctOption, now);
      var d' := d.(answers := d.answers[d.nextId := x], nextId := d.nextId + 1);
      var next' := NextQuestion(d'.questions, t.quizId, AnsweredIds(d'.answers, a), d'.nextId);
      && AnsweredIds(d'.answers, a) == AnsweredIds(d.answers, a) + {q}
      && (next'.Some? ==> q < next'.value)
  {
    var t := d.attempts[a];
    var q := NextQuestion(d.questions, t.quizId, AnsweredIds(d.answers, a), d.nextId).value;
    var x := UserAnswer(a, q, selected, selected == d.questions[q].correctOption, now);
    var answers' := d.answers[d.nextId := x];
    assert d.nextId !in d.answers;
    AnsweredIdsGrow(d.answers, d.nextId, x);
    var next' := NextQuestion(d.questions, t.quizId, AnsweredIds(answers', a), d.nextId + 1);
    if next'.Some? {
      assert next'.value < d.nextId;
      assert q <= next'.value;
    }
  }

  /** A new answer adds its question to the answered set of its attempt and to no other. */
  lemma AnsweredIdsGrow(answers: map<Id, UserAnswer>, k: Id, x: UserAnswer)
    requires k !in answers
    ensures AnsweredIds(answers[k := x], x.attemptId) == AnsweredIds(answers, x.attemptId) + {x.questionId}
  {
    var a, answers' := x.attemptId, answers[k := x];
    forall y | y in AnsweredIds(answers', a) ensures y in AnsweredIds(answers, a) + {x.questionId} {
      var j :| j in answers' && answers'[j].attemptId == a && answers'[j].questionId == y;
      if j != k { assert j in answers; }
    }
    forall y | y in AnsweredIds(answers, a) + {x.questionId} ensures y in AnsweredIds(answers', a) {
      if y == x.questionId { assert answers'[k].questionId == y; }
      else {
        var j :| j in answers && answers[j].attemptId == a && answers[j].questionId == y;
        assert answers'[j] == answers[j];
      }
    }
  }

  /** The expiry test is strict: exactly the time limit elapsed does not expire an attempt,
      one second more does. */
  lemma ExpiryIsStrict(t: QuizAttempt, timeLimit: int)
    ensures !Overdue(t, timeLimit, t.startedAt + timeLimit * 60)
    ensures Overdue(t, timeLimit, t.startedAt + timeLimit * 60 + 1)
    ensures RemainingSeconds(t, timeLimit, t.startedAt + timeLimit * 60) == 0
  {
  }

  // ----- quiz_result -----

  datatype ResultOutcome = ResultForbidden | AttemptNotFound | NotOwner | Result(attempt: QuizAttempt)

  /** `quiz_result`: the role guard, the 404, the owner check (403), then the lazy scoring
      of an attempt whose score is unset; the page always shows a score. */
  method QuizResult(s: Store, me: Id, attempt: Id, now: int) returns (r: ResultOutcome)
    requires s.Valid() && me in s.users
    modifies s
    ensures s.Valid()
    ensures r.ResultForbidden? <==> old(s.users)[me].isAdmin
    ensures r.AttemptNotFound? <==> !old(s.users)[me].isAdmin && attempt !in old(s.attempts)
    ensures r.NotOwner? <==> !old(s.users)[me].isAdmin && attempt in old(s.attempts) && old(s.attempts)[attempt].userId != me
    ensures !r.Result? ==> s.State() == old(s.State())
    ensures r.Result? ==> attempt in s.attempts && r.attempt == s.attempts[attempt] && r.attempt.score.Some? && r.attempt.userId == me
    ensures r.Result? && old(s.attempts)[attempt].score.Some? ==> s.State() == old(s.State())
    ensures r.Result? && old(s.attempts)[attempt].score.None? ==>
      s.State() == old(s.State()).(attempts := old(s.attempts)[attempt := old(s.attempts)[attempt].(
        score := Some(ScoreOf(old(s.State()), attempt)),
        completed := true, completedAt := Some(now))])
  {
    if s.users[me].isAdmin {
      return ResultForbidden;
    }
    if attempt !in s.attempts {
      return AttemptNotFound;
    }
    if s.attempts[attempt].userId != me {
      return NotOwner;
    }
    if s.attempts[attempt].score.None? {
      s.Complete(attempt, now);
    }
    r := Result(s.attempts[attempt]);
  }
}
