/**
 * The entity records of the quiz application (app/models.py).  Each table of the
 * relational store is a map from row id to one of these records; the foreign keys are
 * the `...Id` fields.  Timestamps are integer seconds.  Columns the core never reads
 * (password hashes, creation times) are not modelled.
 */
module Models {
  import opened Wrappers

  /** Primary keys of every table. */
  type Id = int

  /** A user; `isAdmin` marks the quiz master, whose column default is false. */
  datatype User = User(username: string, isAdmin: bool, age: Option<int>, interests: Option<string>)

  datatype Subject = Subject(name: string, description: string)

  datatype Chapter = Chapter(name: string, description: string, subjectId: Id)

  /** A quiz; `timeLimit` is in minutes; the chapter is optional. */
  datatype Quiz = Quiz(name: string, description: string, timeLimit: int, subjectId: Id, chapterId: Option<Id>)

  /** A question with four options; `correctOption` names one of them (1 to 4).
      `marks` is shown to users but is not used by scoring. */
  datatype Question = Question(
    text: string, marks: int,
    option1: string, option2: string, option3: string, option4: string,
    correctOption: int, quizId: Id)

  /** One run of a user through a quiz.  `score` is a nullable column whose default is 0.0. */
  datatype QuizAttempt = QuizAttempt(
    userId: Id, quizId: Id, score: Option<real>, completed: bool,
    startedAt: int, completedAt: Option<int>)

  /** One answer recorded for one question during one attempt. */
  datatype UserAnswer = UserAnswer(attemptId: Id, questionId: Id, selectedOption: int, isCorrect: bool, answeredAt: int)
}
