/**
 * The admin input validators (app/admin/forms.py) as predicates over submitted form data.
 * Text fields arrive as strings (an empty field is ""), the time limit and the correct
 * option as an optional integer (absent when the input is missing or not an integer).  For
 * the marks field, which has a default, and the optional chapter, a missing input and one
 * that is not an integer differ: marks then take the default and the chapter is left
 * empty, while an input that int() cannot convert leaves a coercion error that fails the
 * form.
 *
 * DataRequired rejects a text field that is empty or only whitespace, and a number field
 * whose value is absent or 0 (it tests truthiness).  Length(max=n) bounds the number of
 * characters; NumberRange(min=m) demands at least m; a choice field with fixed choices
 * admits only those values.
 */
module Forms {
  import opened Wrappers

  /** The characters Python's str.strip() removes: those for which str.isspace() holds,
      the ASCII separators U+001C to U+001F and the Unicode spaces among them. */
  predicate IsSpace(c: char) {
    || '\t' <= c <= '\r'
    || '\U{1C}' <= c <= ' '
    || c == '\U{85}' || c == '\U{A0}' || c == '\U{1680}'
    || '\U{2000}' <= c <= '\U{200A}'
    || c == '\U{2028}' || c == '\U{2029}' || c == '\U{202F}' || c == '\U{205F}' || c == '\U{3000}'
  }

  /** DataRequired on a text field. */
  predicate RequiredText(s: string) {
    exists i :: 0 <= i < |s| && !IsSpace(s[i])
  }

  /** DataRequired on an integer field. */
  predicate RequiredNumber(x: Option<int>) {
    x.Some? && x.value != 0
  }

  /** DataRequired() and Length(max=n) on a text field. */
  predicate BoundedText(s: string, n: nat) {
    RequiredText(s) && |s| <= n
  }

  /** The name field shared by subjects, quizzes and chapters. */
  predicate NameField(s: string) {
    BoundedText(s, 100)
  }

  /** One of the four option texts of a question. */
  predicate OptionField(s: string) {
    BoundedText(s, 200)
  }

  /** The correct-option choice: one of the four listed choices. */
  predicate ChoiceField(x: Option<int>) {
    RequiredNumber(x) && x.value in {1, 2, 3, 4}
  }

  /** A number field with DataRequired() and NumberRange(min=1). */
  predicate PositiveField(x: Option<int>) {
    RequiredNumber(x) && x.value >= 1
  }

  /** What was submitted for an integer field that has a default or is optional: nothing
      (or, for the optional chapter, a blank value), an integer, or text int() rejects. */
  datatype NumberInput = Missing | Entered(value: int) | NotAnInteger

  /** The field's data after a submission: a missing input keeps the default. */
  function FieldData(x: NumberInput, default: int): Option<int> {
    match x
    case Missing => Some(default)
    case Entered(n) => Some(n)
    case NotAnInteger => None
  }

  datatype SubjectForm = SubjectForm(name: string, description: string)

  datatype QuizForm = QuizForm(name: string, description: string, timeLimit: Option<int>, chapterId: NumberInput)

  datatype QuestionForm = QuestionForm(
    text: string, marks: NumberInput,
    option1: string, option2: string, option3: string, option4: string,
    correctOption: Option<int>)

  datatype ChapterForm = ChapterForm(name: string, description: string)

  /** SubjectForm: a required name of at most 100 characters; any description. */
  predicate SubjectFormValid(f: SubjectForm) {
    NameField(f.name)
  }

  /** QuizForm: a required name of at most 100 characters and a time limit of at least one
      minute.  The chapter is optional and is not checked against the subject's chapters,
      but one that cannot be coerced to an integer is an error Optional() does not clear. */
  predicate QuizFormValid(f: QuizForm) {
    NameField(f.name) && PositiveField(f.timeLimit) && f.chapterId != NotAnInteger
  }

  /** The chapter a quiz form carries: none when it was left empty. */
  function ChapterChoice(f: QuizForm): Option<int> {
    match f.chapterId
    case Entered(n) => Some(n)
    case _ => None
  }

  /** The marks a question form carries: the default of 1 when none was submitted. */
  function Marks(f: QuestionForm): Option<int> {
    FieldData(f.marks, 1)
  }

  /** QuestionForm: required text, marks of at least 1, four required options of at most
      200 characters, and a correct option among 1, 2, 3 and 4. */
  predicate QuestionFormValid(f: QuestionForm) {
    && RequiredText(f.text)
    && PositiveField(Marks(f))
    && OptionField(f.option1) && OptionField(f.option2)
    && OptionField(f.option3) && OptionField(f.option4)
    && ChoiceField(f.correctOption)
  }

  /** ChapterForm: a required name of at most 100 characters. */
  predicate ChapterFormValid(f: ChapterForm) {
    NameField(f.name)
  }

  /** A name that passes the validators is non-empty, at most 100 characters long, and is
      not made of whitespace alone. */
  lemma NameFieldMeaning(s: string)
    ensures NameField(s) <==> 0 < |s| <= 100 && !(forall i :: 0 <= i < |s| ==> IsSpace(s[i]))
  {
  }

  /** Any chapter that is an integer, or none, is accepted without being checked against the
      subject's chapters; a chapter that int() cannot convert fails the form. */
  lemma QuizFormIgnoresChapter(f: QuizForm, c: NumberInput)
    ensures f.chapterId != NotAnInteger && c != NotAnInteger ==> QuizFormValid(f) == QuizFormValid(f.(chapterId := c))
    ensures !QuizFormValid(f.(chapterId := NotAnInteger))
    ensures ChapterChoice(f.(chapterId := Missing)) == None
  {
  }

  /** The correct option of a valid question form is an integer between 1 and 4. */
  lemma QuestionFormChoice(f: QuestionForm)
    requires QuestionFormValid(f)
    ensures 1 <= f.correctOption.value <= 4 && Marks(f).value >= 1
  {
  }

  /** A question form submitted without marks validates exactly when the same form with
      marks 1 does, and then carries marks 1; marks that are not an integer never validate. */
  lemma QuestionFormDefaultMarks(f: QuestionForm)
    ensures QuestionFormValid(f.(marks := Missing)) <==> QuestionFormValid(f.(marks := Entered(1)))
    ensures Marks(f.(marks := Missing)) == Some(1)
    ensures !QuestionFormValid(f.(marks := NotAnInteger))
  {
  }

  /** Length(max=100) is inclusive: a 100-character name passes, a 101-character one does
      not, and neither does one made of spaces, separators or no-break spaces alone. */
  lemma NameFieldBoundary()
    ensures NameField(seq(100, _ => 'a'))
    ensures !NameField(seq(101, _ => 'a'))
    ensures !NameField("   ")
    ensures !NameField("\U{1C}\U{1D}\U{1E}\U{1F}")
    ensures !NameField("\U{A0}\U{3000}")
  {
    var hundred := seq(100, _ => 'a');
    assert !IsSpace(hundred[0]);
    assert forall i :: 0 <= i < 3 ==> IsSpace("   "[i]);
    assert forall i :: 0 <= i < 4 ==> IsSpace("\U{1C}\U{1D}\U{1E}\U{1F}"[i]);
    assert forall i :: 0 <= i < 2 ==> IsSpace("\U{A0}\U{3000}"[i]);
  }

  /** A form whose time limit is 0 or negative is rejected. */
  lemma QuizFormRejectsShortLimit(f: QuizForm)
    requires f.timeLimit.Some? && f.timeLimit.value < 1
    ensures !QuizFormValid(f)
  {
  }
}
