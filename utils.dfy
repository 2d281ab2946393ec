/**
 * Scoring of an attempt (app/utils.py, calculate_score): the percentage of the recorded
 * answers that are correct, or 0.0 when nothing was answered.  Question marks play no part.
 * Scores are reals; the source's floating-point rounding is not modelled.
 */
module Utils {
  import opened Models

  /** The number of answers marked correct. */
  function CountCorrect(answers: seq<UserAnswer>): (n: nat)
    ensures n <= |answers|
  {
    if answers == [] then 0
    else (if answers[0].isCorrect then 1 else 0) + CountCorrect(answers[1..])
  }

  /** calculate_score(attempt) over `attempt.answers`. */
  function CalculateScore(answers: seq<UserAnswer>): (score: real)
    ensures 0.0 <= score <= 100.0
    ensures answers == [] ==> score == 0.0
  {
    if answers == [] then 0.0
    else
      var correct, total := CountCorrect(answers) as real, |answers| as real;
      assert correct / total <= 1.0 by { DivAtMostOne(correct, total); }
      (correct / total) * 100.0
  }

  lemma DivAtMostOne(x: real, y: real)
    requires 0.0 <= x <= y && 0.0 < y
    ensures 0.0 <= x / y <= 1.0
  {
  }

  lemma {:induction false} CountCorrectConcat(a: seq<UserAnswer>, b: seq<UserAnswer>)
    ensures CountCorrect(a + b) == CountCorrect(a) + CountCorrect(b)
  {
    if a != [] {
      assert (a + b)[1..] == a[1..] + b;
      CountCorrectConcat(a[1..], b);
    } else {
      assert a + b == b;
    }
  }

  lemma {:induction false} CountCorrectAll(answers: seq<UserAnswer>)
    requires forall i :: 0 <= i < |answers| ==> answers[i].isCorrect
    ensures CountCorrect(answers) == |answers|
  {
    if answers != [] { CountCorrectAll(answers[1..]); }
  }

  lemma {:induction false} CountCorrectNone(answers: seq<UserAnswer>)
    requires forall i :: 0 <= i < |answers| ==> !answers[i].isCorrect
    ensures CountCorrect(answers) == 0
  {
    if answers != [] { CountCorrectNone(answers[1..]); }
  }

  /** A non-empty attempt whose every answer is correct scores 100. */
  lemma ScoreAllCorrect(answers: seq<UserAnswer>)
    requires answers != []
    requires forall i :: 0 <= i < |answers| ==> answers[i].isCorrect
    ensures CalculateScore(answers) == 100.0
  {
    CountCorrectAll(answers);
  }

  /** An attempt with no correct answer scores 0, whether or not it is empty. */
  lemma ScoreNoneCorrect(answers: seq<UserAnswer>)
    requires forall i :: 0 <= i < |answers| ==> !answers[i].isCorrect
    ensures CalculateScore(answers) == 0.0
  {
    CountCorrectNone(answers);
  }

  /** The score sees only which answers are correct: the selected options, the questions
      they answer (and so those questions' marks) and the answer times do not matter. */
  lemma {:induction false} ScoreSeesOnlyCorrectness(a: seq<UserAnswer>, b: seq<UserAnswer>)
    requires |a| == |b|
    requires forall i :: 0 <= i < |a| ==> a[i].isCorrect == b[i].isCorrect
    ensures CountCorrect(a) == CountCorrect(b)
    ensures CalculateScore(a) == CalculateScore(b)
  {
    if a != [] { ScoreSeesOnlyCorrectness(a[1..], b[1..]); }
  }

  /** Removing the answer at index `j` removes its contribution to the count. */
  lemma {:induction false} CountRemoveAt(b: seq<UserAnswer>, j: int)
    requires 0 <= j < |b|
    ensures CountCorrect(b) == CountCorrect(b[..j] + b[j + 1..]) + (if b[j].isCorrect then 1 else 0)
  {
    if j == 0 {
      assert b[..0] + b[1..] == b[1..];
    } else {
      var rest := b[1..];
      CountRemoveAt(rest, j - 1);
      var shorter := b[..j] + b[j + 1..];
      assert shorter[0] == b[0];
      assert shorter[1..] == rest[..j - 1] + rest[j..];
    }
  }

  lemma MultisetRemoveAt<T>(b: seq<T>, j: int)
    requires 0 <= j < |b|
    ensures multiset(b[..j] + b[j + 1..]) == multiset(b) - multiset{b[j]}
  {
    assert b == b[..j] + [b[j]] + b[j + 1..];
  }

  lemma {:induction false} CountPermutation(a: seq<UserAnswer>, b: seq<UserAnswer>)
    requires multiset(a) == multiset(b)
    ensures CountCorrect(a) == CountCorrect(b)
  {
    if a == [] {
      assert |b| == |multiset(b)| == 0;
    } else {
      assert a[0] in multiset(b);
      var j :| 0 <= j < |b| && b[j] == a[0];
      MultisetRemoveAt(b, j);
      assert a == [a[0]] + a[1..];
      assert multiset(a[1..]) == multiset(a) - multiset{a[0]};
      CountPermutation(a[1..], b[..j] + b[j + 1..]);
      CountRemoveAt(b, j);
    }
  }

  /** The order of the answers does not matter: any permutation scores the same. */
  lemma ScorePermutation(a: seq<UserAnswer>, b: seq<UserAnswer>)
    requires multiset(a) == multiset(b)
    ensures CountCorrect(a) == CountCorrect(b)
    ensures CalculateScore(a) == CalculateScore(b)
  {
    CountPermutation(a, b);
    assert |a| == |multiset(a)| == |multiset(b)| == |b|;
  }

  /** Three correct answers out of four score 75. */
  lemma ScoreThreeOfFour(w: UserAnswer, x: UserAnswer, y: UserAnswer, z: UserAnswer)
    requires w.isCorrect && x.isCorrect && y.isCorrect && !z.isCorrect
    ensures CalculateScore([w, x, y, z]) == 75.0
  {
    assert [z][1..] == [];
    assert CountCorrect([z]) == 0;
    assert [y, z][1..] == [z];
    assert CountCorrect([y, z]) == 1;
    assert [x, y, z][1..] == [y, z];
    assert CountCorrect([x, y, z]) == 2;
    assert [w, x, y, z][1..] == [x, y, z];
    assert CountCorrect([w, x, y, z]) == 3;
  }
}
