/**
 * The subject search of the two dashboards (app/user/routes.py and app/admin/routes.py):
 * an empty query lists every subject; any other query keeps the subjects whose name
 * contains it, ignoring case (`Subject.name.ilike('%' + q + '%')`).  Case folding is the
 * parameter `fold`, applied to every character of both strings.
 */
module Search {
  import opened Models
  import opened Tables

  /** `p` occurs in `s` starting at index `i`. */
  predicate OccursAt(p: string, s: string, i: int) {
    0 <= i && i + |p| <= |s| && s[i..i + |p|] == p
  }

  lemma OccursAtTail(p: string, s: string, i: int)
    requires 0 < |s| && 0 <= i
    ensures OccursAt(p, s[1..], i) <==> OccursAt(p, s, i + 1)
  {
    if i + |p| <= |s| - 1 {
      assert s[1..][i..i + |p|] == s[i + 1..i + 1 + |p|];
    }
  }

  /** True iff `p` is a substring of `s`. */
  function Contains(s: string, p: string): (b: bool)
    decreases |s|
    ensures b <==> exists i :: OccursAt(p, s, i)
  {
    if |p| > |s| then false
    else if s[..|p|] == p then
      assert OccursAt(p, s, 0);
      true
    else
      var b := Contains(s[1..], p);
      assert b ==> exists i :: OccursAt(p, s, i) by {
        if b {
          var i :| OccursAt(p, s[1..], i);
          OccursAtTail(p, s, i);
        }
      }
      assert (exists i :: OccursAt(p, s, i)) ==> b by {
        if i :| OccursAt(p, s, i) {
          assert i != 0;
          OccursAtTail(p, s, i - 1);
        }
      }
      b
  }

  /** `s` with every character case-folded. */
  function Fold(s: string, fold: char -> char): string {
    seq(|s|, i requires 0 <= i < |s| => fold(s[i]))
  }

  /** `name ILIKE '%query%'`: the folded query is a substring of the folded name. */
  predicate ILike(name: string, query: string, fold: char -> char) {
    Contains(Fold(name, fold), Fold(query, fold))
  }

  /** The empty pattern matches every name. */
  lemma EmptyQueryMatches(name: string, fold: char -> char)
    ensures ILike(name, "", fold)
  {
    assert OccursAt(Fold("", fold), Fold(name, fold), 0);
  }

  /** The subjects a dashboard lists for `query`, in insertion order. */
  function SubjectSearch(subjects: map<Id, Subject>, query: string, fold: char -> char, bound: int): (r: seq<Id>)
    ensures Ascending(r)
    ensures forall i :: 0 <= i < |r| ==> r[i] in subjects && ILike(subjects[r[i]].name, query, fold)
    ensures forall k :: 0 <= k < bound && k in subjects && ILike(subjects[k].name, query, fold) ==> k in r
    ensures query == [] ==> forall k :: 0 <= k < bound && k in subjects ==> k in r
  {
    if query == [] then
      var r := Scan(subjects, (k: Id, s: Subject) => true, 0, bound);
      assert forall i :: 0 <= i < |r| ==> ILike(subjects[r[i]].name, query, fold) by {
        forall i | 0 <= i < |r| ensures ILike(subjects[r[i]].name, query, fold) {
          EmptyQueryMatches(subjects[r[i]].name, fold);
        }
      }
      r
    else
      Scan(subjects, (k: Id, s: Subject) => ILike(s.name, query, fold), 0, bound)
  }

  /** Concrete case: "Algebra" is found by "GEB" under a fold that maps 'A'..'Z' to 'a'..'z'. */
  lemma AlgebraMatchesGeb()
    ensures ILike("Algebra", "GEB", LowerAscii)
  {
    var s, p := Fold("Algebra", LowerAscii), Fold("GEB", LowerAscii);
    assert |s| == 7 && |p| == 3;
    assert s[2] == LowerAscii('g') && s[3] == LowerAscii('e') && s[4] == LowerAscii('b');
    assert p[0] == LowerAscii('G') && p[1] == LowerAscii('E') && p[2] == LowerAscii('B');
    assert LowerAscii('G') == 'g' && LowerAscii('E') == 'e' && LowerAscii('B') == 'b';
    assert s[2..5] == p;
    assert OccursAt(p, s, 2);
  }

  /** An ASCII-only lower-casing, for the concrete case above. */
  function LowerAscii(c: char): char {
    if 'A' <= c <= 'Z' then (c as int + 32) as char else c
  }
}
