/**
 * Reading a table in insertion order.  Row ids are handed out in increasing order, so a
 * filtered query that returns rows "in the order they were inserted" returns the ids that
 * satisfy the filter in ascending order; `.first()` is the least of them.
 */
module Tables {
  import opened Wrappers

  /** True iff `r` is strictly increasing. */
  ghost predicate Ascending(r: seq<int>) {
    forall i, j :: 0 <= i < j < |r| ==> r[i] < r[j]
  }

  /** The keys of `m` in [k, bound) whose row satisfies `p`, in ascending order. */
  function Scan<V>(m: map<int, V>, p: (int, V) -> bool, k: int, bound: int): (r: seq<int>)
    decreases bound - k
    ensures Ascending(r)
    ensures forall i :: 0 <= i < |r| ==> k <= r[i] < bound && r[i] in m && p(r[i], m[r[i]])
    ensures forall x :: k <= x < bound && x in m && p(x, m[x]) ==> x in r
  {
    if k >= bound then []
    else if k in m && p(k, m[k]) then [k] + Scan(m, p, k + 1, bound)
    else Scan(m, p, k + 1, bound)
  }

  /** The first id of a query result, as `.first()` returns it. */
  function First(r: seq<int>): (f: Option<int>)
    ensures f.None? <==> r == []
    ensures f.Some? ==> f.value in r && (Ascending(r) ==> forall x :: x in r ==> f.value <= x)
  {
    if r == [] then None else Some(r[0])
  }
}
