/** How the model reads rows out of a table. Ids are assigned by an
    auto-increment counter, so every id of a table lies in `[1, next)`; a scan
    yields the rows in id order (the order of the primary key) and a `WHERE`
    clause keeps the rows a predicate accepts. */
module Tables {
  import opened Wrappers

  /** The ids below `next` that the table holds, ascending. */
  function IdsBelow<T>(m: map<int, T>, next: int): (r: seq<int>)
    ensures forall k :: k in r <==> k in m && 1 <= k < next
    ensures forall i, j :: 0 <= i < j < |r| ==> r[i] < r[j]
    decreases next
  {
    if next <= 1 then []
    else
      var below := IdsBelow(m, next - 1);
      assert forall i :: 0 <= i < |below| ==> below[i] in below && below[i] < next - 1;
      if next - 1 in m then below + [next - 1] else below
  }

  /** Every id of the table was handed out by a counter now at `next`. */
  predicate IdsUnder<T>(m: map<int, T>, next: int) {
    forall k :: k in m ==> 1 <= k < next
  }

  /** The ids below `next` of the rows `keep` accepts, ascending. */
  function AcceptedIds<T>(m: map<int, T>, next: int, keep: T -> bool): (r: seq<int>)
    ensures forall k :: k in r <==> k in m && 1 <= k < next && keep(m[k])
    ensures forall i, j :: 0 <= i < j < |r| ==> r[i] < r[j]
    decreases next
  {
    if next <= 1 then []
    else
      var below := AcceptedIds(m, next - 1, keep);
      assert forall i :: 0 <= i < |below| ==> below[i] in below && below[i] < next - 1;
      if next - 1 in m && keep(m[next - 1]) then below + [next - 1] else below
  }

  /** The rows stored under `ks`, in that order. */
  function Rows<T>(m: map<int, T>, ks: seq<int>): (r: seq<T>)
    requires forall i :: 0 <= i < |ks| ==> ks[i] in m
    ensures |r| == |ks|
    ensures forall i :: 0 <= i < |ks| ==> r[i] == m[ks[i]]
  {
    if ks == [] then [] else [m[ks[0]]] + Rows(m, ks[1..])
  }

  /** `SELECT ... WHERE keep(row)`: one row for each accepted id, in id order. */
  function Select<T(!new)>(m: map<int, T>, next: int, keep: T -> bool): (r: seq<T>)
    requires IdsUnder(m, next)
    ensures |r| == |AcceptedIds(m, next, keep)|
    ensures forall i :: 0 <= i < |r| ==> r[i] == m[AcceptedIds(m, next, keep)[i]]
    ensures forall x :: x in r <==> exists k :: k in m && m[k] == x && keep(x)
  {
    var ids := AcceptedIds(m, next, keep);
    assert forall i :: 0 <= i < |ids| ==> ids[i] in ids;
    var r := Rows(m, ids);
    assert forall k :: k in m && keep(m[k]) ==> m[k] in r by {
      forall k | k in m && keep(m[k])
        ensures m[k] in r
      {
        assert k in ids;
        var i :| 0 <= i < |ids| && ids[i] == k;
        assert r[i] == m[k];
      }
    }
    assert forall x :: x in r ==> exists k :: k in m && m[k] == x && keep(x) by {
      forall x | x in r
        ensures exists k :: k in m && m[k] == x && keep(x)
      {
        var i :| 0 <= i < |r| && r[i] == x;
        assert ids[i] in ids;
      }
    }
    r
  }

  /** The first row in id order that `keep` accepts: `fetch()` of an unordered query. */
  function First<T(!new)>(m: map<int, T>, next: int, keep: T -> bool): (r: Option<T>)
    requires IdsUnder(m, next)
    ensures r.Some? ==> exists k :: k in m && m[k] == r.value && keep(r.value)
    ensures r.None? <==> forall k :: k in m ==> !keep(m[k])
  {
    var rows := Select(m, next, keep);
    if rows == [] then
      assert forall k :: k in m ==> m[k] !in rows;
      None
    else
      assert rows[0] in rows;
      Some(rows[0])
  }

  /** The elements of `s` that `keep` accepts, in their order. */
  function Filter<T(!new)>(s: seq<T>, keep: T -> bool): (r: seq<T>)
    ensures forall x :: x in r <==> x in s && keep(x)
    ensures forall x :: multiset(r)[x] == if keep(x) then multiset(s)[x] else 0
    ensures |r| <= |s|
  {
    if s == [] then []
    else
      assert s == [s[0]] + s[1..];
      assert forall x :: x in s <==> x == s[0] || x in s[1..];
      (if keep(s[0]) then [s[0]] else []) + Filter(s[1..], keep)
  }

  /** Two predicates that agree on every element keep the same elements. */
  lemma {:induction false} FilterCongruence<T(!new)>(s: seq<T>, f: T -> bool, g: T -> bool)
    requires forall x :: x in s ==> f(x) == g(x)
    ensures Filter(s, f) == Filter(s, g)
  {
    if s != [] {
      assert forall x :: x in s[1..] ==> x in s;
      FilterCongruence(s[1..], f, g);
    }
  }

  /** Each row projected to the selected columns. */
  function Map<T, U>(s: seq<T>, f: T -> U): (r: seq<U>)
    ensures |r| == |s|
    ensures forall i :: 0 <= i < |s| ==> r[i] == f(s[i])
  {
    if s == [] then [] else [f(s[0])] + Map(s[1..], f)
  }

  /** `SELECT f(row) ... WHERE keep(row)`: one projection for each accepted id, in id order. */
  function Project<T(!new), U(!new)>(m: map<int, T>, next: int, keep: T -> bool, f: T -> U): (r: seq<U>)
    requires IdsUnder(m, next)
    ensures |r| == |AcceptedIds(m, next, keep)|
    ensures forall i :: 0 <= i < |r| ==> r[i] == f(m[AcceptedIds(m, next, keep)[i]])
    ensures forall y :: y in r <==> exists k :: k in m && keep(m[k]) && f(m[k]) == y
  {
    var rows := Select(m, next, keep);
    var r := Map(rows, f);
    assert forall y :: y in r ==> exists k :: k in m && keep(m[k]) && f(m[k]) == y by {
      forall y | y in r
        ensures exists k :: k in m && keep(m[k]) && f(m[k]) == y
      {
        var i :| 0 <= i < |r| && r[i] == y;
        assert rows[i] in rows;
      }
    }
    assert forall k :: k in m && keep(m[k]) ==> f(m[k]) in r by {
      forall k | k in m && keep(m[k])
        ensures f(m[k]) in r
      {
        assert m[k] in rows;
        var i :| 0 <= i < |rows| && rows[i] == m[k];
        assert r[i] == f(m[k]);
      }
    }
    r
  }
}
