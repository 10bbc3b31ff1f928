/**
  The relational operations the repositories' SQL statements use, over a
  table held as its rows in storage order: a filtered scan, the first row of
  a scan (`LIMIT 1`), an `UPDATE ... WHERE` and an `ORDER BY` on an integer
  column.
*/
module Tables {
  import opened Wrappers

  /** `SELECT ... WHERE where LIMIT 1`: the first matching row, or None when no row matches. */
  function First<T>(rows: seq<T>, where: T -> bool): (r: Option<T>)
    ensures r.Some? ==> r.value in rows && where(r.value)
    ensures r.None? <==> forall i :: 0 <= i < |rows| ==> !where(rows[i])
  {
    if rows == [] then None
    else if where(rows[0]) then Some(rows[0])
    else First(rows[1..], where)
  }

  /** `SELECT ... WHERE where`: the matching rows, in storage order. */
  function Where<T(!new)>(rows: seq<T>, where: T -> bool): (r: seq<T>)
    ensures forall x :: multiset(r)[x] == if where(x) then multiset(rows)[x] else 0
    ensures forall i :: 0 <= i < |r| ==> where(r[i])
  {
    if rows == [] then []
    else
      assert rows == [rows[0]] + rows[1..];
      if where(rows[0]) then [rows[0]] + Where(rows[1..], where)
      else Where(rows[1..], where)
  }

  /** A filter that keeps every row keeps the table as it is. */
  lemma {:induction false} WhereAll<T(!new)>(rows: seq<T>, where: T -> bool)
    requires forall i :: 0 <= i < |rows| ==> where(rows[i])
    ensures Where(rows, where) == rows
  {
    if rows != [] {
      WhereAll(rows[1..], where);
    }
  }

  /** `UPDATE ... SET change WHERE where`: every matching row changed, every other row kept. */
  function UpdateWhere<T>(rows: seq<T>, where: T -> bool, change: T -> T): (r: seq<T>)
    ensures |r| == |rows|
    ensures forall i :: 0 <= i < |rows| ==> r[i] == if where(rows[i]) then change(rows[i]) else rows[i]
  {
    seq(|rows|, i requires 0 <= i < |rows| => if where(rows[i]) then change(rows[i]) else rows[i])
  }

  ghost predicate SortedBy<T>(rows: seq<T>, key: T -> int)
  {
    forall i, j :: 0 <= i < j < |rows| ==> key(rows[i]) <= key(rows[j])
  }

  /** Inserts x after every row whose key is at most x's. */
  function Insert<T>(x: T, rows: seq<T>, key: T -> int): (r: seq<T>)
    requires SortedBy(rows, key)
    ensures SortedBy(r, key)
    ensures multiset(r) == multiset(rows) + multiset{x}
    ensures r[0] == x || (rows != [] && r[0] == rows[0])
  {
    if rows == [] then [x]
    else if key(x) < key(rows[0]) then
      [x] + rows
    else
      var tail := Insert(x, rows[1..], key);
      assert rows == [rows[0]] + rows[1..];
      ConsSorted(rows[0], tail, key);
      assert multiset([rows[0]] + tail) == multiset{rows[0]} + multiset(tail);
      [rows[0]] + tail
  }

  /** A row no later than the head of a sorted table can go in front of it. */
  lemma ConsSorted<T>(h: T, t: seq<T>, key: T -> int)
    requires SortedBy(t, key)
    requires t != [] ==> key(h) <= key(t[0])
    ensures SortedBy([h] + t, key)
  {
    var r := [h] + t;
    forall i, j | 0 <= i < j < |r|
      ensures key(r[i]) <= key(r[j])
    {
      if i == 0 {
        assert r[j] == t[j - 1];
        assert key(t[0]) <= key(t[j - 1]);
      } else {
        assert r[i] == t[i - 1] && r[j] == t[j - 1];
      }
    }
  }

  /** `ORDER BY key ASC`: the rows sorted by key; as in SQL, the order among equal keys is not specified. */
  function OrderBy<T>(rows: seq<T>, key: T -> int): (r: seq<T>)
    ensures SortedBy(r, key)
    ensures multiset(r) == multiset(rows)
  {
    if rows == [] then []
    else
      assert rows == [rows[0]] + rows[1..];
      Insert(rows[0], OrderBy(rows[1..], key), key)
  }

  /** Reads a query's result rows one at a time, as `rows.Next()` does, into a slice. */
  method Scan<T>(rows: seq<T>) returns (result: seq<T>)
    ensures result == rows
  {
    result := [];
    var i := 0;
    while i < |rows|
      invariant 0 <= i <= |rows|
      invariant result == rows[..i]
    {
      result := result + [rows[i]];
      i := i + 1;
    }
    assert rows[..|rows|] == rows;
  }
}
