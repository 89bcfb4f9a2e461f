/**
 * Newest-first ordering of stored rows, as the hosted database returns them for
 * `.order(column, { ascending: false })`, and the `.limit(n)` that follows it.
 * Timestamps are whole milliseconds; ISO-8601 strings of one fixed width sort the same way.
 */
module Ordering {

  /** Every row's key is at least the key of every row after it. */
  predicate NewestFirst<T>(rows: seq<T>, key: T -> nat) {
    forall i, j :: 0 <= i < j < |rows| ==> key(rows[i]) >= key(rows[j])
  }

  /** `row` put into the newest-first list `rows` before the first row that is not newer. */
  function InsertNewestFirst<T>(row: T, rows: seq<T>, key: T -> nat): (r: seq<T>)
    requires NewestFirst(rows, key)
    ensures NewestFirst(r, key)
    ensures multiset(r) == multiset(rows) + multiset{row}
    ensures |r| == |rows| + 1
    decreases |rows|
  {
    if rows == [] || key(row) >= key(rows[0]) then [row] + rows
    else
      var rest := InsertNewestFirst(row, rows[1..], key);
      InsertBehindHead(row, rows, rest, key);
      [rows[0]] + rest
  }

  /** The head of a newest-first list stays in front of the rest with an older row inserted. */
  lemma InsertBehindHead<T>(row: T, rows: seq<T>, rest: seq<T>, key: T -> nat)
    requires NewestFirst(rows, key) && rows != [] && key(row) < key(rows[0])
    requires NewestFirst(rest, key)
    requires multiset(rest) == multiset(rows[1..]) + multiset{row}
    ensures NewestFirst([rows[0]] + rest, key)
    ensures multiset([rows[0]] + rest) == multiset(rows) + multiset{row}
  {
    assert rows == [rows[0]] + rows[1..];
    HeadBoundsRest(row, rows, rest, key);
    NewestFirstCons(rows[0], rest, key);
  }

  /** The head of a newest-first list is at least as new as the rest of it with an older row added. */
  lemma HeadBoundsRest<T>(row: T, rows: seq<T>, rest: seq<T>, key: T -> nat)
    requires NewestFirst(rows, key) && rows != [] && key(row) < key(rows[0])
    requires multiset(rest) == multiset(rows[1..]) + multiset{row}
    ensures forall x | x in multiset(rest) :: key(x) <= key(rows[0])
  {
    forall x | x in multiset(rest) ensures key(x) <= key(rows[0]) {
      if x != row {
        assert x in multiset(rows[1..]);
        var k :| 0 <= k < |rows[1..]| && rows[1..][k] == x;
        assert rows[k + 1] == x;
      }
    }
  }

  /** A row at least as new as every row of a newest-first list can go in front of it. */
  lemma NewestFirstCons<T>(head: T, rows: seq<T>, key: T -> nat)
    requires NewestFirst(rows, key)
    requires forall x | x in multiset(rows) :: key(x) <= key(head)
    ensures NewestFirst([head] + rows, key)
  {
    var r := [head] + rows;
    forall i, j | 0 <= i < j < |r| ensures key(r[i]) >= key(r[j]) {
      if i == 0 {
        assert r[j] == rows[j - 1];
        assert rows[j - 1] in multiset(rows);
      } else {
        assert r[i] == rows[i - 1] && r[j] == rows[j - 1];
      }
    }
  }

  /** The rows ordered newest first (ties in an unspecified but fixed order). */
  function SortNewestFirst<T>(rows: seq<T>, key: T -> nat): (r: seq<T>)
    ensures NewestFirst(r, key)
    ensures multiset(r) == multiset(rows)
    ensures |r| == |rows|
    decreases |rows|
  {
    if rows == [] then []
    else
      assert rows == [rows[0]] + rows[1..];
      InsertNewestFirst(rows[0], SortNewestFirst(rows[1..], key), key)
  }

  /** `.limit(n)`: at most the first `n` rows. */
  function Limit<T>(rows: seq<T>, n: nat): (r: seq<T>)
    ensures |r| == if |rows| <= n then |rows| else n
    ensures |rows| <= n ==> r == rows
    ensures forall x | x in r :: x in rows
    ensures forall k :: 0 <= k < |r| ==> r[k] == rows[k]
    ensures multiset(r) <= multiset(rows)
  {
    if |rows| <= n then rows
    else
      assert rows == rows[..n] + rows[n..];
      rows[..n]
  }

  /** The rows that satisfy `keep`, in their order. */
  function Filter<T>(rows: seq<T>, keep: T -> bool): (r: seq<T>)
    ensures forall x | x in r :: keep(x)
    ensures forall x | x in rows && keep(x) :: x in r
    ensures forall x | x in r :: x in rows
    ensures multiset(r) <= multiset(rows)
    decreases |rows|
  {
    if rows == [] then []
    else
      var rest := Filter(rows[1..], keep);
      assert rows == [rows[0]] + rows[1..];
      if keep(rows[0]) then [rows[0]] + rest else rest
  }

  /** Filtering keeps every passing row as often as it occurs and drops every other row. */
  lemma {:induction false} FilterCounts<T>(rows: seq<T>, keep: T -> bool)
    ensures forall x :: multiset(Filter(rows, keep))[x] == if keep(x) then multiset(rows)[x] else 0
    decreases |rows|
  {
    if rows != [] {
      FilterCounts(rows[1..], keep);
      assert rows == [rows[0]] + rows[1..];
    }
  }

  /** A passing row appended to the input is appended to the output: the order is kept. */
  lemma {:induction false} FilterKeeps<T>(rows: seq<T>, x: T, keep: T -> bool)
    requires keep(x)
    ensures Filter(rows + [x], keep) == Filter(rows, keep) + [x]
    decreases |rows|
  {
    if rows == [] {
      assert Filter([x], keep) == [x] + Filter([x][1..], keep);
    } else {
      var longer := rows + [x];
      assert longer[0] == rows[0] && longer[1..] == rows[1..] + [x];
      FilterKeeps(rows[1..], x, keep);
      if keep(rows[0]) {
        calc {
          Filter(longer, keep);
          [rows[0]] + Filter(rows[1..] + [x], keep);
          [rows[0]] + (Filter(rows[1..], keep) + [x]);
          ([rows[0]] + Filter(rows[1..], keep)) + [x];
        }
      }
    }
  }

  /** A failing row appended to the input leaves the output as it was. */
  lemma {:induction false} FilterSkips<T>(rows: seq<T>, x: T, keep: T -> bool)
    requires !keep(x)
    ensures Filter(rows + [x], keep) == Filter(rows, keep)
    decreases |rows|
  {
    if rows == [] {
      assert Filter([x], keep) == Filter([x][1..], keep);
    } else {
      FilterSkips(rows[1..], x, keep);
      assert (rows + [x])[1..] == rows[1..] + [x];
    }
  }

  /** Sorting neither adds nor drops a row. */
  lemma SortKeepsMembers<T>(rows: seq<T>, key: T -> nat)
    ensures forall x :: x in SortNewestFirst(rows, key) <==> x in rows
  {
    var r := SortNewestFirst(rows, key);
    forall x ensures x in r <==> x in rows {
      assert x in r <==> x in multiset(r);
      assert x in rows <==> x in multiset(rows);
    }
  }

  /** A prefix of a newest-first list is newest first. */
  lemma LimitNewestFirst<T>(rows: seq<T>, n: nat, key: T -> nat)
    requires NewestFirst(rows, key)
    ensures NewestFirst(Limit(rows, n), key)
  {
  }

  /** Of a newest-first list, `.limit(n)` drops only rows no newer than every row it keeps. */
  lemma LimitKeepsNewest<T>(rows: seq<T>, n: nat, key: T -> nat)
    requires NewestFirst(rows, key)
    ensures forall x, y | x in rows && x !in Limit(rows, n) && y in Limit(rows, n) :: key(y) >= key(x)
  {
    var r := Limit(rows, n);
    forall x, y | x in rows && x !in r && y in r ensures key(y) >= key(x) {
      var i :| 0 <= i < |r| && r[i] == y;
      var k :| 0 <= k < |rows| && rows[k] == x;
      assert rows[i] == y;
    }
  }
}
