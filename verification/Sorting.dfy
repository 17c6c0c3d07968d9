/** Stable sorting of rows by a numeric identity, and filtering. */
module Sorting {
  /** Inserts after every row whose identity is not greater. */
  function InsertBy<T>(rows: seq<T>, row: T, id: T -> int): seq<T>
  {
    if |rows| == 0 || id(rows[|rows| - 1]) <= id(row) then rows + [row]
    else InsertBy(rows[..|rows| - 1], row, id) + [rows[|rows| - 1]]
  }

  function SortBy<T>(rows: seq<T>, id: T -> int): seq<T>
  {
    if |rows| == 0 then [] else InsertBy(SortBy(rows[..|rows| - 1], id), rows[|rows| - 1], id)
  }

  function Keep<T>(rows: seq<T>, keep: T -> bool): seq<T>
  {
    if |rows| == 0 then []
    else
      var before, last := Keep(rows[..|rows| - 1], keep), rows[|rows| - 1];
      if keep(last) then before + [last] else before
  }

  ghost predicate Ascends<T>(rows: seq<T>, id: T -> int)
  {
    |rows| > 0 ==>
      var before, last := rows[..|rows| - 1], rows[|rows| - 1];
      Ascends(before, id) && (|before| > 0 ==> id(before[|before| - 1]) <= id(last))
  }

  lemma {:induction false} InsertAscends<T>(rows: seq<T>, row: T, id: T -> int)
    requires Ascends(rows, id)
    ensures Ascends(InsertBy(rows, row, id), id)
    ensures |InsertBy(rows, row, id)| == |rows| + 1
    ensures var r := InsertBy(rows, row, id);
      id(r[|r| - 1]) == (if |rows| == 0 || id(rows[|rows| - 1]) <= id(row) then id(row) else id(rows[|rows| - 1]))
  {
    if |rows| == 0 || id(rows[|rows| - 1]) <= id(row) {
      assert (rows + [row])[..|rows|] == rows;
    } else {
      var before := InsertBy(rows[..|rows| - 1], row, id);
      InsertAscends(rows[..|rows| - 1], row, id);
      assert (before + [rows[|rows| - 1]])[..|before|] == before;
    }
  }

  lemma {:induction false} SortAscends<T>(rows: seq<T>, id: T -> int)
    ensures Ascends(SortBy(rows, id), id)
  {
    if |rows| > 0 {
      SortAscends(rows[..|rows| - 1], id);
      InsertAscends(SortBy(rows[..|rows| - 1], id), rows[|rows| - 1], id);
    }
  }

  /** Sorting sorted rows changes nothing. */
  lemma {:induction false} SortFixed<T>(rows: seq<T>, id: T -> int)
    requires Ascends(rows, id)
    ensures SortBy(rows, id) == rows
  {
    if |rows| > 0 {
      SortFixed(rows[..|rows| - 1], id);
      assert rows == rows[..|rows| - 1] + [rows[|rows| - 1]];
    }
  }

  lemma {:induction false} InsertMembers<T>(rows: seq<T>, row: T, id: T -> int, x: T)
    ensures x in InsertBy(rows, row, id) <==> x in rows || x == row
  {
    if |rows| > 0 && id(rows[|rows| - 1]) > id(row) {
      InsertMembers(rows[..|rows| - 1], row, id, x);
      assert rows == rows[..|rows| - 1] + [rows[|rows| - 1]];
    }
  }

  lemma {:induction false} SortMembers<T>(rows: seq<T>, id: T -> int, x: T)
    ensures x in SortBy(rows, id) <==> x in rows
  {
    if |rows| > 0 {
      SortMembers(rows[..|rows| - 1], id, x);
      InsertMembers(SortBy(rows[..|rows| - 1], id), rows[|rows| - 1], id, x);
      assert rows == rows[..|rows| - 1] + [rows[|rows| - 1]];
    }
  }

  lemma {:induction false} KeepMembers<T>(rows: seq<T>, keep: T -> bool, x: T)
    ensures x in Keep(rows, keep) <==> x in rows && keep(x)
  {
    if |rows| > 0 {
      KeepMembers(rows[..|rows| - 1], keep, x);
      assert rows == rows[..|rows| - 1] + [rows[|rows| - 1]];
    }
  }

  lemma {:induction false} KeepAppend<T>(a: seq<T>, b: seq<T>, keep: T -> bool)
    ensures Keep(a + b, keep) == Keep(a, keep) + Keep(b, keep)
  {
    if |b| == 0 {
      assert a + b == a;
    } else {
      KeepAppend(a, b[..|b| - 1], keep);
      assert (a + b)[..|a + b| - 1] == a + b[..|b| - 1];
    }
  }

  lemma {:induction false} KeepAll<T>(rows: seq<T>, keep: T -> bool)
    requires forall x :: x in rows ==> keep(x)
    ensures Keep(rows, keep) == rows
  {
    if |rows| > 0 {
      KeepAll(rows[..|rows| - 1], keep);
    }
  }

  lemma {:induction false} KeepNone<T>(rows: seq<T>, keep: T -> bool)
    requires forall x :: x in rows ==> !keep(x)
    ensures Keep(rows, keep) == []
  {
    if |rows| > 0 {
      KeepNone(rows[..|rows| - 1], keep);
    }
  }
}
