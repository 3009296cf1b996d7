/** ORDER BY ... DESC on a pair of columns that is unique in the table. */
module OrderBy {

  type Key = (int, int)

  /** Row-value comparison: x < y. */
  predicate Below(x: Key, y: Key) {
    x.0 < y.0 || (x.0 == y.0 && x.1 < y.1)
  }

  /** Strictly descending, so no key occurs twice. */
  ghost predicate Descending<T(!new)>(rows: seq<T>, key: T -> Key) {
    forall i, j :: 0 <= i < j < |rows| ==> Below(key(rows[j]), key(rows[i]))
  }

  ghost predicate UniqueKeys<T(!new)>(rows: seq<T>, key: T -> Key) {
    forall i, j :: 0 <= i < j < |rows| ==> key(rows[i]) != key(rows[j])
  }

  function Place<T>(row: T, sorted: seq<T>, key: T -> Key): seq<T> {
    if sorted == [] then [row]
    else if Below(key(sorted[0]), key(row)) then [row] + sorted
    else [sorted[0]] + Place(row, sorted[1..], key)
  }

  function SortDescending<T>(rows: seq<T>, key: T -> Key): seq<T> {
    if rows == [] then [] else Place(rows[0], SortDescending(rows[1..], key), key)
  }

  lemma {:induction false} PlaceSorts<T(!new)>(row: T, sorted: seq<T>, key: T -> Key)
    requires Descending(sorted, key)
    requires forall i :: 0 <= i < |sorted| ==> key(sorted[i]) != key(row)
    ensures Descending(Place(row, sorted, key), key)
    ensures forall x :: x in Place(row, sorted, key) <==> x == row || x in sorted
    decreases |sorted|
  {
    if sorted != [] && !Below(key(sorted[0]), key(row)) {
      PlaceSorts(row, sorted[1..], key);
      var placed := Place(row, sorted[1..], key);
      forall x | x in placed ensures Below(key(x), key(sorted[0])) {
        if x != row {
          var i :| 0 <= i < |sorted| - 1 && sorted[1..][i] == x;
          assert sorted[i + 1] == x;
        }
      }
    }
  }

  /** On unique keys the query answers the table's rows, each once, in strictly descending order. */
  lemma {:induction false} SortSorts<T(!new)>(rows: seq<T>, key: T -> Key)
    requires UniqueKeys(rows, key)
    ensures Descending(SortDescending(rows, key), key)
    ensures forall x :: x in SortDescending(rows, key) <==> x in rows
    decreases |rows|
  {
    if rows != [] {
      SortSorts(rows[1..], key);
      var rest := SortDescending(rows[1..], key);
      forall i | 0 <= i < |rest| ensures key(rest[i]) != key(rows[0]) {
        assert rest[i] in rows[1..];
        var j :| 0 <= j < |rows| - 1 && rows[1..][j] == rest[i];
        assert rows[j + 1] == rest[i];
      }
      PlaceSorts(rows[0], rest, key);
    }
  }

  lemma TailMembers<T(!new)>(rows: seq<T>, key: T -> Key)
    requires rows != [] && Descending(rows, key)
    ensures forall x :: x in rows[1..] <==> x in rows && x != rows[0]
  {
    forall i | 0 < i < |rows| ensures rows[i] != rows[0] {
      assert Below(key(rows[i]), key(rows[0]));
    }
    assert rows == [rows[0]] + rows[1..];
  }

  /** The order is determined by the rows: two descending lists of the same rows are the same list. */
  lemma {:induction false} DescendingIsUnique<T(!new)>(a: seq<T>, b: seq<T>, key: T -> Key)
    requires Descending(a, key) && Descending(b, key)
    requires forall x :: x in a <==> x in b
    ensures a == b
    decreases |a|
  {
    if b != [] { assert b[0] in b; }
    if a != [] {
      assert a[0] in b && b[0] in a;
      assert a[0] == b[0] by {
        var k :| 0 <= k < |b| && b[k] == a[0];
        var m :| 0 <= m < |a| && a[m] == b[0];
      }
      TailMembers(a, key);
      TailMembers(b, key);
      DescendingIsUnique(a[1..], b[1..], key);
    }
  }
}
