// A table whose keys may hold several values, kept in key-and-value order as a cursor
// sees it.
module SortedTables {
  import opened ByteStrings
  import opened Wrappers

  datatype Row = Row(key: Bytes, value: Bytes)

  predicate RowLess(p: Row, q: Row) {
    Less(p.key, q.key) || (p.key == q.key && Less(p.value, q.value))
  }

  ghost predicate Sorted(rows: seq<Row>) {
    forall i, j | 0 <= i < j < |rows| :: RowLess(rows[i], rows[j])
  }

  ghost function Values(rows: seq<Row>, k: Bytes): set<Bytes> {
    set r | r in rows && r.key == k :: r.value
  }

  lemma ValuesMember(rows: seq<Row>, k: Bytes, v: Bytes)
    ensures v in Values(rows, k) <==> Row(k, v) in rows
  {
    if v in Values(rows, k) {
      var r :| r in rows && r.key == k && r.value == v;
      assert r == Row(k, v);
    }
    if Row(k, v) in rows {
      var r := Row(k, v);
      assert r in rows && r.key == k;
    }
  }

  lemma RowLessTransitive(p: Row, q: Row, r: Row)
    requires RowLess(p, q) && RowLess(q, r)
    ensures RowLess(p, r)
  {
    if p.key != q.key && q.key != r.key {
      LeqTransitive(p.key, q.key, r.key);
      if p.key == r.key {
        LeqAntisymmetric(p.key, q.key);
      }
    } else if p.key == q.key == r.key {
      LeqTransitive(p.value, q.value, r.value);
      if p.value == r.value {
        LeqAntisymmetric(p.value, q.value);
      }
    }
  }

  lemma RowLessTotal(p: Row, q: Row)
    ensures p == q || RowLess(p, q) || RowLess(q, p)
  {
    LeqTotal(p.key, q.key);
    LeqTotal(p.value, q.value);
  }

  /** Rows of one key are adjacent: once the key is passed it does not come back. */
  lemma KeyIsPassed(rows: seq<Row>, k: Bytes, i: nat, j: nat, m: nat)
    requires Sorted(rows) && i < j <= m < |rows| && rows[i].key == k && rows[j].key != k
    ensures rows[m].key != k
  {
    assert RowLess(rows[i], rows[j]);
    if j < m && rows[m].key == k {
      assert RowLess(rows[j], rows[m]);
      LeqAntisymmetric(k, rows[j].key);
    }
  }

  lemma LaterIsLarger(rows: seq<Row>, i: nat, j: nat)
    requires Sorted(rows) && i <= j < |rows| && rows[i].key == rows[j].key
    ensures Leq(rows[i].value, rows[j].value)
  {
    LeqReflexive(rows[i].value);
    if i < j {
      assert RowLess(rows[i], rows[j]);
    }
  }

  // ----- Writing -----

  function InsertRow(rows: seq<Row>, row: Row): (r: seq<Row>) {
    if rows == [] then [row]
    else if rows[0] == row then rows
    else if RowLess(row, rows[0]) then [row] + rows
    else [rows[0]] + InsertRow(rows[1..], row)
  }

  lemma {:induction false} InsertRowKeepsSorted(rows: seq<Row>, row: Row)
    requires Sorted(rows)
    ensures Sorted(InsertRow(rows, row))
    ensures forall r :: r in InsertRow(rows, row) <==> r in rows || r == row
  {
    if rows != [] {
      var rest := rows[1..];
      assert rows == [rows[0]] + rest;
      if rows[0] == row {
      } else if RowLess(row, rows[0]) {
        var out := [row] + rows;
        forall i, j | 0 <= i < j < |out| ensures RowLess(out[i], out[j]) {
          if i == 0 && j > 1 {
            RowLessTransitive(row, rows[0], rows[j - 1]);
          }
        }
      } else {
        InsertRowKeepsSorted(rest, row);
        RowLessTotal(row, rows[0]);
        var tail := InsertRow(rest, row);
        var out := [rows[0]] + tail;
        forall i, j | 0 <= i < j < |out| ensures RowLess(out[i], out[j]) {
          if i == 0 {
            assert out[j] in tail;
            assert out[j] in rest || out[j] == row;
          }
        }
      }
    }
  }

  function DeleteRow(rows: seq<Row>, row: Row): (r: seq<Row>) {
    if rows == [] then []
    else if rows[0] == row then rows[1..]
    else [rows[0]] + DeleteRow(rows[1..], row)
  }

  lemma {:induction false} DeleteRowKeepsSorted(rows: seq<Row>, row: Row)
    requires Sorted(rows)
    ensures Sorted(DeleteRow(rows, row))
    ensures forall r :: r in DeleteRow(rows, row) <==> r in rows && r != row
  {
    if rows != [] {
      var rest := rows[1..];
      assert rows == [rows[0]] + rest;
      if rows[0] == row {
        forall r | r in rest ensures r != row {
          var i :| 0 <= i < |rest| && rest[i] == r;
          assert RowLess(rows[0], rows[i + 1]);
        }
      } else {
        DeleteRowKeepsSorted(rest, row);
        var tail := DeleteRow(rest, row);
        var out := [rows[0]] + tail;
        forall i, j | 0 <= i < j < |out| ensures RowLess(out[i], out[j]) {
          if i == 0 {
            assert out[j] in tail;
            assert out[j] in rest;
          }
        }
      }
    }
  }

  // ----- Reading -----

  /** o is the least element of s, if there is one. */
  ghost predicate IsLeast(s: set<Bytes>, o: Option<Bytes>) {
    match o
    case None => s == {}
    case Some(x) => x in s && forall y <- s :: Leq(x, y)
  }

  lemma LeastIsUnique(s: set<Bytes>, o: Option<Bytes>, p: Option<Bytes>)
    requires IsLeast(s, o) && IsLeast(s, p)
    ensures o == p
  {
    if o.Some? && p.Some? {
      LeqAntisymmetric(o.value, p.value);
    }
  }

  lemma NoRowsNoValues(rows: seq<Row>, k: Bytes)
    requires forall j | 0 <= j < |rows| :: rows[j].key != k
    ensures Values(rows, k) == {}
  {
  }

  /** The position of the first row with the key, or past the end. */
  method SeekExact(rows: seq<Row>, k: Bytes) returns (i: nat)
    ensures i <= |rows| && (i < |rows| ==> rows[i].key == k)
    ensures forall j | 0 <= j < i :: rows[j].key != k
  {
    i := 0;
    while i < |rows| && rows[i].key != k
      invariant 0 <= i <= |rows| && forall j | 0 <= j < i :: rows[j].key != k
    {
      i := i + 1;
    }
  }

  /** The first value of a key: its least one. */
  method GetFirst(rows: seq<Row>, k: Bytes) returns (r: Option<Bytes>)
    requires Sorted(rows)
    ensures IsLeast(Values(rows, k), r)
  {
    var i := SeekExact(rows, k);
    if i < |rows| {
      r := Some(rows[i].value);
      ValuesMember(rows, k, rows[i].value);
      forall y | y in Values(rows, k) ensures Leq(rows[i].value, y) {
        ValuesMember(rows, k, y);
        var j :| 0 <= j < |rows| && rows[j] == Row(k, y);
        LaterIsLarger(rows, i, j);
      }
    } else {
      r := None;
      NoRowsNoValues(rows, k);
    }
  }
}
