/** Tables as the database holds them: rows with a primary key the database
    assigns, read back in ascending key order. Shared by both repositories. */
module Table {

  datatype Option<+T> = None | Some(value: T)

  /** A stored row: the serial primary key and the record's other columns. */
  datatype Row<T> = Row(id: int, data: T)

  function Ids<T(==,!new)>(rows: seq<Row<T>>): set<int>
  {
    set r | r in rows :: r.id
  }

  /** Rows are read in ascending primary-key order. */
  ghost predicate Ascending<T(!new)>(rows: seq<Row<T>>)
  {
    forall i, j :: 0 <= i < j < |rows| ==> rows[i].id < rows[j].id
  }

  /** Every key was handed out by the id sequence: at least 1 and below `next`. */
  ghost predicate Keyed<T(!new)>(rows: seq<Row<T>>, next: int)
  {
    && Ascending(rows)
    && forall i :: 0 <= i < |rows| ==> 1 <= rows[i].id < next
  }

  /** Every key in a table was handed out by its sequence, so none is below 1. */
  lemma KeyedIds<T(!new)>(rows: seq<Row<T>>, next: int)
    requires Keyed(rows, next)
    ensures forall id :: id in Ids(rows) ==> 1 <= id < next
  {
    forall id | id in Ids(rows)
      ensures 1 <= id < next
    {
      var i :| 0 <= i < |rows| && rows[i].id == id;
    }
  }

  /** The position of the row with key `id`, or -1 when there is none. */
  function IndexOf<T(==,!new)>(rows: seq<Row<T>>, id: int): (k: int)
    ensures -1 <= k < |rows|
    ensures k >= 0 ==> rows[k].id == id
    ensures k < 0 <==> id !in Ids(rows)
  {
    if rows == [] then -1
    else if rows[0].id == id then 0
    else
      var k := IndexOf(rows[1..], id);
      assert Ids(rows) == {rows[0].id} + Ids(rows[1..]) by {
        assert rows == [rows[0]] + rows[1..];
      }
      if k < 0 then -1 else k + 1
  }

  /** `session.get(Model, id)`: the row with that primary key, if any. */
  function GetById<T(==,!new)>(rows: seq<Row<T>>, id: int): (r: Option<Row<T>>)
    ensures r.Some? <==> id in Ids(rows)
    ensures r.Some? ==> r.value in rows && r.value.id == id
  {
    var k := IndexOf(rows, id);
    if k < 0 then None else Some(rows[k])
  }

  function Min(a: int, b: int): int
  {
    if a <= b then a else b
  }

  /** `OFFSET skip LIMIT limit`. */
  function Page<T(==,!new)>(rows: seq<T>, skip: nat, limit: nat): (r: seq<T>)
    ensures |r| == if skip >= |rows| then 0 else Min(limit, |rows| - skip)
    ensures forall k :: 0 <= k < |r| ==> r[k] == rows[skip + k]
  {
    if skip >= |rows| then [] else rows[skip..skip + Min(limit, |rows| - skip)]
  }

  /** `WHERE keep(row)`: the rows satisfying `keep`, in table order. */
  function Select<T(==,!new)>(rows: seq<T>, keep: T -> bool): (r: seq<T>)
    ensures |r| <= |rows|
    ensures forall x :: x in r <==> x in rows && keep(x)
  {
    if rows == [] then []
    else
      assert rows == [rows[0]] + rows[1..];
      (if keep(rows[0]) then [rows[0]] else []) + Select(rows[1..], keep)
  }

  /** A selection keeps the ascending key order. */
  lemma {:induction false} SelectAscending<T(!new)>(rows: seq<Row<T>>, keep: Row<T> -> bool)
    requires Ascending(rows)
    ensures Ascending(Select(rows, keep))
  {
    if rows != [] {
      var tail := rows[1..];
      assert Ascending(tail) by {
        forall i, j | 0 <= i < j < |tail| ensures tail[i].id < tail[j].id {
          assert tail[i] == rows[i + 1] && tail[j] == rows[j + 1];
        }
      }
      SelectAscending(tail, keep);
      var rest := Select(tail, keep);
      forall y | y in rest ensures rows[0].id < y.id {
        var j :| 0 <= j < |tail| && tail[j] == y;
        assert y == rows[j + 1];
      }
    }
  }

  /** A condition that every row meets selects the whole table. */
  lemma {:induction false} SelectAll<T(!new)>(rows: seq<T>, keep: T -> bool)
    requires forall x :: x in rows ==> keep(x)
    ensures Select(rows, keep) == rows
  {
    if rows != [] {
      assert rows == [rows[0]] + rows[1..];
      SelectAll(rows[1..], keep);
    }
  }

  /** Two conditions that agree on every row select the same rows. */
  lemma {:induction false} SelectCongruent<T(!new)>(rows: seq<T>, keep: T -> bool, same: T -> bool)
    requires forall x :: x in rows ==> keep(x) == same(x)
    ensures Select(rows, keep) == Select(rows, same)
  {
    if rows != [] {
      assert rows == [rows[0]] + rows[1..];
      SelectCongruent(rows[1..], keep, same);
    }
  }

  /** Appending a row with the next key keeps the keys ascending and handed out. */
  lemma AppendKeyed<T(!new)>(rows: seq<Row<T>>, next: int, row: Row<T>)
    requires Keyed(rows, next) && next >= 1 && row.id == next
    ensures Keyed(rows + [row], next + 1)
    ensures Ids(rows + [row]) == Ids(rows) + {next}
  {
  }

  /** `DELETE` of the row at position `k`: the rows before it stay where they are,
      the rows after it move up by one. */
  function RemoveAt<T(==,!new)>(rows: seq<Row<T>>, k: nat): (r: seq<Row<T>>)
    requires k < |rows|
    ensures |r| == |rows| - 1
    ensures forall i :: 0 <= i < k ==> r[i] == rows[i]
    ensures forall i :: k <= i < |r| ==> r[i] == rows[i + 1]
  {
    rows[..k] + rows[k + 1..]
  }

  /** Removing a row keeps the other rows and their order, and only its key disappears. */
  lemma RemoveAtKeyed<T(!new)>(rows: seq<Row<T>>, next: int, k: nat)
    requires Keyed(rows, next) && k < |rows|
    ensures Keyed(RemoveAt(rows, k), next)
    ensures Ids(RemoveAt(rows, k)) == Ids(rows) - {rows[k].id}
    ensures forall x :: x in RemoveAt(rows, k) <==> x in rows && x.id != rows[k].id
  {
    RemoveAtAscending(rows, next, k);
    RemoveAtMembers(rows, next, k);
  }

  lemma RemoveAtAscending<T(!new)>(rows: seq<Row<T>>, next: int, k: nat)
    requires Keyed(rows, next) && k < |rows|
    ensures Keyed(RemoveAt(rows, k), next)
  {
    var r := RemoveAt(rows, k);
    forall i, j | 0 <= i < j < |r|
      ensures r[i].id < r[j].id
    {
      var i' := if i < k then i else i + 1;
      var j' := if j < k then j else j + 1;
      assert r[i] == rows[i'] && r[j] == rows[j'];
    }
  }

  lemma RemoveAtMembers<T(!new)>(rows: seq<Row<T>>, next: int, k: nat)
    requires Keyed(rows, next) && k < |rows|
    ensures forall x :: x in RemoveAt(rows, k) <==> x in rows && x.id != rows[k].id
  {
    var r := RemoveAt(rows, k);
    forall x | x in rows && x.id != rows[k].id
      ensures x in r
    {
      var i :| 0 <= i < |rows| && rows[i] == x;
      if i < k {
        assert r[i] == x;
      } else {
        assert r[i - 1] == x;
      }
    }
    forall x | x in r
      ensures x in rows && x.id != rows[k].id
    {
      var i :| 0 <= i < |r| && r[i] == x;
      if i < k {
        assert rows[i].id < rows[k].id;
      } else {
        assert rows[k].id < rows[i + 1].id;
      }
    }
  }

  /** Overwriting the columns of the row at `k` keeps every key where it was. */
  lemma ReplaceDataKeyed<T(!new)>(rows: seq<Row<T>>, next: int, k: nat, d: T)
    requires Keyed(rows, next) && k < |rows|
    ensures Keyed(rows[k := Row(rows[k].id, d)], next)
    ensures Ids(rows[k := Row(rows[k].id, d)]) == Ids(rows)
  {
    var r := rows[k := Row(rows[k].id, d)];
    assert forall i :: 0 <= i < |r| ==> r[i].id == rows[i].id;
    forall x | x in Ids(rows) ensures x in Ids(r) {
      var i :| 0 <= i < |rows| && rows[i].id == x;
      assert r[i].id == x;
    }
  }
}
