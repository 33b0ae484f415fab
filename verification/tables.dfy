/** A SQLite table whose key is `INTEGER PRIMARY KEY AUTOINCREMENT`: its rows
    in ascending id order (the order a plain scan returns them) and the
    counter that hands out the next id. Ids are never reused, since the
    counter only grows. */
module Tables {
  import opened Common

  datatype Row<T> = Row(id: nat, val: T)

  datatype Table<T> = Table(rows: seq<Row<T>>, next: nat)

  /** Ids strictly ascend along the rows. */
  predicate Ascending<T>(rows: seq<Row<T>>) {
    forall i, j :: 0 <= i < j < |rows| ==> rows[i].id < rows[j].id
  }

  /** Every id is below the counter, so the next insert gets a fresh id. */
  predicate Valid<T>(t: Table<T>) {
    && Ascending(t.rows)
    && forall i :: 0 <= i < |t.rows| ==> t.rows[i].id < t.next
  }

  function Ids<T(==)>(rows: seq<Row<T>>): set<nat> {
    set r | r in rows :: r.id
  }

  function Empty<T>(): (t: Table<T>)
    ensures Valid(t) && Ids(t.rows) == {}
  {
    Table([], 1)
  }

  /** `SELECT * FROM t WHERE id=?` */
  function Get<T(==)>(rows: seq<Row<T>>, id: nat): (r: Option<T>)
    ensures r.Some? <==> id in Ids(rows)
    ensures r.Some? ==> Row(id, r.value) in rows
  {
    if rows == [] then None
    else if rows[0].id == id then Some(rows[0].val)
    else
      var rest := Get(rows[1..], id);
      assert Ids(rows) == {rows[0].id} + Ids(rows[1..]) by {
        assert rows == [rows[0]] + rows[1..];
      }
      rest
  }

  /** `INSERT INTO t(...)`: the new row takes the counter's id. */
  function Insert<T>(t: Table<T>, v: T): (r: Table<T>)
    requires Valid(t)
    ensures Valid(r)
    ensures t.next !in Ids(t.rows)
    ensures Ids(r.rows) == Ids(t.rows) + {t.next}
    ensures |r.rows| == |t.rows| + 1
    ensures r.rows[..|t.rows|] == t.rows && r.rows[|t.rows|] == Row(t.next, v)
  {
    Table(t.rows + [Row(t.next, v)], t.next + 1)
  }

  /** `UPDATE t SET ... WHERE id=?`: the row with that id takes the new value. */
  function Put<T>(rows: seq<Row<T>>, id: nat, v: T): (r: seq<Row<T>>)
    ensures |r| == |rows|
    ensures forall k :: 0 <= k < |r| ==> r[k].id == rows[k].id
    ensures forall k :: 0 <= k < |r| ==> r[k].val == if rows[k].id == id then v else rows[k].val
  {
    if rows == [] then []
    else [if rows[0].id == id then Row(id, v) else rows[0]] + Put(rows[1..], id, v)
  }

  /** `DELETE FROM t WHERE id=?` */
  function Delete<T(==)>(rows: seq<Row<T>>, id: nat): (r: seq<Row<T>>)
    ensures forall k :: 0 <= k < |r| ==> r[k] in rows && r[k].id != id
    ensures forall k :: 0 <= k < |rows| && rows[k].id != id ==> rows[k] in r
    ensures Ascending(rows) ==> Ascending(r)
  {
    if rows == [] then []
    else
      var rest := Delete(rows[1..], id);
      if rows[0].id == id then rest
      else
        PrependKeepsAscending(rows, rest);
        [rows[0]] + rest
  }

  /** `SELECT * FROM t ORDER BY id DESC LIMIT n`: the last `n` rows, newest first. */
  function Newest<T>(rows: seq<Row<T>>, n: nat): (r: seq<Row<T>>)
    ensures |r| == if n < |rows| then n else |rows|
    ensures forall k :: 0 <= k < |r| ==> r[k] == rows[|rows| - 1 - k]
  {
    if rows == [] || n == 0 then []
    else [rows[|rows| - 1]] + Newest(rows[..|rows| - 1], n - 1)
  }

  /** The first row, in id order, whose value satisfies `p`. */
  function FirstWhere<T(==)>(rows: seq<Row<T>>, p: T -> bool): (r: Option<Row<T>>)
    ensures r.Some? ==> r.value in rows && p(r.value.val)
    ensures r.Some? ==> exists i :: 0 <= i < |rows| && rows[i] == r.value && forall j :: 0 <= j < i ==> !p(rows[j].val)
    ensures r.None? <==> forall k :: 0 <= k < |rows| ==> !p(rows[k].val)
  {
    if rows == [] then None
    else if p(rows[0].val) then Some(rows[0])
    else FirstWhere(rows[1..], p)
  }

  /** A `DELETE ... WHERE id=?` route on a whole table: the id is gone and
      every other id reads as before. */
  function Remove<T(==)>(t: Table<T>, id: nat): (r: Table<T>)
    requires Valid(t)
    ensures Valid(r) && Ids(r.rows) == Ids(t.rows) - {id} && r.next == t.next
    ensures Get(r.rows, id).None?
    ensures forall other :: other != id ==> Get(r.rows, other) == Get(t.rows, other)
  {
    DeleteKeepsValid(t, id);
    forall other ensures Get(Delete(t.rows, id), other) == if other == id then None else Get(t.rows, other) {
      GetAfterDelete(t.rows, id, other);
    }
    t.(rows := Delete(t.rows, id))
  }

  /** The list pages' `ORDER BY id DESC LIMIT 200`: the newest rows, at most
      200, in strictly descending id order. */
  /** `r` lists rows of `all` newest first: in strictly descending id
      order, position k holding the k-th row from the end, and every row
      of `all` left out older than every row shown. */
  predicate NewestFirst<T(==)>(r: seq<Row<T>>, all: seq<Row<T>>)
  {
    && |r| <= |all|
    && (forall i, j :: 0 <= i < j < |r| ==> r[i].id > r[j].id)
    && (forall k :: 0 <= k < |r| ==> r[k] in all && r[k] == all[|all| - 1 - k])
    && (forall row, k :: row in all && row !in r && 0 <= k < |r| ==> row.id < r[k].id)
  }

  function Latest<T>(t: Table<T>): (r: seq<Row<T>>)
    requires Valid(t)
    ensures |r| == if |t.rows| < 200 then |t.rows| else 200
    ensures NewestFirst(r, t.rows)
  {
    NewestIsNewestFirst(t.rows, 200);
    Newest(t.rows, 200)
  }

  // ---------------------------------------------------------------------
  // Lemmas

  /** Rows taken from the tail of an ascending sequence stay ascending
      behind its head. */
  lemma PrependKeepsAscending<T>(rows: seq<Row<T>>, rest: seq<Row<T>>)
    requires rows != []
    requires forall k :: 0 <= k < |rest| ==> rest[k] in rows[1..]
    ensures Ascending(rows) && Ascending(rest) ==> Ascending([rows[0]] + rest)
  {
    if Ascending(rows) && Ascending(rest) {
      forall j | 0 <= j < |rest| ensures rows[0].id < rest[j].id {
        var k :| 0 <= k < |rows[1..]| && rows[1..][k] == rest[j];
        assert rows[k + 1] == rest[j];
      }
    }
  }

  /** In a valid table an id names at most one row, so `Get` returns that row. */
  lemma GetUnique<T>(rows: seq<Row<T>>, k: nat)
    requires Ascending(rows) && k < |rows|
    ensures Get(rows, rows[k].id) == Some(rows[k].val)
  {
    if k > 0 {
      GetUnique(rows[1..], k - 1);
    }
  }

  /** Reading back after an update sees the new value at that id and the old
      value everywhere else; an update of an absent id changes nothing. */
  lemma {:induction false} GetAfterPut<T>(rows: seq<Row<T>>, id: nat, v: T, other: nat)
    ensures Get(Put(rows, id, v), other)
            == if other == id && id in Ids(rows) then Some(v) else Get(rows, other)
  {
    if rows != [] {
      var r := Put(rows, id, v);
      assert r[1..] == Put(rows[1..], id, v);
      assert Ids(rows) == {rows[0].id} + Ids(rows[1..]) by {
        assert rows == [rows[0]] + rows[1..];
      }
      GetAfterPut(rows[1..], id, v, other);
    }
  }

  lemma {:induction false} PutAbsent<T>(rows: seq<Row<T>>, id: nat, v: T)
    requires id !in Ids(rows)
    ensures Put(rows, id, v) == rows
  {
    if rows != [] {
      assert rows[0] in rows;
      assert Ids(rows[1..]) <= Ids(rows) by {
        forall x | x in Ids(rows[1..]) ensures x in Ids(rows) {
          var row :| row in rows[1..] && row.id == x;
          assert row in rows;
        }
      }
      PutAbsent(rows[1..], id, v);
      assert rows == [rows[0]] + rows[1..];
    }
  }

  /** A second update of the same id overrides the first. */
  lemma {:induction false} PutTwice<T>(rows: seq<Row<T>>, id: nat, v: T, w: T)
    ensures Put(Put(rows, id, v), id, w) == Put(rows, id, w)
  {
    if rows != [] {
      var once := Put(rows, id, v);
      assert once[1..] == Put(rows[1..], id, v);
      PutTwice(rows[1..], id, v, w);
    }
  }

  lemma PutKeepsValid<T>(t: Table<T>, id: nat, v: T)
    requires Valid(t)
    ensures Valid(Table(Put(t.rows, id, v), t.next))
    ensures Ids(Put(t.rows, id, v)) == Ids(t.rows)
  {
    var r := Put(t.rows, id, v);
    forall x | x in Ids(r) ensures x in Ids(t.rows) {
      var k :| 0 <= k < |r| && r[k].id == x;
      assert t.rows[k] in t.rows;
    }
    forall x | x in Ids(t.rows) ensures x in Ids(r) {
      var k :| 0 <= k < |t.rows| && t.rows[k].id == x;
      assert r[k] in r;
    }
  }

  /** After a delete the id is gone and every other id reads as before. */
  lemma GetAfterDelete<T>(rows: seq<Row<T>>, id: nat, other: nat)
    requires Ascending(rows)
    ensures Get(Delete(rows, id), other) == if other == id then None else Get(rows, other)
  {
    var r := Delete(rows, id);
    if other != id {
      match Get(rows, other)
      case None =>
      case Some(v) =>
        var k :| 0 <= k < |rows| && rows[k] == Row(other, v);
        assert Row(other, v) in r;
        var j :| 0 <= j < |r| && r[j] == Row(other, v);
        GetUnique(r, j);
    }
  }

  lemma DeleteKeepsValid<T>(t: Table<T>, id: nat)
    requires Valid(t)
    ensures Valid(Table(Delete(t.rows, id), t.next))
    ensures Ids(Delete(t.rows, id)) == Ids(t.rows) - {id}
  {
    var r := Delete(t.rows, id);
    forall k | 0 <= k < |r| ensures r[k].id < t.next {
      assert r[k] in t.rows;
    }
  }

  /** After an insert the new id reads as the inserted value and every
      earlier id reads as before. */
  lemma GetAfterInsert<T>(t: Table<T>, v: T, other: nat)
    requires Valid(t)
    ensures Get(Insert(t, v).rows, other) == if other == t.next then Some(v) else Get(t.rows, other)
  {
    var r := Insert(t, v).rows;
    GetUnique(r, |t.rows|);
    if other != t.next {
      match Get(t.rows, other)
      case None =>
        assert other !in Ids(r);
      case Some(w) =>
        var k :| 0 <= k < |t.rows| && t.rows[k] == Row(other, w);
        assert r[k] == t.rows[k];
        GetUnique(r, k);
    }
  }

  /** The newest-first listing of a valid table runs in strictly descending
      id order, and every row it leaves out is older than every row it shows. */
  lemma NewestIsNewestFirst<T>(rows: seq<Row<T>>, n: nat)
    requires Ascending(rows)
    ensures forall i, j :: 0 <= i < j < |Newest(rows, n)| ==> Newest(rows, n)[i].id > Newest(rows, n)[j].id
    ensures forall row, k :: row in rows && row !in Newest(rows, n) && 0 <= k < |Newest(rows, n)| ==>
              row.id < Newest(rows, n)[k].id
  {
    var r := Newest(rows, n);
    assert forall i :: |rows| - |r| <= i < |rows| ==> rows[i] == r[|rows| - 1 - i];
    forall row, k | row in rows && row !in r && 0 <= k < |r| ensures row.id < r[k].id {
      var i :| 0 <= i < |rows| && rows[i] == row;
    }
  }
}
