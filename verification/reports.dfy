/** `GET /reports/sales`: the WHERE clause built from the optional query
    filters, the date ordering of the selected payments, and the running
    net / VAT / total aggregate over them. */
module Reports {
  import opened Common
  import opened Numbers
  import opened Tables
  import opened Payments

  /** The query string. A day bound is `None` when absent or empty; the
      method and user filters are raw texts, where 'all' means "any". */
  datatype Query = Query(from: Option<Day>, to: Option<Day>, payMethod: Option<string>, userId: Option<string>)

  /** One `AND` term of the generated WHERE clause, with its bound parameter. */
  datatype Cond =
    | DayFrom(day: Day)      // date(date) >= date(?)
    | DayTo(day: Day)        // date(date) <= date(?)
    | MethodIs(text: string) // method = ?
    | UserIs(text: string)   // user_id = ?

  /** A method or user filter constrains only when non-empty and not 'all'. */
  predicate Active(f: Option<string>) {
    Truthy(f) && f.value != "all"
  }

  /** The clause built term by term, starting from `1=1`, in the handler's
      order: from, to, method, user. */
  function BuildWhere(q: Query): seq<Cond> {
    var w0: seq<Cond> := [];
    var w1 := if q.from.Some? then w0 + [DayFrom(q.from.value)] else w0;
    var w2 := if q.to.Some? then w1 + [DayTo(q.to.value)] else w1;
    var w3 := if Active(q.payMethod) then w2 + [MethodIs(q.payMethod.value)] else w2;
    if Active(q.userId) then w3 + [UserIs(q.userId.value)] else w3
  }

  /** SQL's reading of one term. A NULL method equals nothing. The INTEGER
      column `user_id` compared with a text parameter sees that text as a
      number when it reads as one, and otherwise never equals it. */
  predicate Holds(c: Cond, p: Payment) {
    match c
    case DayFrom(d) => p.date >= d
    case DayTo(d) => p.date <= d
    case MethodIs(m) => p.payMethod == Some(m)
    case UserIs(u) => ParseDecimal(u) == Some(p.userId as real)
  }

  predicate HoldsAll(w: seq<Cond>, p: Payment) {
    forall i :: 0 <= i < |w| ==> Holds(w[i], p)
  }

  /** What the report promises, stated filter by filter: inclusive day
      bounds, and a method or user constraint only when one is active. */
  predicate Matches(q: Query, p: Payment) {
    && (q.from.Some? ==> q.from.value <= p.date)
    && (q.to.Some? ==> p.date <= q.to.value)
    && (Active(q.payMethod) ==> p.payMethod == q.payMethod)
    && (Active(q.userId) ==> ParseDecimal(q.userId.value) == Some(p.userId as real))
  }

  /** `SELECT * FROM payments WHERE ...`, scanning in id order. */
  function Select(rows: seq<Row<Payment>>, q: Query): (r: seq<Row<Payment>>)
    ensures forall k :: 0 <= k < |r| ==> r[k] in rows && Matches(q, r[k].val)
    ensures forall k :: 0 <= k < |rows| && Matches(q, rows[k].val) ==> rows[k] in r
    ensures multiset(r) <= multiset(rows)
  {
    if rows == [] then []
    else
      var rest := Select(rows[1..], q);
      WhereMeansMatches(q, rows[0].val);
      if HoldsAll(BuildWhere(q), rows[0].val) then
        KeepStep(rows, q, rest);
        [rows[0]] + rest
      else
        SkipStep(rows, q, rest);
        rest
  }

  /** `r` is a selection of `rows` under `q`: only matching rows of `rows`,
      every matching row, none more often than stored. */
  predicate SelectionOf(r: seq<Row<Payment>>, rows: seq<Row<Payment>>, q: Query) {
    && (forall k :: 0 <= k < |r| ==> r[k] in rows && Matches(q, r[k].val))
    && (forall k :: 0 <= k < |rows| && Matches(q, rows[k].val) ==> rows[k] in r)
    && multiset(r) <= multiset(rows)
  }

  /** One step of the scan over a matching first row. */
  lemma KeepStep(rows: seq<Row<Payment>>, q: Query, rest: seq<Row<Payment>>)
    requires rows != [] && Matches(q, rows[0].val)
    requires SelectionOf(rest, rows[1..], q)
    ensures SelectionOf([rows[0]] + rest, rows, q)
  {
    var r := [rows[0]] + rest;
    assert rows == [rows[0]] + rows[1..];
    assert multiset(rows) == multiset{rows[0]} + multiset(rows[1..]);
    assert multiset(r) == multiset{rows[0]} + multiset(rest);
    forall k | 0 <= k < |rows| && Matches(q, rows[k].val) ensures rows[k] in r {
      if k > 0 {
        assert rows[k] == rows[1..][k - 1];
      }
    }
    forall k | 0 <= k < |r| ensures r[k] in rows && Matches(q, r[k].val) {
      if k > 0 {
        assert r[k] == rest[k - 1];
      }
    }
  }

  /** One step of the scan over a first row that does not match. */
  lemma SkipStep(rows: seq<Row<Payment>>, q: Query, rest: seq<Row<Payment>>)
    requires rows != [] && !Matches(q, rows[0].val)
    requires SelectionOf(rest, rows[1..], q)
    ensures SelectionOf(rest, rows, q)
  {
    assert rows == [rows[0]] + rows[1..];
    assert multiset(rows) == multiset{rows[0]} + multiset(rows[1..]);
    forall k | 0 <= k < |rows| && Matches(q, rows[k].val) ensures rows[k] in rest {
      assert k > 0;
      assert rows[k] == rows[1..][k - 1];
    }
  }

  predicate SortedByDate(rows: seq<Row<Payment>>) {
    forall i, j :: 0 <= i < j < |rows| ==> rows[i].val.date <= rows[j].val.date
  }

  /** Places `x` after every row of `s` dated no later than it. */
  function InsertByDate(x: Row<Payment>, s: seq<Row<Payment>>): (r: seq<Row<Payment>>)
    requires SortedByDate(s)
    ensures SortedByDate(r)
    ensures multiset(r) == multiset(s) + multiset{x}
    ensures |r| == |s| + 1 && (r[0] == x || (s != [] && r[0] == s[0]))
  {
    if s == [] then [x]
    else if x.val.date < s[0].val.date then
      PrependSorted(x, s);
      [x] + s
    else
      var rest := InsertByDate(x, s[1..]);
      InsertStep(x, s, rest);
      [s[0]] + rest
  }

  /** The step of `InsertByDate` past a first row dated no later than `x`. */
  lemma InsertStep(x: Row<Payment>, s: seq<Row<Payment>>, rest: seq<Row<Payment>>)
    requires SortedByDate(s) && s != [] && s[0].val.date <= x.val.date
    requires SortedByDate(rest) && multiset(rest) == multiset(s[1..]) + multiset{x}
    requires |rest| == |s| && (rest[0] == x || (|s| > 1 && rest[0] == s[1]))
    ensures SortedByDate([s[0]] + rest)
    ensures multiset([s[0]] + rest) == multiset(s) + multiset{x}
  {
    assert s == [s[0]] + s[1..];
    PrependSorted(s[0], rest);
    assert multiset([s[0]] + rest) == multiset{s[0]} + multiset(rest);
  }

  /** A row dated no later than the first of a date-ordered sequence can go
      in front of it. */
  lemma PrependSorted(a: Row<Payment>, rest: seq<Row<Payment>>)
    requires SortedByDate(rest)
    requires rest != [] ==> a.val.date <= rest[0].val.date
    ensures SortedByDate([a] + rest)
  {
    var r := [a] + rest;
    forall i, j | 0 <= i < j < |r| ensures r[i].val.date <= r[j].val.date {
      if i == 0 {
        assert r[j] == rest[j - 1];
      } else {
        assert r[i] == rest[i - 1] && r[j] == rest[j - 1];
      }
    }
  }

  /** `ORDER BY date ASC`, as a stable insertion sort. SQLite leaves the
      order of equal dates open; the contract fixes only what it promises. */
  function SortByDate(rows: seq<Row<Payment>>): (r: seq<Row<Payment>>)
    ensures SortedByDate(r)
    ensures multiset(r) == multiset(rows)
  {
    if rows == [] then []
    else
      var init := rows[..|rows| - 1];
      assert rows == init + [rows[|rows| - 1]];
      InsertByDate(rows[|rows| - 1], SortByDate(init))
  }

  datatype Totals = Totals(net: real, vat: real, total: real)

  /** One step of the `reduce`: a NULL amount adds 0. */
  function AddRow(a: Totals, p: Payment): Totals {
    Totals(a.net + p.net.GetOr(0.0), a.vat + p.vat.GetOr(0.0), a.total + p.total.GetOr(0.0))
  }

  /** `rows.reduce(..., {net:0, vat:0, total:0})`: a left fold from `acc`. */
  function Aggregate(rows: seq<Row<Payment>>, acc: Totals): Totals {
    if rows == [] then acc else Aggregate(rows[1..], AddRow(acc, rows[0].val))
  }

  datatype Column = NetColumn | VatColumn | TotalColumn

  function Amount(p: Payment, c: Column): real {
    match c
    case NetColumn => p.net.GetOr(0.0)
    case VatColumn => p.vat.GetOr(0.0)
    case TotalColumn => p.total.GetOr(0.0)
  }

  /** The plain sum of one column, missing values counting as 0. */
  function Sum(rows: seq<Row<Payment>>, c: Column): real {
    if rows == [] then 0.0 else Amount(rows[0].val, c) + Sum(rows[1..], c)
  }

  function Zero(): Totals {
    Totals(0.0, 0.0, 0.0)
  }

  datatype Report = Report(rows: seq<Row<Payment>>, agg: Totals)

  /** The whole handler: select, order, then fold. The returned rows are
      exactly the matching payments, each once, by ascending date, and each
      aggregate is that column's sum over them (equally, over the matching
      rows in id order, since a sum ignores order). */
  function SalesReport(t: Table<Payment>, q: Query): (r: Report)
    ensures forall row :: row in r.rows <==> row in t.rows && Matches(q, row.val)
    ensures SortedByDate(r.rows)
    ensures multiset(r.rows) == multiset(Select(t.rows, q))
    ensures r.agg == Totals(Sum(r.rows, NetColumn), Sum(r.rows, VatColumn), Sum(r.rows, TotalColumn))
    ensures r.agg == Totals(Sum(Select(t.rows, q), NetColumn), Sum(Select(t.rows, q), VatColumn),
                            Sum(Select(t.rows, q), TotalColumn))
  {
    var selected := Select(t.rows, q);
    var sorted := SortByDate(selected);
    forall row ensures row in sorted <==> row in t.rows && Matches(q, row.val) {
      assert row in sorted <==> row in multiset(selected);
      if row in t.rows && Matches(q, row.val) {
        var k :| 0 <= k < |t.rows| && t.rows[k] == row;
      }
    }
    AggregateIsSum(sorted, Zero());
    SumPermutation(sorted, selected, NetColumn);
    SumPermutation(sorted, selected, VatColumn);
    SumPermutation(sorted, selected, TotalColumn);
    Report(sorted, Aggregate(sorted, Zero()))
  }

  // ---------------------------------------------------------------------
  // Lemmas

  /** The clause has one term per supplied filter and no other: a lower
      day bound exactly for a `from`, an upper one exactly for a `to`, and a
      method or user term exactly when that filter is neither empty nor
      'all'. */
  lemma BuildWhereTerms(q: Query)
    ensures forall d :: DayFrom(d) in BuildWhere(q) <==> q.from == Some(d)
    ensures forall d :: DayTo(d) in BuildWhere(q) <==> q.to == Some(d)
    ensures forall m :: MethodIs(m) in BuildWhere(q) <==> Active(q.payMethod) && q.payMethod == Some(m)
    ensures forall u :: UserIs(u) in BuildWhere(q) <==> Active(q.userId) && q.userId == Some(u)
  {
  }

  /** The generated clause holds of a payment exactly when the payment
      satisfies every supplied filter. */
  lemma WhereMeansMatches(q: Query, p: Payment)
    ensures HoldsAll(BuildWhere(q), p) <==> Matches(q, p)
  {
    var w := BuildWhere(q);
    if q.from.Some? {
      assert DayFrom(q.from.value) in w;
    }
    if q.to.Some? {
      assert DayTo(q.to.value) in w;
    }
    if Active(q.payMethod) {
      assert MethodIs(q.payMethod.value) in w;
    }
    if Active(q.userId) {
      assert UserIs(q.userId.value) in w;
    }
  }

  /** The fold is the column sums, added to the starting totals. */
  lemma {:induction false} AggregateIsSum(rows: seq<Row<Payment>>, acc: Totals)
    ensures Aggregate(rows, acc)
            == Totals(acc.net + Sum(rows, NetColumn), acc.vat + Sum(rows, VatColumn),
                      acc.total + Sum(rows, TotalColumn))
  {
    if rows != [] {
      AggregateIsSum(rows[1..], AddRow(acc, rows[0].val));
    }
  }

  /** Removing one row from a sum leaves the rest of the sum. */
  lemma {:induction false} SumRemove(rows: seq<Row<Payment>>, i: nat, c: Column)
    requires i < |rows|
    ensures Sum(rows, c) == Amount(rows[i].val, c) + Sum(rows[..i] + rows[i + 1..], c)
  {
    if i == 0 {
      assert rows[..0] + rows[1..] == rows[1..];
    } else {
      var tail := rows[1..];
      SumRemove(tail, i - 1, c);
      assert rows[..i] + rows[i + 1..] == [rows[0]] + (tail[..i - 1] + tail[i..]);
    }
  }

  /** A column sum does not depend on the order of the rows. */
  lemma {:induction false} SumPermutation(a: seq<Row<Payment>>, b: seq<Row<Payment>>, c: Column)
    requires multiset(a) == multiset(b)
    ensures Sum(a, c) == Sum(b, c)
  {
    if a == [] {
      assert |b| == |multiset(b)| == 0;
    } else {
      var x := a[0];
      assert x in multiset(b);
      var i :| 0 <= i < |b| && b[i] == x;
      var rest := b[..i] + b[i + 1..];
      SameWithoutFirst(a, b, i);
      SumRemove(b, i, c);
      SumPermutation(a[1..], rest, c);
      assert Sum(a, c) == Amount(x.val, c) + Sum(a[1..], c);
    }
  }

  /** Taking the first row out of one sequence and the same row out of its
      permutation leaves permutations. */
  lemma SameWithoutFirst<T>(a: seq<T>, b: seq<T>, i: nat)
    requires multiset(a) == multiset(b) && a != [] && i < |b| && b[i] == a[0]
    ensures multiset(b[..i] + b[i + 1..]) == multiset(a[1..])
  {
    RemoveOne(a, 0);
    RemoveOne(b, i);
    assert a[..0] + a[1..] == a[1..];
  }

  lemma RemoveOne<T>(s: seq<T>, i: nat)
    requires i < |s|
    ensures multiset(s[..i] + s[i + 1..]) == multiset(s) - multiset{s[i]}
  {
    assert s == s[..i] + [s[i]] + s[i + 1..];
  }

  /** A user filter written as `String(id)` selects exactly that user's payments. */
  lemma UserFilterSelectsUser(t: Table<Payment>, q: Query, uid: nat)
    requires q == Query(None, None, None, Some(NatText(uid)))
    ensures forall row :: row in SalesReport(t, q).rows <==> row in t.rows && row.val.userId == uid
  {
    ParseNatText(uid);
    assert Active(q.userId) by {
      assert NatText(uid)[0] != 'a';
    }
  }

  /** The filter 'all' constrains exactly as much as no filter at all. */
  lemma AllIsNoFilter(q: Query, p: Payment)
    ensures Matches(q.(payMethod := Some("all")), p) == Matches(q.(payMethod := None), p)
    ensures Matches(q.(userId := Some("all")), p) == Matches(q.(userId := None), p)
  {
  }

  /** With no filters the report holds every payment. */
  lemma EmptyQueryReportsAll(t: Table<Payment>)
    ensures forall row :: row in SalesReport(t, Query(None, None, None, None)).rows <==> row in t.rows
  {
  }
}
