/** The `payments` table, `POST /payments` with its VAT and total
    derivation, and the `GET /payments` listing. Amounts are exact: a
    JavaScript number is `Option<real>` with `None` for NaN, and a REAL
    column holds `None` for NULL, which is what SQLite stores for NaN. */
module Payments {
  import opened Common
  import opened Numbers
  import opened Tables
  import opened Users

  /** A calendar day, as SQLite's `date(...)` normalises a date text. */
  type Day = int

  datatype Payment = Payment(
    date: Day,
    payMethod: Option<string>,
    net: Option<real>,
    rate: Option<real>,
    vat: Option<real>,
    total: Option<real>,
    note: Option<string>,
    userId: nat,
    contractType: Option<string>,
    contractId: Option<string>)

  /** The body of `POST /payments`; `date` is `None` when left blank. */
  datatype PaymentForm = PaymentForm(
    date: Option<Day>,
    payMethod: Option<string>,
    amountNet: Option<string>,
    vatRate: Option<string>,
    note: Option<string>,
    contractType: Option<string>,
    contractId: Option<string>)

  /** `Number(vat_rate || res.locals.vat_rate || 5)`: the form's rate when
      non-empty, else the configured rate unless it is 0 or NaN (both falsy),
      else 5. */
  function EffectiveRate(field: Option<string>, configured: Option<real>): (r: Option<real>)
    ensures Truthy(field) ==> r == JsNumber(field.value)
    ensures !Truthy(field) && configured.Some? && configured.value != 0.0 ==> r == configured
    ensures !Truthy(field) && (configured.None? || configured.value == 0.0) ==> r == Some(5.0)
  {
    if Truthy(field) then JsNumber(field.value)
    else if configured.Some? && configured.value != 0.0 then configured
    else Some(5.0)
  }

  /** `net * rate / 100`, NaN when either operand is. */
  function Percent(net: Option<real>, rate: Option<real>): Option<real> {
    if net.Some? && rate.Some? then Some(net.value * rate.value / 100.0) else None
  }

  function Plus(a: Option<real>, b: Option<real>): Option<real> {
    if a.Some? && b.Some? then Some(a.value + b.value) else None
  }

  /** The two derived columns of a payment. */
  datatype Derived = Derived(vat: Option<real>, total: Option<real>)

  /** VAT is `+(net*rate/100).toFixed(2)` and the total
      `+(net+vat).toFixed(2)`, each written as `RoundCents`; `DeriveIsFixed2`
      shows this is exactly that render-and-reparse. Both land on
      whole cents; the VAT is within half a cent of `net * rate / 100` and the
      total within half a cent of net plus VAT, and exactly that sum when the
      net amount is itself in whole cents. */
  function Derive(net: Option<real>, rate: Option<real>): (d: Derived)
    ensures net.None? || rate.None? ==> d.vat.None? && d.total.None?
    ensures net.Some? && rate.Some? ==>
              && d.vat.Some? && d.total.Some?
              && IsCents(d.vat.value) && IsCents(d.total.value)
              && -0.005 <= d.vat.value - net.value * rate.value / 100.0 <= 0.005
              && -0.005 <= d.total.value - (net.value + d.vat.value) <= 0.005
  {
    var vat := RoundCents(Percent(net, rate));
    if net.Some? && rate.Some? then
      DerivedAmounts(net.value, rate.value);
      Derived(vat, RoundCents(Plus(net, vat)))
    else
      Derived(vat, RoundCents(Plus(net, vat)))
  }

  /** The row `POST /payments` inserts for user `userId`, with `configured`
      the rate the settings give and `today` the day `new Date()` falls on. */
  function NewPayment(f: PaymentForm, configured: Option<real>, userId: nat, today: Day): (p: Payment)
    ensures p.net == NumberOrZero(f.amountNet)
    ensures p.rate == EffectiveRate(f.vatRate, configured)
    ensures Derived(p.vat, p.total) == Derive(p.net, p.rate)
    ensures p.date == f.date.GetOr(today) && p.userId == userId
    ensures p.payMethod == f.payMethod && p.note == f.note
    ensures p.contractType == OrNull(f.contractType) && p.contractId == OrNull(f.contractId)
  {
    var net := NumberOrZero(f.amountNet);
    var rate := EffectiveRate(f.vatRate, configured);
    var d := Derive(net, rate);
    Payment(f.date.GetOr(today), f.payMethod, net, rate, d.vat, d.total, f.note, userId,
            OrNull(f.contractType), OrNull(f.contractId))
  }

  /** `POST /payments`: append the derived row. */
  function CreatePayment(t: Table<Payment>, f: PaymentForm, configured: Option<real>, userId: nat, today: Day): (r: Table<Payment>)
    requires Valid(t)
    ensures Valid(r)
    ensures Get(r.rows, t.next) == Some(NewPayment(f, configured, userId, today))
    ensures forall other :: other != t.next ==> Get(r.rows, other) == Get(t.rows, other)
  {
    var p := NewPayment(f, configured, userId, today);
    forall other ensures Get(Insert(t, p).rows, other) == if other == t.next then Some(p) else Get(t.rows, other) {
      GetAfterInsert(t, p, other);
    }
    Insert(t, p)
  }

  /** One line of the payments list: the row and its creator's name. */
  datatype Listed = Listed(row: Row<Payment>, userName: Option<string>)

  /** `(SELECT name FROM users u WHERE u.id = p.user_id)`: NULL when the
      user is gone or has no name. */
  function CreatorName(users: seq<Row<User>>, userId: nat): (n: Option<string>)
    ensures Get(users, userId).None? ==> n.None?
    ensures Get(users, userId).Some? ==> n == Get(users, userId).value.name
  {
    match Get(users, userId)
    case None => None
    case Some(u) => u.name
  }

  function WithNames(rows: seq<Row<Payment>>, users: seq<Row<User>>): (r: seq<Listed>)
    ensures |r| == |rows|
    ensures forall k :: 0 <= k < |r| ==> r[k] == Listed(rows[k], CreatorName(users, rows[k].val.userId))
    ensures ListedRows(r) == rows
  {
    var r := seq(|rows|, k requires 0 <= k < |rows| => Listed(rows[k], CreatorName(users, rows[k].val.userId)));
    assert ListedRows(r) == rows;
    r
  }

  /** `GET /payments`: the 200 most recent payments, newest first, each with
      its creator's name. */
  function ListPayments(t: Table<Payment>, users: Table<User>): (r: seq<Listed>)
    requires Valid(t)
    ensures |r| == if |t.rows| < 200 then |t.rows| else 200
    ensures NewestFirst(ListedRows(r), t.rows)
    ensures forall k :: 0 <= k < |r| ==> r[k].userName == CreatorName(users.rows, r[k].row.val.userId)
  {
    WithNames(Latest(t), users.rows)
  }

  /** The payment rows of a listing, in its order. */
  function ListedRows(r: seq<Listed>): (rows: seq<Row<Payment>>)
    ensures |rows| == |r| && forall k :: 0 <= k < |r| ==> rows[k] == r[k].row
  {
    seq(|r|, k requires 0 <= k < |r| => r[k].row)
  }

  // ---------------------------------------------------------------------
  // Lemmas

  /** `Derive` is the handler's literal computation: `toFixed(2)` and the
      unary plus applied to the product, then to the sum. */
  lemma DeriveIsFixed2(net: Option<real>, rate: Option<real>)
    ensures Derive(net, rate).vat == Fixed2(Percent(net, rate))
    ensures Derive(net, rate).total == Fixed2(Plus(net, Fixed2(Percent(net, rate))))
  {
    Fixed2Rounds(Percent(net, rate));
    Fixed2Rounds(Plus(net, Fixed2(Percent(net, rate))));
  }

  /** The whole-cent facts behind `Derive`, on plain numbers; for a net
      amount in whole cents the total is exactly net plus VAT. */
  lemma DerivedAmounts(net: real, rate: real)
    ensures var vat := Round2(net * rate / 100.0);
            var total := Round2(net + vat);
            && IsCents(vat) && IsCents(total)
            && -0.005 <= vat - net * rate / 100.0 <= 0.005
            && -0.005 <= total - (net + vat) <= 0.005
            && (IsCents(net) ==> total == net + vat)
  {
    var vat := Round2(net * rate / 100.0);
    Round2Spec(net * rate / 100.0);
    Round2Spec(net + vat);
    if IsCents(net) {
      CentsSum(net, vat);
      Round2OfCents(net + vat);
    }
  }

  /** A net amount of zero owes nothing at any rate. */
  lemma DeriveOfZero(rate: real)
    ensures Derive(Some(0.0), Some(rate)) == Derived(Some(0.0), Some(0.0))
  {
    assert 0.0 * rate / 100.0 == 0.0;
    WholeIsCents(0);
    Round2OfCents(0.0);
  }

  /** 5% of 100 is 5.00, for a total of 105.00. */
  lemma DeriveOfHundredAtFive()
    ensures Derive(Some(100.0), Some(5.0)) == Derived(Some(5.0), Some(105.0))
  {
    WholeIsCents(5);
    Round2OfCents(5.0);
    WholeIsCents(105);
    Round2OfCents(105.0);
  }

  /** A blank net amount is 0, so both VAT and total are 0. */
  lemma BlankNetIsZero(f: PaymentForm, configured: Option<real>, userId: nat, today: Day)
    requires !Truthy(f.amountNet)
    ensures var p := NewPayment(f, configured, userId, today);
            p.net == Some(0.0) && (p.rate.Some? ==> p.vat == Some(0.0) && p.total == Some(0.0))
  {
    var p := NewPayment(f, configured, userId, today);
    if p.rate.Some? {
      DeriveOfZero(p.rate.value);
    }
  }

  /** A net of 100 at 5% gives VAT 5.00 and total 105.00. */
  lemma HundredAtFivePercent(f: PaymentForm, configured: Option<real>, userId: nat, today: Day)
    requires f.amountNet == Some("100") && f.vatRate == Some("5")
    ensures var p := NewPayment(f, configured, userId, today);
            p.vat == Some(5.0) && p.total == Some(105.0)
  {
    ReadsHundred();
    ReadsFive();
    var p := NewPayment(f, configured, userId, today);
    assert p.net == Some(100.0) && p.rate == Some(5.0);
    DeriveOfHundredAtFive();
  }

  lemma ReadsHundred()
    ensures JsNumber("100") == Some(100.0)
  {
    assert NatText(100) == "100" by {
      assert NatText(10) == "10";
    }
    ParseNatText(100);
  }

  lemma ReadsFive()
    ensures JsNumber("5") == Some(5.0)
  {
    assert NatText(5) == "5";
    ParseNatText(5);
  }
}
