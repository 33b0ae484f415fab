/** The numeric conversions the handlers perform on form text, in exact
    arithmetic: JavaScript's `Number(text)`, the `+(x).toFixed(2)` idiom that
    rounds an amount to two decimals, and the rendering of a whole number.
    A JavaScript number is an `Option<real>` whose `None` is NaN; no binary
    floating point is modelled. */
module Numbers {
  import opened Common

  predicate IsDigit(c: char) {
    '0' <= c <= '9'
  }

  predicate AllDigits(s: string) {
    forall i :: 0 <= i < |s| ==> IsDigit(s[i])
  }

  function DigitValue(c: char): (d: nat)
    requires IsDigit(c)
    ensures d < 10
  {
    (c as int) - ('0' as int)
  }

  function DigitChar(d: nat): (c: char)
    requires d < 10
    ensures IsDigit(c) && DigitValue(c) == d
  {
    (('0' as int) + d) as char
  }

  function Pow10(k: nat): (p: nat)
    ensures p >= 1
  {
    if k == 0 then 1 else 10 * Pow10(k - 1)
  }

  /** The value of a digit string, most significant digit first. */
  function DigitsValue(s: string): (n: nat)
    requires AllDigits(s)
    ensures n < Pow10(|s|)
  {
    if s == [] then 0 else DigitsValue(s[..|s| - 1]) * 10 + DigitValue(s[|s| - 1])
  }

  /** Position of the first occurrence of `c` in `s`. */
  function IndexOf(s: string, c: char): (r: Option<nat>)
    ensures r.Some? ==> r.value < |s| && s[r.value] == c && c !in s[..r.value]
    ensures r.None? ==> c !in s
  {
    if s == [] then None
    else if s[0] == c then Some(0)
    else match IndexOf(s[1..], c)
      case None => None
      case Some(i) => Some(i + 1)
  }

  /** A plain decimal literal: an optional sign, digits, an optional point
      followed by more digits, and at least one digit in all. Anything else
      is not a number (`None`). */
  function ParseDecimal(s: string): (r: Option<real>)
    ensures s != [] && AllDigits(s) ==> r == Some(DigitsValue(s) as real)
    ensures s == [] ==> r.None?
  {
    if s == [] then None
    else if s[0] == '-' then
      match ParseUnsigned(s[1..])
      case None => None
      case Some(v) => Some(-v)
    else if s[0] == '+' then ParseUnsigned(s[1..])
    else ParseUnsigned(s)
  }

  /** Digits, an optional point and more digits, at least one digit in all. */
  function ParseUnsigned(body: string): (r: Option<real>)
    ensures AllDigits(body) && body != [] ==> r == Some(DigitsValue(body) as real)
  {
    var dot := IndexOf(body, '.');
    var whole := if dot.Some? then body[..dot.value] else body;
    var frac := if dot.Some? then body[dot.value + 1..] else "";
    if AllDigits(whole) && AllDigits(frac) && |whole| + |frac| > 0 then
      Some(PointValue(whole, frac))
    else
      None
  }

  /** The value of `whole.frac`. */
  function PointValue(whole: string, frac: string): (v: real)
    requires AllDigits(whole) && AllDigits(frac)
    ensures frac == [] ==> v == DigitsValue(whole) as real
  {
    DigitsValue(whole) as real + DigitsValue(frac) as real / Pow10(|frac|) as real
  }

  /** The ASCII white space `Number` ignores around its argument: space,
      tab, line feed, vertical tab, form feed and carriage return. */
  predicate IsSpace(c: char) {
    c == ' ' || c == '\t' || c == '\n' || c == '\U{000B}' || c == '\U{000C}' || c == '\r'
  }

  function TrimStart(s: string): (t: string)
    ensures |t| <= |s| && t == s[|s| - |t|..]
    ensures t != [] ==> !IsSpace(t[0])
  {
    if s != [] && IsSpace(s[0]) then TrimStart(s[1..]) else s
  }

  function TrimEnd(s: string): (t: string)
    ensures |t| <= |s| && t == s[..|t|]
    ensures t != [] ==> !IsSpace(t[|t| - 1])
  {
    if s != [] && IsSpace(s[|s| - 1]) then TrimEnd(s[..|s| - 1]) else s
  }

  function Trim(s: string): string {
    TrimEnd(TrimStart(s))
  }

  /** `Number(s)` for a string: surrounding white space is ignored, an empty
      or all-blank string is 0, and otherwise the text must be a decimal
      literal. */
  function JsNumber(s: string): (r: Option<real>)
    ensures Trim(s) == "" ==> r == Some(0.0)
    ensures Trim(s) != "" ==> r == ParseDecimal(Trim(s))
  {
    var t := Trim(s);
    if t == "" then Some(0.0) else ParseDecimal(t)
  }

  /** `Number(field || 0)`: a missing or empty field counts as 0. */
  function NumberOrZero(f: Option<string>): (r: Option<real>)
    ensures !Truthy(f) ==> r == Some(0.0)
    ensures Truthy(f) ==> r == JsNumber(f.value)
  {
    if Truthy(f) then JsNumber(f.value) else Some(0.0)
  }

  /** A whole number of cents. */
  ghost predicate IsCents(x: real) {
    exists k: int :: x == Cents(k)
  }

  /** The cents count `toFixed(2)` picks for a non-negative amount: the
      nearest whole number of cents, the larger one on a tie. */
  function NearestCents(x: real): nat
    requires x >= 0.0
  {
    (x * 100.0 + 0.5).Floor
  }

  /** Rounding to two decimals as `toFixed(2)` does on an exact value: to the
      nearest cent, with ties away from zero. */
  function Round2(x: real): real {
    if x >= 0.0 then Cents(NearestCents(x)) else Cents(-(NearestCents(-x) as int))
  }

  /** `Round2` lifted to a possibly-NaN number. */
  function RoundCents(x: Option<real>): (r: Option<real>)
    ensures r.Some? <==> x.Some?
  {
    match x
    case None => None
    case Some(v) => Some(Round2(v))
  }

  /** The amount `n` cents. */
  function Cents(n: int): real {
    n as real / 100.0
  }

  /** `Round2` lands on whole cents, at most half a cent away, and breaks
      ties away from zero; these three facts determine it. */
  lemma Round2Spec(x: real)
    ensures IsCents(Round2(x))
    ensures -0.005 <= Round2(x) - x <= 0.005
    ensures x >= 0.0 ==> Round2(x) - x > -0.005
    ensures x < 0.0 ==> Round2(x) - x < 0.005
  {
    if x >= 0.0 {
      CentsOfCount(NearestCents(x));
    } else {
      CentsOfCount(-(NearestCents(-x) as int));
    }
  }

  lemma CentsOfCount(n: int)
    ensures IsCents(Cents(n))
  {
  }

  lemma WholeIsCents(n: int)
    ensures IsCents(n as real)
  {
    assert n as real == Cents(100 * n);
  }

  /** Decimal rendering of a whole number, as `String(n)` prints it. */
  function NatText(n: nat): (s: string)
    ensures s != [] && AllDigits(s)
  {
    if n < 10 then [DigitChar(n)] else NatText(n / 10) + [DigitChar(n % 10)]
  }

  /** `x.toFixed(2)`: a sign for negative amounts, the whole part, a point
      and exactly two decimals of the amount's nearest cents. */
  function ToFixed2(x: real): (s: string)
  {
    if x >= 0.0 then CentsText(NearestCents(x)) else "-" + CentsText(NearestCents(-x))
  }

  /** A count of cents written as units, a point and two decimals. */
  function CentsText(m: nat): (s: string)
    ensures s != [] && IsDigit(s[0]) && IsDigit(s[|s| - 1])
  {
    NatText(m / 100) + "." + [DigitChar(m % 100 / 10), DigitChar(m % 10)]
  }

  /** `+(x).toFixed(2)`: render with two decimals, then read the text back. */
  function Fixed2(x: Option<real>): Option<real> {
    match x
    case None => None
    case Some(v) => JsNumber(ToFixed2(v))
  }

  // ---------------------------------------------------------------------
  // Lemmas

  lemma {:induction false} DigitsValueOfNatText(n: nat)
    ensures DigitsValue(NatText(n)) == n
  {
    if n >= 10 {
      var a := NatText(n / 10);
      var s := NatText(n);
      assert s == a + [DigitChar(n % 10)];
      assert s[..|s| - 1] == a;
      DigitsValueOfNatText(n / 10);
    }
  }

  /** Reading back `String(n)` yields `n`. */
  lemma ParseNatText(n: nat)
    ensures ParseDecimal(NatText(n)) == Some(n as real)
    ensures JsNumber(NatText(n)) == Some(n as real)
  {
    DigitsValueOfNatText(n);
    TrimOfUnpadded(NatText(n));
  }

  predicate AllSpace(s: string) {
    forall i :: 0 <= i < |s| ==> IsSpace(s[i])
  }

  lemma {:induction false} TrimStartSkipsSpace(pre: string, x: string)
    requires AllSpace(pre)
    ensures TrimStart(pre + x) == TrimStart(x)
  {
    if pre != [] {
      assert (pre + x)[0] == pre[0];
      assert (pre + x)[1..] == pre[1..] + x;
      TrimStartSkipsSpace(pre[1..], x);
    } else {
      assert pre + x == x;
    }
  }

  lemma {:induction false} TrimEndSkipsSpace(x: string, post: string)
    requires AllSpace(post)
    ensures TrimEnd(x + post) == TrimEnd(x)
  {
    if post != [] {
      var n := |post| - 1;
      assert (x + post)[|x + post| - 1] == post[n];
      assert (x + post)[..|x + post| - 1] == x + post[..n];
      TrimEndSkipsSpace(x, post[..n]);
    } else {
      assert x + post == x;
    }
  }

  /** Text after the first non-space character is kept as it is. */
  lemma {:induction false} TrimStartAppend(s: string, post: string)
    ensures TrimStart(s) != [] ==> TrimStart(s + post) == TrimStart(s) + post
    ensures TrimStart(s) == [] ==> TrimStart(s + post) == TrimStart(post)
  {
    if s != [] {
      assert (s + post)[0] == s[0];
      if IsSpace(s[0]) {
        assert (s + post)[1..] == s[1..] + post;
        TrimStartAppend(s[1..], post);
      }
    } else {
      assert s + post == post;
    }
  }

  /** `Number` ignores white space around its argument: padding a text with
      spaces, tabs or line breaks on either side reads the same number. */
  lemma JsNumberIgnoresSpace(pre: string, s: string, post: string)
    requires AllSpace(pre) && AllSpace(post)
    ensures JsNumber(pre + s + post) == JsNumber(s)
  {
    TrimIgnoresSpace(pre, s, post);
  }

  lemma TrimIgnoresSpace(pre: string, s: string, post: string)
    requires AllSpace(pre) && AllSpace(post)
    ensures Trim(pre + s + post) == Trim(s)
  {
    assert pre + s + post == pre + (s + post);
    TrimStartSkipsSpace(pre, s + post);
    TrimStartAppend(s, post);
    if TrimStart(s) != [] {
      TrimEndSkipsSpace(TrimStart(s), post);
    } else {
      TrimStartSkipsSpace(post, []);
      assert post + [] == post;
    }
  }

  lemma TrimOfUnpadded(s: string)
    requires s != [] && !IsSpace(s[0]) && !IsSpace(s[|s| - 1])
    ensures Trim(s) == s
    ensures JsNumber(s) == ParseDecimal(s)
  {
  }

  lemma DigitsValueOfTwo(a: nat, b: nat)
    requires a < 10 && b < 10
    ensures AllDigits([DigitChar(a), DigitChar(b)])
    ensures DigitsValue([DigitChar(a), DigitChar(b)]) == 10 * a + b
  {
    var s := [DigitChar(a), DigitChar(b)];
    assert s[..1] == [DigitChar(a)];
    assert s[..1][..0] == [];
  }

  /** A whole part, a point and a digit fraction read back as their value,
      and negated behind a minus sign. */
  lemma ParsePointed(whole: string, frac: string)
    requires whole != [] && AllDigits(whole) && AllDigits(frac)
    ensures ParseDecimal(whole + "." + frac) == Some(PointValue(whole, frac))
    ensures ParseDecimal("-" + (whole + "." + frac)) == Some(-PointValue(whole, frac))
  {
    var body := whole + "." + frac;
    IndexOfAfterPrefix(whole, frac);
    assert body[..|whole|] == whole;
    assert body[|whole| + 1..] == frac;
    assert ParseUnsigned(body) == Some(PointValue(whole, frac));
    assert body[0] == whole[0] && IsDigit(whole[0]);
    var neg := "-" + body;
    assert neg[1..] == body;
  }

  /** The text of a cents count reads back as that many hundredths. */
  lemma ParseCentsText(m: nat)
    ensures ParseDecimal(CentsText(m)) == Some(Cents(m))
    ensures ParseDecimal("-" + CentsText(m)) == Some(Cents(-(m as int)))
  {
    var whole := NatText(m / 100);
    var frac := [DigitChar(m % 100 / 10), DigitChar(m % 10)];
    DigitsValueOfTwo(m % 100 / 10, m % 10);
    ParsePointed(whole, frac);
    CentsValue(m);
  }

  lemma CentsValue(m: nat)
    ensures PointValue(NatText(m / 100), [DigitChar(m % 100 / 10), DigitChar(m % 10)]) == Cents(m)
    ensures -PointValue(NatText(m / 100), [DigitChar(m % 100 / 10), DigitChar(m % 10)]) == Cents(-(m as int))
  {
    DigitsValueOfNatText(m / 100);
    DigitsValueOfTwo(m % 100 / 10, m % 10);
    assert 10 * (m % 100 / 10) + m % 10 == m % 100;
    assert Pow10(2) == 100;
    assert m == 100 * (m / 100) + m % 100;
  }

  lemma IndexOfAfterPrefix(whole: string, frac: string)
    requires AllDigits(whole)
    ensures IndexOf(whole + "." + frac, '.') == Some(|whole|)
  {
    if whole != [] {
      assert (whole + "." + frac)[1..] == whole[1..] + "." + frac;
      IndexOfAfterPrefix(whole[1..], frac);
    }
  }

  /** `+(x).toFixed(2)` is exactly two-decimal rounding: the rendered text
      reads back as `Round2(x)`. */
  lemma Fixed2IsRound2(x: real)
    ensures JsNumber(ToFixed2(x)) == Some(Round2(x))
    ensures Fixed2(Some(x)) == Some(Round2(x))
  {
    if x >= 0.0 {
      Fixed2NonNegative(x);
    } else {
      Fixed2Negative(x);
    }
  }

  /** The same on a possibly-NaN number: NaN stays NaN, anything else rounds. */
  lemma Fixed2Rounds(x: Option<real>)
    ensures Fixed2(x) == RoundCents(x)
  {
    if x.Some? {
      Fixed2IsRound2(x.value);
    }
  }

  lemma Fixed2NonNegative(x: real)
    requires x >= 0.0
    ensures JsNumber(ToFixed2(x)) == Some(Round2(x))
  {
    CentsTextReadsBack(NearestCents(x));
  }

  lemma Fixed2Negative(x: real)
    requires x < 0.0
    ensures JsNumber(ToFixed2(x)) == Some(Round2(x))
  {
    var m := NearestCents(-x);
    assert ToFixed2(x) == "-" + CentsText(m);
    assert Round2(x) == Cents(-(m as int));
    NegatedCentsTextReadsBack(m);
  }

  /** `Number` reads a count of cents written by `CentsText` back exactly. */
  lemma CentsTextReadsBack(m: nat)
    ensures JsNumber(CentsText(m)) == Some(Cents(m))
  {
    var c := CentsText(m);
    assert ParseDecimal(c) == Some(Cents(m)) by { ParseCentsText(m); }
    UnpaddedReadsAs(c, Cents(m));
  }

  /** ... and with a minus sign in front, as the negated amount. */
  lemma NegatedCentsTextReadsBack(m: nat)
    ensures JsNumber("-" + CentsText(m)) == Some(Cents(-(m as int)))
  {
    var c := CentsText(m);
    var t := "-" + c;
    ParseCentsText(m);
    assert t[0] == '-' && t[|t| - 1] == c[|c| - 1];
    UnpaddedReadsAs(t, Cents(-(m as int)));
  }

  /** A text with no white space at either end reads as what it parses to. */
  lemma UnpaddedReadsAs(s: string, v: real)
    requires s != [] && !IsSpace(s[0]) && !IsSpace(s[|s| - 1]) && ParseDecimal(s) == Some(v)
    ensures JsNumber(s) == Some(v)
  {
    TrimOfUnpadded(s);
  }

  /** Rounding leaves whole cents alone, so rounding twice is rounding once. */
  lemma Round2OfCents(x: real)
    requires IsCents(x)
    ensures Round2(x) == x
  {
    var k :| x == Cents(k);
    assert x * 100.0 == k as real;
    if x >= 0.0 {
      assert (x * 100.0 + 0.5).Floor == k;
    } else {
      assert ((-x) * 100.0 + 0.5).Floor == -k;
    }
  }

  lemma Round2Idempotent(x: real)
    ensures Round2(Round2(x)) == Round2(x)
  {
    Round2Spec(x);
    Round2OfCents(Round2(x));
  }

  /** A sum of whole cents is whole cents. */
  lemma CentsSum(a: real, b: real)
    requires IsCents(a) && IsCents(b)
    ensures IsCents(a + b)
  {
    var ka :| a == Cents(ka);
    var kb :| b == Cents(kb);
    assert a + b == Cents(ka + kb);
  }
}
