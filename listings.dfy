/** The list-box lines the main window shows for users, products and payments, and the
    id the delete buttons read back from a selected line (the text before its first colon). */
module Listings {
  import opened Text
  import opened Schema

  /** A user line: `"{id}: {name} ({role})"`. */
  function UserLabel(u: Row<UserRecord>): string {
    IntToString(u.id) + ": " + u.fields.name + " (" + u.fields.role + ")"
  }

  /** A product line: `"{id}: {name} - ${price:.2f} (Stock: {stock})"`. */
  function ProductLabel(p: Row<ProductRecord>): string {
    IntToString(p.id) + ": " + p.fields.name + " - $" + Money(p.fields.price)
    + " (Stock: " + IntToString(p.fields.stock) + ")"
  }

  /** A payment line: `"Payment ID: {id}, Order ID: {order_id}, Amount: ${amount:.2f}"`. */
  function PaymentLabel(p: Row<PaymentRecord>): string {
    "Payment ID: " + IntToString(p.id) + ", Order ID: " + IntToString(p.fields.orderId)
    + ", Amount: $" + Money(p.fields.amount)
  }

  /** A list box filled from a query: one line per row, in row order. */
  function Labels<R>(rows: seq<R>, lineOf: R -> string): seq<string> {
    seq(|rows|, i requires 0 <= i < |rows| => lineOf(rows[i]))
  }

  function UserLabels(rows: seq<Row<UserRecord>>): seq<string> {
    Labels(rows, UserLabel)
  }

  function ProductLabels(rows: seq<Row<ProductRecord>>): seq<string> {
    Labels(rows, ProductLabel)
  }

  function PaymentLabels(rows: seq<Row<PaymentRecord>>): seq<string> {
    Labels(rows, PaymentLabel)
  }

  /** `m` rounded to a whole number, ties to the even neighbour. */
  function RoundHalfEven(m: real): (n: int)
    ensures m - 0.5 <= n as real <= m + 0.5
    ensures (n as real == m - 0.5 || n as real == m + 0.5) ==> n % 2 == 0
  {
    var f := m.Floor;
    var frac := m - f as real;
    if frac > 0.5 || (frac == 0.5 && f % 2 == 1) then f + 1 else f
  }

  /** A whole number of cents written as units, a point and two decimals. */
  function CentsText(c: nat): string {
    NatToString(c / 100) + "." + [DigitChar(c % 100 / 10), DigitChar(c % 10)]
  }

  /** `f"{x:.2f}"`: sign, whole part, point, two decimals, rounding the exact value half to even. */
  function Money(x: real): string {
    var c: nat := RoundHalfEven(if x < 0.0 then -x * 100.0 else x * 100.0);
    (if x < 0.0 then "-" else "") + CentsText(c)
  }

  /** `line.split(":")[0]`: what the delete buttons use as the id of the selected line. */
  function LabelKey(line: string): string {
    Split(line, ":")[0]
  }

  // ---------------------------------------------------------------------------------
  // Properties

  /** A money text is a sign exactly for negative amounts (`-0.00` included, as Python
      prints it), whole digits, a point and two decimals. */
  lemma MoneyShape(x: real)
    ensures var s := Money(x);
      && |s| >= 4 && s[|s| - 3] == '.' && IsDigit(s[|s| - 2]) && IsDigit(s[|s| - 1])
      && (s[0] == '-' <==> x < 0.0)
  {
  }

  /** Read back as whole part and two decimals, a cents text gives its number of cents. */
  lemma CentsTextDigits(c: nat)
    ensures var s := CentsText(c);
      |s| >= 4 && DigitsValue(s[..|s| - 3]) * 100 + DigitsValue(s[|s| - 2..]) == c
  {
    var tens, ones := DigitChar(c % 100 / 10), DigitChar(c % 10);
    var s := CentsText(c);
    assert s[..|s| - 3] == NatToString(c / 100);
    assert s[|s| - 2..] == [tens, ones];
    DigitsValueOfNatToString(c / 100);
    var two := [tens, ones];
    assert two[..1] == [tens] && [tens][..0] == [];
    assert DigitsValue([tens]) == c % 100 / 10;
    assert DigitsValue(two) == DigitsValue([tens]) * 10 + c % 10;
  }

  /** The digits of a money text are the value: read as whole part and two decimals, they
      give the value's magnitude in cents rounded half to even, so within half a cent. */
  lemma MoneyDigits(x: real)
    ensures var s, start := Money(x), if x < 0.0 then 1 else 0;
      var cents := DigitsValue(s[start..|s| - 3]) * 100 + DigitsValue(s[|s| - 2..]);
      var m := if x < 0.0 then -x else x;
      && cents == RoundHalfEven(m * 100.0)
      && (cents as real) / 100.0 - 0.005 <= m <= (cents as real) / 100.0 + 0.005
  {
    var m := if x < 0.0 then -x else x;
    var c: nat := RoundHalfEven(m * 100.0);
    var sign := if x < 0.0 then "-" else "";
    var t := CentsText(c);
    var s := Money(x);
    CentsTextDigits(c);
    assert s == sign + t;
    SlicesAfterSign(sign, t);
  }

  /** Behind a sign, the whole part and the decimals of a text are where they were. */
  lemma SlicesAfterSign(sign: string, t: string)
    requires |t| >= 3
    ensures (sign + t)[|sign|..|sign + t| - 3] == t[..|t| - 3]
    ensures (sign + t)[|sign + t| - 2..] == t[|t| - 2..]
  {
  }

  /** A line that starts with an id and a colon yields that id's text as its key, whatever
      follows, colons included. */
  lemma KeyOfIdPrefixed(id: int, rest: string)
    ensures LabelKey(IntToString(id) + ":" + rest) == IntToString(id)
  {
    IntToStringAvoids(id, ':');
    SplitAfterFirst(IntToString(id), ":", rest);
  }

  /** The key of a user line is the user's id, whatever the name and role contain. */
  lemma UserLabelKey(u: Row<UserRecord>)
    ensures LabelKey(UserLabel(u)) == IntToString(u.id)
  {
    var rest := " " + u.fields.name + " (" + u.fields.role + ")";
    assert UserLabel(u) == IntToString(u.id) + ":" + rest;
    KeyOfIdPrefixed(u.id, rest);
  }

  /** The key of a product line is the product's id, whatever the name contains. */
  lemma ProductLabelKey(p: Row<ProductRecord>)
    ensures LabelKey(ProductLabel(p)) == IntToString(p.id)
  {
    var rest := " " + p.fields.name + " - $" + Money(p.fields.price)
      + " (Stock: " + IntToString(p.fields.stock) + ")";
    assert ProductLabel(p) == IntToString(p.id) + ":" + rest;
    KeyOfIdPrefixed(p.id, rest);
  }

  /** Line `i` of the user list box names the id of row `i` of the users table. */
  lemma ListedUserKey(rows: seq<Row<UserRecord>>, i: int)
    requires 0 <= i < |rows|
    ensures |UserLabels(rows)| == |rows| && LabelKey(UserLabels(rows)[i]) == IntToString(rows[i].id)
  {
    UserLabelKey(rows[i]);
  }

  /** Line `i` of the product list box names the id of row `i` of the products table. */
  lemma ListedProductKey(rows: seq<Row<ProductRecord>>, i: int)
    requires 0 <= i < |rows|
    ensures |ProductLabels(rows)| == |rows| && LabelKey(ProductLabels(rows)[i]) == IntToString(rows[i].id)
  {
    ProductLabelKey(rows[i]);
  }
}
