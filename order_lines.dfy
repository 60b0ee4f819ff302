/** The text formats of the order tab: the dropdown entries `"{id}: {name}"`, the id read
    back from a chosen entry, the staged line `"User: {u}, Product: {p}, Quantity: {q}"`
    and the comprehension that decodes it when the order is placed. */
module OrderLines {
  import opened Text
  import opened Schema

  /** One staged order line, as placing it inserts it. */
  datatype OrderLine = OrderLine(userId: int, productId: int, quantity: int)

  /** A dropdown entry: `"{id}: {name}"`. */
  function ChoiceLabel(id: int, name: string): string {
    IntToString(id) + ": " + name
  }

  /** The user dropdown's values, one entry per user row. */
  function UserChoices(rows: seq<Row<UserRecord>>): seq<string> {
    seq(|rows|, i requires 0 <= i < |rows| => ChoiceLabel(rows[i].id, rows[i].fields.name))
  }

  /** The product dropdown's values, one entry per product row. */
  function ProductChoices(rows: seq<Row<ProductRecord>>): seq<string> {
    seq(|rows|, i requires 0 <= i < |rows| => ChoiceLabel(rows[i].id, rows[i].fields.name))
  }

  /** `int(text.split(":")[0])`: the id of a dropdown selection; None on ValueError. */
  function ChoiceId(text: string): Option<int> {
    ParseInt(Split(text, ":")[0])
  }

  /** `"{name}: {value}"`, the labelled part both staging formats are built from. */
  function Labelled(name: string, value: string): string {
    name + ": " + value
  }

  /** One field of a staged line: `"{name}: {value}"` with an integer value. */
  function Field(name: string, value: int): string {
    Labelled(name, IntToString(value))
  }

  /** The staged line for one order, `"User: {u}, Product: {p}, Quantity: {q}"`. */
  function EncodeLine(l: OrderLine): string {
    Field("User", l.userId) + ", " + Field("Product", l.productId) + ", " + Field("Quantity", l.quantity)
  }

  /** `int(value.split(":")[1])` for one comma-separated field; None where Python raises
      IndexError (no colon) or ValueError. */
  function FieldValue(field: string): Option<int> {
    var parts := Split(field, ":");
    if |parts| < 2 then None else ParseInt(parts[1])
  }

  /** The list comprehension over the fields: every field's value, or None if any fails. */
  function FieldValues(fields: seq<string>): Option<seq<int>>
  {
    if fields == [] then Some([])
    else
      var head, tail := FieldValue(fields[0]), FieldValues(fields[1..]);
      if head.None? || tail.None? then None else Some([head.value] + tail.value)
  }

  /** `user_id, product_id, quantity = [...]` over `line.split(", ")`: None where the
      comprehension raises or the unpacking does not find exactly three values. */
  function DecodeLine(line: string): Option<OrderLine> {
    match FieldValues(Split(line, ", "))
    case None => None
    case Some(vs) => if |vs| == 3 then Some(OrderLine(vs[0], vs[1], vs[2])) else None
  }

  predicate LineFits(l: OrderLine) {
    FitsInt64(l.userId) && FitsInt64(l.productId) && FitsInt64(l.quantity)
  }

  /** One pass of the placing loop: decode the line, then bind its values to the INSERT;
      None where either raises (sqlite3 raises OverflowError for ints beyond 64 bits). */
  function PlaceLine(line: string): Option<OrderLine> {
    match DecodeLine(line)
    case None => None
    case Some(l) => if LineFits(l) then Some(l) else None
  }

  /** The results of `f` over `xs`, from the front, up to the first None. */
  function TakeWhileSome<A, B>(xs: seq<A>, f: A -> Option<B>): (r: seq<B>)
    ensures |r| <= |xs|
    ensures forall k :: 0 <= k < |r| ==> f(xs[k]) == Some(r[k])
    ensures |r| < |xs| ==> f(xs[|r|]).None?
  {
    if xs == [] then []
    else
      var first := f(xs[0]);
      if first.None? then [] else [first.value] + TakeWhileSome(xs[1..], f)
  }

  /** The lines the placing loop gets through before the first one that raises. */
  function PlacedPrefix(lines: seq<string>): seq<OrderLine> {
    TakeWhileSome(lines, PlaceLine)
  }

  function OrderRecordOf(l: OrderLine): OrderRecord {
    OrderRecord(l.userId, l.productId, l.quantity)
  }

  /** One `INSERT INTO orders` per line, in order. */
  function InsertLines(t: Table<OrderRecord>, ls: seq<OrderLine>): Table<OrderRecord>
    decreases |ls|
  {
    if ls == [] then t
    else Insert(InsertLines(t, ls[..|ls| - 1]), OrderRecordOf(ls[|ls| - 1]))
  }

  // ---------------------------------------------------------------------------------
  // Properties

  /** `int(entry.split(":")[0])` recovers the id of a dropdown entry, even when the name
      contains colons. */
  lemma ChoiceIdOfLabel(id: int, name: string)
    requires WithinStrLimit(id)
    ensures ChoiceId(ChoiceLabel(id, name)) == Some(id)
  {
    IntToStringAvoids(id, ':');
    assert ChoiceLabel(id, name) == IntToString(id) + ":" + (" " + name);
    SplitAfterFirst(IntToString(id), ":", " " + name);
    ParseIntOfIntToString(id);
  }

  /** Entry `k` of the user dropdown selects the id of user row `k` (ids are SQLite
      INTEGERs). */
  lemma UserChoiceIds(rows: seq<Row<UserRecord>>)
    requires forall k :: 0 <= k < |rows| ==> FitsInt64(rows[k].id)
    ensures |UserChoices(rows)| == |rows|
    ensures forall k :: 0 <= k < |rows| ==> ChoiceId(UserChoices(rows)[k]) == Some(rows[k].id)
  {
    forall k | 0 <= k < |rows| ensures ChoiceId(UserChoices(rows)[k]) == Some(rows[k].id) {
      FitsInt64WithinLimit(rows[k].id);
      ChoiceIdOfLabel(rows[k].id, rows[k].fields.name);
    }
  }

  /** Entry `k` of the product dropdown selects the id of product row `k` (ids are SQLite
      INTEGERs). */
  lemma ProductChoiceIds(rows: seq<Row<ProductRecord>>)
    requires forall k :: 0 <= k < |rows| ==> FitsInt64(rows[k].id)
    ensures |ProductChoices(rows)| == |rows|
    ensures forall k :: 0 <= k < |rows| ==> ChoiceId(ProductChoices(rows)[k]) == Some(rows[k].id)
  {
    forall k | 0 <= k < |rows| ensures ChoiceId(ProductChoices(rows)[k]) == Some(rows[k].id) {
      FitsInt64WithinLimit(rows[k].id);
      ChoiceIdOfLabel(rows[k].id, rows[k].fields.name);
    }
  }

  lemma AvoidsConcat(a: string, b: string, c: char)
    ensures Avoids(a + b, c) <==> Avoids(a, c) && Avoids(b, c)
  {
    if Avoids(a + b, c) {
      forall i | 0 <= i < |a| ensures a[i] != c {
        assert (a + b)[i] == a[i];
      }
      forall i | 0 <= i < |b| ensures b[i] != c {
        assert (a + b)[|a| + i] == b[i];
      }
    }
    if Avoids(a, c) && Avoids(b, c) {
      forall i | 0 <= i < |a + b| ensures (a + b)[i] != c {
        if i >= |a| {
          assert (a + b)[i] == b[i - |a|];
        }
      }
    }
  }

  /** A field whose name has no colon reads back as its value, unless the value has more
      digits than `int()` accepts. */
  lemma FieldValueOfField(name: string, n: int)
    requires Avoids(name, ':')
    ensures FieldValue(Field(name, n)) == if WithinStrLimit(n) then Some(n) else None
  {
    var s := " " + IntToString(n);
    IntToStringAvoids(n, ':');
    AvoidsConcat(" ", IntToString(n), ':');
    assert Field(name, n) == name + ":" + s;
    SplitAfterFirst(name, ":", s);
    SplitWithoutSeparator(s, ":");
    if WithinStrLimit(n) {
      ParseIntOfSpacedIntToString(n);
    } else {
      StripOfIntToString(n);
      ParseIntOfLongIntToString(n);
    }
  }

  /** A field with a comma-free name holds no comma. */
  lemma FieldAvoidsComma(name: string, n: int)
    requires Avoids(name, ',')
    ensures Avoids(Field(name, n), ',')
  {
    IntToStringAvoids(n, ',');
    AvoidsConcat(name, ": ", ',');
    AvoidsConcat(name + ": ", IntToString(n), ',');
  }

  /** The comprehension succeeds exactly when every field has a value, and then lists
      those values in field order. */
  lemma {:induction false} FieldValuesAll(fields: seq<string>)
    ensures FieldValues(fields).Some? <==> forall k :: 0 <= k < |fields| ==> FieldValue(fields[k]).Some?
    ensures FieldValues(fields).Some? ==>
      |FieldValues(fields).value| == |fields|
      && forall k :: 0 <= k < |fields| ==> FieldValue(fields[k]) == Some(FieldValues(fields).value[k])
  {
    if fields != [] {
      FieldValuesAll(fields[1..]);
      if FieldValue(fields[0]).Some? && FieldValues(fields[1..]).Some? {
        forall k | 0 <= k < |fields| ensures FieldValue(fields[k]).Some? {
          if k > 0 {
            assert fields[k] == fields[1..][k - 1];
          }
        }
      } else if FieldValue(fields[0]).Some? {
        var k :| 0 <= k < |fields[1..]| && FieldValue(fields[1..][k]).None?;
        assert fields[k + 1] == fields[1..][k];
      }
    }
  }

  lemma FieldValuesCons(f: string, fs: seq<string>, v: int, vs: seq<int>)
    requires FieldValue(f) == Some(v) && FieldValues(fs) == Some(vs)
    ensures FieldValues([f] + fs) == Some([v] + vs)
  {
    var all := [f] + fs;
    assert all[0] == f && all[1..] == fs;
  }

  lemma FieldValuesThree(a: string, b: string, c: string, x: int, y: int, z: int)
    requires FieldValue(a) == Some(x) && FieldValue(b) == Some(y) && FieldValue(c) == Some(z)
    ensures FieldValues([a, b, c]) == Some([x, y, z])
  {
    FieldValuesCons(c, [], z, []);
    assert [c] + [] == [c] && [z] + [] == [z];
    FieldValuesCons(b, [c], y, [z]);
    assert [b] + [c] == [b, c] && [y] + [z] == [y, z];
    FieldValuesCons(a, [b, c], x, [y, z]);
    assert [a] + [b, c] == [a, b, c] && [x] + [y, z] == [x, y, z];
  }

  /** All three values of a line can be written by `str()`. */
  predicate LineWithinStrLimit(l: OrderLine) {
    WithinStrLimit(l.userId) && WithinStrLimit(l.productId) && WithinStrLimit(l.quantity)
  }

  /** Three fields with comma- and colon-free names, joined by `", "`, decode to their values,
      and fail to decode when one value is beyond the digit limit. */
  lemma DecodeFields(n1: string, n2: string, n3: string, x: int, y: int, z: int)
    requires Avoids(n1, ':') && Avoids(n2, ':') && Avoids(n3, ':')
    requires Avoids(n1, ',') && Avoids(n2, ',') && Avoids(n3, ',')
    ensures DecodeLine(Field(n1, x) + ", " + Field(n2, y) + ", " + Field(n3, z))
         == if WithinStrLimit(x) && WithinStrLimit(y) && WithinStrLimit(z) then Some(OrderLine(x, y, z)) else None
  {
    FieldAvoidsComma(n1, x);
    FieldAvoidsComma(n2, y);
    FieldAvoidsComma(n3, z);
    var fields := [Field(n1, x), Field(n2, y), Field(n3, z)];
    SplitThree(Field(n1, x), Field(n2, y), Field(n3, z), ", ");
    FieldValueOfField(n1, x);
    FieldValueOfField(n2, y);
    FieldValueOfField(n3, z);
    if WithinStrLimit(x) && WithinStrLimit(y) && WithinStrLimit(z) {
      FieldValuesThree(Field(n1, x), Field(n2, y), Field(n3, z), x, y, z);
    } else {
      FieldValuesAll(fields);
      assert !(FieldValue(fields[0]).Some? && FieldValue(fields[1]).Some? && FieldValue(fields[2]).Some?);
    }
  }

  /** Decoding a staged line gives back exactly the ids and quantity it was written from,
      negative values included; a value `str()` could not have written makes it fail. */
  lemma DecodeEncodeLine(l: OrderLine)
    ensures DecodeLine(EncodeLine(l)) == if LineWithinStrLimit(l) then Some(l) else None
  {
    DecodeFields("User", "Product", "Quantity", l.userId, l.productId, l.quantity);
  }

  /** A staged line is placed exactly when its three values fit an SQLite INTEGER. */
  lemma PlaceEncodedLine(l: OrderLine)
    ensures PlaceLine(EncodeLine(l)) == if LineFits(l) then Some(l) else None
  {
    DecodeEncodeLine(l);
    if LineFits(l) {
      FitsInt64WithinLimit(l.userId);
      FitsInt64WithinLimit(l.productId);
      FitsInt64WithinLimit(l.quantity);
    }
  }

  /** The staging list holding the lines written from `ls`. */
  function Staged(ls: seq<OrderLine>): seq<string> {
    seq(|ls|, k requires 0 <= k < |ls| => EncodeLine(ls[k]))
  }

  /** `TakeWhileSome` is the one prefix of results that stops at the end or at a None. */
  lemma {:induction false} TakeWhileSomeStops<A, B>(xs: seq<A>, f: A -> Option<B>, ys: seq<B>)
    requires |ys| <= |xs|
    requires forall k :: 0 <= k < |ys| ==> f(xs[k]) == Some(ys[k])
    requires |ys| < |xs| ==> f(xs[|ys|]).None?
    ensures TakeWhileSome(xs, f) == ys
  {
    if ys != [] {
      TakeWhileSomeStops(xs[1..], f, ys[1..]);
      assert [ys[0]] + ys[1..] == ys;
    }
  }

  /** A batch insert keeps the rows there were and appends one row per line, in order, with
      consecutive fresh ids after the table's counter; a valid table stays valid. */
  lemma {:induction false} InsertLinesRows(t: Table<OrderRecord>, ls: seq<OrderLine>)
    ensures var r := InsertLines(t, ls);
      && |r.rows| == |t.rows| + |ls| && r.rows[..|t.rows|] == t.rows
      && (forall k :: 0 <= k < |ls| ==> r.rows[|t.rows| + k] == Row(t.last + 1 + k, OrderRecordOf(ls[k])))
      && r.last == t.last + |ls|
      && (t.Valid() ==> r.Valid())
    decreases |ls|
  {
    if ls != [] {
      var init := ls[..|ls| - 1];
      InsertLinesRows(t, init);
      var before := InsertLines(t, init);
      var r := InsertLines(t, ls);
      assert r == Insert(before, OrderRecordOf(ls[|ls| - 1]));
      assert r.rows[..|before.rows|] == before.rows;
      forall k | 0 <= k < |ls| ensures r.rows[|t.rows| + k] == Row(t.last + 1 + k, OrderRecordOf(ls[k])) {
        if k < |init| {
          assert r.rows[|t.rows| + k] == before.rows[|t.rows| + k];
        }
      }
      assert r.rows[..|t.rows|] == before.rows[..|t.rows|];
    }
  }

  /** Inserting one more line after a batch is the batch with that line appended. */
  lemma InsertLinesSnoc(t: Table<OrderRecord>, ls: seq<OrderLine>, l: OrderLine)
    ensures InsertLines(t, ls + [l]) == Insert(InsertLines(t, ls), OrderRecordOf(l))
  {
    assert (ls + [l])[..|ls|] == ls;
  }

  /** When every staged line was written from an order whose values fit, the placing loop
      gets through all of them and inserts exactly those orders. */
  lemma PlacedPrefixOfStaged(ls: seq<OrderLine>)
    requires forall k :: 0 <= k < |ls| ==> LineFits(ls[k])
    ensures PlacedPrefix(Staged(ls)) == ls
  {
    var lines := Staged(ls);
    forall k | 0 <= k < |lines| ensures PlaceLine(lines[k]) == Some(ls[k]) {
      PlaceEncodedLine(ls[k]);
    }
    TakeWhileSomeStops(lines, PlaceLine, ls);
  }
}
