/** The order tab's two buttons: `add_order` stages one line built from the two dropdown
    selections and the quantity entry, and `place_order` inserts one order row per staged
    line, then empties the staging list. Neither checks that the user or product exists:
    foreign keys are not switched on. */
module OrderTab {
  import opened Text
  import opened Schema
  import opened OrderLines
  import opened PosApp

  /** `add_order`: the user and product ids are the integers before the first colon of the
      selections, the quantity is any integer (zero and negatives included); if one of the
      three does not parse, the staging list is left as it was. The tables are not touched.
      A staged line always decodes back to the values it was written from. */
  method AddOrder(app: POSApp, userText: string, productText: string, quantityText: string)
    returns (outcome: Outcome)
    modifies app`orderList
    ensures
      var u, p, q := ChoiceId(userText), ChoiceId(productText), ParseInt(quantityText);
      if u.Some? && p.Some? && q.Some? then
        && outcome == Done
        && app.orderList == old(app.orderList) + [EncodeLine(OrderLine(u.value, p.value, q.value))]
        && DecodeLine(app.orderList[|app.orderList| - 1]) == Some(OrderLine(u.value, p.value, q.value))
      else
        outcome == Failed(NotNumeric) && app.orderList == old(app.orderList)
  {
    var userId := ChoiceId(userText);
    var productId := ChoiceId(productText);
    var quantity := ParseInt(quantityText);
    if userId.None? || productId.None? || quantity.None? {
      return Failed(NotNumeric);
    }
    ParseIntWithinLimit(Split(userText, ":")[0]);
    ParseIntWithinLimit(Split(productText, ":")[0]);
    ParseIntWithinLimit(quantityText);
    var line := OrderLine(userId.value, productId.value, quantity.value);
    DecodeEncodeLine(line);
    app.orderList := app.orderList + [EncodeLine(line)];
    outcome := Done;
  }

  /** The loop of `place_order` on the orders table: each staged line is decoded and
      inserted in turn, stopping at the first line that raises. `ok` says whether every line
      went through; the rows inserted before a failure stay. */
  method InsertStaged(lines: seq<string>, orders: Table<OrderRecord>)
    returns (r: Table<OrderRecord>, ok: bool)
    ensures r == InsertLines(orders, PlacedPrefix(lines))
    ensures ok <==> |PlacedPrefix(lines)| == |lines|
    ensures orders.Valid() ==> r.Valid()
  {
    r := orders;
    ghost var placed: seq<OrderLine> := [];
    var i := 0;
    while i < |lines|
      invariant 0 <= i <= |lines| && |placed| == i
      invariant forall k :: 0 <= k < i ==> PlaceLine(lines[k]) == Some(placed[k])
      invariant r == InsertLines(orders, placed)
    {
      var line := PlaceLine(lines[i]);
      if line.None? {
        TakeWhileSomeStops(lines, PlaceLine, placed);
        InsertLinesRows(orders, placed);
        return r, false;
      }
      InsertLinesSnoc(orders, placed, line.value);
      r := Insert(r, OrderRecordOf(line.value));
      placed := placed + [line.value];
      i := i + 1;
    }
    TakeWhileSomeStops(lines, PlaceLine, placed);
    InsertLinesRows(orders, placed);
    ok := true;
  }

  /** `place_order`: the staged lines are inserted one by one, in order. If every line goes
      through, the staging list is emptied; at the first line that raises, the list is left
      intact and the rows already inserted remain in the connection's view (nothing is rolled
      back). Users, products and payments never change. */
  method PlaceOrder(app: POSApp) returns (outcome: Outcome)
    requires app.Valid()
    modifies app`db, app`orderList
    ensures app.Valid()
    ensures
      var lines, placed := old(app.orderList), PlacedPrefix(old(app.orderList));
      && app.db == old(app.db).(orders := InsertLines(old(app.db).orders, placed))
      && (outcome == Done <==> |placed| == |lines|)
      && (outcome == Done ==> app.orderList == [])
      && (outcome != Done ==> outcome == Failed(PlaceFailed) && app.orderList == lines)
  {
    var orders, ok := InsertStaged(app.orderList, app.db.orders);
    app.db := app.db.(orders := orders);
    if !ok {
      return Failed(PlaceFailed);
    }
    app.orderList := [];
    outcome := Done;
  }
}
