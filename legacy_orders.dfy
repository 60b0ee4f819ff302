/** The main window's own order staging, which no button reaches (the order tab wires its
    buttons to the order-tab functions instead): the line it would stage,
    `"User: {user}, Product: {product}, Quantity: {quantity}"` where `user` and `product`
    are whole dropdown entries `"{id}: {name}"`, and `parse_order`, which reads such a line
    back by splitting on single commas. */
module LegacyOrders {
  import opened Text
  import opened OrderLines

  /** The line `POSApp.add_order` would stage, grouped at its two commas. */
  function LegacyLine(user: string, product: string, quantity: int): string {
    Labelled("User", user) + "," + Labelled(" Product", product) + "," + Labelled(" Quantity", IntToString(quantity))
  }

  /** `part.split(":")[1].strip()`; None where Python raises IndexError. */
  function AfterColon(part: string): Option<string> {
    var pieces := Split(part, ":");
    if |pieces| < 2 then None else Some(Strip(pieces[1]))
  }

  /** `parse_order`: user id and product id are the first blank-separated word after the
      first colon of the first and second comma-separated parts, the quantity is the third
      part after its first colon; None where Python raises. */
  function ParseOrder(order: string): Option<OrderLine> {
    var parts := Split(order, ",");
    if |parts| < 3 then None
    else
      var userInfo, productInfo, quantity := AfterColon(parts[0]), AfterColon(parts[1]), AfterColon(parts[2]);
      if userInfo.None? || productInfo.None? || quantity.None? then None
      else
        var u := ParseInt(Split(userInfo.value, " ")[0]);
        var p := ParseInt(Split(productInfo.value, " ")[0]);
        var q := ParseInt(quantity.value);
        if u.None? || p.None? || q.None? then None
        else Some(OrderLine(u.value, p.value, q.value))
  }

  // ---------------------------------------------------------------------------------
  // Properties

  /** `"{name}: {n}"` with a colon-free name yields the text of `n` after its first colon. */
  lemma AfterColonOfInt(name: string, n: int)
    requires Avoids(name, ':')
    ensures AfterColon(Labelled(name, IntToString(n))) == Some(IntToString(n))
  {
    var num := " " + IntToString(n);
    IntToStringAvoids(n, ':');
    AvoidsConcat(" ", IntToString(n), ':');
    assert Labelled(name, IntToString(n)) == name + ":" + num;
    SplitAfterFirst(name, ":", num);
    SplitWithoutSeparator(num, ":");
    StripOfIntToString(n);
  }

  /** `"{name}: {id}: {rest}"` with a colon-free name yields the text of `id` after its first
      colon, whatever `rest` holds. */
  lemma AfterColonOfChoice(name: string, id: int, rest: string)
    requires Avoids(name, ':')
    ensures AfterColon(Labelled(name, ChoiceLabel(id, rest))) == Some(IntToString(id))
  {
    var num := " " + IntToString(id);
    IntToStringAvoids(id, ':');
    AvoidsConcat(" ", IntToString(id), ':');
    assert Labelled(name, ChoiceLabel(id, rest)) == name + ":" + (num + ":" + (" " + rest));
    SplitAfterFirst(name, ":", num + ":" + (" " + rest));
    SplitAfterFirst(num, ":", " " + rest);
    StripOfIntToString(id);
  }

  /** The first blank-separated word of an integer's text is that text. */
  lemma FirstWordOfInt(n: int)
    ensures Split(IntToString(n), " ")[0] == IntToString(n)
  {
    IntToStringAvoids(n, ' ');
    SplitWithoutSeparator(IntToString(n), " ");
  }

  lemma LabelledAvoidsComma(name: string, value: string)
    requires Avoids(name, ',') && Avoids(value, ',')
    ensures Avoids(Labelled(name, value), ',')
  {
    AvoidsConcat(name, ": ", ',');
    AvoidsConcat(name + ": ", value, ',');
  }

  lemma ChoiceAvoidsComma(id: int, name: string)
    requires Avoids(name, ',')
    ensures Avoids(ChoiceLabel(id, name), ',')
  {
    IntToStringAvoids(id, ',');
    AvoidsConcat(IntToString(id), ": ", ',');
    AvoidsConcat(IntToString(id) + ": ", name, ',');
  }

  /** `parse_order` once the parts' texts after their first colon are known. */
  lemma ParseOrderOfParts(order: string, u: int, p: int, q: int)
    requires WithinStrLimit(u) && WithinStrLimit(p) && WithinStrLimit(q)
    requires |Split(order, ",")| >= 3
    requires AfterColon(Split(order, ",")[0]) == Some(IntToString(u))
    requires AfterColon(Split(order, ",")[1]) == Some(IntToString(p))
    requires AfterColon(Split(order, ",")[2]) == Some(IntToString(q))
    ensures ParseOrder(order) == Some(OrderLine(u, p, q))
  {
    FirstWordOfInt(u);
    FirstWordOfInt(p);
    ParseIntOfIntToString(u);
    ParseIntOfIntToString(p);
    ParseIntOfIntToString(q);
  }

  /** Three comma-free parts, each holding an integer after its first colon. */
  lemma ParseOrderOfThree(a: string, b: string, c: string, u: int, p: int, q: int)
    requires WithinStrLimit(u) && WithinStrLimit(p) && WithinStrLimit(q)
    requires Avoids(a, ',') && Avoids(b, ',') && Avoids(c, ',')
    requires AfterColon(a) == Some(IntToString(u)) && AfterColon(b) == Some(IntToString(p))
    requires AfterColon(c) == Some(IntToString(q))
    ensures ParseOrder(a + "," + b + "," + c) == Some(OrderLine(u, p, q))
  {
    SplitThree(a, b, c, ",");
    ParseOrderOfParts(a + "," + b + "," + c, u, p, q);
  }

  /** Four comma-free parts: the fourth is never read. */
  lemma ParseOrderOfFour(a: string, b: string, c: string, d: string, u: int, p: int, q: int)
    requires WithinStrLimit(u) && WithinStrLimit(p) && WithinStrLimit(q)
    requires Avoids(a, ',') && Avoids(b, ',') && Avoids(c, ',') && Avoids(d, ',')
    requires AfterColon(a) == Some(IntToString(u)) && AfterColon(b) == Some(IntToString(p))
    requires AfterColon(c) == Some(IntToString(q))
    ensures ParseOrder(a + "," + b + "," + c + "," + d) == Some(OrderLine(u, p, q))
  {
    SplitFour(a, b, c, d, ",");
    ParseOrderOfParts(a + "," + b + "," + c + "," + d, u, p, q);
  }

  /** A part `"{name}: {id}: {rest}"` holds no comma and yields the text of `id` after its
      first colon, when `name` has neither a comma nor a colon and `rest` has no comma. */
  lemma ChoicePart(name: string, id: int, rest: string)
    requires Avoids(name, ',') && Avoids(name, ':') && Avoids(rest, ',')
    ensures Avoids(Labelled(name, ChoiceLabel(id, rest)), ',')
    ensures AfterColon(Labelled(name, ChoiceLabel(id, rest))) == Some(IntToString(id))
  {
    ChoiceAvoidsComma(id, rest);
    LabelledAvoidsComma(name, ChoiceLabel(id, rest));
    AfterColonOfChoice(name, id, rest);
  }

  /** A part `"{name}: {n}"` holds no comma and yields the text of `n` after its first colon,
      when `name` has neither a comma nor a colon. */
  lemma IntPart(name: string, n: int)
    requires Avoids(name, ',') && Avoids(name, ':')
    ensures Avoids(Labelled(name, IntToString(n)), ',')
    ensures AfterColon(Labelled(name, IntToString(n))) == Some(IntToString(n))
  {
    IntToStringAvoids(n, ',');
    LabelledAvoidsComma(name, IntToString(n));
    AfterColonOfInt(name, n);
  }

  /** A line of three labelled parts, whatever the labels, as long as they hold neither a
      comma nor a colon. */
  lemma ParseOrderOfLabelled(n1: string, n2: string, n3: string,
                             u: int, userName: string, p: int, productName: string, q: int)
    requires WithinStrLimit(u) && WithinStrLimit(p) && WithinStrLimit(q)
    requires Avoids(n1, ',') && Avoids(n1, ':') && Avoids(n2, ',') && Avoids(n2, ':')
    requires Avoids(n3, ',') && Avoids(n3, ':')
    requires Avoids(userName, ',') && Avoids(productName, ',')
    ensures ParseOrder(Labelled(n1, ChoiceLabel(u, userName)) + "," + Labelled(n2, ChoiceLabel(p, productName))
                       + "," + Labelled(n3, IntToString(q)))
         == Some(OrderLine(u, p, q))
  {
    ChoicePart(n1, u, userName);
    ChoicePart(n2, p, productName);
    IntPart(n3, q);
    ParseOrderOfThree(Labelled(n1, ChoiceLabel(u, userName)), Labelled(n2, ChoiceLabel(p, productName)),
      Labelled(n3, IntToString(q)), u, p, q);
  }

  /** `parse_order` reads back the user id, product id and quantity of the line staged from
      two dropdown entries, provided neither name contains a comma (`str()` refuses numbers
      beyond the digit limit, so no staged line holds one). */
  lemma ParseOrderOfLegacyLine(u: int, userName: string, p: int, productName: string, q: int)
    requires WithinStrLimit(u) && WithinStrLimit(p) && WithinStrLimit(q)
    requires Avoids(userName, ',') && Avoids(productName, ',')
    ensures ParseOrder(LegacyLine(ChoiceLabel(u, userName), ChoiceLabel(p, productName), q))
         == Some(OrderLine(u, p, q))
  {
    ParseOrderOfLabelled("User", " Product", " Quantity", u, userName, p, productName, q);
  }

  /** A comma inside a user name ends the user part early. */
  lemma CommaInUserName(name: string, u: int, first: string, rest: string)
    ensures Labelled(name, ChoiceLabel(u, first + "," + rest)) == Labelled(name, ChoiceLabel(u, first)) + "," + rest
  {
  }

  /** The shifted reading for any labels holding neither a comma nor a colon. */
  lemma MisreadOfLabelled(n1: string, n2: string, n3: string, u: int, first: string, second: string, n: int,
                          p: int, productName: string, q: int)
    requires WithinStrLimit(u) && WithinStrLimit(n) && WithinStrLimit(p)
    requires Avoids(n1, ',') && Avoids(n1, ':') && Avoids(n2, ',') && Avoids(n2, ':')
    requires Avoids(n3, ',') && Avoids(n3, ':')
    requires Avoids(first, ',') && Avoids(second, ',') && Avoids(second, ':') && Avoids(productName, ',')
    ensures ParseOrder(Labelled(n1, ChoiceLabel(u, first + "," + Labelled(second, IntToString(n)))) + ","
                       + Labelled(n2, ChoiceLabel(p, productName)) + "," + Labelled(n3, IntToString(q)))
         == Some(OrderLine(u, n, p))
  {
    var b := Labelled(second, IntToString(n));
    CommaInUserName(n1, u, first, b);
    ChoicePart(n1, u, first);
    IntPart(second, n);
    ChoicePart(n2, p, productName);
    IntPart(n3, q);
    ParseOrderOfFour(Labelled(n1, ChoiceLabel(u, first)), b, Labelled(n2, ChoiceLabel(p, productName)),
      Labelled(n3, IntToString(q)), u, n, p);
  }

  /** A comma in a user name shifts the parts: with user name `"{first},{second}: {n}"`, the
      line staged for user `u`, product `p` and quantity `q` reads back as user `u`,
      product `n` and quantity `p`. */
  lemma ParseOrderMisreadsCommaInName(u: int, first: string, second: string, n: int,
                                      p: int, productName: string, q: int)
    requires WithinStrLimit(u) && WithinStrLimit(n) && WithinStrLimit(p)
    requires Avoids(first, ',') && Avoids(second, ',') && Avoids(second, ':') && Avoids(productName, ',')
    ensures ParseOrder(LegacyLine(ChoiceLabel(u, first + "," + Labelled(second, IntToString(n))),
                                  ChoiceLabel(p, productName), q))
         == Some(OrderLine(u, n, p))
  {
    MisreadOfLabelled("User", " Product", " Quantity", u, first, second, n, p, productName, q);
  }
}
