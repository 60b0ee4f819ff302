/** The main window, `POSApp`, as the record store it drives: the database connection's view
    of the four tables and the list boxes and dropdowns it fills from them. Text typed into
    entry fields arrives as parameters; `float()` of the price and amount fields arrives
    already parsed, None standing for the ValueError it raises. Each message box becomes the
    returned outcome. */
module PosApp {
  import opened Text
  import opened Schema
  import opened Listings
  import opened OrderLines

  /** How a button press fails: one error message box per kind of rejection, except
      `OutOfRange`, which shows none. */
  datatype Error =
    | Required     // "All fields are required." (and "... and must be valid.")
    | NotNumeric   // a ValueError from int() (digit limit included) or float()
    | NoSelection  // "No user selected." / "No product selected."
    | UnknownOrder // "Order ID does not exist."
    | OutOfRange   // sqlite3 refuses to bind an int outside 64 bits: the OverflowError is not
                   // caught, Tk prints a traceback, no box appears and nothing changes
    | PlaceFailed  // "Failed to place order: ..."

  datatype Outcome = Done | Failed(error: Error)

  /** What `add_product` does with its three inputs. */
  function ProductOutcome(name: string, price: Option<real>, stock: Option<int>): Outcome {
    if price.None? || stock.None? then Failed(NotNumeric)
    else if name == [] || price.value < 0.0 || stock.value < 0 then Failed(Required)
    else if !FitsInt64(stock.value) then Failed(OutOfRange)
    else Done
  }

  /** What `record_payment` does with its inputs, given the orders table. */
  function PaymentOutcome(orders: seq<Row<OrderRecord>>, orderId: Option<int>, amount: Option<real>): Outcome {
    if orderId.None? || amount.None? then Failed(NotNumeric)
    else if orderId.value == 0 || amount.value == 0.0 then Failed(Required)
    else if !FitsInt64(orderId.value) then Failed(OutOfRange)
    else if Lookup(orders, orderId.value).None? then Failed(UnknownOrder)
    else Done
  }

  /** The loop shared by `load_users`, `load_products` and `refresh_payments`: the list box
      is cleared, then each fetched row is inserted at the end as one line. */
  method FillList<R>(rows: seq<R>, lineOf: R -> string) returns (list: seq<string>)
    ensures list == Labels(rows, lineOf)
  {
    list := [];
    var i := 0;
    while i < |rows|
      invariant 0 <= i <= |rows|
      invariant list == Labels(rows, lineOf)[..i]
    {
      list := list + [lineOf(rows[i])];
      i := i + 1;
      assert Labels(rows, lineOf)[..i] == Labels(rows, lineOf)[..i - 1] + [Labels(rows, lineOf)[i - 1]];
    }
    assert Labels(rows, lineOf)[..i] == Labels(rows, lineOf);
  }

  class POSApp {
    var db: Database
    var userList: seq<string>
    var productList: seq<string>
    var paymentList: seq<string>
    var orderUserValues: seq<string>
    var orderProductValues: seq<string>
    var orderList: seq<string>

    /** The tables are well formed and the user and product list boxes show them. */
    ghost predicate Valid()
      reads this
    {
      && db.Valid()
      && userList == UserLabels(db.users.rows)
      && productList == ProductLabels(db.products.rows)
    }

    /** `__init__` on the database file `stored` (`create_tables` leaves existing tables as
        they are): the list boxes are filled, the order dropdowns loaded, the staging list
        and the payment list empty. */
    constructor (stored: Database)
      requires stored.Valid()
      ensures Valid() && db == stored
      ensures orderUserValues == UserChoices(stored.users.rows)
      ensures orderProductValues == ProductChoices(stored.products.rows)
      ensures orderList == [] && paymentList == []
    {
      db := stored;
      userList, productList, paymentList, orderList := [], [], [], [];
      orderUserValues := UserChoices(stored.users.rows);
      orderProductValues := ProductChoices(stored.products.rows);
      new;
      LoadUsers();
      LoadProducts();
    }

    /** `load_users`: clear the list box, then one line per user row. */
    method LoadUsers()
      modifies this`userList
      ensures userList == UserLabels(db.users.rows)
    {
      userList := FillList(db.users.rows, UserLabel);
    }

    /** `load_products`: clear the list box, then one line per product row. */
    method LoadProducts()
      modifies this`productList
      ensures productList == ProductLabels(db.products.rows)
    {
      productList := FillList(db.products.rows, ProductLabel);
    }

    /** `refresh_payments`: clear the list box, then one line per payment row. */
    method RefreshPayments()
      modifies this`paymentList
      ensures paymentList == PaymentLabels(db.payments.rows)
    {
      paymentList := FillList(db.payments.rows, PaymentLabel);
    }

    /** `add_user`: rejected when any field is empty; otherwise exactly one user row is added,
        carrying the three values, with any role text. */
    method AddUser(name: string, role: string, password: string) returns (outcome: Outcome)
      requires Valid()
      modifies this`db, this`userList
      ensures Valid()
      ensures outcome.Done? <==> name != [] && role != [] && password != []
      ensures outcome.Failed? ==> outcome.error == Required && db == old(db) && userList == old(userList)
      ensures outcome.Done? ==> db == old(db).(users := Insert(old(db).users, UserRecord(name, role, password)))
    {
      if name == [] || role == [] || password == [] {
        return Failed(Required);
      }
      db := db.(users := Insert(db.users, UserRecord(name, role, password)));
      LoadUsers();
      outcome := Done;
    }

    /** `delete_user`: without a selection nothing changes; otherwise the row whose id the
        selected line starts with is removed, every other row of every table stays, and the
        id counter is kept so the id is never handed out again. */
    method DeleteUser(selection: Option<nat>) returns (outcome: Outcome)
      requires Valid()
      requires selection.Some? ==> selection.value < |userList|
      modifies this`db, this`userList
      ensures Valid()
      ensures outcome == if selection.None? then Failed(NoSelection) else Done
      ensures selection.None? ==> db == old(db) && userList == old(userList)
      ensures selection.Some? ==>
        var i, users := selection.value, old(db).users;
        db == old(db).(users := Table(users.rows[..i] + users.rows[i + 1..], users.last))
    {
      if selection.None? {
        return Failed(NoSelection);
      }
      var i := selection.value;
      var key := LabelKey(userList[i]);
      ListedUserKey(db.users.rows, i);
      DeleteRowByItsKey(db.users.rows, i);
      DeletePreservesValid(db.users, key);
      db := db.(users := Table(DeleteKey(db.users.rows, key), db.users.last));
      LoadUsers();
      outcome := Done;
    }

    /** `add_product`: a price or stock that does not parse, an empty name or a negative
        price or stock is rejected; zero price and zero stock are accepted. A stock beyond 64
        bits makes the INSERT raise. Only a successful call adds a row. */
    method AddProduct(name: string, price: Option<real>, stockText: string) returns (outcome: Outcome)
      requires Valid()
      modifies this`db, this`productList
      ensures Valid()
      ensures outcome == ProductOutcome(name, price, ParseInt(stockText))
      ensures outcome.Failed? ==> db == old(db) && productList == old(productList)
      ensures outcome.Done? ==>
        db == old(db).(products := Insert(old(db).products,
                                          ProductRecord(name, price.value, ParseInt(stockText).value)))
    {
      var stock := ParseInt(stockText);
      if price.None? || stock.None? {
        return Failed(NotNumeric);
      }
      if name == [] || price.value < 0.0 || stock.value < 0 {
        return Failed(Required);
      }
      if !FitsInt64(stock.value) {
        return Failed(OutOfRange);
      }
      db := db.(products := Insert(db.products, ProductRecord(name, price.value, stock.value)));
      LoadProducts();
      outcome := Done;
    }

    /** `delete_product`: as `delete_user`, on the products table; orders that name the
        product are left in place. */
    method DeleteProduct(selection: Option<nat>) returns (outcome: Outcome)
      requires Valid()
      requires selection.Some? ==> selection.value < |productList|
      modifies this`db, this`productList
      ensures Valid()
      ensures outcome == if selection.None? then Failed(NoSelection) else Done
      ensures selection.None? ==> db == old(db) && productList == old(productList)
      ensures selection.Some? ==>
        var i, products := selection.value, old(db).products;
        db == old(db).(products := Table(products.rows[..i] + products.rows[i + 1..], products.last))
    {
      if selection.None? {
        return Failed(NoSelection);
      }
      var i := selection.value;
      var key := LabelKey(productList[i]);
      ListedProductKey(db.products.rows, i);
      DeleteRowByItsKey(db.products.rows, i);
      DeletePreservesValid(db.products, key);
      db := db.(products := Table(DeleteKey(db.products.rows, key), db.products.last));
      LoadProducts();
      outcome := Done;
    }

    /** `record_payment`: a payment row is added only when the order id parses, is non-zero
        and names an existing order and the amount parses and is non-zero (negative amounts
        pass); on success the payment list shows every payment. */
    method RecordPayment(orderText: string, amount: Option<real>) returns (outcome: Outcome)
      requires Valid()
      modifies this`db, this`paymentList
      ensures Valid()
      ensures outcome == PaymentOutcome(old(db).orders.rows, ParseInt(orderText), amount)
      ensures outcome.Failed? ==> db == old(db) && paymentList == old(paymentList)
      ensures outcome.Done? ==>
        && db == old(db).(payments := Insert(old(db).payments,
                                             PaymentRecord(ParseInt(orderText).value, amount.value)))
        && paymentList == PaymentLabels(db.payments.rows)
    {
      var orderId := ParseInt(orderText);
      if orderId.None? || amount.None? {
        return Failed(NotNumeric);
      }
      if orderId.value == 0 || amount.value == 0.0 {
        return Failed(Required);
      }
      if !FitsInt64(orderId.value) {
        return Failed(OutOfRange);
      }
      var order := Lookup(db.orders.rows, orderId.value);
      if order.None? {
        return Failed(UnknownOrder);
      }
      db := db.(payments := Insert(db.payments, PaymentRecord(orderId.value, amount.value)));
      RefreshPayments();
      outcome := Done;
    }
  }

  // ---------------------------------------------------------------------------------
  // Properties

  /** `add_product` accepts exactly the inputs that parse, have a name, a price and a stock
      that are not negative, and a stock that fits an SQLite INTEGER. */
  lemma ProductAccepted(name: string, price: Option<real>, stockText: string)
    ensures ProductOutcome(name, price, ParseInt(stockText)) == Done <==>
      && price.Some? && ParseInt(stockText).Some?
      && name != [] && price.value >= 0.0
      && 0 <= ParseInt(stockText).value <= MaxInt64
  {
  }

  /** A stock written with 4301 digits (4300 zeros, then 5) is refused as not a number,
      before any range check, as Python's `int()` refuses it. */
  lemma LongStockRejected(name: string, price: Option<real>)
    ensures ProductOutcome(name, price, ParseInt(seq(4300, _ => '0') + "5")) == Failed(NotNumeric)
  {
    var d := seq(4300, _ => '0') + "5";
    assert forall i :: 0 <= i < |d| ==> IsDigit(d[i]);
    DigitCountOfDigits(d);
    ParseIntDigitLimit(d);
  }

  /** A stock text with a separator character before its digits, such as `"\x1c5"`, is
      refused as not a number: `int()` does not skip U+001C to U+001F. */
  lemma SeparatorStockRejected(name: string, price: Option<real>)
    ensures ProductOutcome(name, price, ParseInt("\U{1C}5")) == Failed(NotNumeric)
  {
    ParseIntRefusesSeparators();
  }

  /** `record_payment` accepts exactly a non-zero order id of an existing order and a non-zero
      amount of either sign. */
  lemma PaymentAccepted(orders: seq<Row<OrderRecord>>, orderText: string, amount: Option<real>)
    requires forall i :: 0 <= i < |orders| ==> FitsInt64(orders[i].id)
    ensures PaymentOutcome(orders, ParseInt(orderText), amount) == Done <==>
      && ParseInt(orderText).Some? && amount.Some?
      && ParseInt(orderText).value != 0 && amount.value != 0.0
      && exists i :: 0 <= i < |orders| && orders[i].id == ParseInt(orderText).value
  {
  }
}
