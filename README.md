# Point-of-sale record store in Dafny

A model of the point-of-sale desktop application (`Main.py`, `order.py`), which keeps its
users, products, orders and payments in SQLite. Its logic is a small record store:

- four AUTOINCREMENT tables (`create_tables`);
- user and product managers that validate the entry fields and then insert or delete one row;
- a payment recorder that first checks that the order exists;
- an order tab that stages text lines built from two dropdowns and a quantity, then decodes
  them and inserts one order row per line.

Modules, one per concern:

- `Text` (text.dfy): the Python text primitives the code relies on.
  - `str()` of an int.
  - `int()` of a string: surrounding whitespace, sign, digits and underscores, and Python's
    default limit of 4300 digits per integer text (leading zeros count, underscores and the
    sign do not). The whitespace `int()` skips is the `str.isspace()` set without the four
    separators U+001C to U+001F, which `int()` refuses but `strip()` removes.
  - `str.strip()`.
  - `str.split(sep)`, with its inverse `join`.
- `Schema` (schema.dfy): the four tables.
  - Each table is its rows in rowid order plus the AUTOINCREMENT counter (`sqlite_sequence`).
  - INSERT, DELETE by the id's text, and SELECT by id.
- `Listings` (listings.dfy): the list-box lines of the main window, including the `:.2f` money
  format, and the key (`line.split(":")[0]`) that the delete buttons read back from a line.
- `OrderLines` (order_lines.dfy): the order tab's text formats.
  - The dropdown entries `"{id}: {name}"`.
  - The staged line `"User: {u}, Product: {p}, Quantity: {q}"`.
  - The comprehension that decodes a line.
  - The batch insert.
- `LegacyOrders` (legacy_orders.dfy): the main window's own staging line and `parse_order`.
  No button reaches them.
- `PosApp` (pos_app.dfy): class `POSApp`.
  - Its fields are the connection's view of the database, the three list boxes, the two order
    dropdowns and the staging list.
  - Its methods are the buttons of the user, product and payment tabs.
- `OrderTab` (order_tab.dfy): `add_order` and `place_order` of `order.py`, as methods on a
  `POSApp`.

Text typed into entry fields is a parameter of each method. A list-box selection is an
optional index. Each error message box is a returned `Failed(error)` outcome; success is
`Done`. `float()` is not modelled: a price or an amount arrives as `Option<real>`, where
`None` is the ValueError.

Where the documented design and the code differ, the model follows the code:

- A role is any non-empty text. The role combobox is editable, and nothing restricts it to
  Admin or Staff (Main.py:89, Main.py:109).
- A staged quantity is any integer, including zero and negatives (order.py:56).
- `place_order` does not check that the user or product exists. Foreign keys are declared but
  never switched on.
- `place_order` does not roll back. At the first line that raises, the rows already inserted
  stay in the connection's view. The staging list is kept, and the loop stops.
- `record_payment` rejects an order id of 0 and an amount of 0.0, through Python truthiness,
  but accepts negative amounts.
- The order dropdowns are loaded once, when the app starts (order.py:36-37). Users and products
  added or deleted later do not appear in them or leave them, and the model keeps them as loaded.

## Model

| member | source | states |
|---|---|---|
| `Schema.EmptyDatabase` | Main.py:40-76 | creating the tables in a new file gives four empty, well-formed tables |
| `Schema.Insert` | Main.py:42-76 | an INSERT keeps every row and appends one row carrying the given values, with an id one past the counter (`Row(last + 1, d)`); that id exceeds every id present, and the table stays well formed |
| `Schema.IdsNeverReused` | Main.py:44 | after any deletion, the next inserted id is above every id the table held before it: ids of deleted rows never come back |
| `Schema.Lookup` | Main.py:257-259 | `SELECT * ... WHERE id = ?` finds a row exactly when some row carries that id, and the row found carries it |
| `Schema.DeleteKey` | Main.py:126 | `DELETE FROM t WHERE id = key`: drops the rows whose id text is the key, keeping the others in order |
| `Schema.DeleteKeyKeptRows` | Main.py:126 | every row `DELETE ... WHERE id = key` keeps was in the table and has an id whose text differs from the key |
| `Schema.DeleteKeyKeepsOthers` | Main.py:126 | every row whose id text differs from the key survives `DELETE ... WHERE id = key` |
| `Schema.DeleteRowByItsKey` | Main.py:124-126 | in a table with ascending ids, deleting by the text of row i's id removes row i alone and keeps the other rows in order |
| `Schema.DeleteKeepsAscending` | Main.py:126 | deletion keeps the remaining ids ascending |
| `Schema.DeletePreservesValid` | Main.py:126 | deletion keeps a table well formed and keeps its counter |
| `Text.IntToString` | Main.py:135 | `str()` of an int is non-empty digits, with a leading minus exactly for negatives |
| `Text.ParseInt` | Main.py:167 | `int(s)`: skips surrounding whitespace other than U+001C to U+001F, then reads an optional sign and decimal digits with single underscores between digits; anything else, or more than 4300 digits, is the ValueError (None) |
| `Text.ParseIntDigitLimit` | Main.py:167 | a digit string is accepted exactly when it has at most 4300 digits, leading zeros included, and then yields its value |
| `Text.ParseIntWithinLimit` | order.py:54-56 | every integer `int()` returns has at most 4300 digits, so `str()` can write it back |
| `Text.FitsInt64WithinLimit` | Main.py:42-76 | every 64-bit INTEGER has at most 4300 digits |
| `Text.ParseIntOfIntToString` | order.py:54-56 | `int(str(n)) == n` for every integer `str()` can write |
| `Text.ParseIntOfLongIntToString` | order.py:68 | `int()` refuses the text of a number with more than 4300 digits |
| `Text.ParseIntOfSpacedIntToString` | order.py:68 | `int(" " + str(n)) == n`: `int()` skips the blank after a colon |
| `Text.Strip` | Main.py:237-239 | `s.strip()`: whitespace removed at both ends |
| `Text.StripLeftSuffix` | Main.py:237-239 | the left strip keeps the longest suffix not starting with whitespace and drops only whitespace |
| `Text.StripRightPrefix` | Main.py:237-239 | the right strip keeps the longest prefix not ending in whitespace and drops only whitespace |
| `Text.StripSlice` | Main.py:237-239 | `strip()` returns a slice of its argument whose surroundings are all whitespace and whose ends are not |
| `Text.ParseIntRefusesSeparators` | Main.py:167 | `int()` refuses a digit padded with U+001C or U+001F, which `strip()` removes, and skips a blank and a line feed |
| `Text.Split` | order.py:68 | `s.split(sep)`: the pieces between the occurrences of `sep`, scanning left to right; at least one piece |
| `Text.StripOfIntToString` | Main.py:237-239 | `strip()` leaves integer text alone and removes one leading blank |
| `Text.IntToStringInjective` | Main.py:124-126 | two ids have the same text exactly when they are equal |
| `Text.SplitAfterFirst` | Main.py:125 | when the first part holds no separator, `split` returns that part first and then the pieces of the rest |
| `Text.JoinSplit` | order.py:68 | joining the pieces of a `split` with the separator gives back the text |
| `Listings.RoundHalfEven` | Main.py:198 | the cents are the nearest whole number, with ties going to the even neighbour |
| `Listings.UserLabel` | Main.py:135 | the user line `"{id}: {name} ({role})"` |
| `Listings.ProductLabel` | Main.py:198 | the product line `"{id}: {name} - ${price:.2f} (Stock: {stock})"` |
| `Listings.PaymentLabel` | Main.py:277 | the payment line `"Payment ID: {id}, Order ID: {order_id}, Amount: ${amount:.2f}"` |
| `Listings.Money` | Main.py:198 | `f"{x:.2f}"`: sign, whole part, point and two decimals of the value rounded to cents |
| `Listings.LabelKey` | Main.py:125 | `line.split(":")[0]`, the key the delete buttons read from the selected line |
| `Listings.MoneyShape` | Main.py:198 | a `:.2f` text has a minus exactly for negative values, then digits, a point and two decimals |
| `Listings.CentsTextDigits` | Main.py:198 | the whole part and the two decimals of a cents text, read back, give that number of cents |
| `Listings.MoneyDigits` | Main.py:198 | the digits of a `:.2f` text are the value's magnitude in cents, rounded half to even, so within half a cent of it |
| `Listings.KeyOfIdPrefixed` | Main.py:125 | the key of a line starting with an id and a colon is that id's text, whatever follows |
| `Listings.UserLabelKey` | Main.py:125-135 | the key of a user line is the user's id, whatever the name and role contain |
| `Listings.ProductLabelKey` | Main.py:188-198 | the key of a product line is the product's id, whatever the name contains |
| `Listings.ListedUserKey` | Main.py:124-125 | line i of the user list box has the id of user row i as its key |
| `Listings.ListedProductKey` | Main.py:187-188 | line i of the product list box has the id of product row i as its key |
| `OrderLines.ChoiceLabel` | order.py:42 | a dropdown entry `"{id}: {name}"` |
| `OrderLines.UserChoices` | order.py:41-43 | the user dropdown: one entry per user row, in row order |
| `OrderLines.ProductChoices` | order.py:47-49 | the product dropdown: one entry per product row, in row order |
| `OrderLines.ChoiceId` | order.py:54 | `int(entry.split(":")[0])`, None on ValueError |
| `OrderLines.EncodeLine` | order.py:61 | the staged line `"User: {u}, Product: {p}, Quantity: {q}"` |
| `OrderLines.FieldValue` | order.py:68 | `int(value.split(":")[1])`, None on IndexError or ValueError |
| `OrderLines.FieldValues` | order.py:67-69 | the list comprehension: every field's value, None if one raises |
| `OrderLines.DecodeLine` | order.py:67-69 | the comprehension over `line.split(", ")` unpacked into exactly three values, None where that raises |
| `OrderLines.PlaceLine` | order.py:67-73 | decode, then bind to the INSERT; None where either raises, including a value beyond 64 bits |
| `OrderLines.InsertLines` | order.py:70-73 | one `INSERT INTO orders` per decoded line, in order |
| `OrderLines.ChoiceIdOfLabel` | order.py:54-55 | `int(entry.split(":")[0])` gives back the id of a dropdown entry, even when the name holds colons |
| `OrderLines.UserChoiceIds` | order.py:41-43 | entry k of the user dropdown selects the id of user row k, ids being 64-bit INTEGERs |
| `OrderLines.ProductChoiceIds` | order.py:47-49 | entry k of the product dropdown selects the id of product row k, ids being 64-bit INTEGERs |
| `OrderLines.FieldValueOfField` | order.py:68 | a field `"{name}: {n}"` whose name has no colon reads back as n, and fails when n has more than 4300 digits |
| `OrderLines.FieldValuesAll` | order.py:67-69 | the comprehension succeeds exactly when every field has a value, and then lists the values in order |
| `OrderLines.DecodeEncodeLine` | order.py:61-69 | decoding a staged line gives back its user id, product id and quantity, negatives included; a line holding a number beyond the digit limit fails to decode |
| `OrderLines.PlaceEncodedLine` | order.py:67-73 | a staged line is inserted exactly when its three values fit a 64-bit INTEGER |
| `OrderLines.TakeWhileSome` | order.py:66-73 | the loop gets through the longest prefix of lines that succeed, and the next line fails |
| `OrderLines.TakeWhileSomeStops` | order.py:66-78 | any prefix of successes that ends at the end of the list or at a failure is the prefix the loop gets through |
| `OrderLines.PlacedPrefixOfStaged` | order.py:66-73 | when every staged order fits, the loop gets through every line and inserts exactly those orders |
| `OrderLines.InsertLinesRows` | order.py:70-73 | a batch keeps the old rows, appends one row per line in order with consecutive fresh ids, and keeps the table well formed |
| `LegacyOrders.LegacyLine` | Main.py:216 | the line the main window would stage, `"User: {user}, Product: {product}, Quantity: {quantity}"` with whole dropdown entries |
| `LegacyOrders.ParseOrder` | Main.py:235-242 | `parse_order`: the integers after the first colon of the first three comma-separated parts, first blank-separated word for the ids; None where Python raises |
| `LegacyOrders.AfterColonOfInt` | Main.py:239 | `part.split(":")[1].strip()` of `"{name}: {n}"` is the text of n |
| `LegacyOrders.AfterColonOfChoice` | Main.py:237-238 | the same for `"{name}: {id}: {rest}"`: the text of the id, whatever rest holds |
| `LegacyOrders.ParseOrderOfParts` | Main.py:235-242 | `parse_order` returns the three integers found after the first colon of the first three comma-separated parts, when each is within the digit limit |
| `LegacyOrders.ParseOrderOfLegacyLine` | Main.py:235-242 | `parse_order` of the line built at Main.py:216 from two dropdown entries gives back the user id, product id and quantity when neither name has a comma and every number is one `str()` can write |
| `LegacyOrders.ParseOrderMisreadsCommaInName` | Main.py:235-242 | a user name `"{first},{second}: {n}"` shifts the parts: the line is read back with product id n and quantity equal to the product id |
| `PosApp.ProductOutcome` | Main.py:165-176 | what `add_product` does with its inputs: not a number, then empty name or negative price or stock, then a stock beyond 64 bits, else accepted |
| `PosApp.PaymentOutcome` | Main.py:246-262 | what `record_payment` does: not a number, then a zero id or amount, then an id beyond 64 bits, then an unknown order, else accepted |
| `PosApp.ProductAccepted` | Main.py:165-176 | `add_product` accepts exactly a price and stock that parse (the stock within the 4300-digit limit), a non-empty name, a price that is not negative and a stock from 0 to the 64-bit maximum |
| `PosApp.LongStockRejected` | Main.py:166-170 | a stock text of 4300 zeros and a 5 is refused as not a number, whatever the name and price |
| `PosApp.SeparatorStockRejected` | Main.py:166-170 | a stock text `"\x1c5"` is refused as not a number, whatever the name and price |
| `PosApp.PaymentAccepted` | Main.py:246-261 | `record_payment` accepts exactly an order id that parses (within the 4300-digit limit), is non-zero and names an existing order, with an amount that parses and is non-zero |
| `PosApp.POSApp.constructor` | Main.py:9-38 | opening the app fills the user and product list boxes and the order dropdowns from the stored tables; the staging and payment lists start empty |
| `PosApp.FillList` | Main.py:130-135 | a cleared list box filled row by row holds exactly one line per row, in row order |
| `PosApp.POSApp.LoadUsers` | Main.py:130-135 | the user list box becomes one line per user row, in row order |
| `PosApp.POSApp.LoadProducts` | Main.py:193-198 | the product list box becomes one line per product row, in row order |
| `PosApp.POSApp.RefreshPayments` | Main.py:272-277 | the payment list box becomes one line per payment row, in row order |
| `PosApp.POSApp.AddUser` | Main.py:103-115 | an empty name, role or password changes nothing; otherwise one user row with those values is appended, whatever the role, and nothing else changes |
| `PosApp.POSApp.DeleteUser` | Main.py:117-128 | no selection changes nothing; otherwise exactly the selected user row goes, the counter stays, and products, orders and payments are untouched |
| `PosApp.POSApp.AddProduct` | Main.py:162-178 | three kinds of rejection, each changing nothing; otherwise one product row is appended, price 0 and stock 0 included |
| `PosApp.POSApp.DeleteProduct` | Main.py:180-191 | no selection changes nothing; otherwise exactly the selected product row goes, and orders naming it stay |
| `PosApp.POSApp.RecordPayment` | Main.py:244-270 | a payment row is appended only under the conditions of `PaymentAccepted`, and every failing path changes nothing |
| `OrderTab.AddOrder` | order.py:51-61 | one line is appended to the staging list when both selections and the quantity parse (within the digit limit), any integer quantity included, and that line decodes back to those values; otherwise the list is unchanged; the tables are never touched |
| `OrderTab.InsertStaged` | order.py:66-73 | the loop inserts one order row per line of the longest successful prefix, in order, and reports whether it got through every line |
| `OrderTab.PlaceOrder` | order.py:63-78 | only the orders table changes; on success it gains one row per staged line and the staging list is emptied; on failure the list is kept and the rows inserted before the failing line remain |

## Left out

- The tkinter widgets, layout and event loop: `setup_user_tab`, `setup_product_tab`, `setup_order_tab`, the whole of `payment.py` and the `__main__` block. Message boxes become returned outcomes.
- Commits and transactions. `db` is what the connection sees, uncommitted inserts included. Whether a later `commit` persists the rows left by a failed `place_order` is not modelled.
- `float()`: price and amount arrive already parsed. `nan` and `inf` are not modelled; NaN would pass the `price < 0` test.
- Money is rounded from the exact real, not from a binary double.
- `int()` is modelled for ASCII digits only. Python also accepts other Unicode decimal digits.
- The digit limit is Python's default of 4300. Changing it through `PYTHONINTMAXSTRDIGITS` or `sys.set_int_max_str_digits` is not modelled.
- `str()` of a number beyond the digit limit raises in Python. `IntToString` writes any integer, but every number the application writes is a 64-bit id or a value `int()` returned, both within the limit (`FitsInt64WithinLimit`, `ParseIntWithinLimit`).
- SQLite's type affinity on `DELETE ... WHERE id = ?` with a text key. A row is deleted exactly when its id's decimal text equals the key. Keys read back from the list boxes are always such texts.
- The AUTOINCREMENT counter reaching the 64-bit maximum (SQLITE_FULL).
- Main.py's own `add_order` and `place_order` (Main.py:200-233). The order buttons are wired to order.py (order.py:28-29), so no button reaches them. Only their line format (Main.py:216) and `parse_order` are modelled.
- Password storage. Passwords are kept as given, in plain text.
- A list-box selection is at most one index into the list. Tk's single-selection list box gives that, and the code reads only `selection[0]`.

sqlite3 raises OverflowError when binding an int outside 64 bits: a stock in `add_product`, or an order id in `record_payment`. Neither method catches it. No message box appears; Tk prints a traceback and the database and list boxes stay as they were. The model returns this as the `OutOfRange` outcome, with every field unchanged. `place_order` catches the same error in its `except Exception` and reports `PlaceFailed`.
