/** The four tables `create_tables` declares (users, products, orders, payments), as the
    connection sees them: each table is its rows in rowid order plus the table's entry in
    `sqlite_sequence`, the largest id AUTOINCREMENT has ever handed out. Foreign keys are
    declared in the schema but never switched on, so nothing here checks them. */
module Schema {
  import opened Text

  /** A row: the storage-assigned `id INTEGER PRIMARY KEY AUTOINCREMENT` and the other columns. */
  datatype Row<D> = Row(id: int, fields: D)

  datatype Table<D> = Table(rows: seq<Row<D>>, last: int)
  {
    /** Ids are positive, never above the sequence counter, and ascending in row order. */
    predicate Valid() {
      && 0 <= last
      && (forall i :: 0 <= i < |rows| ==> 0 < rows[i].id <= last)
      && Ascending(rows)
    }
  }

  predicate Ascending<D>(rows: seq<Row<D>>) {
    forall i, j :: 0 <= i < j < |rows| ==> rows[i].id < rows[j].id
  }

  datatype UserRecord = UserRecord(name: string, role: string, password: string)
  datatype ProductRecord = ProductRecord(name: string, price: real, stock: int)
  datatype OrderRecord = OrderRecord(userId: int, productId: int, quantity: int)
  datatype PaymentRecord = PaymentRecord(orderId: int, amount: real)

  datatype Database = Database(
    users: Table<UserRecord>,
    products: Table<ProductRecord>,
    orders: Table<OrderRecord>,
    payments: Table<PaymentRecord>)
  {
    predicate Valid() {
      users.Valid() && products.Valid() && orders.Valid() && payments.Valid()
    }
  }

  /** Range of an SQLite INTEGER; Python's sqlite3 refuses to bind an int outside it. */
  const MinInt64: int := -0x8000_0000_0000_0000
  const MaxInt64: int := 0x7FFF_FFFF_FFFF_FFFF

  predicate FitsInt64(n: int) { MinInt64 <= n <= MaxInt64 }

  /** `create_tables` run against a new database file: four empty tables. */
  function EmptyDatabase(): (db: Database)
    ensures db.Valid()
    ensures db.users.rows == [] && db.products.rows == [] && db.orders.rows == [] && db.payments.rows == []
  {
    Database(Table([], 0), Table([], 0), Table([], 0), Table([], 0))
  }

  /** `INSERT` into an AUTOINCREMENT table: the new row goes last, and its id is one past the
      largest id the table has ever issued, so it exceeds every id present or deleted. */
  function Insert<D>(t: Table<D>, d: D): (r: Table<D>)
    ensures |r.rows| == |t.rows| + 1 && r.rows[..|t.rows|] == t.rows
    ensures r.rows[|t.rows|] == Row(t.last + 1, d)
    ensures r.last == r.rows[|t.rows|].id && r.last > t.last
    ensures t.Valid() ==> r.Valid()
    ensures t.Valid() ==> forall i :: 0 <= i < |t.rows| ==> t.rows[i].id < r.rows[|t.rows|].id
  {
    Table(t.rows + [Row(t.last + 1, d)], t.last + 1)
  }

  /** `DELETE FROM t WHERE id = key` where `key` is the id as text: the rows whose id is
      written `key` go, the others stay in their order. */
  function DeleteKey<D>(rows: seq<Row<D>>, key: string): (r: seq<Row<D>>)
    ensures |r| <= |rows|
  {
    if rows == [] then []
    else (if IntToString(rows[0].id) == key then [] else [rows[0]]) + DeleteKey(rows[1..], key)
  }

  /** The rows whose id is not `id`, in their order. */
  function DeleteId<D>(rows: seq<Row<D>>, id: int): (r: seq<Row<D>>)
    ensures |r| <= |rows|
  {
    if rows == [] then []
    else (if rows[0].id == id then [] else [rows[0]]) + DeleteId(rows[1..], id)
  }

  /** `SELECT * FROM t WHERE id = ?` followed by `fetchone()`: the row with that id, if any. */
  function Lookup<D>(rows: seq<Row<D>>, id: int): (r: Option<Row<D>>)
    ensures r.Some? <==> exists i :: 0 <= i < |rows| && rows[i].id == id
    ensures r.Some? ==> r.value in rows && r.value.id == id
  {
    if rows == [] then None
    else if rows[0].id == id then Some(rows[0])
    else Lookup(rows[1..], id)
  }

  // ---------------------------------------------------------------------------------
  // Properties

  /** Every row a deletion keeps was there before, and its id text differs from the key. */
  lemma {:induction false} DeleteKeyKeptRows<D>(rows: seq<Row<D>>, key: string)
    ensures forall i :: 0 <= i < |DeleteKey(rows, key)| ==>
      DeleteKey(rows, key)[i] in rows && IntToString(DeleteKey(rows, key)[i].id) != key
  {
    if rows != [] {
      var head := if IntToString(rows[0].id) == key then [] else [rows[0]];
      var tail := DeleteKey(rows[1..], key);
      var r := DeleteKey(rows, key);
      assert r == head + tail;
      DeleteKeyKeptRows(rows[1..], key);
      forall i | 0 <= i < |r| ensures r[i] in rows && IntToString(r[i].id) != key {
        if i < |head| {
          assert r[i] == rows[0];
        } else {
          var j := i - |head|;
          assert r[i] == tail[j];
          var k :| 0 <= k < |rows[1..]| && rows[1..][k] == tail[j];
          assert rows[k + 1] == r[i];
        }
      }
    }
  }

  /** Every row whose id text differs from the key survives a deletion. */
  lemma {:induction false} DeleteKeyKeepsOthers<D>(rows: seq<Row<D>>, key: string)
    ensures forall i :: 0 <= i < |rows| && IntToString(rows[i].id) != key ==> rows[i] in DeleteKey(rows, key)
  {
    if rows != [] {
      var head := if IntToString(rows[0].id) == key then [] else [rows[0]];
      var tail := DeleteKey(rows[1..], key);
      var r := DeleteKey(rows, key);
      assert r == head + tail;
      DeleteKeyKeepsOthers(rows[1..], key);
      forall i | 0 <= i < |rows| && IntToString(rows[i].id) != key ensures rows[i] in r {
        if i == 0 {
          assert r[0] == rows[0];
        } else {
          assert rows[1..][i - 1] == rows[i];
          var k :| 0 <= k < |tail| && tail[k] == rows[i];
          assert r[|head| + k] == rows[i];
        }
      }
    }
  }

  /** Deleting by the text of an id removes exactly the rows carrying that id. */
  lemma {:induction false} DeleteKeyOfId<D>(rows: seq<Row<D>>, id: int)
    ensures DeleteKey(rows, IntToString(id)) == DeleteId(rows, id)
  {
    if rows != [] {
      IntToStringInjective(rows[0].id, id);
      DeleteKeyOfId(rows[1..], id);
    }
  }

  /** Removing an id that no row carries changes nothing. */
  lemma {:induction false} DeleteAbsentId<D>(rows: seq<Row<D>>, id: int)
    requires forall i :: 0 <= i < |rows| ==> rows[i].id != id
    ensures DeleteId(rows, id) == rows
  {
    if rows != [] {
      DeleteAbsentId(rows[1..], id);
      assert [rows[0]] + rows[1..] == rows;
    }
  }

  /** When no other row carries the id of row `i`, removing that id removes row `i` alone. */
  lemma {:induction false} DeleteIdAt<D>(rows: seq<Row<D>>, i: int)
    requires 0 <= i < |rows|
    requires forall j :: 0 <= j < |rows| && j != i ==> rows[j].id != rows[i].id
    ensures DeleteId(rows, rows[i].id) == rows[..i] + rows[i + 1..]
  {
    var tail := rows[1..];
    if i == 0 {
      DeleteAbsentId(tail, rows[0].id);
    } else {
      assert tail[i - 1] == rows[i];
      forall j | 0 <= j < |tail| && j != i - 1 ensures tail[j].id != tail[i - 1].id {
        assert tail[j] == rows[j + 1];
      }
      DeleteIdAt(tail, i - 1);
      assert DeleteId(rows, rows[i].id) == [rows[0]] + (tail[..i - 1] + tail[i..]);
      assert tail[..i - 1] == rows[1..i] && tail[i..] == rows[i + 1..];
      assert rows[..i] == [rows[0]] + rows[1..i];
    }
  }

  /** In a table whose ids are ascending, deleting by the text of the id of row `i` removes
      exactly row `i` and keeps every other row, in order. */
  lemma DeleteRowByItsKey<D>(rows: seq<Row<D>>, i: int)
    requires 0 <= i < |rows|
    requires Ascending(rows)
    ensures DeleteKey(rows, IntToString(rows[i].id)) == rows[..i] + rows[i + 1..]
  {
    DeleteKeyOfId(rows, rows[i].id);
    DeleteIdAt(rows, i);
  }

  /** Deletion keeps the surviving rows in ascending id order. */
  lemma {:induction false} DeleteKeepsAscending<D>(rows: seq<Row<D>>, key: string)
    requires Ascending(rows)
    ensures Ascending(DeleteKey(rows, key))
  {
    if rows != [] {
      var tail := DeleteKey(rows[1..], key);
      DeleteKeepsAscending(rows[1..], key);
      DeleteKeyKeptRows(rows[1..], key);
      forall j | 0 <= j < |tail| ensures rows[0].id < tail[j].id {
        var k :| 0 <= k < |rows[1..]| && rows[1..][k] == tail[j];
        assert rows[k + 1] == tail[j];
      }
    }
  }

  /** Ids are never reused: after any deletion, the next insert gets an id above every id the
      table held before the deletion. */
  lemma IdsNeverReused<D>(t: Table<D>, key: string, d: D)
    requires t.Valid()
    ensures var r := Insert(Table(DeleteKey(t.rows, key), t.last), d);
      forall i :: 0 <= i < |t.rows| ==> t.rows[i].id < r.rows[|r.rows| - 1].id
  {
  }

  /** Removing rows keeps a table valid, and the sequence counter is left as it was: ids of
      deleted rows are never handed out again. */
  lemma DeletePreservesValid<D>(t: Table<D>, key: string)
    requires t.Valid()
    ensures Table(DeleteKey(t.rows, key), t.last).Valid()
  {
    DeleteKeepsAscending(t.rows, key);
    DeleteKeyKeptRows(t.rows, key);
  }
}
