/**
 * TransactionsService: recording a sale atomically, listing sales by
 * calendar day, reading one sale, and removing a sale with restocking.
 */
module Transactions {
  import opened Wrappers
  import opened Entities
  import opened Calendar
  import opened Ordering
  import opened Store
  import opened TransactionRequests
  import opened Sale

  /** A sale row with the line item rows that reference it. */
  datatype TransactionWithContents = TransactionWithContents(transaction: Transaction, contents: map<int, TransactionContents>)

  const SALE_STORED := "Venta Almacenada Correctamente"
  const SALE_REMOVED := "Transacción eliminada correctamente"

  /** The line item rows of sale `tid`, by id. */
  function ContentsOf(t: Tables, tid: int): (m: map<int, TransactionContents>)
    ensures forall cid :: cid in m <==> cid in t.contents && t.contents[cid].transactionId == tid
    ensures forall cid :: cid in m ==> m[cid] == t.contents[cid]
  {
    map cid | cid in t.contents && t.contents[cid].transactionId == tid :: t.contents[cid]
  }

  /** The line item rows a sale stores, keyed by id: ids `first`, `first + 1`, ... in item order, all under sale `tid`. */
  function NewRows(items: seq<TransactionContentsDto>, first: int, tid: int): map<int, TransactionContents>
  {
    if items == [] then map[]
    else
      var n := |items| - 1;
      NewRows(items[..n], first, tid)[first + n := ContentRows(items, first, tid)[n]]
  }

  /** The rows of a sale occupy exactly the ids `first` .. `first + |items| - 1`, row `k` holding item `k`. */
  lemma {:induction false} NewRowsShape(items: seq<TransactionContentsDto>, first: int, tid: int)
    ensures forall cid :: cid in NewRows(items, first, tid) <==> first <= cid < first + |items|
    ensures forall k :: 0 <= k < |items| ==> NewRows(items, first, tid)[first + k] == ContentRows(items, first, tid)[k]
    decreases |items|
  {
    if items != [] {
      var n := |items| - 1;
      NewRowsShape(items[..n], first, tid);
      forall k | 0 <= k < n ensures ContentRows(items[..n], first, tid)[k] == ContentRows(items, first, tid)[k] {
        assert items[..n][k] == items[k];
      }
    }
  }

  lemma NewRowsSnoc(items: seq<TransactionContentsDto>, i: nat, first: int, tid: int)
    requires i < |items|
    ensures NewRows(items[..i + 1], first, tid) == NewRows(items[..i], first, tid)[first + i := ContentRows(items, first, tid)[i]]
  {
    assert items[..i + 1][..i] == items[..i];
    assert items[..i + 1][i] == items[i];
    assert ContentRows(items[..i + 1], first, tid)[i] == ContentRows(items, first, tid)[i];
  }

  lemma UnionUpdate<V>(a: map<int, V>, b: map<int, V>, k: int, v: V)
    ensures (a + b)[k := v] == a + b[k := v]
  {
  }

  /** Staging row `i` extends the staged line item table by that row. */
  lemma StagedRowsStep(base: map<int, TransactionContents>, items: seq<TransactionContentsDto>, i: nat, first: int, tid: int)
    requires i < |items|
    ensures (base + NewRows(items[..i], first, tid))[first + i := ContentRows(items, first, tid)[i]]
      == base + NewRows(items[..i + 1], first, tid)
  {
    NewRowsSnoc(items, i, first, tid);
    UnionUpdate(base, NewRows(items[..i], first, tid), first + i, ContentRows(items, first, tid)[i]);
  }

  /** The tables once a sale with at least one line item is committed. */
  function Commit(t: Tables, pricing: Pricing, stocked: map<int, Product>, items: seq<TransactionContentsDto>, now: Millis): Tables
  {
    var tid, first := t.nextTransactionId, t.nextContentsId;
    t.(
      products := stocked,
      transactions := t.transactions[tid := Transaction(tid, pricing.total, pricing.coupon, pricing.discount, now)],
      contents := t.contents + NewRows(items, first, tid),
      nextTransactionId := tid + 1,
      nextContentsId := first + |items|)
  }

  /** Every new row has its own id as key, names sale `tid`, and names a product of `products` when every item does. */
  lemma NewRowsReferences(items: seq<TransactionContentsDto>, first: int, tid: int, products: map<int, Product>)
    requires forall k :: 0 <= k < |items| ==> items[k].productId in products
    ensures forall cid :: cid in NewRows(items, first, tid) ==>
      var row := NewRows(items, first, tid)[cid];
      row.id == cid && row.transactionId == tid && row.productId in products
  {
    var rows := NewRows(items, first, tid);
    NewRowsShape(items, first, tid);
    forall cid | cid in rows
      ensures rows[cid].id == cid && rows[cid].transactionId == tid && rows[cid].productId in products
    {
      var k := cid - first;
      assert rows[first + k] == ContentRows(items, first, tid)[k];
    }
  }

  /** A committed sale keeps the database consistent: its rows reference the new sale and existing products. */
  lemma CommitKeepsConsistent(t: Tables, pricing: Pricing, items: seq<TransactionContentsDto>, now: Millis)
    requires Consistent(t)
    requires Stock(t.products, items).Success?
    ensures Consistent(Commit(t, pricing, Stock(t.products, items).value, items, now))
  {
    var stocked := Stock(t.products, items).value;
    StockTakesQuantities(t.products, items);
    var tid, first := t.nextTransactionId, t.nextContentsId;
    NewRowsReferences(items, first, tid, t.products);
    var after := Commit(t, pricing, stocked, items, now);
    assert forall id :: id in after.products ==> after.products[id].id == id && after.products[id].categoryId in t.categories;
    var rows := NewRows(items, first, tid);
    NewRowsShape(items, first, tid);
    assert after.contents == t.contents + rows;
    forall cid | cid in after.contents
      ensures after.contents[cid].id == cid
      ensures after.contents[cid].productId in after.products
      ensures after.contents[cid].transactionId in after.transactions
      ensures 1 <= cid < after.nextContentsId
    {
      if cid in rows {
        assert after.contents[cid] == rows[cid];
      } else {
        assert after.contents[cid] == t.contents[cid];
      }
    }
  }

  /**
   * The tables after a sale, or the error that stops it. The coupon is
   * checked first, then the line items in order; a failure discards every
   * change. With no line items nothing is stored, since the sale row is
   * first saved together with the first line item.
   */
  function CreateOutcome(t: Tables, dto: CreateTransactionDto, now: Millis): (r: Result<Tables, HttpError>)
    requires Consistent(t)
    ensures r.Success? ==> Consistent(r.value)
    ensures r.Failure? ==> r.error.NotFound? || r.error.BadRequest? || r.error.UnprocessableEntity?
    ensures r.Success? <==> Price(t.coupons, dto, now).Success? && Stock(t.products, dto.contents).Success?
    ensures Price(t.coupons, dto, now).Failure? ==> r == Failure(Price(t.coupons, dto, now).error)
    ensures Price(t.coupons, dto, now).Success? && Stock(t.products, dto.contents).Failure? ==>
      r == Failure(Stock(t.products, dto.contents).error)
    ensures r.Success? && dto.contents == [] ==> r.value == t
  {
    match Price(t.coupons, dto, now)
    case Failure(e) => Failure(e)
    case Success(pricing) =>
      match Stock(t.products, dto.contents)
      case Failure(e) => Failure(e)
      case Success(stocked) =>
        if dto.contents == [] then Success(t)
        else
          CommitKeepsConsistent(t, pricing, dto.contents, now);
          Success(Commit(t, pricing, stocked, dto.contents, now))
  }

  /** The product, sale and line item tables as the database transaction sees them before it commits. */
  datatype WorkingCopy = WorkingCopy(
    products: map<int, Product>,
    transactions: map<int, Transaction>,
    contents: map<int, TransactionContents>)

  /**
   * One line item inside the database transaction: its product is looked up
   * in the working copy and refused when missing or short of stock, and
   * otherwise its inventory is decremented by the quantity.
   */
  method TakeItem(products: map<int, Product>, item: TransactionContentsDto) returns (r: Result<map<int, Product>, HttpError>)
    ensures r.Failure? <==> item.productId !in products || item.quantity > products[item.productId].inventory
    ensures r.Failure? ==> r.error == StockError(products, item)
    ensures r.Success? ==> r.value == Take(products, item)
  {
    if item.productId !in products || item.quantity > products[item.productId].inventory {
      return Failure(StockError(products, item));
    }
    var product := products[item.productId];
    r := Success(products[item.productId := product.(inventory := product.inventory - item.quantity)]);
  }

  /**
   * The loop over the line items inside the database transaction: each item's
   * product is looked up in the working copy, refused when missing or short
   * of stock, and otherwise decremented; the sale row and the item's row are
   * then saved into the copy.
   */
  method StageItems(t: Tables, items: seq<TransactionContentsDto>, sale: Transaction) returns (r: Result<WorkingCopy, HttpError>)
    ensures Stock(t.products, items).Failure? ==> r == Failure(Stock(t.products, items).error)
    ensures Stock(t.products, items).Success? ==>
      r == Success(WorkingCopy(
        Stock(t.products, items).value,
        if items == [] then t.transactions else t.transactions[sale.id := sale],
        t.contents + NewRows(items, t.nextContentsId, sale.id)))
  {
    var tid, first := sale.id, t.nextContentsId;
    var products, transactions, contents := t.products, t.transactions, t.contents;
    var i := 0;
    assert items[0..] == items;
    while i < |items|
      invariant 0 <= i <= |items|
      invariant Stock(products, items[i..]) == Stock(t.products, items)
      invariant i == 0 ==> transactions == t.transactions
      invariant i > 0 ==> transactions == t.transactions[tid := sale]
      invariant contents == t.contents + NewRows(items[..i], first, tid)
    {
      var taken := TakeItem(products, items[i]);
      StockStep(products, items, i);
      if taken.Failure? {
        assert Stock(t.products, items) == Failure(taken.error);
        return Failure(taken.error);
      }
      assert Stock(taken.value, items[i + 1..]) == Stock(t.products, items);
      products := taken.value;
      transactions := transactions[tid := sale];
      StagedRowsStep(t.contents, items, i, first, tid);
      contents := contents[first + i := ContentRows(items, first, tid)[i]];
      i := i + 1;
    }
    assert items[..|items|] == items && items[|items|..] == [];
    r := Success(WorkingCopy(products, transactions, contents));
  }

  /**
   * Records a sale: prices it, stages its line items on a working copy, and
   * commits the copy only when every item has passed, so any failure leaves
   * the database as it was.
   */
  method Create(db: Database, dto: CreateTransactionDto, now: Millis) returns (r: Result<string, HttpError>)
    requires Consistent(db.tables)
    modifies db
    ensures Consistent(db.tables)
    ensures var outcome := CreateOutcome(old(db.tables), dto, now);
      && (outcome.Failure? ==> r == Failure(outcome.error) && db.tables == old(db.tables))
      && (outcome.Success? ==> r == Success(SALE_STORED) && db.tables == outcome.value)
  {
    var t := db.tables;
    var pricing := Price(t.coupons, dto, now);
    if pricing.Failure? {
      return Failure(pricing.error);
    }
    var tid := t.nextTransactionId;
    var sale := Transaction(tid, pricing.value.total, pricing.value.coupon, pricing.value.discount, now);
    var staged := StageItems(t, dto.contents, sale);
    if staged.Failure? {
      assert CreateOutcome(t, dto, now) == Failure(staged.error);
      return Failure(staged.error);
    }
    if dto.contents != [] {
      var stocked := Stock(t.products, dto.contents).value;
      assert CreateOutcome(t, dto, now) == Success(Commit(t, pricing.value, stocked, dto.contents, now));
      db.tables := t.(
        products := staged.value.products,
        transactions := staged.value.transactions,
        contents := staged.value.contents,
        nextTransactionId := tid + 1,
        nextContentsId := t.nextContentsId + |dto.contents|);
    }
    r := Success(SALE_STORED);
  }

  /** A sale with its line item rows. */
  function WithContents(t: Tables, id: int): TransactionWithContents
    requires id in t.transactions
  {
    TransactionWithContents(t.transactions[id], ContentsOf(t, id))
  }

  /**
   * The sales with their line items. A date text that is present and not
   * empty restricts them to the closed window from the start to the end of
   * that day; `parseIso` stands for the date library's reading of the text.
   */
  function FindAll(t: Tables, transactionDate: Option<string>, parseIso: string -> Option<Millis>): (r: Result<map<int, TransactionWithContents>, HttpError>)
    ensures r.Failure? <==> transactionDate.Some? && transactionDate.value != "" && parseIso(transactionDate.value).None?
    ensures r.Failure? ==> r.error == BadRequestText("Fecha inválida")
    ensures (transactionDate.None? || transactionDate == Some("")) ==> r.Success? && r.value.Keys == t.transactions.Keys
    ensures r.Success? ==> forall id :: id in r.value ==> id in t.transactions && r.value[id] == WithContents(t, id)
  {
    if transactionDate.None? || transactionDate.value == "" then
      Success(map id | id in t.transactions :: WithContents(t, id))
    else
      match parseIso(transactionDate.value)
      case None => Failure(BadRequestText("Fecha inválida"))
      case Some(d) =>
        Success(map id | id in t.transactions && StartOfDay(d) <= t.transactions[id].transactionDate <= EndOfDay(d)
                  :: WithContents(t, id))
  }

  /** Filtering by a date returns exactly the sales made on the same calendar day as that date. */
  lemma FindAllSameDay(t: Tables, text: string, parseIso: string -> Option<Millis>)
    requires text != "" && parseIso(text).Some?
    ensures var r := FindAll(t, Some(text), parseIso);
      r.Success? && forall id :: id in r.value <==>
        id in t.transactions && StartOfDay(t.transactions[id].transactionDate) == StartOfDay(parseIso(text).value)
  {
    var d := parseIso(text).value;
    forall id | id in t.transactions
      ensures StartOfDay(d) <= t.transactions[id].transactionDate <= EndOfDay(d) <==>
        StartOfDay(t.transactions[id].transactionDate) == StartOfDay(d)
    {
      WithinDayWindow(t.transactions[id].transactionDate, d);
    }
  }

  function FindOne(t: Tables, id: int): (r: Result<TransactionWithContents, HttpError>)
    ensures r.Success? <==> id in t.transactions
    ensures r.Success? ==> r.value.transaction == t.transactions[id] && r.value.contents == ContentsOf(t, id)
    ensures r.Failure? ==> r.error == NotFoundText("Transacción no encontrada")
  {
    if id in t.transactions then Success(WithContents(t, id)) else Failure(NotFoundText("Transacción no encontrada"))
  }

  /** The line item rows of sale `tid` in increasing id order, the order in which removal visits them. */
  function RowsOf(t: Tables, tid: int): (rows: seq<TransactionContents>)
    ensures |rows| == |ContentsOf(t, tid).Keys|
    ensures forall k :: 0 <= k < |rows| ==> rows[k] == t.contents[AscendingIds(ContentsOf(t, tid).Keys)[k]]
  {
    var ids := AscendingIds(ContentsOf(t, tid).Keys);
    seq(|ids|, k requires 0 <= k < |ids| => t.contents[ids[k]])
  }

  /**
   * The rows of sale `tid`, as removal lists them, are rows of the table that
   * name that sale and existing products.
   */
  lemma RowsOfRows(t: Tables, tid: int)
    requires Consistent(t)
    ensures var rows := RowsOf(t, tid);
      forall k :: 0 <= k < |rows| ==>
        && rows[k].id == AscendingIds(ContentsOf(t, tid).Keys)[k]
        && rows[k].id in ContentsOf(t, tid)
        && t.contents[rows[k].id] == rows[k]
        && rows[k].transactionId == tid
        && rows[k].productId in t.products
  {
    var keys := ContentsOf(t, tid).Keys;
    var ids := AscendingIds(keys);
    var rows := RowsOf(t, tid);
    forall k | 0 <= k < |rows|
      ensures rows[k].id == ids[k] && rows[k].id in ContentsOf(t, tid) && t.contents[rows[k].id] == rows[k]
      ensures rows[k].transactionId == tid && rows[k].productId in t.products
    {
      assert ids[k] in ids;
      assert ids[k] in keys;
      assert rows[k] == t.contents[ids[k]];
    }
  }

  /** The tables after removing sale `id`: its line items restocked and deleted, then the sale deleted. */
  function RemoveOutcome(t: Tables, id: int): (r: Result<Tables, HttpError>)
    ensures r.Failure? <==> id !in t.transactions
    ensures r.Failure? ==> r.error == NotFoundText("Transacción no encontrada")
  {
    if id !in t.transactions then Failure(NotFoundText("Transacción no encontrada"))
    else
      Success(t.(
        products := Restock(t.products, RowsOf(t, id)),
        contents := t.contents - ContentsOf(t, id).Keys,
        transactions := t.transactions - {id}))
  }

  /** Removal keeps the database consistent and leaves neither the sale nor any of its line items. */
  lemma RemoveOutcomeConsistent(t: Tables, id: int)
    requires Consistent(t)
    ensures var r := RemoveOutcome(t, id);
      r.Success? ==> Consistent(r.value) && FindOne(r.value, id).Failure? && ContentsOf(r.value, id) == map[]
  {
    if id in t.transactions {
      RemoveKeepsConsistent(t, id);
    }
  }

  /** The successful outcome of removal, spelled out. */
  lemma RemoveOutcomeValue(t: Tables, id: int)
    requires id in t.transactions
    ensures RemoveOutcome(t, id) == Success(t.(
        products := Restock(t.products, RowsOf(t, id)),
        contents := t.contents - ContentsOf(t, id).Keys,
        transactions := t.transactions - {id}))
  {
  }

  lemma RemoveKeepsConsistent(t: Tables, id: int)
    requires Consistent(t)
    ensures var after := t.(
        products := Restock(t.products, RowsOf(t, id)),
        contents := t.contents - ContentsOf(t, id).Keys,
        transactions := t.transactions - {id});
      Consistent(after) && ContentsOf(after, id) == map[]
  {
    RestockKeepsRows(t.products, RowsOf(t, id));
    DeleteSaleKeepsConsistent(t, id, Restock(t.products, RowsOf(t, id)));
  }

  /** Deleting a sale with its rows, while products change only in inventory, keeps the database consistent. */
  lemma DeleteSaleKeepsConsistent(t: Tables, id: int, products: map<int, Product>)
    requires Consistent(t)
    requires products.Keys == t.products.Keys
    requires forall pid :: pid in products ==> products[pid] == t.products[pid].(inventory := products[pid].inventory)
    ensures var after := t.(
        products := products,
        contents := t.contents - ContentsOf(t, id).Keys,
        transactions := t.transactions - {id});
      Consistent(after) && ContentsOf(after, id) == map[]
  {
    RemainingRowsReferences(t, id);
  }

  /** Restocking changes inventories only. */
  lemma RestockKeepsRows(products: map<int, Product>, rows: seq<TransactionContents>)
    ensures var r := Restock(products, rows);
      forall pid :: pid in r ==> r[pid] == products[pid].(inventory := r[pid].inventory)
  {
    RestockAddsQuantities(products, rows);
  }

  /** Once the rows of sale `id` are gone, every remaining row names another sale. */
  lemma RemainingRowsReferences(t: Tables, id: int)
    requires Consistent(t)
    ensures var contents := t.contents - ContentsOf(t, id).Keys;
      forall cid :: cid in contents ==>
        contents[cid].transactionId in t.transactions - {id} && contents[cid].productId in t.products
  {
    var contents := t.contents - ContentsOf(t, id).Keys;
    forall cid | cid in contents
      ensures contents[cid].transactionId in t.transactions - {id}
    {
      assert cid !in ContentsOf(t, id);
    }
  }

  /** The ids of some line item rows. */
  ghost function RowIds(rows: seq<TransactionContents>): set<int>
  {
    if rows == [] then {} else RowIds(rows[..|rows| - 1]) + {rows[|rows| - 1].id}
  }

  lemma {:induction false} RowIdsMembers(rows: seq<TransactionContents>)
    ensures forall x :: x in RowIds(rows) <==> exists k :: 0 <= k < |rows| && rows[k].id == x
  {
    if rows != [] {
      var init := rows[..|rows| - 1];
      RowIdsMembers(init);
      forall x | x in RowIds(rows) ensures exists k :: 0 <= k < |rows| && rows[k].id == x {
        if x in RowIds(init) {
          var k :| 0 <= k < |init| && init[k].id == x;
          assert rows[k].id == x;
        } else {
          assert rows[|rows| - 1].id == x;
        }
      }
      forall x | exists k :: 0 <= k < |rows| && rows[k].id == x ensures x in RowIds(rows) {
        var k :| 0 <= k < |rows| && rows[k].id == x;
        if k < |rows| - 1 {
          assert init[k].id == x;
        }
      }
    }
  }

  /** Removal visits exactly the rows of the sale. */
  lemma RowIdsOfRowsOf(t: Tables, tid: int)
    requires Consistent(t)
    ensures RowIds(RowsOf(t, tid)) == ContentsOf(t, tid).Keys
  {
    var rows := RowsOf(t, tid);
    var ids := AscendingIds(ContentsOf(t, tid).Keys);
    RowsOfRows(t, tid);
    RowIdsMembers(rows);
    forall x | x in ContentsOf(t, tid).Keys ensures x in RowIds(rows) {
      var k :| 0 <= k < |ids| && ids[k] == x;
      assert rows[k].id == x;
    }
    forall x | x in RowIds(rows) ensures x in ContentsOf(t, tid).Keys {
      var k :| 0 <= k < |rows| && rows[k].id == x;
    }
  }

  /**
   * Puts each row back into stock and deletes it, in order, one write at a time.
   */
  method ReturnRows(db: Database, rows: seq<TransactionContents>)
    requires forall k :: 0 <= k < |rows| ==> rows[k].productId in db.tables.products
    modifies db
    ensures db.tables == old(db.tables).(
      products := Restock(old(db.tables.products), rows),
      contents := old(db.tables.contents) - RowIds(rows))
  {
    ghost var t := db.tables;
    var i := 0;
    assert rows[0..] == rows;
    while i < |rows|
      invariant 0 <= i <= |rows|
      invariant db.tables == t.(products := db.tables.products, contents := t.contents - RowIds(rows[..i]))
      invariant db.tables.products.Keys == t.products.Keys
      invariant Restock(db.tables.products, rows[i..]) == Restock(t.products, rows)
    {
      var row := rows[i];
      ghost var before := db.tables.products;
      RestockRow(db, row);
      RestockStep(before, rows, i);
      DeleteRow(db, row.id);
      assert rows[..i + 1][..i] == rows[..i];
      i := i + 1;
    }
    assert rows[|rows|..] == [];
    assert rows[..|rows|] == rows;
  }

  /** Adds a line item's quantity back to its product's inventory (one product row written). */
  method RestockRow(db: Database, row: TransactionContents)
    requires row.productId in db.tables.products
    modifies db
    ensures db.tables == old(db.tables).(products := Return(old(db.tables.products), row))
  {
    var product := db.tables.products[row.productId];
    db.tables := db.tables.(products := db.tables.products[row.productId := product.(inventory := product.inventory + row.quantity)]);
  }

  /** Deletes one line item row. */
  method DeleteRow(db: Database, cid: int)
    modifies db
    ensures db.tables == old(db.tables).(contents := old(db.tables.contents) - {cid})
  {
    db.tables := db.tables.(contents := db.tables.contents - {cid});
  }

  /**
   * Removes a sale: each line item, in increasing id order, is added back to
   * its product's inventory and deleted, one write at a time; then the sale
   * row is deleted.
   */
  method Remove(db: Database, id: int) returns (r: Result<string, HttpError>)
    requires Consistent(db.tables)
    modifies db
    ensures Consistent(db.tables)
    ensures var outcome := RemoveOutcome(old(db.tables), id);
      && (outcome.Failure? ==> r == Failure(outcome.error) && db.tables == old(db.tables))
      && (outcome.Success? ==> r == Success(SALE_REMOVED) && db.tables == outcome.value)
  {
    var found := FindOne(db.tables, id);
    if found.Failure? {
      return Failure(found.error);
    }
    var t := db.tables;
    var rows := RowsOf(t, id);
    RowsOfRows(t, id);
    ReturnRows(db, rows);
    RowIdsOfRowsOf(t, id);
    db.tables := db.tables.(transactions := db.tables.transactions - {id});
    RemoveOutcomeValue(t, id);
    RemoveOutcomeConsistent(t, id);
    r := Success(SALE_REMOVED);
  }

  /** In a committed sale, the rows of the new sale are exactly the rows it stored. */
  lemma CommittedRows(t: Tables, pricing: Pricing, stocked: map<int, Product>, items: seq<TransactionContentsDto>, now: Millis)
    requires Consistent(t)
    ensures var tid := t.nextTransactionId;
      ContentsOf(Commit(t, pricing, stocked, items, now), tid) == NewRows(items, t.nextContentsId, tid)
  {
    var tid, first := t.nextTransactionId, t.nextContentsId;
    var after := Commit(t, pricing, stocked, items, now);
    var rows := NewRows(items, first, tid);
    NewRowsReferencesSale(items, first, tid);
    forall cid | cid in t.contents ensures cid !in rows && t.contents[cid].transactionId != tid {
    }
  }

  /** Every new row names sale `tid` and has an id from `first` on. */
  lemma NewRowsReferencesSale(items: seq<TransactionContentsDto>, first: int, tid: int)
    ensures forall cid :: cid in NewRows(items, first, tid) ==>
      first <= cid && NewRows(items, first, tid)[cid].transactionId == tid
  {
    var rows := NewRows(items, first, tid);
    NewRowsShape(items, first, tid);
    forall cid | cid in rows ensures rows[cid].transactionId == tid {
      assert rows[first + (cid - first)] == ContentRows(items, first, tid)[cid - first];
    }
  }

  /** When the rows of a sale hold a block of consecutive ids, removal visits them in id order. */
  lemma RowsOfBlock(t: Tables, tid: int, first: int, n: nat)
    requires forall cid :: cid in ContentsOf(t, tid) <==> first <= cid < first + n
    ensures |RowsOf(t, tid)| == n
    ensures forall k :: 0 <= k < n ==> RowsOf(t, tid)[k] == t.contents[first + k]
  {
    AscendingIdsOfRange(ContentsOf(t, tid).Keys, first, n);
  }

  /** When the rows of a sale are those stored for a list of items, removal visits them in item order. */
  lemma RowsOfStored(t: Tables, tid: int, items: seq<TransactionContentsDto>, first: int)
    requires ContentsOf(t, tid) == NewRows(items, first, tid)
    ensures RowsOf(t, tid) == ContentRows(items, first, tid)
  {
    var stored := NewRows(items, first, tid);
    NewRowsShape(items, first, tid);
    RowsOfBlock(t, tid, first, |items|);
    var rows := RowsOf(t, tid);
    var expected := ContentRows(items, first, tid);
    forall k | 0 <= k < |items| ensures rows[k] == expected[k] {
      assert first + k in ContentsOf(t, tid);
      assert rows[k] == t.contents[first + k] == stored[first + k];
    }
  }

  /** Removal visits the rows of a just-committed sale in the order they were stored. */
  lemma CommittedRowsInOrder(t: Tables, pricing: Pricing, stocked: map<int, Product>, items: seq<TransactionContentsDto>, now: Millis)
    requires Consistent(t)
    ensures var tid := t.nextTransactionId;
      RowsOf(Commit(t, pricing, stocked, items, now), tid) == ContentRows(items, t.nextContentsId, tid)
  {
    CommittedRows(t, pricing, stocked, items, now);
    RowsOfStored(Commit(t, pricing, stocked, items, now), t.nextTransactionId, items, t.nextContentsId);
  }

  /** Restocking the rows of a just-committed sale restores the product table. */
  lemma CommitThenRestock(t: Tables, pricing: Pricing, items: seq<TransactionContentsDto>, now: Millis)
    requires Consistent(t)
    requires Stock(t.products, items).Success?
    ensures var after := Commit(t, pricing, Stock(t.products, items).value, items, now);
      Restock(after.products, RowsOf(after, t.nextTransactionId)) == t.products
  {
    var stocked := Stock(t.products, items).value;
    CommittedRowsInOrder(t, pricing, stocked, items, now);
    RestockUndoesStock(t.products, items, t.nextContentsId, t.nextTransactionId);
  }

  /** Deleting the rows and the row of a just-committed sale restores the sale and line item tables. */
  lemma CommitThenDelete(t: Tables, pricing: Pricing, stocked: map<int, Product>, items: seq<TransactionContentsDto>, now: Millis)
    requires Consistent(t)
    ensures var tid := t.nextTransactionId;
      var after := Commit(t, pricing, stocked, items, now);
      && after.contents - ContentsOf(after, tid).Keys == t.contents
      && after.transactions - {tid} == t.transactions
  {
    var tid, first := t.nextTransactionId, t.nextContentsId;
    var after := Commit(t, pricing, stocked, items, now);
    var stored := NewRows(items, first, tid);
    CommittedRows(t, pricing, stocked, items, now);
    NewRowsShape(items, first, tid);
    assert after.contents == t.contents + stored;
    assert forall cid :: cid in t.contents ==> cid !in stored;
    assert (t.contents + stored) - stored.Keys == t.contents;
    assert tid !in t.transactions;
  }

  /** `t` after a sale of `n` line items has drawn its ids from the sale and line item sequences. */
  function SequencesAdvanced(t: Tables, n: nat): (r: Tables)
    ensures r.nextTransactionId == t.nextTransactionId + 1 && r.nextContentsId == t.nextContentsId + n
    ensures r.(nextTransactionId := t.nextTransactionId, nextContentsId := t.nextContentsId) == t
  {
    t.(nextTransactionId := t.nextTransactionId + 1, nextContentsId := t.nextContentsId + n)
  }

  /**
   * Removing sale `tid` gives back `t` with its sale and line item sequences
   * moved on, when the restocked products, the remaining rows and the
   * remaining sales are those of `t` and nothing else differs.
   */
  lemma RemoveRestores(after: Tables, tid: int, t: Tables, n: nat)
    requires tid in after.transactions
    requires Restock(after.products, RowsOf(after, tid)) == t.products
    requires after.contents - ContentsOf(after, tid).Keys == t.contents
    requires after.transactions - {tid} == t.transactions
    requires after.categories == t.categories && after.coupons == t.coupons
    requires after.nextCategoryId == t.nextCategoryId && after.nextProductId == t.nextProductId && after.nextCouponId == t.nextCouponId
    requires after.nextTransactionId == t.nextTransactionId + 1 && after.nextContentsId == t.nextContentsId + n
    ensures RemoveOutcome(after, tid) == Success(SequencesAdvanced(t, n))
  {
    RemoveOutcomeValue(after, tid);
  }

  /**
   * A just-committed sale, once its rows are restocked and deleted and its
   * row is deleted, leaves the tables it was committed to.
   */
  lemma CommitUndone(t: Tables, pricing: Pricing, items: seq<TransactionContentsDto>, now: Millis)
    requires Consistent(t)
    requires Stock(t.products, items).Success?
    ensures var after := Commit(t, pricing, Stock(t.products, items).value, items, now);
      var tid := t.nextTransactionId;
      && tid in after.transactions
      && Restock(after.products, RowsOf(after, tid)) == t.products
      && after.contents - ContentsOf(after, tid).Keys == t.contents
      && after.transactions - {tid} == t.transactions
      && after.categories == t.categories && after.coupons == t.coupons
      && after.nextCategoryId == t.nextCategoryId && after.nextProductId == t.nextProductId && after.nextCouponId == t.nextCouponId
      && after.nextTransactionId == tid + 1 && after.nextContentsId == t.nextContentsId + |items|
  {
    var stocked := Stock(t.products, items).value;
    CommitThenRestock(t, pricing, items, now);
    CommitThenDelete(t, pricing, stocked, items, now);
  }

  /**
   * Creating a sale with at least one line item and then removing it gives
   * back the database as it was, except that the two id sequences have moved on.
   */
  lemma CreateThenRemove(t: Tables, dto: CreateTransactionDto, now: Millis, after: Tables)
    requires Consistent(t)
    requires CreateOutcome(t, dto, now) == Success(after) && dto.contents != []
    ensures RemoveOutcome(after, t.nextTransactionId) == Success(SequencesAdvanced(t, |dto.contents|))
  {
    var pricing := Price(t.coupons, dto, now).value;
    assert after == Commit(t, pricing, Stock(t.products, dto.contents).value, dto.contents, now);
    CommitUndone(t, pricing, dto.contents, now);
    RemoveRestores(after, t.nextTransactionId, t, |dto.contents|);
  }
}
