/**
 * The pure rules of a sale: the subtotal, the coupon discount, and the stock
 * check and decrement over the line items in request order, together with
 * the restocking that undoes it.
 */
module Sale {
  import opened Wrappers
  import opened Entities
  import opened Calendar
  import opened Text
  import opened Ordering
  import opened Coupons
  import opened TransactionRequests

  /** Σ quantity × price over the line items, accumulated from the left starting at 0. */
  function Subtotal(items: seq<TransactionContentsDto>): real
  {
    if items == [] then 0.0
    else
      var last := items[|items| - 1];
      Subtotal(items[..|items| - 1]) + last.quantity as real * last.price
  }

  /** With no negative quantity and no negative price the subtotal is not negative. */
  lemma {:induction false} SubtotalNonNegative(items: seq<TransactionContentsDto>)
    requires forall k :: 0 <= k < |items| ==> items[k].quantity >= 0 && items[k].price >= 0.0
    ensures Subtotal(items) >= 0.0
  {
    if items != [] {
      SubtotalNonNegative(items[..|items| - 1]);
      var last := items[|items| - 1];
      assert last.quantity as real * last.price >= 0.0;
    }
  }

  /** The money fields of a sale row. */
  datatype Pricing = Pricing(total: real, coupon: Option<string>, discount: Option<real>)

  /** A coupon code that is present and not the empty string (a truthy one). */
  predicate HasCouponCode(dto: CreateTransactionDto)
  {
    dto.coupon.Some? && dto.coupon.value != ""
  }

  /**
   * The total, coupon and discount of a sale. The client's `total` plays no
   * part. A coupon code is looked up before anything else; an unknown or
   * expired one fails the sale.
   */
  function Price(coupons: map<int, Coupon>, dto: CreateTransactionDto, now: Millis): (r: Result<Pricing, HttpError>)
    ensures !HasCouponCode(dto) ==> r == Success(Pricing(Subtotal(dto.contents), None, None))
    ensures HasCouponCode(dto) ==>
      (r.Failure? <==> ApplyCoupon(coupons, dto.coupon.value, now).Failure?)
      && (r.Failure? ==> r.error == ApplyCoupon(coupons, dto.coupon.value, now).error)
    ensures r.Success? ==> r.value.coupon.Some? == r.value.discount.Some? == HasCouponCode(dto)
    ensures r.Success? && r.value.discount.Some? ==>
      var coupon := ApplyCoupon(coupons, dto.coupon.value, now).value.coupon;
      && r.value.coupon == Some(coupon.name) == Some(dto.coupon.value)
      && r.value.discount.value == coupon.porcentaje as real / 100.0 * Subtotal(dto.contents)
      && r.value.total + r.value.discount.value == Subtotal(dto.contents)
  {
    var subtotal := Subtotal(dto.contents);
    if !HasCouponCode(dto) then Success(Pricing(subtotal, None, None))
    else
      match ApplyCoupon(coupons, dto.coupon.value, now)
      case Failure(e) => Failure(e)
      case Success(applied) =>
        var coupon := applied.coupon;
        var discount := (coupon.porcentaje as real / 100.0) * subtotal;
        Success(Pricing(subtotal - discount, Some(coupon.name), Some(discount)))
  }

  /** The total the client sends is ignored. */
  lemma PriceIgnoresClientTotal(coupons: map<int, Coupon>, dto: CreateTransactionDto, claimed: real, now: Millis)
    ensures Price(coupons, dto.(total := claimed), now) == Price(coupons, dto, now)
  {
    var changed := dto.(total := claimed);
    assert changed.contents == dto.contents && changed.coupon == dto.coupon;
    if HasCouponCode(dto) {
      var applied := ApplyCoupon(coupons, dto.coupon.value, now);
      if applied.Success? {
        var subtotal := Subtotal(dto.contents);
        var discount := (applied.value.coupon.porcentaje as real / 100.0) * subtotal;
        assert Price(coupons, dto, now).value.total == subtotal - discount;
        assert Price(coupons, changed, now).value.total == subtotal - discount;
      }
    }
  }

  /**
   * For a percentage between 1 and 100 and a subtotal that is not negative,
   * the discount is at most the subtotal, so the total stays between 0 and
   * the subtotal.
   */
  lemma DiscountBounded(coupons: map<int, Coupon>, dto: CreateTransactionDto, now: Millis)
    requires Price(coupons, dto, now).Success? && Price(coupons, dto, now).value.discount.Some?
    requires 1 <= ApplyCoupon(coupons, dto.coupon.value, now).value.coupon.porcentaje <= 100
    requires Subtotal(dto.contents) >= 0.0
    ensures var p := Price(coupons, dto, now).value;
      0.0 <= p.discount.value <= Subtotal(dto.contents) && 0.0 <= p.total <= Subtotal(dto.contents)
  {
    var p := Price(coupons, dto, now).value;
    var pct := ApplyCoupon(coupons, dto.coupon.value, now).value.coupon.porcentaje as real / 100.0;
    var s := Subtotal(dto.contents);
    assert p.discount.value == pct * s && p.total == s - p.discount.value;
    assert 0.0 < pct <= 1.0;
    FractionBounded(pct, s);
  }

  /** A fraction between 0 and 1 of an amount that is not negative lies between 0 and that amount. */
  lemma FractionBounded(f: real, s: real)
    requires 0.0 <= f <= 1.0 && s >= 0.0
    ensures 0.0 <= f * s <= s
  {
    assert (1.0 - f) * s >= 0.0;
  }

  /** Two units at 50 with coupon SAVE10 (10 %) cost 90 with a discount of 10. */
  lemma SaveTenExample(now: Millis)
    requires now <= EndOfDay(0)
    ensures var coupons := map[1 := Coupon(1, "SAVE10", 10, 0)];
      var dto := CreateTransactionDto(0.0, Some("SAVE10"), [TransactionContentsDto(7, 2, 50.0)]);
      Price(coupons, dto, now) == Success(Pricing(90.0, Some("SAVE10"), Some(10.0)))
  {
    var coupons := map[1 := Coupon(1, "SAVE10", 10, 0)];
    ApplyUniqueCoupon(coupons, 1, now);
    var items := [TransactionContentsDto(7, 2, 50.0)];
    assert items[..0] == [];
    assert Subtotal(items) == 100.0;
  }

  /** Σ of the quantities that the line items request of product `id`. */
  function Quantity(items: seq<TransactionContentsDto>, id: int): int
  {
    if items == [] then 0
    else (if items[0].productId == id then items[0].quantity else 0) + Quantity(items[1..], id)
  }

  /**
   * Item `k` passes the stock check: its product exists, and its quantity
   * fits in what is left of the inventory once the earlier items of the
   * same product have been taken.
   */
  predicate Admits(products: map<int, Product>, items: seq<TransactionContentsDto>, k: int)
    requires 0 <= k < |items|
  {
    var id := items[k].productId;
    id in products && items[k].quantity <= products[id].inventory - Quantity(items[..k], id)
  }

  /** The error the stock check raises on an item it refuses. */
  function StockError(products: map<int, Product>, item: TransactionContentsDto): HttpError
  {
    if item.productId !in products then
      NotFound(["El producto con el ID: " + IntToString(item.productId) + " no existe"])
    else
      BadRequest(["El articulo " + products[item.productId].name + " excede la cantidad disponible"])
  }

  /** Takes one line item out of stock. */
  function Take(products: map<int, Product>, item: TransactionContentsDto): map<int, Product>
    requires item.productId in products
  {
    var p := products[item.productId];
    products[item.productId := p.(inventory := p.inventory - item.quantity)]
  }

  /**
   * Checks and takes the line items in order against the running inventory:
   * the first item whose product is missing, or whose quantity exceeds what
   * is left, fails the whole sale.
   */
  function Stock(products: map<int, Product>, items: seq<TransactionContentsDto>): (r: Result<map<int, Product>, HttpError>)
    ensures r.Success? ==> r.value.Keys == products.Keys
    ensures r.Success? ==> forall k :: 0 <= k < |items| ==> items[k].productId in products
    ensures r.Failure? ==> r.error.NotFound? || r.error.BadRequest?
  {
    if items == [] then Success(products)
    else
      var item := items[0];
      if item.productId !in products || item.quantity > products[item.productId].inventory then
        Failure(StockError(products, item))
      else
        Stock(Take(products, item), items[1..])
  }

  /** One step of the stock check, at item `i`. */
  lemma StockStep(products: map<int, Product>, items: seq<TransactionContentsDto>, i: nat)
    requires i < |items|
    ensures items[i].productId !in products || items[i].quantity > products[items[i].productId].inventory ==>
      Stock(products, items[i..]) == Failure(StockError(products, items[i]))
    ensures items[i].productId in products && items[i].quantity <= products[items[i].productId].inventory ==>
      Stock(products, items[i..]) == Stock(Take(products, items[i]), items[i + 1..])
  {
    assert items[i..][0] == items[i] && items[i..][1..] == items[i + 1..];
  }

  lemma QuantityPrefix(items: seq<TransactionContentsDto>, k: nat, id: int)
    requires 0 <= k < |items|
    ensures Quantity(items[..k + 1], id) ==
      (if items[0].productId == id then items[0].quantity else 0) + Quantity(items[1..][..k], id)
  {
    assert items[..k + 1][1..] == items[1..][..k];
  }

  /** Admitting item `k + 1` before taking item 0 is admitting item `k` after taking it. */
  lemma AdmitsAfterTake(products: map<int, Product>, items: seq<TransactionContentsDto>, k: nat)
    requires 0 <= k < |items| - 1
    requires items[0].productId in products
    ensures Admits(Take(products, items[0]), items[1..], k) <==> Admits(products, items, k + 1)
  {
    assert items[1..][k] == items[k + 1];
    QuantityPrefix(items, k, items[k + 1].productId);
  }

  /**
   * The stock check passes exactly when every item is admitted against the
   * running inventory; otherwise it fails with the error of the first item
   * that is not.
   */
  lemma {:induction false} StockOutcome(products: map<int, Product>, items: seq<TransactionContentsDto>)
    ensures Stock(products, items).Success? <==> forall k :: 0 <= k < |items| ==> Admits(products, items, k)
    ensures forall k :: (0 <= k < |items| && !Admits(products, items, k) &&
        (forall j :: 0 <= j < k ==> Admits(products, items, j))) ==>
      Stock(products, items) == Failure(StockError(RunningStock(products, items, k), items[k]))
    decreases |items|
  {
    if items != [] {
      var item := items[0];
      assert items[..0] == [];
      if item.productId in products && item.quantity <= products[item.productId].inventory {
        var rest := Take(products, item);
        StockOutcome(rest, items[1..]);
        forall k | 0 <= k < |items| - 1
          ensures Admits(rest, items[1..], k) <==> Admits(products, items, k + 1)
        {
          AdmitsAfterTake(products, items, k);
        }
        forall k | 0 < k < |items| && !Admits(products, items, k) &&
            (forall j :: 0 <= j < k ==> Admits(products, items, j))
          ensures Stock(products, items) == Failure(StockError(RunningStock(products, items, k), items[k]))
        {
          assert !Admits(rest, items[1..], k - 1);
          forall j | 0 <= j < k - 1 ensures Admits(rest, items[1..], j) {
            assert Admits(products, items, j + 1);
          }
          RunningStockAfterTake(products, items, k);
        }
      } else {
        assert !Admits(products, items, 0);
        assert RunningStock(products, items, 0) == products;
      }
    }
  }

  /** The inventory as it stands when item `k` is examined: `products` with items 0 .. k-1 taken. */
  function RunningStock(products: map<int, Product>, items: seq<TransactionContentsDto>, k: nat): (r: map<int, Product>)
    requires k <= |items|
    ensures r.Keys == products.Keys
    ensures forall id :: id in r ==> r[id] == products[id].(inventory := products[id].inventory - Quantity(items[..k], id))
  {
    map id | id in products :: products[id].(inventory := products[id].inventory - Quantity(items[..k], id))
  }

  lemma RunningStockAfterTake(products: map<int, Product>, items: seq<TransactionContentsDto>, k: nat)
    requires 0 < k <= |items|
    requires items[0].productId in products
    ensures RunningStock(Take(products, items[0]), items[1..], k - 1) == RunningStock(products, items, k)
  {
    var rest := Take(products, items[0]);
    forall id | id in products
      ensures RunningStock(rest, items[1..], k - 1)[id] == RunningStock(products, items, k)[id]
    {
      QuantityPrefix(items, k - 1, id);
    }
  }

  /**
   * A sale that passes the stock check leaves every product as it was except
   * that its inventory drops by exactly the quantity the items request of it.
   */
  lemma {:induction false} StockTakesQuantities(products: map<int, Product>, items: seq<TransactionContentsDto>)
    requires Stock(products, items).Success?
    ensures Stock(products, items).value == RunningStock(products, items, |items|)
    decreases |items|
  {
    if items == [] {
      RunningStockNone(products, items);
    } else {
      var rest := Take(products, items[0]);
      assert Stock(products, items) == Stock(rest, items[1..]);
      assert Stock(rest, items[1..]).value == RunningStock(rest, items[1..], |items| - 1) by {
        StockTakesQuantities(rest, items[1..]);
      }
      assert RunningStock(rest, items[1..], |items| - 1) == RunningStock(products, items, |items|) by {
        RunningStockAfterTake(products, items, |items|);
      }
    }
  }

  /** Before any item is examined, the running inventory is the inventory. */
  lemma RunningStockNone(products: map<int, Product>, items: seq<TransactionContentsDto>)
    ensures RunningStock(products, items, 0) == products
  {
    assert items[..0] == [];
  }

  /**
   * After a sale that passes the stock check, every product a line item
   * names has an inventory of at least 0, and a product that started at 0 or
   * above is still there.
   */
  lemma {:induction false} StockKeepsInventoryNonNegative(products: map<int, Product>, items: seq<TransactionContentsDto>)
    requires Stock(products, items).Success?
    ensures forall k :: 0 <= k < |items| ==> Stock(products, items).value[items[k].productId].inventory >= 0
    ensures forall id :: id in products && products[id].inventory >= 0 ==> Stock(products, items).value[id].inventory >= 0
    decreases |items|
  {
    if items != [] {
      var rest := Take(products, items[0]);
      StockKeepsInventoryNonNegative(rest, items[1..]);
      forall k | 0 <= k < |items| ensures Stock(products, items).value[items[k].productId].inventory >= 0 {
        if k > 0 {
          assert items[k] == items[1..][k - 1];
        }
      }
    }
  }

  /** Adding a line item's quantity back to its product; a product that is gone is skipped. */
  function Return(products: map<int, Product>, row: TransactionContents): map<int, Product>
  {
    if row.productId in products then
      var p := products[row.productId];
      products[row.productId := p.(inventory := p.inventory + row.quantity)]
    else products
  }

  /** Puts every row back into stock, in order. */
  function Restock(products: map<int, Product>, rows: seq<TransactionContents>): (r: map<int, Product>)
    ensures r.Keys == products.Keys
  {
    if rows == [] then products else Restock(Return(products, rows[0]), rows[1..])
  }

  /** One step of restocking, at row `i`. */
  lemma RestockStep(products: map<int, Product>, rows: seq<TransactionContents>, i: nat)
    requires i < |rows|
    ensures Restock(products, rows[i..]) == Restock(Return(products, rows[i]), rows[i + 1..])
  {
    assert rows[i..][0] == rows[i] && rows[i..][1..] == rows[i + 1..];
  }

  /** Σ of the quantities of the rows of product `id`. */
  function RowQuantity(rows: seq<TransactionContents>, id: int): int
  {
    if rows == [] then 0
    else (if rows[0].productId == id then rows[0].quantity else 0) + RowQuantity(rows[1..], id)
  }

  /** Restocking adds back to each product exactly the quantity its rows hold. */
  lemma {:induction false} RestockAddsQuantities(products: map<int, Product>, rows: seq<TransactionContents>)
    ensures forall id :: id in products ==>
      Restock(products, rows)[id] == products[id].(inventory := products[id].inventory + RowQuantity(rows, id))
    decreases |rows|
  {
    if rows != [] {
      RestockAddsQuantities(Return(products, rows[0]), rows[1..]);
    }
  }

  /** The line item rows a sale stores: ids `first`, `first + 1`, ... in item order, all under sale `tid`. */
  function ContentRows(items: seq<TransactionContentsDto>, first: int, tid: int): (rows: seq<TransactionContents>)
    ensures |rows| == |items|
    ensures forall k :: 0 <= k < |items| ==>
      rows[k] == TransactionContents(first + k, items[k].quantity, items[k].price, items[k].productId, tid)
  {
    seq(|items|, k requires 0 <= k < |items| =>
      TransactionContents(first + k, items[k].quantity, items[k].price, items[k].productId, tid))
  }

  lemma {:induction false} RowQuantityOfContentRows(items: seq<TransactionContentsDto>, first: int, tid: int, id: int)
    ensures RowQuantity(ContentRows(items, first, tid), id) == Quantity(items, id)
    decreases |items|
  {
    if items != [] {
      RowQuantityOfContentRows(items[1..], first + 1, tid, id);
      assert ContentRows(items, first, tid)[1..] == ContentRows(items[1..], first + 1, tid);
    }
  }

  /**
   * Removing a sale undoes it: restocking the rows a successful sale stored
   * gives back exactly the inventory from before the sale.
   */
  lemma RestockUndoesStock(products: map<int, Product>, items: seq<TransactionContentsDto>, first: int, tid: int)
    requires Stock(products, items).Success?
    ensures Restock(Stock(products, items).value, ContentRows(items, first, tid)) == products
  {
    var after := Stock(products, items).value;
    var rows := ContentRows(items, first, tid);
    StockTakesQuantities(products, items);
    RestockAddsQuantities(after, rows);
    assert items[..|items|] == items;
    forall id | id in products ensures Restock(after, rows)[id] == products[id] {
      RowQuantityOfContentRows(items, first, tid, id);
    }
  }
}
