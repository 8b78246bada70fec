/**
 * The relational store as in-memory tables: one map from primary key to
 * record per entity, and the next value of each autoincrement sequence.
 */
module Store {
  import opened Entities

  datatype Tables = Tables(
    categories: map<int, Category>,
    products: map<int, Product>,
    coupons: map<int, Coupon>,
    transactions: map<int, Transaction>,
    contents: map<int, TransactionContents>,
    nextCategoryId: int,
    nextProductId: int,
    nextCouponId: int,
    nextTransactionId: int,
    nextContentsId: int)

  /** Every key is a generated id below the table's sequence value, which starts at 1. */
  predicate KeysBelow<V>(m: map<int, V>, next: int)
  {
    1 <= next && forall id :: id in m ==> 1 <= id < next
  }

  /**
   * The database invariant: primary keys agree with the records' ids, are
   * below their sequences, and the foreign keys Product -> Category,
   * TransactionContents -> Product and TransactionContents -> Transaction hold.
   */
  predicate Consistent(t: Tables)
  {
    && KeysBelow(t.categories, t.nextCategoryId)
    && KeysBelow(t.products, t.nextProductId)
    && KeysBelow(t.coupons, t.nextCouponId)
    && KeysBelow(t.transactions, t.nextTransactionId)
    && KeysBelow(t.contents, t.nextContentsId)
    && (forall id :: id in t.categories ==> t.categories[id].id == id)
    && (forall id :: id in t.products ==> t.products[id].id == id)
    && (forall id :: id in t.coupons ==> t.coupons[id].id == id)
    && (forall id :: id in t.transactions ==> t.transactions[id].id == id)
    && (forall id :: id in t.contents ==> t.contents[id].id == id)
    && (forall id :: id in t.products ==> t.products[id].categoryId in t.categories)
    && (forall id :: id in t.contents ==>
          t.contents[id].productId in t.products && t.contents[id].transactionId in t.transactions)
  }

  /** A freshly synchronised, empty schema. */
  function EmptyTables(): (t: Tables)
    ensures Consistent(t)
    ensures t.categories == map[] && t.products == map[] && t.coupons == map[]
    ensures t.transactions == map[] && t.contents == map[]
  {
    Tables(map[], map[], map[], map[], map[], 1, 1, 1, 1, 1)
  }

  /** The database the services share; each service method updates its tables in place. */
  class Database {
    var tables: Tables

    constructor ()
      ensures tables == EmptyTables()
    {
      tables := EmptyTables();
    }
  }
}
