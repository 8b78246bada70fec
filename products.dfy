/**
 * ProductsService: products unique by name at creation, each in an existing
 * category; listing newest first with an optional category filter and
 * take/skip pagination; reading, updating and removing one product.
 */
module Products {
  import opened Wrappers
  import opened Entities
  import opened Text
  import opened Ordering
  import opened Store
  import opened ProductRequests

  /** The fields an update request may carry; `None` is a field the request leaves out. */
  datatype ProductPatch = ProductPatch(
    name: Option<string>,
    image: Option<string>,
    price: Option<real>,
    inventory: Option<int>,
    categoryId: Option<int>)

  /** A product with its category relation loaded. */
  datatype ProductView = ProductView(product: Product, category: Category)

  /** One page of a listing and the number of products that match the filter over all pages. */
  datatype ProductPage = ProductPage(products: seq<ProductView>, total: nat)

  const DUPLICATE_NAME := "Ya existe un producto con este nombre"
  const MISSING_CATEGORY := "Categoría no existe"
  const PRODUCT_REMOVED := "Producto eliminado correctamente"

  /** The page size and offset a listing request gets when it leaves them out. */
  const DEFAULT_TAKE: nat := 10
  const DEFAULT_SKIP: nat := 0

  /** The ids of the products stored under exactly this name. */
  function ProductsNamed(products: map<int, Product>, name: string): (ids: set<int>)
    ensures forall id :: id in ids <==> id in products && products[id].name == name
  {
    set id | id in products && products[id].name == name
  }

  /** The ids of the line item rows that name product `id`. */
  function RowsNaming(contents: map<int, TransactionContents>, id: int): (ids: set<int>)
    ensures forall cid :: cid in ids <==> cid in contents && contents[cid].productId == id
  {
    set cid | cid in contents && contents[cid].productId == id
  }

  /**
   * Stores a product under a name not used yet, in an existing category. The
   * name is checked first, so a duplicate name is reported even when the
   * category is missing too.
   */
  method Create(db: Database, dto: CreateProductDto) returns (r: Result<ProductView, HttpError>)
    requires Consistent(db.tables)
    modifies db
    ensures Consistent(db.tables)
    ensures ProductsNamed(old(db.tables).products, dto.name) != {} ==>
      r == Failure(BadRequest([DUPLICATE_NAME])) && db.tables == old(db.tables)
    ensures ProductsNamed(old(db.tables).products, dto.name) == {} && dto.categoryId !in old(db.tables).categories ==>
      r == Failure(NotFound([MISSING_CATEGORY])) && db.tables == old(db.tables)
    ensures ProductsNamed(old(db.tables).products, dto.name) == {} && dto.categoryId in old(db.tables).categories ==>
      var id := old(db.tables).nextProductId;
      var product := Product(id, dto.name, dto.image, dto.price, dto.inventory, dto.categoryId);
      && r == Success(ProductView(product, old(db.tables).categories[dto.categoryId]))
      && id !in old(db.tables).products
      && db.tables == old(db.tables).(products := old(db.tables).products[id := product], nextProductId := id + 1)
  {
    var t := db.tables;
    if ProductsNamed(t.products, dto.name) != {} {
      return Failure(BadRequest([DUPLICATE_NAME]));
    }
    if dto.categoryId !in t.categories {
      return Failure(NotFound([MISSING_CATEGORY]));
    }
    var category := t.categories[dto.categoryId];
    var id := t.nextProductId;
    var product := Product(id, dto.name, dto.image, dto.price, dto.inventory, dto.categoryId);
    db.tables := t.(products := t.products[id := product], nextProductId := id + 1);
    r := Success(ProductView(product, category));
  }

  /** The ids a listing may show: every product, or those of one category when a non-zero category id is given. */
  function Matching(t: Tables, categoryId: Option<int>): (ids: set<int>)
    ensures forall id :: id in ids <==>
      id in t.products && (categoryId.None? || categoryId.value == 0 || t.products[id].categoryId == categoryId.value)
  {
    if categoryId.None? || categoryId.value == 0 then t.products.Keys
    else set id | id in t.products && t.products[id].categoryId == categoryId.value
  }

  /** Skips `skip` ids, then keeps at most `take` of the rest; a `take` of 0 sets no limit. */
  function Window(ids: seq<int>, take: nat, skip: nat): (w: seq<int>)
    ensures skip >= |ids| ==> w == []
    ensures skip < |ids| ==> |w| == if take == 0 || skip + take > |ids| then |ids| - skip else take
    ensures forall k :: 0 <= k < |w| ==> skip + k < |ids| && w[k] == ids[skip + k]
  {
    var rest := if skip <= |ids| then ids[skip..] else [];
    if take == 0 || take >= |rest| then rest else rest[..take]
  }

  /** A stored product with its category. */
  function View(t: Tables, id: int): (v: ProductView)
    requires Consistent(t) && id in t.products
    ensures v.product == t.products[id] && v.category.id == v.product.categoryId
  {
    var product := t.products[id];
    ProductView(product, t.categories[product.categoryId])
  }

  /**
   * One page of products, newest (highest id) first, with the category of
   * each; `total` counts every matching product, whatever the page.
   */
  function FindAll(t: Tables, categoryId: Option<int>, take: nat, skip: nat): (r: ProductPage)
    requires Consistent(t)
    ensures r.total == |Matching(t, categoryId)|
    ensures take > 0 ==> |r.products| <= take
    ensures skip >= r.total ==> r.products == []
    ensures forall k :: 0 <= k < |r.products| ==>
      var id := r.products[k].product.id;
      id in Matching(t, categoryId) && r.products[k] == View(t, id)
    ensures forall i, j :: 0 <= i < j < |r.products| ==> r.products[i].product.id > r.products[j].product.id
  {
    var ids := DescendingIds(Matching(t, categoryId));
    var page := Window(ids, take, skip);
    WindowDescending(ids, take, skip);
    ProductPage(Views(t, page), |ids|)
  }

  /** A window of a strictly decreasing listing is strictly decreasing and holds only ids of the listing. */
  lemma WindowDescending(ids: seq<int>, take: nat, skip: nat)
    requires Descending(ids)
    ensures var w := Window(ids, take, skip);
      Descending(w) && forall k :: 0 <= k < |w| ==> w[k] in ids
  {
    var w := Window(ids, take, skip);
    forall i, j | 0 <= i < j < |w| ensures w[i] > w[j] {
      assert w[i] == ids[skip + i] && w[j] == ids[skip + j];
    }
  }

  /** The stored products under the given ids, in order, each with its category. */
  function Views(t: Tables, ids: seq<int>): (vs: seq<ProductView>)
    requires Consistent(t) && forall k :: 0 <= k < |ids| ==> ids[k] in t.products
    ensures |vs| == |ids|
    ensures forall k :: 0 <= k < |vs| ==> vs[k] == View(t, ids[k]) && vs[k].product.id == ids[k]
  {
    seq(|ids|, k requires 0 <= k < |ids| => View(t, ids[k]))
  }

  /** How many matching products are newer (have a higher id) than product `id`. */
  function Rank(t: Tables, categoryId: Option<int>, id: int): nat
  {
    |set x | x in Matching(t, categoryId) && x > id|
  }

  /** In a strictly decreasing listing, the window holds the `i`-th id exactly when `i` lies in the window's range. */
  lemma WindowHolds(ids: seq<int>, take: nat, skip: nat, i: nat)
    requires Descending(ids) && i < |ids|
    ensures var w := Window(ids, take, skip);
      (exists k :: 0 <= k < |w| && w[k] == ids[i]) <==> skip <= i && (take == 0 || i < skip + take)
  {
    var w := Window(ids, take, skip);
    if exists k :: 0 <= k < |w| && w[k] == ids[i] {
      var k :| 0 <= k < |w| && w[k] == ids[i];
      assert w[k] == ids[skip + k];
    }
    if skip <= i && (take == 0 || i < skip + take) {
      assert w[i - skip] == ids[i];
    }
  }

  /**
   * A matching product is on the page exactly when the number of newer
   * matching products is at least `skip` and, unless `take` is 0, below
   * `skip + take`.
   */
  lemma FindAllPage(t: Tables, categoryId: Option<int>, take: nat, skip: nat, id: int)
    requires Consistent(t)
    requires id in Matching(t, categoryId)
    ensures var page := FindAll(t, categoryId, take, skip).products;
      (exists k :: 0 <= k < |page| && page[k].product.id == id) <==>
        skip <= Rank(t, categoryId, id) && (take == 0 || Rank(t, categoryId, id) < skip + take)
  {
    var matching := Matching(t, categoryId);
    var ids := DescendingIds(matching);
    assert id in ids;
    var i :| 0 <= i < |ids| && ids[i] == id;
    DescendingRank(ids, matching, i);
    WindowHolds(ids, take, skip, i);
    PageIds(t, categoryId, take, skip);
  }

  /** The page lists the products whose ids the window selects, in the window's order. */
  lemma PageIds(t: Tables, categoryId: Option<int>, take: nat, skip: nat)
    requires Consistent(t)
    ensures var page := FindAll(t, categoryId, take, skip).products;
      var w := Window(DescendingIds(Matching(t, categoryId)), take, skip);
      |page| == |w| && forall k :: 0 <= k < |page| ==> page[k].product.id == w[k]
  {
  }

  /** The page size and offset a listing request ends up with: absent values take the defaults. */
  function PageArguments(take: Option<nat>, skip: Option<nat>): (a: (nat, nat))
    ensures take.None? ==> a.0 == DEFAULT_TAKE
    ensures take.Some? ==> a.0 == take.value
    ensures skip.None? ==> a.1 == DEFAULT_SKIP
    ensures skip.Some? ==> a.1 == skip.value
  {
    (if take.Some? then take.value else DEFAULT_TAKE, if skip.Some? then skip.value else DEFAULT_SKIP)
  }

  /** A request without page arguments lists the ten newest matching products, or all when fewer match. */
  lemma DefaultListing(t: Tables, categoryId: Option<int>)
    requires Consistent(t)
    ensures var a := PageArguments(None, None);
      var r := FindAll(t, categoryId, a.0, a.1);
      |r.products| == if r.total < 10 then r.total else 10
  {
    var ids := DescendingIds(Matching(t, categoryId));
    assert |Window(ids, 10, 0)| == if |ids| < 10 then |ids| else 10;
  }

  function FindOne(t: Tables, id: int): (r: Result<ProductView, HttpError>)
    requires Consistent(t)
    ensures r.Success? <==> id in t.products
    ensures r.Success? ==> r.value.product == t.products[id] && r.value.product.id == id
    ensures r.Success? ==> r.value.category == t.categories[r.value.product.categoryId] && r.value.category.id == r.value.product.categoryId
    ensures r.Failure? ==> r.error == NotFoundText("El Producto con el ID: " + IntToString(id) + " no fue encontrado")
  {
    if id in t.products then Success(View(t, id))
    else Failure(NotFoundText("El Producto con el ID: " + IntToString(id) + " no fue encontrado"))
  }

  /**
   * The product after the supplied fields are copied onto it. A category id
   * of 0 is copied onto the column but the loaded category relation is
   * saved with it and decides the stored category, so it is kept.
   */
  function Patched(product: Product, patch: ProductPatch): (p: Product)
    ensures p.id == product.id
    ensures p.name == (if patch.name.Some? then patch.name.value else product.name)
    ensures p.image == (if patch.image.Some? then patch.image.value else product.image)
    ensures p.price == (if patch.price.Some? then patch.price.value else product.price)
    ensures p.inventory == (if patch.inventory.Some? then patch.inventory.value else product.inventory)
    ensures p.categoryId == (if patch.categoryId.Some? && patch.categoryId.value != 0 then patch.categoryId.value else product.categoryId)
  {
    Product(
      product.id,
      if patch.name.Some? then patch.name.value else product.name,
      if patch.image.Some? then patch.image.value else product.image,
      if patch.price.Some? then patch.price.value else product.price,
      if patch.inventory.Some? then patch.inventory.value else product.inventory,
      if patch.categoryId.Some? && patch.categoryId.value != 0 then patch.categoryId.value else product.categoryId)
  }

  /**
   * Copies the supplied fields onto a stored product. A non-zero category id
   * must name an existing category; the name is not checked for uniqueness.
   */
  method Update(db: Database, id: int, patch: ProductPatch) returns (r: Result<ProductView, HttpError>)
    requires Consistent(db.tables)
    modifies db
    ensures Consistent(db.tables)
    ensures id !in old(db.tables).products ==>
      r == FindOne(old(db.tables), id) && r.Failure? && db.tables == old(db.tables)
    ensures (id in old(db.tables).products && patch.categoryId.Some? && patch.categoryId.value != 0
        && patch.categoryId.value !in old(db.tables).categories) ==>
      r == Failure(NotFound([MISSING_CATEGORY])) && db.tables == old(db.tables)
    ensures r.Success? ==>
      && id in old(db.tables).products
      && r.value.product == Patched(old(db.tables).products[id], patch)
      && r.value.category == old(db.tables).categories[r.value.product.categoryId]
      && db.tables == old(db.tables).(products := old(db.tables).products[id := r.value.product])
    ensures (id in old(db.tables).products
        && (patch.categoryId.None? || patch.categoryId.value == 0 || patch.categoryId.value in old(db.tables).categories)) ==>
      r.Success?
  {
    var found := FindOne(db.tables, id);
    if found.Failure? {
      return found;
    }
    var product := Patched(found.value.product, patch);
    var category := found.value.category;
    if patch.categoryId.Some? && patch.categoryId.value != 0 {
      if patch.categoryId.value !in db.tables.categories {
        return Failure(NotFound([MISSING_CATEGORY]));
      }
      category := db.tables.categories[patch.categoryId.value];
    }
    db.tables := db.tables.(products := db.tables.products[id := product]);
    r := Success(ProductView(product, category));
  }

  /**
   * Deletes a product. The line items of past sales keep a foreign key to
   * it, so while any of them names the product the database refuses the
   * delete and the error reaches the caller unhandled.
   */
  method Remove(db: Database, id: int) returns (r: Result<string, HttpError>)
    requires Consistent(db.tables)
    modifies db
    ensures Consistent(db.tables)
    ensures id !in old(db.tables).products ==>
      r == Failure(NotFoundText("El Producto con el ID: " + IntToString(id) + " no fue encontrado")) && db.tables == old(db.tables)
    ensures id in old(db.tables).products && RowsNaming(old(db.tables).contents, id) != {} ==>
      r == Failure(InternalServerError) && db.tables == old(db.tables)
    ensures id in old(db.tables).products && RowsNaming(old(db.tables).contents, id) == {} ==>
      r == Success(PRODUCT_REMOVED) && db.tables == old(db.tables).(products := old(db.tables).products - {id})
  {
    var found := FindOne(db.tables, id);
    if found.Failure? {
      return Failure(found.error);
    }
    if RowsNaming(db.tables.contents, id) != {} {
      return Failure(InternalServerError);
    }
    db.tables := db.tables.(products := db.tables.products - {id});
    r := Success(PRODUCT_REMOVED);
  }

  /**
   * A product just stored is found under its id with its category, and
   * heads the first page of every listing that shows it (the unfiltered one
   * and its category's), being the newest.
   */
  lemma CreatedProductListedFirst(t: Tables, dto: CreateProductDto, categoryId: Option<int>, take: nat)
    requires Consistent(t)
    requires ProductsNamed(t.products, dto.name) == {} && dto.categoryId in t.categories
    requires categoryId.None? || categoryId.value == 0 || categoryId.value == dto.categoryId
    ensures var id := t.nextProductId;
      var product := Product(id, dto.name, dto.image, dto.price, dto.inventory, dto.categoryId);
      var after := t.(products := t.products[id := product], nextProductId := id + 1);
      && Consistent(after)
      && FindOne(after, id) == Success(ProductView(product, t.categories[dto.categoryId]))
      && FindAll(after, categoryId, take, 0).products != []
      && FindAll(after, categoryId, take, 0).products[0].product == product
  {
    var id := t.nextProductId;
    var product := Product(id, dto.name, dto.image, dto.price, dto.inventory, dto.categoryId);
    var after := t.(products := t.products[id := product], nextProductId := id + 1);
    assert Consistent(after) by {
      InsertKeepsConsistent(t, product);
    }
    assert FindOne(after, id) == Success(ProductView(product, t.categories[dto.categoryId])) by {
      assert after.products[id] == product;
    }
    assert FindAll(after, categoryId, take, 0).products != []
      && FindAll(after, categoryId, take, 0).products[0].product == product by {
      assert id in Matching(after, categoryId) && after.products[id] == product;
      assert forall x :: x in after.products ==> x <= id;
      NewestFirst(after, categoryId, take, id);
    }
  }

  /** Inserting a product at the next id, in an existing category, keeps the database consistent. */
  lemma InsertKeepsConsistent(t: Tables, product: Product)
    requires Consistent(t)
    requires product.id == t.nextProductId && product.categoryId in t.categories
    ensures Consistent(t.(products := t.products[product.id := product], nextProductId := product.id + 1))
  {
  }

  /** The product with the highest id among the matching ones heads the first page. */
  lemma NewestFirst(t: Tables, categoryId: Option<int>, take: nat, id: int)
    requires Consistent(t)
    requires id in Matching(t, categoryId)
    requires forall x :: x in t.products ==> x <= id
    ensures FindAll(t, categoryId, take, 0).products != []
    ensures FindAll(t, categoryId, take, 0).products[0].product == t.products[id]
  {
    assert Rank(t, categoryId, id) == 0 by {
      assert (set x | x in Matching(t, categoryId) && x > id) == {};
    }
    FindAllPage(t, categoryId, take, 0, id);
    var page := FindAll(t, categoryId, take, 0).products;
  }

  /** After a removal that succeeds, the product is not found and no longer counted in any listing. */
  lemma RemovedProductGone(t: Tables, id: int, categoryId: Option<int>, take: nat, skip: nat)
    requires Consistent(t) && id in t.products && RowsNaming(t.contents, id) == {}
    ensures var after := t.(products := t.products - {id});
      && Consistent(after)
      && FindOne(after, id).Failure?
      && FindAll(after, categoryId, take, skip).total + (if id in Matching(t, categoryId) then 1 else 0)
           == FindAll(t, categoryId, take, skip).total
  {
    var after := t.(products := t.products - {id});
    assert Consistent(after) by {
      forall cid | cid in after.contents ensures after.contents[cid].productId in after.products {
        assert after.contents[cid].productId != id by {
          assert cid !in RowsNaming(t.contents, id);
        }
      }
    }
    assert FindOne(after, id).Failure? by {
      assert id !in after.products;
    }
    MatchingWithout(t, id, categoryId);
  }

  /** Without product `id`, a listing matches the same products less that one. */
  lemma MatchingWithout(t: Tables, id: int, categoryId: Option<int>)
    ensures var before, remaining := Matching(t, categoryId), Matching(t.(products := t.products - {id}), categoryId);
      remaining == before - {id} && |remaining| + (if id in before then 1 else 0) == |before|
  {
    var before, remaining := Matching(t, categoryId), Matching(t.(products := t.products - {id}), categoryId);
    assert remaining == before - {id};
    if id in before {
      assert before == remaining + {id};
    }
  }
}
