/**
 * CategoriesService: creating, reading (optionally with the category's
 * products), renaming and removing product categories.
 */
module Categories {
  import opened Wrappers
  import opened Entities
  import opened Store
  import Products

  /** A category and, when they were asked for, its products by id. */
  datatype CategoryView = CategoryView(category: Category, products: Option<map<int, Product>>)

  const CATEGORY_NOT_FOUND := "La categoría no existe"

  /** The products of category `id`, by id. */
  function ProductsOf(t: Tables, id: int): (m: map<int, Product>)
    ensures forall pid :: pid in m <==> pid in t.products && t.products[pid].categoryId == id
    ensures forall pid :: pid in m ==> m[pid] == t.products[pid]
  {
    map pid | pid in t.products && t.products[pid].categoryId == id :: t.products[pid]
  }

  /** Stores a category under the given name, which the request must carry and not leave empty. */
  method Create(db: Database, name: string) returns (r: Category)
    requires Consistent(db.tables)
    requires name != ""
    modifies db
    ensures Consistent(db.tables)
    ensures r == Category(old(db.tables).nextCategoryId, name)
    ensures r.id !in old(db.tables).categories
    ensures db.tables == old(db.tables).(categories := old(db.tables).categories[r.id := r], nextCategoryId := r.id + 1)
  {
    var t := db.tables;
    var id := t.nextCategoryId;
    r := Category(id, name);
    db.tables := t.(categories := t.categories[id := r], nextCategoryId := id + 1);
  }

  /** Reads a category; its products come with it only when the flag is exactly the text "true". */
  function FindOne(t: Tables, id: int, products: Option<string>): (r: Result<CategoryView, HttpError>)
    ensures r.Success? <==> id in t.categories
    ensures r.Failure? ==> r.error == NotFoundText(CATEGORY_NOT_FOUND)
    ensures r.Success? ==> r.value.category == t.categories[id]
    ensures r.Success? ==> (r.value.products.Some? <==> products == Some("true"))
    ensures r.Success? && r.value.products.Some? ==> r.value.products.value == ProductsOf(t, id)
  {
    if id !in t.categories then Failure(NotFoundText(CATEGORY_NOT_FOUND))
    else if products == Some("true") then Success(CategoryView(t.categories[id], Some(ProductsOf(t, id))))
    else Success(CategoryView(t.categories[id], None))
  }

  /** What a rename answers: the category's id, and the name the request carried, if any. */
  datatype RenamedCategory = RenamedCategory(id: int, name: Option<string>)

  /**
   * Renames a category; nothing else about it changes. The update request
   * may leave the name out (`None`), which it may not leave empty: the
   * category is then saved with an undefined name, which the save skips, so
   * the row stays as it was and the answer carries no name.
   */
  method Update(db: Database, id: int, name: Option<string>) returns (r: Result<RenamedCategory, HttpError>)
    requires Consistent(db.tables)
    requires name.Some? ==> name.value != ""
    modifies db
    ensures Consistent(db.tables)
    ensures id !in old(db.tables).categories ==>
      r == Failure(NotFoundText(CATEGORY_NOT_FOUND)) && db.tables == old(db.tables)
    ensures id in old(db.tables).categories ==> r == Success(RenamedCategory(id, name))
    ensures id in old(db.tables).categories && name.None? ==> db.tables == old(db.tables)
    ensures id in old(db.tables).categories && name.Some? ==>
      db.tables == old(db.tables).(categories := old(db.tables).categories[id := Category(id, name.value)])
  {
    var found := FindOne(db.tables, id, None);
    if found.Failure? {
      return Failure(found.error);
    }
    if name.Some? {
      var category := found.value.category.(name := name.value);
      db.tables := db.tables.(categories := db.tables.categories[id := category]);
    }
    r := Success(RenamedCategory(id, name));
  }

  /**
   * Deletes a category and answers with it. Its products are not loaded, so
   * nothing cascades to them: while any product names the category, the
   * database refuses the delete on the foreign key and the error reaches the
   * caller unhandled.
   */
  method Remove(db: Database, id: int) returns (r: Result<Category, HttpError>)
    requires Consistent(db.tables)
    modifies db
    ensures Consistent(db.tables)
    ensures id !in old(db.tables).categories ==>
      r == Failure(NotFoundText(CATEGORY_NOT_FOUND)) && db.tables == old(db.tables)
    ensures id in old(db.tables).categories && ProductsOf(old(db.tables), id) != map[] ==>
      r == Failure(InternalServerError) && db.tables == old(db.tables)
    ensures id in old(db.tables).categories && ProductsOf(old(db.tables), id) == map[] ==>
      && r == Success(old(db.tables).categories[id])
      && db.tables == old(db.tables).(categories := old(db.tables).categories - {id})
  {
    var found := FindOne(db.tables, id, None);
    if found.Failure? {
      return Failure(found.error);
    }
    if ProductsOf(db.tables, id) != map[] {
      return Failure(InternalServerError);
    }
    db.tables := db.tables.(categories := db.tables.categories - {id});
    r := Success(found.value.category);
  }

  /**
   * The products a category read with its products shows are exactly the
   * products the listing filtered by that category counts.
   */
  lemma CategoryProductsAreListed(t: Tables, id: int)
    requires Consistent(t) && id in t.categories && id != 0
    ensures var r := FindOne(t, id, Some("true"));
      r.Success? && r.value.products.Some? && r.value.products.value.Keys == Products.Matching(t, Some(id))
      && Products.FindAll(t, Some(id), 0, 0).total == |r.value.products.value.Keys|
  {
  }

  /** A category just created reads back with its name and no products. */
  lemma CreatedCategoryFound(t: Tables, name: string)
    requires Consistent(t)
    ensures var id := t.nextCategoryId;
      var after := t.(categories := t.categories[id := Category(id, name)], nextCategoryId := id + 1);
      FindOne(after, id, Some("true")) == Success(CategoryView(Category(id, name), Some(map[])))
  {
    var id := t.nextCategoryId;
    var after := t.(categories := t.categories[id := Category(id, name)], nextCategoryId := id + 1);
    assert ProductsOf(after, id) == map[] by {
      forall pid | pid in after.products ensures after.products[pid].categoryId != id {
        assert after.products[pid].categoryId in t.categories;
      }
    }
  }

  /** After a removal that succeeds, the category is not found and no product names it. */
  lemma RemovedCategoryGone(t: Tables, id: int, flag: Option<string>)
    requires Consistent(t) && id in t.categories && ProductsOf(t, id) == map[]
    ensures var after := t.(categories := t.categories - {id});
      Consistent(after) && FindOne(after, id, flag).Failure?
  {
    var after := t.(categories := t.categories - {id});
    forall pid | pid in after.products ensures after.products[pid].categoryId in after.categories {
      assert pid !in ProductsOf(t, id);
    }
  }
}
