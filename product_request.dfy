/** CreateProductDto: the body of a product creation request and its validation rules. */
module ProductRequests {
  import opened Wrappers
  import opened Entities
  import opened Validation

  datatype CreateProductDto = CreateProductDto(
    name: string,
    image: string,
    price: real,
    inventory: int,
    categoryId: int)

  predicate ValidProductName(v: Value) { IsString(v) && IsNotEmpty(v) }

  /** The image only has to be present; any JSON value passes. */
  predicate ValidImage(v: Value) { IsNotEmpty(v) }

  /** A present number with at most two decimals. */
  predicate ValidPrice(v: Value) { IsNumber(v, Some(2)) && IsNotEmpty(v) }

  /** A present number without decimals; negative stock is not refused. */
  predicate ValidInventory(v: Value) { IsNumber(v, Some(0)) && IsNotEmpty(v) }

  predicate ValidCategoryId(v: Value) { IsInt(v) && IsNotEmpty(v) }

  /** All broken rules of the body, field by field. The image's message repeats the name's. */
  function ProductErrors(body: Value): (r: seq<string>)
    ensures r == [] <==>
      && ValidProductName(Property(body, "name"))
      && ValidImage(Property(body, "image"))
      && ValidPrice(Property(body, "price"))
      && ValidInventory(Property(body, "inventory"))
      && ValidCategoryId(Property(body, "categoryId"))
  {
    var name, image, price := Property(body, "name"), Property(body, "image"), Property(body, "price");
    var inventory, categoryId := Property(body, "inventory"), Property(body, "categoryId");
    Rule(IsString(name), "El nombre del producto debe ser una cadena de texto")
    + Rule(IsNotEmpty(name), "El nombre del producto es requerido")
    + Rule(IsNotEmpty(image), "El nombre del producto es requerido")
    + Rule(IsNumber(price, Some(2)), "El precio del producto debe ser un número")
    + Rule(IsNotEmpty(price), "El precio del producto es requerido")
    + Rule(IsNumber(inventory, Some(0)), "La cantidad disponible en inventario debe ser un número")
    + Rule(IsNotEmpty(inventory), "La cantidad disponible en inventario es requerida")
    + Rule(IsInt(categoryId), "La categoría del producto debe ser un número entero")
    + Rule(IsNotEmpty(categoryId), "La categoría del producto es requerida")
  }

  /**
   * The validation pipe on a product body. No transform is declared. An image
   * that is present but not a string is handed on as is; `imageText` stands
   * for the text the database driver stores for it.
   */
  function ValidateCreateProduct(body: Value, imageText: Value -> string): (r: Result<CreateProductDto, HttpError>)
    ensures r.Failure? ==> r.error.BadRequest? && r.error.messages != []
    ensures r.Success? <==> ProductErrors(body) == []
    ensures r.Success? ==>
      && r.value.name == Property(body, "name").s != ""
      && (Property(body, "image").Str? ==> r.value.image == Property(body, "image").s)
      && r.value.price == Property(body, "price").n
      && HasAtMostDecimals(r.value.price, 2)
      && r.value.inventory as real == Property(body, "inventory").n
      && r.value.categoryId as real == Property(body, "categoryId").n
  {
    var errors := ProductErrors(body);
    if errors != [] then Failure(BadRequest(errors))
    else
      var image := Property(body, "image");
      WholeIsZeroDecimals(Property(body, "inventory").n);
      Success(CreateProductDto(
        Property(body, "name").s,
        if image.Str? then image.s else imageText(image),
        Property(body, "price").n,
        Property(body, "inventory").n.Floor,
        Property(body, "categoryId").n.Floor))
  }

  /** Nothing keeps a negative stock out: any negative whole inventory is accepted as it is. */
  lemma NegativeInventoryAccepted(n: int, imageText: Value -> string)
    requires n < 0
    ensures var body := Obj(map[
        "name" := Str("Cafe"), "image" := Str("cafe.jpg"), "price" := Num(2.5),
        "inventory" := Num(n as real), "categoryId" := Num(1.0)]);
      && ValidateCreateProduct(body, imageText).Success?
      && ValidateCreateProduct(body, imageText).value.inventory == n
  {
    var body := Obj(map[
        "name" := Str("Cafe"), "image" := Str("cafe.jpg"), "price" := Num(2.5),
        "inventory" := Num(n as real), "categoryId" := Num(1.0)]);
    assert ValidProductName(Property(body, "name")) && ValidImage(Property(body, "image")) by {
      assert Property(body, "name") == Str("Cafe") && Property(body, "image") == Str("cafe.jpg");
    }
    assert ValidPrice(Property(body, "price")) by {
      assert Property(body, "price") == Num(2.5) && Pow10(2) == 100;
    }
    assert ValidInventory(Property(body, "inventory")) by {
      assert Property(body, "inventory") == Num(n as real) && Pow10(0) == 1;
    }
    assert ValidCategoryId(Property(body, "categoryId")) by {
      assert Property(body, "categoryId") == Num(1.0);
    }
    assert Property(body, "inventory").n == n as real;
  }

  /** A body whose only fault is a price with too many decimals gets exactly the price message. */
  lemma OnlyPriceDecimalsReported(body: Value)
    requires ValidProductName(Property(body, "name")) && ValidImage(Property(body, "image"))
    requires Property(body, "price").Num? && !HasAtMostDecimals(Property(body, "price").n, 2)
    requires ValidInventory(Property(body, "inventory")) && ValidCategoryId(Property(body, "categoryId"))
    ensures ProductErrors(body) == ["El precio del producto debe ser un número"]
  {
  }

  /** A price with three decimals is refused with the price message. */
  lemma ThreeDecimalPriceRefused(imageText: Value -> string)
    ensures var body := Obj(map[
        "name" := Str("Cafe"), "image" := Str("cafe.jpg"), "price" := Num(0.125),
        "inventory" := Num(3.0), "categoryId" := Num(1.0)]);
      ValidateCreateProduct(body, imageText) == Failure(BadRequest(["El precio del producto debe ser un número"]))
  {
    var body := Obj(map[
        "name" := Str("Cafe"), "image" := Str("cafe.jpg"), "price" := Num(0.125),
        "inventory" := Num(3.0), "categoryId" := Num(1.0)]);
    assert Pow10(2) == 100 && Pow10(0) == 1;
    assert !HasAtMostDecimals(0.125, 2);
    assert Property(body, "price") == Num(0.125);
    assert Property(body, "inventory") == Num(3.0) && IsWhole(3.0);
    assert Property(body, "categoryId") == Num(1.0) && IsWhole(1.0);
    OnlyPriceDecimalsReported(body);
  }
}
